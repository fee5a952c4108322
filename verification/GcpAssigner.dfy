/** The assigner of internal/address/gcp.go against the project it changes. Each method refines the
    function of the same purpose in GcpProtocol, for every script. */
module GcpAssigner {
  import opened Wrappers
  import opened GcpLists
  import opened GcpProtocol
  import Lists
  import Runs

  /** The Compute API as one agent sees it: before each call others may have changed the project. */
  class Project {
    var c: Cloud
    var n: nat
    const script: Script

    ghost function State(): St
      reads this
    {
      St(c, n)
    }

    constructor (c: Cloud, script: Script)
      ensures this.c == c && this.n == 0 && this.script == script
    {
      this.c, this.n, this.script := c, 0, script;
    }

    /** Lets the others act, and tells whether the call about to be made fails. */
    method Begin(me: string) returns (fault: bool)
      modifies this
      ensures c == Before(old(State()), me, script) && n == old(n) + 1 && fault == script(old(n)).fault
    {
      var turn := script(n);
      c := Runs.Exec(Make, c, Lists.Filtered(NotBy(me), turn.others));
      n := n + 1;
      return turn.fault;
    }

    method Get(me: string) returns (r: Option<Instance>)
      modifies this
      ensures (State(), r) == GetInstance(old(State()), me, script)
    {
      var fault := Begin(me);
      return if fault || me !in c.instances then None else Some(c.instances[me]);
    }

    method InUse(me: string) returns (r: Option<seq<Item>>)
      modifies this
      ensures (State(), r) == ListInUse(old(State()), me, script)
    {
      var fault := Begin(me);
      return if fault then None else Some(Lists.Filtered(IsUsed(), c.addresses));
    }

    method Reserved(me: string) returns (r: Option<seq<nat>>)
      modifies this
      ensures (State(), r) == ListReserved(old(State()), me, script)
    {
      var selected := script(n).selected;
      var fault := Begin(me);
      return if fault then None else Some(Lists.Filtered(IsFree(c), selected));
    }

    method Status(me: string, id: nat) returns (used: Option<bool>)
      modifies this
      ensures (State(), used) == GetAddress(old(State()), me, script, id)
    {
      var fault := Begin(me);
      return if fault || id >= |c.addresses| then None else Some(|c.addresses[id].users| > 0);
    }

    /** The call is refused, or returns an operation and what the polls for it will answer. */
    method DeleteAccessConfig(me: string, snapshot: Instance) returns (r: Option<(Operation, seq<Poll>)>)
      modifies this
      ensures var b, turn := Before(old(State()), me, script), script(old(n));
        if turn.fault || !CanDelete(b, me, snapshot) then r.None? && State() == St(b, old(n) + 1)
        else r == Some((turn.op, turn.polls)) && State() == St(if Takes(turn) then Deleted(b, me) else b, old(n) + 1)
    {
      var turn := script(n);
      var fault := Begin(me);
      if fault || !CanDelete(c, me, snapshot) {
        return None;
      }
      if Takes(turn) {
        c := Deleted(c, me);
      }
      return Some((turn.op, turn.polls));
    }

    method AddAccessConfig(me: string, snapshot: Instance, address: Option<nat>)
        returns (r: Option<(Operation, seq<Poll>)>)
      modifies this
      ensures var b, turn := Before(old(State()), me, script), script(old(n));
        if turn.fault || !CanAdd(b, me, snapshot, address) then r.None? && State() == St(b, old(n) + 1)
        else
          && r == Some((turn.op, turn.polls))
          && State() == St(if Takes(turn) then Added(b, me, address) else b, old(n) + 1)
    {
      var turn := script(n);
      var fault := Begin(me);
      if fault || !CanAdd(c, me, snapshot, address) {
        return None;
      }
      if Takes(turn) {
        c := Added(c, me, address);
      }
      return Some((turn.op, turn.polls));
    }
  }

  class Assigner {
    const project: Project
    const me: string

    constructor (project: Project, me: string)
      ensures this.project == project && this.me == me
    {
      this.project, this.me := project, me;
    }

    method DeleteInstanceAddress(instance: Instance) returns (r: Outcome)
      modifies project
      ensures (project.State(), r) == GcpProtocol.Delete(old(project.State()), me, project.script, instance)
    {
      hide Before, CanDelete, Deleted, Takes, Waited;
      if !instance.hasNic {
        return Err;
      }
      if instance.access.Bare? {
        return NoPublicIP;
      }
      var op := project.DeleteAccessConfig(me, instance);
      if op.None? {
        return Err;
      }
      var waited := WaitForOperation(Some(op.value.0), op.value.1);
      return if waited.OperationError? then Err else Ok;
    }

    method AddInstanceAddress(instance: Instance, address: Option<nat>) returns (ok: bool)
      modifies project
      ensures (project.State(), ok) == GcpProtocol.Add(old(project.State()), me, project.script, instance, address)
    {
      hide Before, CanAdd, Added, Takes, Waited;
      if !instance.hasNic {
        return false;
      }
      var op := project.AddAccessConfig(me, instance, address);
      if op.None? {
        return false;
      }
      var waited := WaitForOperation(Some(op.value.0), op.value.1);
      return !waited.OperationError?;
    }

    method TryAssignAddress(instance: Instance, id: nat) returns (ok: bool)
      modifies project
      ensures (project.State(), ok) == GcpProtocol.Try(old(project.State()), me, project.script, instance, id)
    {
      hide GetAddress, GcpProtocol.Add;
      var used := project.Status(me, id);
      if used.None? || used.value {
        return false;
      }
      ok := AddInstanceAddress(instance, Some(id));
    }

    method CheckStaticIPAssigned() returns (r: Check)
      modifies project
      ensures (project.State(), r) == CheckStatic(old(project.State()), me, project.script)
    {
      hide GetInstance, ListInUse, LastNaming;
      var instance := project.Get(me);
      if instance.None? {
        return CheckError;
      }
      var used := project.InUse(me);
      if used.None? {
        return CheckError;
      }
      var users := CreateUserMap(used.value);
      assert Lookup(users, me) == LastNaming(used.value, me);
      if me in users {
        return AlreadyHas(users[me]);
      }
      return Proceed(instance.value);
    }

    /** The fallback loop. */
    method TryInOrder(instance: Instance, ids: seq<nat>) returns (r: LoopResult)
      modifies project
      ensures (project.State(), r) == TryAll(old(project.State()), me, project.script, instance, ids, 0)
    {
      hide Try;
      for k := 0 to |ids|
        invariant TryAll(old(project.State()), me, project.script, instance, ids, 0) ==
                    TryAll(project.State(), me, project.script, instance, ids, k)
      {
        if project.script(project.n).cancelled {
          return LoopCancelled;
        }
        var ok := TryAssignAddress(instance, ids[k]);
        if ok {
          return BoundAt(k);
        }
      }
      return Exhausted;
    }

    /** Gives up the current address, refreshes the fingerprint and tries the candidates. */
    method RebindTo(instance: Instance, ids: seq<nat>) returns (r: Result<string, AssignError>)
      modifies project
      ensures (project.State(), r) == Rebind(old(project.State()), me, project.script, instance, ids)
    {
      hide GetInstance, GcpProtocol.Delete, TryAll;
      var deleted := DeleteInstanceAddress(instance);
      if deleted.Err? {
        return Failure(DeleteFailed);
      }
      var refreshed := project.Get(me);
      if refreshed.None? {
        return Failure(RefreshFailed);
      }
      var bound := TryInOrder(refreshed.value, ids);
      if bound.BoundAt? && bound.k < |ids| && ids[bound.k] < |project.c.addresses| {
        return Success(project.c.addresses[ids[bound.k]].address);
      }
      return Failure(NotAssigned);
    }

    method Assign() returns (r: Result<string, AssignError>)
      modifies project
      ensures (project.State(), r) == GcpProtocol.Assign(old(project.State()), me, project.script)
    {
      hide CheckStatic, ListReserved, Rebind;
      var check := CheckStaticIPAssigned();
      match check {
        case CheckError => return Failure(CheckFailed);
        case AlreadyHas(address) => return Success(address);
        case Proceed(instance) =>
          var ids := project.Reserved(me);
          if ids.None? {
            return Failure(ListFailed);
          }
          if |ids.value| == 0 {
            return Failure(NoneAvailable);
          }
          r := RebindTo(instance, ids.value);
      }
    }

    method RetryAddEphemeralAddress(instance: Instance) returns (ok: bool)
      modifies project
      ensures (project.State(), ok) == AddEphemeral(old(project.State()), me, project.script, instance, MAX_RETRIES)
    {
      hide GcpProtocol.Add;
      for i := 0 to MAX_RETRIES
        invariant AddEphemeral(old(project.State()), me, project.script, instance, MAX_RETRIES) ==
                    AddEphemeral(project.State(), me, project.script, instance, MAX_RETRIES - i)
      {
        if project.script(project.n).cancelled {
          return false;
        }
        var added := AddInstanceAddress(instance, None);
        if added {
          return true;
        }
      }
      return false;
    }

    method Unassign() returns (ok: bool)
      modifies project
      ensures (project.State(), ok) == GcpProtocol.Unassign(old(project.State()), me, project.script)
    {
      hide GetInstance, ListInUse, LastNaming, GcpProtocol.Delete, AddEphemeral;
      var instance := project.Get(me);
      if instance.None? {
        return false;
      }
      var used := project.InUse(me);
      if used.None? || |used.value| == 0 {
        return false;
      }
      var users := CreateUserMap(used.value);
      assert Lookup(users, me) == LastNaming(used.value, me);
      if me in users {
        var deleted := DeleteInstanceAddress(instance.value);
        if !deleted.Ok? {
          return false;
        }
        var refreshed := project.Get(me);
        if refreshed.None? {
          return false;
        }
        ok := RetryAddEphemeralAddress(refreshed.value);
        return ok;
      }
      return true;
    }
  }
}
