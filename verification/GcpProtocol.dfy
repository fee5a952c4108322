/** Assign and Unassign of internal/address/gcp.go as functions of a script: before each API call the
    script lets everybody else make any calls of their own, and it decides whether the call fails and what
    becomes of the operation it returns. A statement over all scripts is a statement over all faults and
    all interference. */
module GcpProtocol {
  import opened Wrappers
  import opened Lists
  import opened GcpLists
  import Runs

  /** The access config of the first network interface. */
  datatype Access = Bare | Ephemeral | Static(id: nat)

  /** Every change of the interface gives it a new fingerprint. */
  datatype Instance = Instance(hasNic: bool, access: Access, fingerprint: nat)

  /** Reserved addresses, identified by index, with their users; and instances by self link. */
  datatype Cloud = Cloud(addresses: seq<Item>, instances: map<string, Instance>, ipv6: bool)

  predicate Free(c: Cloud, id: nat) {
    id < |c.addresses| && |c.addresses[id].users| == 0
  }

  /** An instance with a static address is its only user, and users that are instances hold it. */
  predicate WellFormed(c: Cloud) {
    forall b :: b in c.instances ==>
      && (c.instances[b].access.Static? ==>
            c.instances[b].access.id < |c.addresses| && c.addresses[c.instances[b].access.id].users == [b])
      && (forall id :: 0 <= id < |c.addresses| && b in c.addresses[id].users ==> c.instances[b].access == Static(id))
  }

  predicate SamePool(c: Cloud, d: Cloud) {
    && |c.addresses| == |d.addresses|
    && forall id :: 0 <= id < |c.addresses| ==> c.addresses[id].address == d.addresses[id].address
  }

  // ----- The two changing calls; a refused one has no effect -----

  predicate CanDelete(c: Cloud, me: string, snapshot: Instance) {
    && me in c.instances && !c.instances[me].access.Bare?
    && (c.ipv6 ==> snapshot.fingerprint == c.instances[me].fingerprint)
  }

  function Deleted(c: Cloud, me: string): Cloud
    requires me in c.instances
  {
    var i := c.instances[me];
    c.(instances := c.instances[me := i.(access := Bare, fingerprint := i.fingerprint + 1)],
       addresses := if i.access.Static? && i.access.id < |c.addresses|
                    then c.addresses[i.access.id := c.addresses[i.access.id].(users := [])]
                    else c.addresses)
  }

  predicate CanAdd(c: Cloud, me: string, snapshot: Instance, address: Option<nat>) {
    && me in c.instances && c.instances[me].access.Bare?
    && (c.ipv6 ==> snapshot.fingerprint == c.instances[me].fingerprint)
    && (address.Some? ==> Free(c, address.value))
  }

  function Added(c: Cloud, me: string, address: Option<nat>): Cloud
    requires me in c.instances && (address.Some? ==> address.value < |c.addresses|)
  {
    var i := c.instances[me];
    var access := if address.Some? then Static(address.value) else Ephemeral;
    c.(instances := c.instances[me := i.(access := access, fingerprint := i.fingerprint + 1)],
       addresses := if address.Some? then c.addresses[address.value := c.addresses[address.value].(users := [me])]
           else c.addresses)
  }

  /** One accepted or refused call that changes an instance, of whichever instance. */
  datatype Move =
    | Deletes(a: string, snapshot: Instance)
    | Adds(a: string, snapshot: Instance, address: Option<nat>)

  function Make(c: Cloud, m: Move): Cloud {
    match m
    case Deletes(a, snapshot) => if CanDelete(c, a, snapshot) then Deleted(c, a) else c
    case Adds(a, snapshot, address) => if CanAdd(c, a, snapshot, address) then Added(c, a, address) else c
  }

  function NotBy(me: string): Move -> bool {
    (m: Move) => m.a != me
  }

  /** One API call's circumstances: the calls others made since the previous one, whether the call fails,
      whether the context has been cancelled, which addresses a listing of reserved ones selects, in order,
      and the operation a changing call returns, with the answers to the polls for it. `applied` is whether
      the operation takes effect when the polls do not tell. */
  datatype Turn = Turn(others: seq<Move>, fault: bool, cancelled: bool, selected: seq<nat>,
                       op: Operation, polls: seq<Poll>, applied: bool)

  /** waitForOperation does not find the operation failed; every other error is logged and ignored. */
  predicate Reports(t: Turn) {
    !Waited(t.op.done, t.polls).OperationError?
  }

  /** The operation takes effect. */
  predicate Takes(t: Turn) {
    Reports(t) && if Truthful(t.op, t.polls) then Succeeds(t.op, t.polls) else t.applied
  }

  /** The caller believes in an effect that there is not. */
  predicate Misled(t: Turn) {
    Reports(t) && !Takes(t)
  }

  type Script = nat -> Turn

  /** The project, and how many API calls have been made. */
  datatype St = St(c: Cloud, n: nat)

  function Before(s: St, me: string, sc: Script): Cloud {
    Runs.Exec(Make, s.c, Filtered(NotBy(me), sc(s.n).others))
  }

  function GetInstance(s: St, me: string, sc: Script): (St, Option<Instance>) {
    var c := Before(s, me, sc);
    (St(c, s.n + 1), if sc(s.n).fault || me !in c.instances then None else Some(c.instances[me]))
  }

  function IsUsed(): Item -> bool {
    (item: Item) => |item.users| > 0
  }

  /** listAddresses with status IN_USE. */
  function ListInUse(s: St, me: string, sc: Script): (St, Option<seq<Item>>) {
    var c := Before(s, me, sc);
    (St(c, s.n + 1), if sc(s.n).fault then None else Some(Filtered(IsUsed(), c.addresses)))
  }

  function IsFree(c: Cloud): nat -> bool {
    (id: nat) => Free(c, id)
  }

  /** listAddresses with status RESERVED, the given filter and order. */
  function ListReserved(s: St, me: string, sc: Script): (St, Option<seq<nat>>) {
    var c := Before(s, me, sc);
    (St(c, s.n + 1), if sc(s.n).fault then None else Some(Filtered(IsFree(c), sc(s.n).selected)))
  }

  function GetAddress(s: St, me: string, sc: Script, id: nat): (St, Option<bool>) {
    var c := Before(s, me, sc);
    (St(c, s.n + 1), if sc(s.n).fault || id >= |c.addresses| then None else Some(|c.addresses[id].users| > 0))
  }

  datatype Outcome = Ok | NoPublicIP | Err

  /** DeleteInstanceAddress */
  function Delete(s: St, me: string, sc: Script, snapshot: Instance): (St, Outcome) {
    if !snapshot.hasNic then (s, Err)
    else if snapshot.access.Bare? then (s, NoPublicIP)
    else
      var c := Before(s, me, sc);
      if sc(s.n).fault || !CanDelete(c, me, snapshot) then (St(c, s.n + 1), Err)
      else (St(if Takes(sc(s.n)) then Deleted(c, me) else c, s.n + 1), if Reports(sc(s.n)) then Ok else Err)
  }

  /** AddInstanceAddress */
  function Add(s: St, me: string, sc: Script, snapshot: Instance, address: Option<nat>): (St, bool) {
    if !snapshot.hasNic then (s, false)
    else
      var c := Before(s, me, sc);
      if sc(s.n).fault || !CanAdd(c, me, snapshot, address) then (St(c, s.n + 1), false)
      else (St(if Takes(sc(s.n)) then Added(c, me, address) else c, s.n + 1), Reports(sc(s.n)))
  }

  /** tryAssignAddress */
  function Try(s: St, me: string, sc: Script, snapshot: Instance, id: nat): (St, bool) {
    var (s1, used) := GetAddress(s, me, sc, id);
    if used.None? || used.value then (s1, false) else Add(s1, me, sc, snapshot, Some(id))
  }

  datatype LoopResult = BoundAt(k: nat) | Exhausted | LoopCancelled

  /** The fallback loop of Assign from candidate `k` on. */
  function TryAll(s: St, me: string, sc: Script, snapshot: Instance, ids: seq<nat>, k: nat): (St, LoopResult)
    requires k <= |ids|
    decreases |ids| - k
  {
    if k == |ids| then (s, Exhausted)
    else if sc(s.n).cancelled then (s, LoopCancelled)
    else
      var (s1, ok) := Try(s, me, sc, snapshot, ids[k]);
      if ok then (s1, BoundAt(k)) else TryAll(s1, me, sc, snapshot, ids, k + 1)
  }

  datatype AssignError = CheckFailed | ListFailed | NoneAvailable | DeleteFailed | RefreshFailed | NotAssigned

  datatype Check = AlreadyHas(address: string) | Proceed(instance: Instance) | CheckError

  /** checkStaticIPAssigned */
  function CheckStatic(s: St, me: string, sc: Script): (St, Check) {
    var (s1, instance) := GetInstance(s, me, sc);
    if instance.None? then (s1, CheckError) else
    var (s2, items) := ListInUse(s1, me, sc);
    if items.None? then (s2, CheckError) else
    var already := LastNaming(items.value, me);
    if already.Some? then (s2, AlreadyHas(already.value)) else (s2, Proceed(instance.value))
  }

  /** Assign once there are candidates: the current address is given up, then they are tried. */
  function Rebind(s: St, me: string, sc: Script, instance: Instance, ids: seq<nat>): (St, Result<string, AssignError>) {
    var (s1, deleted) := Delete(s, me, sc, instance);
    if deleted.Err? then (s1, Failure(DeleteFailed)) else
    var (s2, refreshed) := GetInstance(s1, me, sc);
    if refreshed.None? then (s2, Failure(RefreshFailed)) else
    var (s3, r) := TryAll(s2, me, sc, refreshed.value, ids, 0);
    if r.BoundAt? && r.k < |ids| && ids[r.k] < |s3.c.addresses|
    then (s3, Success(s3.c.addresses[ids[r.k]].address))
    else (s3, Failure(NotAssigned))
  }

  function Assign(s: St, me: string, sc: Script): (St, Result<string, AssignError>) {
    var (s1, check) := CheckStatic(s, me, sc);
    match check
    case CheckError => (s1, Failure(CheckFailed))
    case AlreadyHas(address) => (s1, Success(address))
    case Proceed(instance) =>
      var (s2, ids) := ListReserved(s1, me, sc);
      if ids.None? then (s2, Failure(ListFailed)) else
      if |ids.value| == 0 then (s2, Failure(NoneAvailable)) else
      Rebind(s2, me, sc, instance, ids.value)
  }

  const MAX_RETRIES := 10

  /** retryAddEphemeralAddress with `left` attempts left. */
  function AddEphemeral(s: St, me: string, sc: Script, snapshot: Instance, left: nat): (St, bool)
    decreases left
  {
    if left == 0 || sc(s.n).cancelled then (s, false)
    else
      var (s1, ok) := Add(s, me, sc, snapshot, None);
      if ok then (s1, true) else AddEphemeral(s1, me, sc, snapshot, left - 1)
  }

  function Unassign(s: St, me: string, sc: Script): (St, bool) {
    var (s1, instance) := GetInstance(s, me, sc);
    if instance.None? then (s1, false) else
    var (s2, items) := ListInUse(s1, me, sc);
    if items.None? || |items.value| == 0 then (s2, false) else
    if LastNaming(items.value, me).None? then (s2, true) else
    var (s3, deleted) := Delete(s2, me, sc, instance.value);
    if !deleted.Ok? then (s3, false) else
    var (s4, refreshed) := GetInstance(s3, me, sc);
    if refreshed.None? then (s4, false) else
    AddEphemeral(s4, me, sc, refreshed.value, MAX_RETRIES)
  }
}
