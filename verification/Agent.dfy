/** The agent's life, cmd/main.go: bounded retry of Assign under the lock, waiting for the node to report
    the address, removal of the taint, shutdown and release. The environment decides every answer; the
    agent keeps a log of the calls it makes. */
module Agent {
  import opened Wrappers

  // ----- What the environment answers -----

  datatype Assignment = Assigned(address: string) | AlreadyAssigned | Refused

  /** One attempt: whether Lock succeeds, what Assign would answer, and whether the context is done
      when the agent waits for the next attempt. */
  datatype Attempt = Attempt(locked: bool, assignment: Assignment, done: bool)

  /** One look at the node: its external addresses, or an error. */
  datatype Look = Look(ips: Option<seq<string>>, done: bool)

  /** `untaint`: whether a taint was removed, or an error. `setup`: configuration, node and assigner. */
  datatype World = World(setup: bool, attempts: nat -> Attempt, looks: nat -> Look, untaint: Option<bool>,
      unassign: bool)

  datatype Config = Config(retryAttempts: int, taintKey: string, releaseOnExit: bool)

  datatype Event =
    | LockCall(ok: bool)
    | AssignCall(assignment: Assignment)
    | UnlockCall
    | GetNode(ips: Option<seq<string>>)
    | RemoveTaint(removed: Option<bool>)
    | Shutdown
    | Unassign(ok: bool)

  datatype Error = NoSetup | AssignCancelled | AssignExhausted | ReportCancelled | ReportExhausted | TaintNotRemoved
      | NotReleased

  // ----- The calls made, as functions of the answers -----

  /** The attempt ends the loop without an error. */
  predicate Holds(a: Attempt) {
    a.locked && !a.assignment.Refused?
  }

  /** The address that is lost when the instance already had one. */
  function AddressOf(a: Assignment): string {
    if a.Assigned? then a.address else ""
  }

  function AttemptEvents(a: Attempt): seq<Event> {
    if a.locked then [LockCall(true), AssignCall(a.assignment), UnlockCall] else [LockCall(false)]
  }

  /** assignAddress from attempt `k` on; `last` is RetryAttempts, which may be negative. */
  function Assigning(attempts: nat -> Attempt, last: int, k: nat): (Result<string, Error>, seq<Event>)
    decreases last + 1 - k
  {
    if k > last then (Failure(AssignExhausted), [])
    else if Holds(attempts(k)) then (Success(AddressOf(attempts(k).assignment)), AttemptEvents(attempts(k)))
    else if attempts(k).done then (Failure(AssignCancelled), AttemptEvents(attempts(k)))
    else
      var (r, log) := Assigning(attempts, last, k + 1);
      (r, AttemptEvents(attempts(k)) + log)
  }

  predicate Reports(ips: Option<seq<string>>, address: string) {
    ips.Some? && address in ips.value
  }

  /** waitForAddressToBeReported from look `k` on. */
  function Reporting(looks: nat -> Look, address: string, last: int, k: nat): (Result<(), Error>, seq<Event>)
    decreases last + 1 - k
  {
    if k > last then (Failure(ReportExhausted), [])
    else if Reports(looks(k).ips, address) then (Success(()), [GetNode(looks(k).ips)])
    else if looks(k).done then (Failure(ReportCancelled), [GetNode(looks(k).ips)])
    else
      var (r, log) := Reporting(looks, address, last, k + 1);
      (r, [GetNode(looks(k).ips)] + log)
  }

  /** Waiting and untainting, which happen only if a taint key is configured. */
  function Untainting(w: World, cfg: Config, address: string): (Result<(), Error>, seq<Event>) {
    if cfg.taintKey == "" then (Success(()), [])
    else
      var (r, log) := Reporting(w.looks, address, cfg.retryAttempts, 0);
      if r.Failure? then (r, log)
      else if w.untaint.None? then (Failure(TaintNotRemoved), log + [RemoveTaint(None), Unassign(w.unassign)])
      else (Success(()), log + [RemoveTaint(w.untaint)])
  }

  function Stopping(w: World, cfg: Config): (Result<(), Error>, seq<Event>) {
    if !cfg.releaseOnExit then (Success(()), [Shutdown])
    else (if w.unassign then Success(()) else Failure(NotReleased), [Shutdown, Unassign(w.unassign)])
  }

  function Life(w: World, cfg: Config): (Result<(), Error>, seq<Event>) {
    if !w.setup then (Failure(NoSetup), [])
    else
      var (r, log) := Assigning(w.attempts, cfg.retryAttempts, 0);
      if r.Failure? then (Failure(r.error), log)
      else
        var (ready, log1) := Untainting(w, cfg, r.value);
        if ready.Failure? then (ready, log + log1)
        else
          var (end, log2) := Stopping(w, cfg);
          (end, log + log1 + log2)
  }

  // ----- The agent -----

  class KubeIp {
    const w: World
    const cfg: Config
    var log: seq<Event>

    constructor (w: World, cfg: Config)
      ensures this.w == w && this.cfg == cfg && log == []
    {
      this.w, this.cfg, this.log := w, cfg, [];
    }

    /** The locked closure; Unlock is deferred, so it runs whatever Assign answers. */
    method AttemptOnce(k: nat) returns (r: Result<string, Assignment>)
      modifies this
      ensures log == old(log) + AttemptEvents(w.attempts(k))
      ensures r == if w.attempts(k).locked && w.attempts(k).assignment.Assigned?
                   then Success(w.attempts(k).assignment.address)
                   else Failure(if w.attempts(k).locked then w.attempts(k).assignment else Refused)
    {
      var a := w.attempts(k);
      log := log + [LockCall(a.locked)];
      if !a.locked {
        return Failure(Refused);
      }
      log := log + [AssignCall(a.assignment)];
      r := if a.assignment.Assigned? then Success(a.assignment.address) else Failure(a.assignment);
      log := log + [UnlockCall];
    }

    method AssignAddress() returns (r: Result<string, Error>)
      modifies this
      ensures (r, log) == (Assigning(w.attempts, cfg.retryAttempts, 0).0,
                           old(log) + Assigning(w.attempts, cfg.retryAttempts, 0).1)
    {
      var retryCounter := 0;
      while retryCounter <= cfg.retryAttempts
        invariant 0 <= retryCounter
        invariant Assigning(w.attempts, cfg.retryAttempts, 0).0 ==
                    Assigning(w.attempts, cfg.retryAttempts, retryCounter).0
        invariant old(log) + Assigning(w.attempts, cfg.retryAttempts, 0).1 ==
                    log + Assigning(w.attempts, cfg.retryAttempts, retryCounter).1
      {
        var attempt := AttemptOnce(retryCounter);
        if attempt.Success? {
          return Success(attempt.value);
        }
        if attempt.error.AlreadyAssigned? {
          return Success("");
        }
        if w.attempts(retryCounter).done {
          return Failure(AssignCancelled);
        }
        retryCounter := retryCounter + 1;
      }
      assert log + [] == log;
      return Failure(AssignExhausted);
    }

    method WaitForAddressToBeReported(address: string) returns (r: Result<(), Error>)
      modifies this
      ensures (r, log) == (Reporting(w.looks, address, cfg.retryAttempts, 0).0,
                           old(log) + Reporting(w.looks, address, cfg.retryAttempts, 0).1)
    {
      var retryCounter := 0;
      while retryCounter <= cfg.retryAttempts
        invariant 0 <= retryCounter
        invariant Reporting(w.looks, address, cfg.retryAttempts, 0).0 ==
                    Reporting(w.looks, address, cfg.retryAttempts, retryCounter).0
        invariant old(log) + Reporting(w.looks, address, cfg.retryAttempts, 0).1 ==
                    log + Reporting(w.looks, address, cfg.retryAttempts, retryCounter).1
      {
        var look := w.looks(retryCounter);
        log := log + [GetNode(look.ips)];
        if look.ips.Some? {
          for i := 0 to |look.ips.value|
            invariant address !in look.ips.value[..i]
          {
            if look.ips.value[i] == address {
              return Success(());
            }
          }
        }
        if look.done {
          return Failure(ReportCancelled);
        }
        retryCounter := retryCounter + 1;
      }
      assert log + [] == log;
      return Failure(ReportExhausted);
    }

    method ReleaseIP() returns (ok: bool)
      modifies this
      ensures log == old(log) + [Unassign(w.unassign)] && ok == w.unassign
    {
      log := log + [Unassign(w.unassign)];
      return w.unassign;
    }

    method Run() returns (r: Result<(), Error>)
      modifies this
      ensures (r, log) == (Life(w, cfg).0, old(log) + Life(w, cfg).1)
    {
      hide Assigning, Reporting;
      if !w.setup {
        assert log + [] == log;
        return Failure(NoSetup);
      }
      ghost var log0 := Assigning(w.attempts, cfg.retryAttempts, 0).1;
      var address := AssignAddress();
      assert log == old(log) + log0;
      if address.Failure? {
        return Failure(address.error);
      }
      if cfg.taintKey != "" {
        var reported := WaitForAddressToBeReported(address.value);
        ghost var log1 := Reporting(w.looks, address.value, cfg.retryAttempts, 0).1;
        assert log == old(log) + (log0 + log1);
        if reported.Failure? {
          return reported;
        }
        log := log + [RemoveTaint(w.untaint)];
        if w.untaint.None? {
          var released := ReleaseIP();
          assert log == old(log) + (log0 + (log1 + [RemoveTaint(None), Unassign(w.unassign)]));
          return Failure(TaintNotRemoved);
        }
      }
      ghost var log2 := log0 + Untainting(w, cfg, address.value).1;
      assert log == old(log) + log2;
      log := log + [Shutdown];
      if cfg.releaseOnExit {
        var released := ReleaseIP();
        assert log == old(log) + (log2 + [Shutdown, Unassign(w.unassign)]);
        if !released {
          return Failure(NotReleased);
        }
        return Success(());
      }
      assert log == old(log) + (log2 + [Shutdown]);
      return Success(());
    }
  }
}
