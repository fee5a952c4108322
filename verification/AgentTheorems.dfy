/** What an agent's calls look like over every life, whatever the environment answers. */
module AgentTheorems {
  import opened Wrappers
  import opened Agent

  // ----- Which attempt, which look -----

  /** The attempt gets an address, or learns that the instance has one. */
  predicate Obtains(a: Attempt) {
    a.locked && (a.assignment.Assigned? || a.assignment.AlreadyAssigned?)
  }

  /** What the agent takes for its address: the one it was given, or the empty text if it had one. */
  predicate Gives(assignment: Assignment, address: string) {
    assignment == Assigned(address) || (assignment == AlreadyAssigned && address == "")
  }

  /** Attempt `i` is the first, from `k` on, that obtains an address, and the loop gets there. */
  ghost predicate FirstHold(attempts: nat -> Attempt, last: int, k: nat, i: nat) {
    k <= i <= last && Obtains(attempts(i)) && forall j: nat :: k <= j < i ==> !Obtains(attempts(j)) && !attempts(j).done
  }

  /** A nil error means the first attempt that succeeded or reported an address already assigned. */
  lemma {:induction false} AssignsExactly(attempts: nat -> Attempt, last: int, k: nat, address: string)
    ensures Assigning(attempts, last, k).0 == Success(address)
       <==> exists i :: FirstHold(attempts, last, k, i) && Gives(attempts(i).assignment, address)
    decreases last + 1 - k
  {
    if k <= last {
      if Holds(attempts(k)) {
        assert FirstHold(attempts, last, k, k);
      } else if !attempts(k).done {
        var next: nat := k + 1;
        AssignsExactly(attempts, last, next, address);
        forall i: nat ensures FirstHold(attempts, last, k, i) <==> FirstHold(attempts, last, next, i) {
        }
      }
    }
  }

  /** Attempt `i` is the last one made: it obtains an address, or is cancelled, or there are no more. */
  ghost predicate LastAttempt(attempts: nat -> Attempt, last: int, k: nat, i: nat) {
    && k <= i <= last && (Obtains(attempts(i)) || attempts(i).done || i == last)
    && forall j: nat :: k <= j < i ==> !Obtains(attempts(j)) && !attempts(j).done
  }

  /** How many of the attempts from `k` to `i` get the lock. */
  ghost function Locked(attempts: nat -> Attempt, k: nat, i: nat): nat
    decreases i - k
  {
    if k > i then 0 else (if attempts(k).locked then 1 else 0) + Locked(attempts, k + 1, i)
  }

  /** The last attempt decides, and every attempt up to it calls Lock once, and Assign if it got the lock. */
  lemma {:induction false} AttemptsExactly(attempts: nat -> Attempt, last: int, k: nat, i: nat)
    requires LastAttempt(attempts, last, k, i)
    ensures var (r, log) := Assigning(attempts, last, k);
      && (if Obtains(attempts(i)) then r.Success? && Gives(attempts(i).assignment, r.value)
          else r == Failure(if attempts(i).done then AssignCancelled else AssignExhausted))
      && Times(log, IsLock()) == i + 1 - k
      && Times(log, IsAssign()) == Times(log, IsLocked()) == Locked(attempts, k, i)
    decreases last + 1 - k
  {
    var a := attempts(k);
    AttemptCalls(a);
    if k < i {
      var next: nat := k + 1;
      AttemptsExactly(attempts, last, next, i);
      var rest := Assigning(attempts, last, next).1;
      TimesAppend(AttemptEvents(a), rest, IsLock());
      TimesAppend(AttemptEvents(a), rest, IsAssign());
      TimesAppend(AttemptEvents(a), rest, IsLocked());
    } else if !Obtains(a) && !a.done {
      var log := AttemptEvents(a);
      assert Assigning(attempts, last, k).1 == log + [] == log;
    }
    hide Times, AttemptEvents;
  }

  lemma AttemptCalls(a: Attempt)
    ensures var log, one := AttemptEvents(a), if a.locked then 1 else 0;
      && Times(log, IsLock()) == 1 && Times(log, IsAssign()) == one && Times(log, IsLocked()) == one
      && Times(log, IsUnlock()) == one
  {
    var log := AttemptEvents(a);
    if a.locked {
      TimesThree(log[0], log[1], log[2], IsUnlock());
      TimesThree(log[0], log[1], log[2], IsAssign());
      TimesThree(log[0], log[1], log[2], IsLocked());
      TimesThree(log[0], log[1], log[2], IsLock());
      hide Times;
      assert log == [log[0], log[1], log[2]];
    } else {
      TimesNone(log, IsUnlock());
      TimesNone(log, IsAssign());
      TimesNone(log, IsLocked());
      assert log == [log[0]] + [];
      TimesCons(log[0], [], IsLock());
    }
  }

  /** The snapshot lists the address. */
  predicate HasIp(look: Look, address: string) {
    look.ips.Some? && address in look.ips.value
  }

  ghost predicate FirstReport(looks: nat -> Look, address: string, last: int, k: nat, i: nat) {
    && k <= i <= last && HasIp(looks(i), address)
    && forall j: nat :: k <= j < i ==> !HasIp(looks(j), address) && !looks(j).done
  }

  /** Waiting ends without an error exactly when some snapshot in reach lists the address. */
  lemma {:induction false} ReportsExactly(looks: nat -> Look, address: string, last: int, k: nat)
    ensures Reporting(looks, address, last, k).0.Success? <==> exists i :: FirstReport(looks, address, last, k, i)
    decreases last + 1 - k
  {
    if k <= last {
      if Reports(looks(k).ips, address) {
        assert FirstReport(looks, address, last, k, k);
      } else if !looks(k).done {
        var next: nat := k + 1;
        ReportsExactly(looks, address, last, next);
        forall i: nat ensures FirstReport(looks, address, last, k, i) <==> FirstReport(looks, address, last, next, i) {
        }
      }
    }
  }

  ghost predicate LastLook(looks: nat -> Look, address: string, last: int, k: nat, i: nat) {
    && k <= i <= last && (HasIp(looks(i), address) || looks(i).done || i == last)
    && forall j: nat :: k <= j < i ==> !HasIp(looks(j), address) && !looks(j).done
  }

  /** The last look decides, and the looks are taken in order, once each, up to it. */
  lemma {:induction false} LooksExactly(looks: nat -> Look, address: string, last: int, k: nat, i: nat)
    requires LastLook(looks, address, last, k, i)
    ensures var (r, log) := Reporting(looks, address, last, k);
      && r == (if HasIp(looks(i), address) then Success(())
               else Failure(if looks(i).done then ReportCancelled else ReportExhausted))
      && |log| == i + 1 - k && forall j :: 0 <= j < |log| ==> log[j] == GetNode(looks(k + j).ips)
    decreases last + 1 - k
  {
    if k < i {
      var next: nat := k + 1;
      LooksExactly(looks, address, last, next, i);
      var (r, log) := Reporting(looks, address, last, k);
      forall j | 0 <= j < |log| ensures log[j] == GetNode(looks(k + j).ips) {
        if j > 0 { assert log[j] == Reporting(looks, address, last, next).1[j - 1]; }
      }
    }
  }

  // ----- Bracketing -----

  function Times(log: seq<Event>, e: Event -> bool): nat {
    if |log| == 0 then 0 else (if e(log[0]) then 1 else 0) + Times(log[1..], e)
  }

  function IsLocked(): Event -> bool { (e: Event) => e == LockCall(true) }
  function IsLock(): Event -> bool { (e: Event) => e.LockCall? }
  function IsAssign(): Event -> bool { (e: Event) => e.AssignCall? }
  function IsUnlock(): Event -> bool { (e: Event) => e.UnlockCall? }

  lemma {:induction false} TimesAppend(log: seq<Event>, more: seq<Event>, e: Event -> bool)
    ensures Times(log + more, e) == Times(log, e) + Times(more, e)
  {
    if |log| == 0 {
      assert log + more == more;
    } else {
      assert (log + more)[1..] == log[1..] + more;
      TimesAppend(log[1..], more, e);
    }
  }

  lemma {:induction false} TimesNone(log: seq<Event>, e: Event -> bool)
    requires forall i :: 0 <= i < |log| ==> !e(log[i])
    ensures Times(log, e) == 0
  {
    if |log| > 0 { TimesNone(log[1..], e); }
  }

  ghost predicate BracketAt(log: seq<Event>, i: nat)
    requires i < |log|
  {
    && (log[i] == LockCall(true) ==> i + 2 < |log| && log[i + 1].AssignCall? && log[i + 2].UnlockCall?)
    && (log[i].AssignCall? ==> i > 0 && log[i - 1] == LockCall(true))
    && (log[i].UnlockCall? ==> i > 1 && log[i - 2] == LockCall(true))
  }

  /** Every Assign lies between one successful Lock and its Unlock, with nothing else in between. */
  ghost predicate Bracketed(log: seq<Event>) {
    forall i :: 0 <= i < |log| ==> BracketAt(log, i)
  }

  lemma BracketedAppend(log: seq<Event>, more: seq<Event>)
    requires Bracketed(log) && Bracketed(more)
    ensures Bracketed(log + more)
  {
    forall i | 0 <= i < |log + more| ensures BracketAt(log + more, i) {
      if i < |log| {
        assert BracketAt(log, i);
      } else {
        assert BracketAt(more, i - |log|) && (log + more)[i] == more[i - |log|];
      }
    }
  }

  /** Brackets, as many Unlocks and Assigns as successful Locks, and at most `most` attempts. */
  ghost predicate WellLocked(log: seq<Event>, most: nat) {
    && Bracketed(log)
    && Times(log, IsUnlock()) == Times(log, IsLocked()) == Times(log, IsAssign())
    && Times(log, IsLock()) <= most
  }

  lemma WellLockedAppend(log: seq<Event>, more: seq<Event>, m: nat, n: nat)
    requires WellLocked(log, m) && WellLocked(more, n)
    ensures WellLocked(log + more, m + n)
  {
    BracketedAppend(log, more);
    hide Times, Bracketed;
    TimesAppend(log, more, IsUnlock());
    TimesAppend(log, more, IsLocked());
    TimesAppend(log, more, IsAssign());
    TimesAppend(log, more, IsLock());
  }

  lemma {:induction false} TimesCons(x: Event, log: seq<Event>, e: Event -> bool)
    ensures Times([x] + log, e) == (if e(x) then 1 else 0) + Times(log, e)
  {
    assert ([x] + log)[1..] == log;
  }

  lemma TimesThree(a: Event, b: Event, c: Event, e: Event -> bool)
    ensures Times([a, b, c], e) == (if e(a) then 1 else 0) + (if e(b) then 1 else 0) + (if e(c) then 1 else 0)
  {
    assert [c] == [c] + [] && [b, c] == [b] + [c] && [a, b, c] == [a] + [b, c];
    TimesCons(c, [], e);
    TimesCons(b, [c], e);
    TimesCons(a, [b, c], e);
  }

  lemma WellLockedMore(log: seq<Event>, m: nat, n: nat)
    requires WellLocked(log, m) && m <= n
    ensures WellLocked(log, n)
  {
  }

  lemma OneAttempt(a: Attempt)
    ensures WellLocked(AttemptEvents(a), 1)
  {
    AttemptCalls(a);
    hide Times;
  }

  lemma NoAttempt(log: seq<Event>)
    requires forall i :: 0 <= i < |log| ==> !IsAttempt(log[i])
    ensures WellLocked(log, 0)
  {
    TimesNone(log, IsUnlock());
    TimesNone(log, IsLocked());
    TimesNone(log, IsAssign());
    TimesNone(log, IsLock());
  }

  function Max0(n: int): nat {
    if n < 0 then 0 else n
  }

  lemma {:induction false} AssigningLocks(attempts: nat -> Attempt, last: int, k: nat)
    ensures WellLocked(Assigning(attempts, last, k).1, Max0(last + 1 - k))
    decreases last + 1 - k
  {
    hide WellLocked;
    if k > last {
      NoAttempt([]);
    } else {
      OneAttempt(attempts(k));
      var log := AttemptEvents(attempts(k));
      if Holds(attempts(k)) || attempts(k).done {
        NoAttempt([]);
        WellLockedMore(log, 1, Max0(last + 1 - k));
      } else {
        AssigningLocks(attempts, last, k + 1);
        WellLockedAppend(log, Assigning(attempts, last, k + 1).1, 1, Max0(last - k));
      }
    }
  }

  // ----- The shape of a life -----

  predicate IsAttempt(e: Event) {
    e.LockCall? || e.AssignCall? || e.UnlockCall?
  }

  predicate Granted(e: Event) {
    e.AssignCall? && !e.assignment.Refused?
  }

  /** The attempts, of which the last, if any, was granted. */
  ghost predicate AttemptsOnly(log: seq<Event>, granted: Option<string>) {
    && (forall i :: 0 <= i < |log| ==> IsAttempt(log[i]))
    && (forall i :: 0 <= i < |log| && Granted(log[i]) ==> granted.Some? && i == |log| - 2)
    && (granted.Some? ==> |log| > 1 && Granted(log[|log| - 2]) && log[|log| - 1].UnlockCall?
                          && Gives(log[|log| - 2].assignment, granted.value))
  }

  lemma {:induction false} AssigningShape(attempts: nat -> Attempt, last: int, k: nat)
    ensures var (r, log) := Assigning(attempts, last, k);
      && AttemptsOnly(log, if r.Success? then Some(r.value) else None)
      && (r.Failure? ==> r.error.AssignCancelled? || r.error.AssignExhausted?)
    decreases last + 1 - k
  {
    if k <= last && !Holds(attempts(k)) && !attempts(k).done {
      AssigningShape(attempts, last, k + 1);
    }
  }

  /** A snapshot that lists the address. */
  predicate Lists(e: Event, address: string) {
    e.GetNode? && e.ips.Some? && address in e.ips.value
  }

  ghost predicate LooksOnly(log: seq<Event>) {
    forall i :: 0 <= i < |log| ==> log[i].GetNode?
  }

  lemma {:induction false} ReportingShape(looks: nat -> Look, address: string, last: int, k: nat)
    ensures var (r, log) := Reporting(looks, address, last, k);
      && LooksOnly(log) && (r.Success? ==> |log| > 0 && Lists(log[|log| - 1], address))
      && (r.Failure? ==> r.error.ReportCancelled? || r.error.ReportExhausted?)
    decreases last + 1 - k
  {
    if k <= last && !Reports(looks(k).ips, address) && !looks(k).done {
      ReportingShape(looks, address, last, k + 1);
    }
  }

  /** What follows the attempts and the looks. */
  ghost predicate Ending(tail: seq<Event>, taintKey: bool) {
    || tail == []
    || (!taintKey && Stop(tail))
    || (taintKey && |tail| == 2 && tail[0] == RemoveTaint(None) && tail[1].Unassign?)
    || (taintKey && |tail| > 1 && tail[0].RemoveTaint? && tail[0].removed.Some? && Stop(tail[1..]))
  }

  ghost predicate Stop(tail: seq<Event>) {
    tail == [Shutdown] || (|tail| == 2 && tail[0].Shutdown? && tail[1].Unassign?)
  }

  datatype Parts = Parts(attempts: seq<Event>, looks: seq<Event>, tail: seq<Event>, granted: Option<string>)

  ghost predicate Shaped(p: Parts, log: seq<Event>, cfg: Config) {
    && log == p.attempts + p.looks + p.tail
    && AttemptsOnly(p.attempts, p.granted) && LooksOnly(p.looks) && Ending(p.tail, cfg.taintKey != "")
    && (p.granted.None? ==> p.looks == p.tail == [])
    && (cfg.taintKey != "" && p.tail != [] ==>
          |p.looks| > 0 && p.granted.Some? && Lists(p.looks[|p.looks| - 1], p.granted.value))
  }

  ghost function Tail(w: World, cfg: Config, seen: bool): seq<Event> {
    if cfg.taintKey == "" then Stopping(w, cfg).1
    else if !seen then []
    else if w.untaint.None? then [RemoveTaint(None), Unassign(w.unassign)]
    else [RemoveTaint(w.untaint)] + Stopping(w, cfg).1
  }

  lemma LifeShape(w: World, cfg: Config) returns (p: Parts)
    ensures Shaped(p, Life(w, cfg).1, cfg)
    ensures p.attempts == if w.setup then Assigning(w.attempts, cfg.retryAttempts, 0).1 else []
    ensures p.tail == if Gets(w, cfg) then Tail(w, cfg, Sees(w, cfg)) else []
  {
    hide Assigning, Reporting, Gets, Sees;
    AssigningShape(w.attempts, cfg.retryAttempts, 0);
    GetsExactly(w, cfg);
    var (r, log) := Assigning(w.attempts, cfg.retryAttempts, 0);
    if !w.setup {
      p := Parts([], [], [], None);
    } else if r.Failure? {
      p := Parts(log, [], [], None);
    } else {
      SeesExactly(w, cfg, r.value);
      var looks := if cfg.taintKey == "" then [] else Reporting(w.looks, r.value, cfg.retryAttempts, 0).1;
      ReportingShape(w.looks, r.value, cfg.retryAttempts, 0);
      p := Parts(log, looks, Tail(w, cfg, Sees(w, cfg)), Some(r.value));
      assert Life(w, cfg).1 == log + looks + p.tail;
    }
  }

  // ----- Main results -----

  /** Locking over a whole life. */
  lemma Locking(w: World, cfg: Config)
    ensures WellLocked(Life(w, cfg).1, Max0(cfg.retryAttempts + 1))
  {
    hide Life, Assigning, WellLocked, Shaped, Tail, Gets, Sees;
    var p := LifeShape(w, cfg);
    AttemptsLocked(w, cfg);
    RestUnlocked(p, Life(w, cfg).1, cfg);
    WellLockedAppend(p.attempts, p.looks + p.tail, Max0(cfg.retryAttempts + 1), 0);
    assert p.attempts + (p.looks + p.tail) == p.attempts + p.looks + p.tail;
  }

  lemma AttemptsLocked(w: World, cfg: Config)
    ensures var log := if w.setup then Assigning(w.attempts, cfg.retryAttempts, 0).1 else [];
      WellLocked(log, Max0(cfg.retryAttempts + 1))
  {
    AssigningLocks(w.attempts, cfg.retryAttempts, 0);
    NoAttempt([]);
  }

  lemma RestUnlocked(p: Parts, log: seq<Event>, cfg: Config)
    requires Shaped(p, log, cfg)
    ensures WellLocked(p.looks + p.tail, 0) && log == p.attempts + p.looks + p.tail
  {
    NoAttempt(p.looks + p.tail);
  }

  /** Some snapshot before `i`, taken after Assign was granted, lists the address it returned. */
  ghost predicate ReportedBefore(log: seq<Event>, i: nat) {
    exists a, g, address :: 0 <= a < g < i <= |log|
        && log[a].AssignCall? && Gives(log[a].assignment, address) && Lists(log[g], address)
  }

  ghost predicate GrantedBefore(log: seq<Event>, i: nat) {
    exists a :: 0 <= a < i <= |log| && Granted(log[a])
  }

  ghost predicate ReleasedNext(log: seq<Event>, i: nat) {
    i + 1 < |log| && log[i + 1].Unassign?
  }

  /** The order of a life: taint removal at most once, after a grant and a report; Unassign at most once,
      never before a grant, always right after a failed taint removal; no Assign after a grant. */
  ghost predicate Ordered(log: seq<Event>) {
    && (forall i, j :: 0 <= i < |log| && 0 <= j < |log| && log[i].RemoveTaint? && log[j].RemoveTaint? ==> i == j)
    && (forall i, j :: 0 <= i < |log| && 0 <= j < |log| && log[i].Unassign? && log[j].Unassign? ==> i == j)
    && (forall i :: 0 <= i < |log| && log[i].RemoveTaint? ==> ReportedBefore(log, i))
    && (forall i :: 0 <= i < |log| && log[i].Unassign? ==> GrantedBefore(log, i))
    && (forall i :: 0 <= i < |log| && log[i] == RemoveTaint(None) ==> ReleasedNext(log, i))
    && (forall a, i :: 0 <= a < i < |log| && Granted(log[a]) ==> !log[i].AssignCall?)
  }

  lemma Lifecycle(w: World, cfg: Config)
    ensures Ordered(Life(w, cfg).1)
  {
    hide Life;
    var p := LifeShape(w, cfg);
    ShapedOrdered(p, Life(w, cfg).1, cfg);
  }

  lemma ShapedOrdered(p: Parts, log: seq<Event>, cfg: Config)
    requires Shaped(p, log, cfg)
    ensures Ordered(log)
  {
    hide Shaped, ReportedBefore, GrantedBefore, ReleasedNext;
    var t := |p.attempts| + |p.looks|;
    forall i | 0 <= i < |log|
      ensures log[i].RemoveTaint? ==> i == t && ReportedBefore(log, i)
      ensures log[i].Unassign? ==> i == |log| - 1 && GrantedBefore(log, i)
      ensures log[i] == RemoveTaint(None) ==> ReleasedNext(log, i)
    {
      TailAt(p, log, cfg, i);
    }
    forall a, i | 0 <= a < i < |log| && Granted(log[a]) ensures !log[i].AssignCall? {
      GrantAt(p, log, cfg, a);
    }
  }

  lemma TailAt(p: Parts, log: seq<Event>, cfg: Config, i: nat)
    requires Shaped(p, log, cfg) && i < |log|
    ensures log[i].RemoveTaint? ==> i == |p.attempts| + |p.looks| && ReportedBefore(log, i)
    ensures log[i].Unassign? ==> i == |log| - 1 && GrantedBefore(log, i)
    ensures log[i] == RemoveTaint(None) ==> ReleasedNext(log, i)
  {
    var a, t := |p.attempts| - 2, |p.attempts| + |p.looks|;
    assert i < |p.attempts| ==> log[i] == p.attempts[i] && IsAttempt(p.attempts[i]);
    assert |p.attempts| <= i < t ==> log[i] == p.looks[i - |p.attempts|];
    assert i >= t ==> log[i] == p.tail[i - t];
    if log[i].RemoveTaint? || log[i].Unassign? { assert log[a] == p.attempts[a]; }
    if log[i].RemoveTaint? {
      var g := t - 1;
      assert log[g] == p.looks[|p.looks| - 1];
    }
  }

  lemma GrantAt(p: Parts, log: seq<Event>, cfg: Config, i: nat)
    requires Shaped(p, log, cfg) && i < |log|
    ensures Granted(log[i]) ==> forall j :: i < j < |log| ==> !log[j].AssignCall?
  {
    if Granted(log[i]) {
      assert IsAttempt(log[i]);
      forall j | i < j < |log| ensures !log[j].AssignCall? {
        assert j < |p.attempts| ==> log[j] == p.attempts[j];
        assert |p.attempts| <= j < |p.attempts| + |p.looks| ==> log[j] == p.looks[j - |p.attempts|];
      }
    }
  }

  ghost predicate Calls(log: seq<Event>, e: Event -> bool) {
    exists i :: 0 <= i < |log| && e(log[i])
  }

  function IsUntaint(): Event -> bool { (e: Event) => e.RemoveTaint? }
  function IsUnassign(): Event -> bool { (e: Event) => e.Unassign? }

  /** Some attempt gets an address, and, if a taint key is configured, some snapshot in reach lists it. */
  ghost predicate Gets(w: World, cfg: Config) {
    w.setup && exists i :: FirstHold(w.attempts, cfg.retryAttempts, 0, i)
  }

  ghost predicate Sees(w: World, cfg: Config) {
    && w.setup
    && exists i, g, address ::
         && FirstHold(w.attempts, cfg.retryAttempts, 0, i) && Gives(w.attempts(i).assignment, address)
         && FirstReport(w.looks, address, cfg.retryAttempts, 0, g)
  }

  ghost predicate Ready(w: World, cfg: Config) {
    Gets(w, cfg) && (cfg.taintKey != "" ==> Sees(w, cfg) && w.untaint.Some?)
  }

  /** Exactly when the taint is removed, when the address is released, and when the agent ends well. In
      particular an address that was assigned but never reported is kept, whatever ReleaseOnExit says. */
  lemma LifeExactly(w: World, cfg: Config)
    ensures var (r, log) := Life(w, cfg);
      && (Calls(log, IsUntaint()) <==> cfg.taintKey != "" && Sees(w, cfg))
      && (Calls(log, IsUnassign()) <==>
            (cfg.taintKey != "" && Sees(w, cfg) && w.untaint.None?) || (Ready(w, cfg) && cfg.releaseOnExit))
      && (r.Success? <==> Ready(w, cfg) && (cfg.releaseOnExit ==> w.unassign))
      && (r == Failure(TaintNotRemoved) <==> cfg.taintKey != "" && Sees(w, cfg) && w.untaint.None?)
      && (r == Failure(NotReleased) <==> Ready(w, cfg) && cfg.releaseOnExit && !w.unassign)
  {
    CallsExactly(w, cfg);
    GetsExactly(w, cfg);
    hide Assigning, Reporting, Calls, FirstHold, FirstReport, Reports;
    var r := Assigning(w.attempts, cfg.retryAttempts, 0).0;
    AssigningShape(w.attempts, cfg.retryAttempts, 0);
    if w.setup && r.Success? {
      SeesExactly(w, cfg, r.value);
      ReportingShape(w.looks, r.value, cfg.retryAttempts, 0);
    }
  }

  lemma CallsExactly(w: World, cfg: Config)
    ensures Calls(Life(w, cfg).1, IsUntaint()) <==> cfg.taintKey != "" && Sees(w, cfg)
    ensures Calls(Life(w, cfg).1, IsUnassign()) <==>
              (cfg.taintKey != "" && Sees(w, cfg) && w.untaint.None?) || (Ready(w, cfg) && cfg.releaseOnExit)
  {
    SeesGets(w, cfg);
    hide Life, Gets, Sees, Shaped, Tail;
    var p := LifeShape(w, cfg);
    CallsOnlyIn(p, Life(w, cfg).1, cfg);
    TailCalls(w, cfg, Sees(w, cfg));
    assert !Calls([], IsUntaint()) && !Calls([], IsUnassign());
  }

  lemma TailCalls(w: World, cfg: Config, seen: bool)
    ensures Calls(Tail(w, cfg, seen), IsUntaint()) <==> cfg.taintKey != "" && seen
    ensures Calls(Tail(w, cfg, seen), IsUnassign()) <==>
              || (cfg.taintKey != "" && seen && w.untaint.None?)
              || ((cfg.taintKey != "" ==> seen && w.untaint.Some?) && cfg.releaseOnExit)
  {
    var tail := Tail(w, cfg, seen);
    if cfg.taintKey != "" && seen { assert IsUntaint()(tail[0]); }
    if tail != [] && tail[|tail| - 1].Unassign? { assert IsUnassign()(tail[|tail| - 1]); }
  }

  lemma SeesGets(w: World, cfg: Config)
    ensures Sees(w, cfg) ==> Gets(w, cfg)
  {
  }

  lemma GetsExactly(w: World, cfg: Config)
    ensures Gets(w, cfg) <==> w.setup && Assigning(w.attempts, cfg.retryAttempts, 0).0.Success?
  {
    var r := Assigning(w.attempts, cfg.retryAttempts, 0).0;
    if r.Success? { AssignsExactly(w.attempts, cfg.retryAttempts, 0, r.value); }
    if i :| FirstHold(w.attempts, cfg.retryAttempts, 0, i) {
      AssignsExactly(w.attempts, cfg.retryAttempts, 0, AddressOf(w.attempts(i).assignment));
    }
  }

  lemma {:induction false} SeesExactly(w: World, cfg: Config, address: string)
    requires w.setup && Assigning(w.attempts, cfg.retryAttempts, 0).0 == Success(address)
    ensures Sees(w, cfg) <==> Reporting(w.looks, address, cfg.retryAttempts, 0).0.Success?
  {
    AssignsExactly(w.attempts, cfg.retryAttempts, 0, address);
    ReportsExactly(w.looks, address, cfg.retryAttempts, 0);
    hide Assigning, Reporting;
    forall i, j | FirstHold(w.attempts, cfg.retryAttempts, 0, i) && FirstHold(w.attempts, cfg.retryAttempts, 0, j)
      ensures i == j {
    }
  }

  lemma CallsOnlyIn(p: Parts, log: seq<Event>, cfg: Config)
    requires Shaped(p, log, cfg)
    ensures Calls(log, IsUntaint()) <==> Calls(p.tail, IsUntaint())
    ensures Calls(log, IsUnassign()) <==> Calls(p.tail, IsUnassign())
  {
    var n := |p.attempts| + |p.looks|;
    forall i | 0 <= i < |p.tail| ensures log[n + i] == p.tail[i] {
    }
    forall i | 0 <= i < n ensures !log[i].RemoveTaint? && !log[i].Unassign? {
      assert log[i] == if i < |p.attempts| then p.attempts[i] else p.looks[i - |p.attempts|];
    }
  }

  /** What an agent fails with: what ended its attempts, or what ended its looks at the node. */
  lemma FailsExactly(w: World, cfg: Config)
    ensures var r := Life(w, cfg).0;
      && (r == Failure(NoSetup) <==> !w.setup)
      && (w.setup && cfg.retryAttempts < 0 ==> r == Failure(AssignExhausted))
      && (forall i :: w.setup && LastAttempt(w.attempts, cfg.retryAttempts, 0, i) && !Obtains(w.attempts(i)) ==>
            r == Failure(if w.attempts(i).done then AssignCancelled else AssignExhausted))
      && (forall i, x, g ::
            && w.setup && cfg.taintKey != "" && FirstHold(w.attempts, cfg.retryAttempts, 0, i)
            && Gives(w.attempts(i).assignment, x)
            && LastLook(w.looks, x, cfg.retryAttempts, 0, g) && !HasIp(w.looks(g), x) ==>
              r == Failure(if w.looks(g).done then ReportCancelled else ReportExhausted))
  {
    AssigningShape(w.attempts, cfg.retryAttempts, 0);
    forall i: nat | LastAttempt(w.attempts, cfg.retryAttempts, 0, i) && !Obtains(w.attempts(i))
      ensures w.setup ==> Life(w, cfg).0 ==
                            Failure(if w.attempts(i).done then AssignCancelled else AssignExhausted)
    {
      AttemptsExactly(w.attempts, cfg.retryAttempts, 0, i);
    }
    forall i: nat, x, g: nat | FirstHold(w.attempts, cfg.retryAttempts, 0, i) && Gives(w.attempts(i).assignment, x)
                               && LastLook(w.looks, x, cfg.retryAttempts, 0, g) && !HasIp(w.looks(g), x)
      ensures w.setup && cfg.taintKey != "" ==>
                Life(w, cfg).0 == Failure(if w.looks(g).done then ReportCancelled else ReportExhausted)
    {
      AssignsExactly(w.attempts, cfg.retryAttempts, 0, x);
      LooksExactly(w.looks, x, cfg.retryAttempts, 0, g);
    }
    var r := Assigning(w.attempts, cfg.retryAttempts, 0).0;
    if r.Success? { ReportingShape(w.looks, r.value, cfg.retryAttempts, 0); }
    hide Reporting, LastAttempt, FirstHold, LastLook, Gives, HasIp, Obtains;
  }

  /** The address that the first attempt to hold was given is the agent's, and once some snapshot in reach
      lists it the taint removal is attempted. */
  lemma GivenIsUsed(w: World, cfg: Config, i: nat, x: string)
    requires w.setup && FirstHold(w.attempts, cfg.retryAttempts, 0, i) && w.attempts(i).assignment == Assigned(x)
    ensures Assigning(w.attempts, cfg.retryAttempts, 0).0 == Success(x)
    ensures cfg.taintKey != "" ==>
              (Calls(Life(w, cfg).1, IsUntaint()) <==> exists g :: FirstReport(w.looks, x, cfg.retryAttempts, 0, g))
  {
    AssignsExactly(w.attempts, cfg.retryAttempts, 0, x);
    SeesExactly(w, cfg, x);
    ReportsExactly(w.looks, x, cfg.retryAttempts, 0);
    LifeExactly(w, cfg);
    hide Life, Calls, Assigning, Reporting;
  }

  /** When the first attempt to hold only reports that the instance already had an address, that address
      is lost: no snapshot lists the empty text, so with a taint key the agent fails, the taint stays,
      and nothing is released. */
  lemma AlreadyAssignedKeepsTaint(w: World, cfg: Config, i: nat)
    requires w.setup && cfg.taintKey != ""
    requires FirstHold(w.attempts, cfg.retryAttempts, 0, i) && w.attempts(i).assignment.AlreadyAssigned?
    requires forall g: nat :: w.looks(g).ips.Some? ==> "" !in w.looks(g).ips.value
    ensures var (r, log) := Life(w, cfg); r.Failure? && !Calls(log, IsUntaint()) && !Calls(log, IsUnassign())
  {
    LifeExactly(w, cfg);
    hide Life, Calls;
    AssignsExactly(w.attempts, cfg.retryAttempts, 0, "");
    SeesExactly(w, cfg, "");
    ReportsExactly(w.looks, "", cfg.retryAttempts, 0);
    assert forall g :: !FirstReport(w.looks, "", cfg.retryAttempts, 0, g);
    assert !Sees(w, cfg);
    assert !Ready(w, cfg) && !Life(w, cfg).0.Success?;
  }
}
