/** When Assign and Unassign succeed, interleaved with everybody else and with no lock. */
module AwsProgress {
  import opened AwsProtocol
  import opened AwsTheorems
  import Runs

  /** A call that `a` makes. */
  ghost function CallsOf(a: Instance): (Sys, Step) -> bool {
    (s: Sys, st: Step) => st.a == a && Enabled(s, st)
  }

  /** How many calls `a` makes in the run. */
  ghost function Made(s: Sys, steps: seq<Step>, a: Instance): nat {
    Runs.Taken(Next, CallsOf(a), s, steps)
  }

  // ----- Unassign -----

  /** The calls of an Unassign, when none fails. */
  predicate IsRelease(call: Call) {
    call.StartRelease? || call.FindAssigned? || call.Disassociate?
  }

  ghost predicate Has(s: Sys, a: Instance, eip: nat) {
    exists x :: x in s.assocs && s.assocs[x] == Assoc(eip, a)
  }

  /** `a` has the elastic IP `eip`, and is on its way to giving one back. */
  ghost predicate OnTrack(s: Sys, a: Instance, eip: nat) {
    && a in s.agents && Has(s, a, eip)
    && match s.agents[a]
       case Out => true
       case Done(_) => true
       case Released => true
       case Releasing => true
       case Disassociating(x) => x in s.assocs && s.assocs[x].instance == a
       case _ => false
  }

  /** How many of these calls are left. */
  function Left(pc: Pc): nat {
    match pc
    case Releasing => 2
    case Disassociating(_) => 1
    case _ => 3
  }

  lemma OthersTrack(s: Sys, st: Step, a: Instance, eip: nat)
    requires Inv(s) && OnTrack(s, a, eip) && st.a != a
    ensures OnTrack(Next(s, st), a, eip) && Next(s, st).agents[a] == s.agents[a]
  {
    StepChanges(s, st);
    var x :| x in s.assocs && s.assocs[x] == Assoc(eip, a);
    hide Inv;
    assert x in Next(s, st).assocs && Next(s, st).assocs[x] == s.assocs[x];
    assert s.agents[a].Disassociating? ==>
             s.agents[a].assoc in Next(s, st).assocs
                 && Next(s, st).assocs[s.agents[a].assoc] == s.assocs[s.agents[a].assoc];
  }

  lemma OwnTrack(s: Sys, st: Step, eip: nat)
    requires OnTrack(s, st.a, eip) && Enabled(s, st) && IsRelease(st.call) && !st.call.Disassociate?
    ensures OnTrack(Next(s, st), st.a, eip) && Left(Next(s, st).agents[st.a]) == Left(s.agents[st.a]) - 1
  {
  }

  /** An instance on its way is never stuck. */
  lemma NeverStuck(s: Sys, a: Instance, eip: nat)
    requires OnTrack(s, a, eip)
    ensures exists call :: IsRelease(call) && Enabled(s, Step(a, call))
  {
    var x :| x in s.assocs && s.assocs[x].instance == a;
    var pc := s.agents[a];
    var call := if pc.Releasing? then FindAssigned(x) else if pc.Disassociating? then Disassociate else StartRelease;
    assert IsRelease(call) && Enabled(s, Step(a, call));
  }

  /** Step `n` of the run removes exactly one association, of `a`, which had `eip` until then, and ends its
      Unassign with success. */
  ghost predicate FreesAt(s: Sys, steps: seq<Step>, a: Instance, eip: nat, n: nat)
    requires n < |steps|
  {
    var t := Runs.Exec(Next, s, steps[..n]);
    && steps[n] == Step(a, Disassociate) && a in Next(t, steps[n]).agents && Next(t, steps[n]).agents[a].Released?
    && Has(t, a, eip)
    && exists x :: x in t.assocs && t.assocs[x].instance == a && Next(t, steps[n]).assocs == t.assocs - {x}
  }

  lemma FreesNow(s: Sys, steps: seq<Step>, a: Instance, eip: nat)
    requires |steps| > 0
    requires var u, st := Runs.Exec(Next, s, steps[..|steps| - 1]), steps[|steps| - 1];
      OnTrack(u, a, eip) && st == Step(a, Disassociate) && Enabled(u, st)
    ensures FreesAt(s, steps, a, eip, |steps| - 1)
  {
    var u := Runs.Exec(Next, s, steps[..|steps| - 1]);
    assert u.agents[a].assoc in u.assocs;
  }

  lemma FreesLater(s: Sys, steps: seq<Step>, a: Instance, eip: nat, n: nat, m: nat)
    requires m < n <= |steps| && FreesAt(s, steps[..n], a, eip, m)
    ensures FreesAt(s, steps, a, eip, m)
  {
    assert steps[..n][..m] == steps[..m];
    hide Next;
  }

  lemma StepTrack(s: Sys, st: Step, a: Instance, eip: nat)
    requires Inv(s) && OnTrack(s, a, eip) && (st.a == a ==> IsRelease(st.call))
    ensures var own := st.a == a && Enabled(s, st);
      && a in s.agents
      && if own && st.call.Disassociate? then Left(s.agents[a]) == 1
         else
           && OnTrack(Next(s, st), a, eip) && a in Next(s, st).agents
           && Left(Next(s, st).agents[a]) == Left(s.agents[a]) - (if own then 1 else 0)
  {
    if st.a != a {
      OthersTrack(s, st, a, eip);
    } else if Enabled(s, st) && !st.call.Disassociate? {
      OwnTrack(s, st, eip);
    }
    hide Inv, Has, Answer, Effect;
  }

  /** Whatever the others do, an instance with an elastic IP that makes no failing call gives one of its own
      back with the last call of its Unassign, and is on its way before that. */
  lemma {:induction false} ReleaseSucceeds(s: Sys, steps: seq<Step>, a: Instance, eip: nat)
    requires Inv(s) && OnTrack(s, a, eip)
    requires forall j :: 0 <= j < |steps| && steps[j].a == a ==> IsRelease(steps[j].call)
    ensures var t := Runs.Exec(Next, s, steps);
      && Inv(t)
      && if Made(s, steps, a) < Left(s.agents[a])
         then OnTrack(t, a, eip) && Left(t.agents[a]) == Left(s.agents[a]) - Made(s, steps, a)
         else exists n :: 0 <= n < |steps| && FreesAt(s, steps, a, eip, n)
  {
    hide Next, Inv, Enabled, FreesAt, Has;
    if |steps| > 0 {
      var n := |steps| - 1;
      var u, st := Runs.Exec(Next, s, steps[..n]), steps[n];
      ReleaseSucceeds(s, steps[..n], a, eip);
      InvStep(u, st);
      if Made(s, steps[..n], a) < Left(s.agents[a]) {
        StepTrack(u, st, a, eip);
        if st.a == a && Enabled(u, st) && st.call.Disassociate? {
          assert st == Step(a, Disassociate);
          FreesNow(s, steps, a, eip);
        }
      } else {
        var m :| 0 <= m < n && FreesAt(s, steps[..n], a, eip, m);
        FreesLater(s, steps, a, eip, n, m);
      }
    }
  }

  /** Step `n` of the run removes exactly `a`'s association with `eip`. */
  ghost predicate GivesBackAt(s: Sys, steps: seq<Step>, a: Instance, eip: nat, n: nat)
    requires n < |steps|
  {
    var t := Runs.Exec(Next, s, steps[..n]);
    && steps[n] == Step(a, Disassociate) && a in Next(t, steps[n]).agents && Next(t, steps[n]).agents[a].Released?
    && exists x :: x in t.assocs && t.assocs[x] == Assoc(eip, a) && Next(t, steps[n]).assocs == t.assocs - {x}
  }

  /** After any run in which `a`, which had no elastic IP before, has just been given one, and any run after
      that in which `a` only releases, without a failing call: with its third call that one, and only that
      one, is given back, whatever the others did meanwhile. */
  lemma {:induction false} AssignThenRelease(s: Sys, steps: seq<Step>, more: seq<Step>, a: Instance, t: Sys)
    requires Init(s) && t == Runs.Exec(Next, s, steps) && !Attached(s, a)
    requires a in t.agents && t.agents[a].Done? && t.agents[a].outcome.Bound?
    requires forall j :: 0 <= j < |more| && more[j].a == a ==> IsRelease(more[j].call)
    ensures Made(t, more, a) >= 3 ==> exists n :: 0 <= n < |more| && GivesBackAt(t, more, a, t.agents[a].outcome.eip, n)
  {
    InvRun(s, steps, |steps|);
    assert steps[..|steps|] == steps;
    BoundHeld(t, a);
    var eip := t.agents[a].outcome.eip;
    hide Next, Inv, Made, FreesAt, OneAssoc, GivesBackAt;
    ReleaseSucceeds(t, more, a, eip);
    if Made(t, more, a) >= 3 {
      var n :| 0 <= n < |more| && FreesAt(t, more, a, eip, n);
      Runs.ExecAppend(Next, s, steps, more[..n]);
      NoneIsOne(s, a);
      AtMostOne(s, steps + more[..n], a);
      OnlyOne(t, more, a, eip, n);
    }
  }

  lemma {:induction false} OnlyOne(s: Sys, steps: seq<Step>, a: Instance, eip: nat, n: nat)
    requires n < |steps| && FreesAt(s, steps, a, eip, n) && OneAssoc(Runs.Exec(Next, s, steps[..n]), a)
    ensures GivesBackAt(s, steps, a, eip, n)
  {
    hide Next, Runs.Exec;
  }

  lemma NoneIsOne(s: Sys, a: Instance)
    requires !Attached(s, a)
    ensures OneAssoc(s, a)
  {
  }

  // ----- Assign -----

  /** The calls of an Assign from its listing on, when they go through. */
  predicate IsBinding(call: Call) {
    call.GetInstance? || call.Recheck? || call.Associate?
  }

  /** Nobody else associates the address, as is the case under the lock. */
  predicate Spares(a: Instance, eip: nat, s: Sys, st: Step) {
    st.a != a && Enabled(s, st) && st.call.Associate? ==> s.agents[st.a].ids[s.agents[st.a].k] != eip
  }

  ghost predicate Spared(s: Sys, steps: seq<Step>, a: Instance, eip: nat) {
    Runs.Always(Next, (t: Sys, st: Step) => Spares(a, eip, t, st), s, steps)
  }

  function After(ids: seq<nat>, calls: nat): Pc
    requires |ids| > 0
  {
    if calls == 0 then Chosen(ids)
    else if calls == 1 then Trying(ids, 0)
    else if calls == 2 then Binding(ids, 0)
    else Done(Bound(ids[0]))
  }

  lemma BindingStep(s: Sys, st: Step, a: Instance, ids: seq<nat>, calls: nat)
    requires Inv(s) && |ids| > 0 && a in s.agents && s.agents[a] == After(ids, calls)
               && (calls < 3 ==> !InUse(s, ids[0]))
    requires Spares(a, ids[0], s, st) && (st.a == a ==> IsBinding(st.call))
    ensures var calls' := calls + (if st.a == a && Enabled(s, st) then 1 else 0);
      a in Next(s, st).agents && Next(s, st).agents[a] == After(ids, calls')
          && (calls' < 3 ==> !InUse(Next(s, st), ids[0]))
  {
    assert AgentInv(s, a, s.agents[a]);
    hide Inv, AgentInv, Attached, AllFree;
  }

  /** Interleaved with everybody else, an instance with a candidate that nobody else associates, and whose
      calls go through, associates the first one of its list with its third call. */
  lemma {:induction false} FirstListedBound(s: Sys, steps: seq<Step>, a: Instance, ids: seq<nat>)
    requires Inv(s) && |ids| > 0 && a in s.agents && s.agents[a] == Chosen(ids) && !InUse(s, ids[0])
    requires Spared(s, steps, a, ids[0])
    requires forall j :: 0 <= j < |steps| && steps[j].a == a ==> IsBinding(steps[j].call)
    ensures var t := Runs.Exec(Next, s, steps);
      && Inv(t) && a in t.agents && t.agents[a] == After(ids, Made(s, steps, a))
      && (Made(s, steps, a) < 3 ==> !InUse(t, ids[0]))
      && (Made(s, steps, a) >= 3 ==> exists x :: x in t.assocs && t.assocs[x] == Assoc(ids[0], a))
  {
    if |steps| > 0 {
      var n := |steps| - 1;
      var u := Runs.Exec(Next, s, steps[..n]);
      var hyp := (t: Sys, st: Step) => Spares(a, ids[0], t, st);
      Runs.AlwaysPrefix(Next, hyp, s, steps, n);
      FirstListedBound(s, steps[..n], a, ids);
      assert hyp(u, steps[n]);
      hide Next, Inv, Enabled, InUse, Spares;
      InvStep(u, steps[n]);
      BindingStep(u, steps[n], a, ids, Made(s, steps[..n], a));
    }
    var t := Runs.Exec(Next, s, steps);
    if Made(s, steps, a) >= 3 { BoundHeld(t, a); }
  }

  lemma BoundHeld(s: Sys, a: Instance)
    requires Inv(s) && a in s.agents && s.agents[a].Done? && s.agents[a].outcome.Bound?
    ensures exists x :: x in s.assocs && s.assocs[x] == Assoc(s.agents[a].outcome.eip, a)
  {
    assert AgentInv(s, a, s.agents[a]);
  }
}
