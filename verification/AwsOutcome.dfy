/** A whole Assign whose calls go through, interleaved with everybody else and with no lock. */
module AwsOutcome {
  import opened AwsProtocol
  import opened AwsTheorems
  import Runs

  /** The calls of an Assign when none fails, except that AssociateAddress refuses an address in use. */
  predicate Sound(t: Sys, st: Step) {
    match st.call
    case CheckAssigned => true
    case ListAvailable(_) => true
    case GetInstance => true
    case Recheck => true
    case Associate => true
    case AssociateFails =>
      st.a in t.agents && t.agents[st.a].Binding? && t.agents[st.a].k < |t.agents[st.a].ids|
      && InUse(t, t.agents[st.a].ids[t.agents[st.a].k])
    case _ => false
  }

  ghost function SoundCalls(a: Instance): (Sys, Step) -> bool {
    (t: Sys, st: Step) => st.a == a ==> Sound(t, st)
  }

  ghost predicate FreeAt(s: Sys, steps: seq<Step>, ids: seq<nat>, n: nat) {
    n <= |steps| && AllFree(Runs.Exec(Next, s, steps[..n]), ids)
  }

  /** At some moment of the run none of them was in use. */
  ghost predicate WereFree(s: Sys, steps: seq<Step>, ids: seq<nat>) {
    exists n: nat :: FreeAt(s, steps, ids, n)
  }

  ghost predicate UsedAt(s: Sys, steps: seq<Step>, eip: nat, n: nat) {
    n <= |steps| && InUse(Runs.Exec(Next, s, steps[..n]), eip)
  }

  /** At some moment of the run it was in use. */
  ghost predicate WasUsed(s: Sys, steps: seq<Step>, eip: nat) {
    exists n: nat :: UsedAt(s, steps, eip, n)
  }

  /** The candidates, of which those before number `k` were lost to others. */
  ghost predicate Lost(s: Sys, steps: seq<Step>, ids: seq<nat>, k: nat) {
    k <= |ids| && WereFree(s, steps, ids) && forall j :: 0 <= j < k ==> WasUsed(s, steps, ids[j])
  }

  lemma LostLater(s: Sys, steps: seq<Step>, n: nat, ids: seq<nat>, k: nat)
    requires n <= |steps| && Lost(s, steps[..n], ids, k)
    ensures Lost(s, steps, ids, k)
  {
    var m: nat :| FreeAt(s, steps[..n], ids, m);
    assert steps[..n][..m] == steps[..m];
    assert FreeAt(s, steps, ids, m);
    forall j | 0 <= j < k ensures WasUsed(s, steps, ids[j]) {
      assert WasUsed(s, steps[..n], ids[j]);
      var u: nat :| UsedAt(s, steps[..n], ids[j], u);
      assert steps[..n][..u] == steps[..u];
      assert UsedAt(s, steps, ids[j], u);
    }
  }

  /** How it may end: an elastic IP the instance had on entry is reported; else it gets the first candidate
      not lost to others, or there is none. */
  ghost predicate Ends(s: Sys, steps: seq<Step>, a: Instance, outcome: Outcome) {
    match outcome
    case Already => Attached(s, a)
    case Bound(eip) => !Attached(s, a) && exists ids, k :: 0 <= k < |ids| && eip == ids[k] && Lost(s, steps, ids, k)
    case Failed => !Attached(s, a) && exists ids :: Lost(s, steps, ids, |ids|)
  }

  /** Where an Assign that `a` entered in `s` has come to in `t`, after the run `steps`. */
  ghost predicate OnCourse(s: Sys, steps: seq<Step>, t: Sys, a: Instance)
    requires a in t.agents
  {
    match t.agents[a]
    case Entered => Attached(t, a) == Attached(s, a)
    case Checked => !Attached(s, a)
    case Chosen(ids) => !Attached(s, a) && Lost(s, steps, ids, 0) && |ids| > 0
    case Trying(ids, k) => !Attached(s, a) && Lost(s, steps, ids, k) && k < |ids|
    case Binding(ids, k) => !Attached(s, a) && Lost(s, steps, ids, k) && k < |ids|
    case Done(outcome) => Ends(s, steps, a, outcome)
    case _ => false
  }

  lemma CourseLater(s: Sys, steps: seq<Step>, n: nat, t: Sys, a: Instance)
    requires n <= |steps| && a in t.agents && OnCourse(s, steps[..n], t, a)
    ensures OnCourse(s, steps, t, a)
  {
    forall ids, k: nat | Lost(s, steps[..n], ids, k) ensures Lost(s, steps, ids, k) {
      LostLater(s, steps, n, ids, k);
    }
    hide Lost, Attached;
  }

  lemma OthersCourse(s: Sys, steps: seq<Step>, t: Sys, st: Step, a: Instance)
    requires Inv(t) && a in t.agents && st.a != a && OnCourse(s, steps, t, a)
    ensures a in Next(t, st).agents && OnCourse(s, steps, Next(t, st), a)
  {
    StepChanges(t, st);
    assert a in Next(t, st).agents && Next(t, st).agents[a] == t.agents[a];
    hide Inv, Next, Lost, Ends;
    if x :| x in t.assocs && t.assocs[x].instance == a {
      assert x in Next(t, st).assocs && Next(t, st).assocs[x].instance == a;
    }
  }

  lemma {:induction false} UsedNow(s: Sys, steps: seq<Step>, n: nat, t: Sys, eip: nat)
    requires n <= |steps| && t == Runs.Exec(Next, s, steps[..n])
    ensures InUse(t, eip) ==> WasUsed(s, steps, eip)
  {
    assert InUse(t, eip) ==> UsedAt(s, steps, eip, n);
  }

  lemma {:induction false} FreeNow(s: Sys, steps: seq<Step>, n: nat, t: Sys, ids: seq<nat>)
    requires n <= |steps| && t == Runs.Exec(Next, s, steps[..n])
    ensures AllFree(t, ids) ==> Lost(s, steps, ids, 0)
  {
    assert AllFree(t, ids) ==> FreeAt(s, steps, ids, n);
  }

  lemma LostMore(s: Sys, steps: seq<Step>, ids: seq<nat>, k: nat)
    requires Lost(s, steps, ids, k) && k < |ids| && WasUsed(s, steps, ids[k])
    ensures Lost(s, steps, ids, k + 1)
  {
    hide WereFree, WasUsed;
  }

  /** The calls before the fallback loop. */
  lemma {:induction false} ChoosingCourse(s: Sys, steps: seq<Step>, n: nat, t: Sys, a: Instance)
    requires n < |steps| && steps[n].a == a && t == Runs.Exec(Next, s, steps[..n])
    requires Enabled(t, steps[n]) && OnCourse(s, steps, t, a)
    requires var call := steps[n].call; call.CheckAssigned? || call.ListAvailable? || call.GetInstance?
    ensures a in Next(t, steps[n]).agents && OnCourse(s, steps, Next(t, steps[n]), a)
  {
    if steps[n].call.ListAvailable? { FreeNow(s, steps, n, t, steps[n].call.ids); }
    hide Lost, Runs.Exec, Attached, AllFree;
  }

  /** The calls of the loop: a candidate found in use is lost, any other one is bound. */
  lemma {:induction false} LoopCourse(s: Sys, steps: seq<Step>, n: nat, t: Sys, a: Instance)
    requires n < |steps| && steps[n].a == a && t == Runs.Exec(Next, s, steps[..n])
    requires Enabled(t, steps[n]) && Sound(t, steps[n]) && OnCourse(s, steps, t, a)
    requires var call := steps[n].call; call.Recheck? || call.Associate? || call.AssociateFails?
    ensures a in Next(t, steps[n]).agents && OnCourse(s, steps, Next(t, steps[n]), a)
  {
    var pc := t.agents[a];
    UsedNow(s, steps, n, t, pc.ids[pc.k]);
    hide Lost, Runs.Exec, Attached, InUse, WasUsed;
    if WasUsed(s, steps, pc.ids[pc.k]) { LostMore(s, steps, pc.ids, pc.k); }
  }

  lemma {:induction false} OwnCourse(s: Sys, steps: seq<Step>, n: nat, t: Sys, a: Instance)
    requires n < |steps| && steps[n].a == a && t == Runs.Exec(Next, s, steps[..n])
    requires Enabled(t, steps[n]) && Sound(t, steps[n]) && OnCourse(s, steps, t, a)
    ensures a in Next(t, steps[n]).agents && OnCourse(s, steps, Next(t, steps[n]), a)
  {
    var call := steps[n].call;
    hide OnCourse, Next, Enabled;
    if call.CheckAssigned? || call.ListAvailable? || call.GetInstance? {
      ChoosingCourse(s, steps, n, t, a);
    } else {
      LoopCourse(s, steps, n, t, a);
    }
  }

  lemma {:induction false} CourseRun(s: Sys, steps: seq<Step>, a: Instance)
    requires Inv(s) && a in s.agents && s.agents[a].Entered? && Runs.Always(Next, SoundCalls(a), s, steps)
    ensures var t := Runs.Exec(Next, s, steps); Inv(t) && a in t.agents && OnCourse(s, steps, t, a)
  {
    if |steps| > 0 {
      var n := |steps| - 1;
      var t := Runs.Exec(Next, s, steps[..n]);
      Runs.AlwaysPrefix(Next, SoundCalls(a), s, steps, n);
      CourseRun(s, steps[..n], a);
      assert SoundCalls(a)(t, steps[n]);
      hide Inv, OnCourse, Sound, Answer, Effect, CanCall;
      InvStep(t, steps[n]);
      CourseLater(s, steps, n, t, a);
      if steps[n].a != a {
        OthersCourse(s, steps, t, steps[n], a);
      } else if Enabled(t, steps[n]) {
        OwnCourse(s, steps, n, t, a);
      }
    }
  }

  /** An Assign that `a` enters in any state of any run, interleaved with everybody else, and whose calls go
      through, ends in one way only: with the report of an elastic IP that the instance had on entry, or,
      if it had none, with the first of its candidates that was not in use when it was looked at, or with
      none if all were in use. */
  lemma {:induction false} FaultFreeAssign(s: Sys, steps: seq<Step>, more: seq<Step>, a: Instance, t: Sys)
    requires Init(s) && t == Runs.Exec(Next, s, steps) && a in t.agents && t.agents[a].Entered?
    requires Runs.Always(Next, SoundCalls(a), t, more)
    ensures var u := Runs.Exec(Next, t, more);
      && a in u.agents && (u.agents[a].Done? ==> Ends(t, more, a, u.agents[a].outcome))
  {
    InvRun(s, steps, |steps|);
    assert steps[..|steps|] == steps;
    CourseRun(t, more, a);
    hide Runs.Exec, Runs.Always, Next, Ends, Inv;
  }

  /** A candidate seen in use, or for which a call fails, is followed by the next one, and Assign fails after
      the last; nothing is written. */
  lemma NextOneTried(s: Sys, st: Step, ids: seq<nat>, k: nat)
    requires Enabled(s, st) && k < |ids|
    requires || (st.call.Recheck? && s.agents[st.a] == Trying(ids, k) && InUse(s, ids[k]))
             || (st.call.RecheckFails? && s.agents[st.a] == Trying(ids, k))
             || (st.call.AssociateFails? && s.agents[st.a] == Binding(ids, k))
    ensures st.a in Next(s, st).agents && Next(s, st).assocs == s.assocs
    ensures Next(s, st).agents[st.a] == if k + 1 < |ids| then Trying(ids, k + 1) else Done(Failed)
  {
  }

  /** Until it has returned, one of those calls can be made. */
  lemma NeverStuck(s: Sys, a: Instance)
    requires Inv(s) && a in s.agents
    requires var pc := s.agents[a];
      pc.Entered? || pc.Checked? || (pc.Chosen? && |pc.ids| > 0) || pc.Trying? || pc.Binding?
    ensures exists call :: Sound(s, Step(a, call)) && Enabled(s, Step(a, call))
  {
    var pc := s.agents[a];
    assert AgentInv(s, a, pc);
    var call := if pc.Entered? then CheckAssigned
                else if pc.Checked? then ListAvailable([])
                else if pc.Chosen? then GetInstance
                else if pc.Trying? then Recheck
                else if InUse(s, pc.ids[pc.k]) then AssociateFails
                else Associate;
    assert Sound(s, Step(a, call)) && Enabled(s, Step(a, call));
  }
}
