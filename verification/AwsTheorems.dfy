/** Ownership of elastic IPs over every interleaving, with no lock at all. */
module AwsTheorems {
  import opened AwsProtocol
  import Counting
  import Runs

  ghost predicate InRange(s: Sys, ids: seq<nat>) {
    forall i :: 0 <= i < |ids| ==> ids[i] < |s.eips|
  }

  ghost predicate AgentInv(s: Sys, a: Instance, pc: Pc) {
    match pc
    case Checked => !Attached(s, a)
    case Chosen(ids) => !Attached(s, a) && InRange(s, ids)
    case Trying(ids, k) => !Attached(s, a) && InRange(s, ids) && k < |ids|
    case Binding(ids, k) => !Attached(s, a) && InRange(s, ids) && k < |ids|
    case Done(outcome) => outcome.Bound? ==> exists x :: x in s.assocs && s.assocs[x] == Assoc(outcome.eip, a)
    case Disassociating(x) => x in s.assocs && s.assocs[x].instance == a
    case _ => true
  }

  /** Each elastic IP has at most one association, and association IDs are used once. */
  ghost predicate CloudOk(s: Sys) {
    && (forall i :: 0 <= i < |s.eips| ==> s.eips[i].allocationId == i)
    && (forall x :: x in s.assocs ==> x < s.nextAssoc && s.assocs[x].eip < |s.eips|)
    && (forall x, y :: x in s.assocs && y in s.assocs && s.assocs[x].eip == s.assocs[y].eip ==> x == y)
  }

  ghost predicate Inv(s: Sys) {
    CloudOk(s) && forall a :: a in s.agents ==> AgentInv(s, a, s.agents[a])
  }

  /** What a step does to the associations: one is added for an instance that had none and an address
      that had none, or one of the acting instance's own is removed. */
  ghost predicate Changes(s: Sys, s': Sys, a: Instance, call: Call) {
    || s'.assocs == s.assocs
    || (call.Associate? && s.nextAssoc !in s.assocs && s'.assocs.Keys == s.assocs.Keys + {s.nextAssoc}
        && (forall x :: x in s.assocs ==> s'.assocs[x] == s.assocs[x])
        && s'.assocs[s.nextAssoc].instance == a && !InUse(s, s'.assocs[s.nextAssoc].eip) && !Attached(s, a))
    || (call.Disassociate? && exists x :: x in s.assocs && s.assocs[x].instance == a && s'.assocs == s.assocs - {x})
  }

  lemma StepChanges(s: Sys, st: Step)
    requires Inv(s)
    ensures Next(s, st).eips == s.eips && Next(s, st).nextAssoc >= s.nextAssoc
    ensures Changes(s, Next(s, st), st.a, st.call)
  {
    if Enabled(s, st) { assert AgentInv(s, st.a, s.agents[st.a]); }
  }

  lemma CloudKept(s: Sys, st: Step)
    requires Inv(s)
    ensures CloudOk(Next(s, st))
  {
    if Enabled(s, st) { assert AgentInv(s, st.a, s.agents[st.a]); }
  }

  lemma OthersKept(s: Sys, st: Step, a: Instance)
    requires Inv(s) && a in s.agents && st.a != a
    ensures a in Next(s, st).agents && AgentInv(Next(s, st), a, s.agents[a])
  {
    var s' := Next(s, st);
    StepChanges(s, st);
    assert AgentInv(s, a, s.agents[a]);
    assert Attached(s', a) ==> Attached(s, a) by {
      if Attached(s', a) {
        var x :| x in s'.assocs && s'.assocs[x].instance == a;
        assert x in s.assocs && s.assocs[x].instance == a;
      }
    }
    if s.agents[a].Done? && s.agents[a].outcome.Bound? {
      var x :| x in s.assocs && s.assocs[x] == Assoc(s.agents[a].outcome.eip, a);
      assert x in s'.assocs && s'.assocs[x] == s.assocs[x];
    }
  }

  lemma OwnKept(s: Sys, st: Step)
    requires Inv(s) && Enabled(s, st)
    ensures AgentInv(Next(s, st), st.a, Next(s, st).agents[st.a])
  {
    assert AgentInv(s, st.a, s.agents[st.a]);
    if st.call.Associate? {
      assert s.nextAssoc in Next(s, st).assocs;
    }
  }

  lemma InvStep(s: Sys, st: Step)
    requires Inv(s)
    ensures Inv(Next(s, st))
  {
    hide Enabled;
    CloudKept(s, st);
    forall a | a in Next(s, st).agents ensures AgentInv(Next(s, st), a, Next(s, st).agents[a]) {
      if Enabled(s, st) && st.a == a { OwnKept(s, st); } else if st.a != a { OthersKept(s, st, a); }
    }
  }

  lemma {:induction false} InvRun(s: Sys, steps: seq<Step>, n: nat)
    requires Init(s) && n <= |steps|
    ensures Inv(Runs.Exec(Next, s, steps[..n]))
  {
    hide Next;
    var any := (t: Sys, st: Step) => true;
    forall t, st | Inv(t) ensures Inv(Next(t, st)) { InvStep(t, st); }
    Runs.Invariance(Next, any, Inv, s, steps[..n]);
  }

  /** At every moment of every run: an elastic IP has at most one association; an instance gains one
      only by its own Associate, on an address that had none and when it had none itself; and an
      association disappears only by a Disassociate of its own instance. */
  lemma {:induction false} Ownership(s: Sys, steps: seq<Step>, n: nat)
    requires Init(s) && n < |steps|
    ensures var t, st := Runs.Exec(Next, s, steps[..n]), steps[n];
      && (forall x, y :: x in t.assocs && y in t.assocs && t.assocs[x].eip == t.assocs[y].eip ==> x == y)
      && (forall x :: x in Next(t, st).assocs && x !in t.assocs ==>
            st.call.Associate? && Next(t, st).assocs[x].instance == st.a && !Attached(t, st.a)
                && !InUse(t, Next(t, st).assocs[x].eip))
      && (forall x :: x in t.assocs && x !in Next(t, st).assocs ==>
            st.call.Disassociate? && t.assocs[x].instance == st.a)
      && (forall x :: x in t.assocs && x in Next(t, st).assocs ==> Next(t, st).assocs[x] == t.assocs[x])
  {
    hide Next, Runs.Exec;
    InvRun(s, steps, n);
    StepChanges(Runs.Exec(Next, s, steps[..n]), steps[n]);
  }

  ghost predicate OneAssoc(s: Sys, a: Instance) {
    forall x, y :: x in s.assocs && y in s.assocs && s.assocs[x].instance == a && s.assocs[y].instance == a ==> x == y
  }

  /** An instance that started with no elastic IP, or one, never has two. */
  lemma {:induction false} AtMostOne(s: Sys, steps: seq<Step>, a: Instance)
    requires Init(s) && OneAssoc(s, a)
    ensures OneAssoc(Runs.Exec(Next, s, steps), a)
  {
    hide Next;
    var any := (t: Sys, st: Step) => true;
    var one := (t: Sys) => Inv(t) && OneAssoc(t, a);
    forall t, st | one(t) ensures one(Next(t, st)) { InvStep(t, st); StepChanges(t, st); }
    Runs.Invariance(Next, any, one, s, steps);
  }

  // ----- Conservation -----

  ghost function FreePool(s: Sys): set<nat> {
    set i | 0 <= i < |s.eips| && !InUse(s, i)
  }

  ghost function HeldPool(s: Sys): set<nat> {
    set i | 0 <= i < |s.eips| && InUse(s, i)
  }

  /** Over every run the pool keeps its size, free plus held is that size, and no set of instances with
      an elastic IP outnumbers it. */
  lemma {:induction false} Conservation(s: Sys, steps: seq<Step>, n: nat, holders: set<Instance>)
    requires Init(s) && n <= |steps|
    requires forall a :: a in holders ==> Attached(Runs.Exec(Next, s, steps[..n]), a)
    ensures var t := Runs.Exec(Next, s, steps[..n]);
      t.eips == s.eips && |FreePool(t)| + |HeldPool(t)| == |s.eips| && |holders| <= |HeldPool(t)| <= |s.eips|
  {
    hide Next, Attached, InUse;
    var any := (t: Sys, st: Step) => true;
    var same := (t: Sys) => Inv(t) && t.eips == s.eips;
    forall t, st | same(t) ensures same(Next(t, st)) { InvStep(t, st); StepChanges(t, st); }
    Runs.Invariance(Next, any, same, s, steps[..n]);
    Sizes(Runs.Exec(Next, s, steps[..n]), holders);
  }

  lemma Sizes(t: Sys, holders: set<Instance>)
    requires Inv(t) && forall a :: a in holders ==> Attached(t, a)
    ensures |FreePool(t)| + |HeldPool(t)| == |t.eips| && |holders| <= |HeldPool(t)| <= |t.eips|
  {
    assert FreePool(t) + HeldPool(t) == Counting.Below(|t.eips|) && FreePool(t) !! HeldPool(t);
    var holder := (i: nat) =>
      if InUse(t, i) then var x :| x in t.assocs && t.assocs[x].eip == i; t.assocs[x].instance else "";
    forall a | a in holders ensures exists i :: i in HeldPool(t) && holder(i) == a {
      var x :| x in t.assocs && t.assocs[x].instance == a;
      assert InUse(t, t.assocs[x].eip);
      assert holder(t.assocs[x].eip) == a;
    }
    Counting.ImageSize(holder, HeldPool(t), holders);
  }

  // ----- Assign then Unassign -----

  /** Associations of everybody but `a`. */
  ghost function Foreign(s: Sys, a: Instance): map<nat, Assoc> {
    map x | x in s.assocs && s.assocs[x].instance != a :: s.assocs[x]
  }

  /** At most one association, and none once Unassign has returned nil. */
  ghost predicate ReleasedFree(s: Sys, a: Instance) {
    OneAssoc(s, a) && (a in s.agents && s.agents[a].Released? ==> !Attached(s, a))
  }

  lemma ReleasedFreeStep(s: Sys, st: Step, a: Instance)
    requires Inv(s) && ReleasedFree(s, a)
    ensures ReleasedFree(Next(s, st), a)
  {
    StepChanges(s, st);
    if Enabled(s, st) && st.call.Disassociate? && st.a == a {
      ReleasedIsUnattached(s, st);
    }
    if Enabled(s, st) && st.a == a {
      assert Next(s, st).agents[a].Released? ==> st.call.Disassociate?;
    }
  }

  /** An instance that starts with no elastic IP and, on its own, ends with a successful Unassign leaves the
      free pool, and all associations, exactly as they were, whatever it did in between. */
  lemma {:induction false} AssignUnassignRestores(s: Sys, steps: seq<Step>, a: Instance, t: Sys)
    requires Init(s) && t == Runs.Exec(Next, s, steps)
    requires forall i :: 0 <= i < |steps| ==> steps[i].a == a
    requires !Attached(s, a) && a in t.agents && t.agents[a].Released?
    ensures !Attached(t, a) && FreePool(t) == FreePool(s) && t.assocs == s.assocs
  {
    AloneKeeps(s, steps, a);
    ReleasedRun(s, steps, a);
    hide Next, Runs.Exec;
    assert Foreign(t, a) == t.assocs && Foreign(s, a) == s.assocs;
  }

  lemma {:induction false} ReleasedRun(s: Sys, steps: seq<Step>, a: Instance)
    requires Init(s) && !Attached(s, a)
    ensures ReleasedFree(Runs.Exec(Next, s, steps), a)
  {
    assert Inv(s) && ReleasedFree(s, a);
    hide Next, Inv, ReleasedFree;
    var any := (t: Sys, st: Step) => true;
    var kept := (t: Sys) => Inv(t) && ReleasedFree(t, a);
    forall t, st | kept(t) ensures kept(Next(t, st)) { InvStep(t, st); ReleasedFreeStep(t, st, a); }
    Runs.Invariance(Next, any, kept, s, steps);
  }

  lemma ForeignKept(s: Sys, st: Step)
    requires Inv(s)
    ensures Next(s, st).eips == s.eips && Foreign(Next(s, st), st.a) == Foreign(s, st.a)
  {
    hide Next;
    StepChanges(s, st);
    assert Changes(s, Next(s, st), st.a, st.call);
  }

  lemma {:induction false} AloneKeeps(s: Sys, steps: seq<Step>, a: Instance)
    requires Init(s)
    requires forall i :: 0 <= i < |steps| ==> steps[i].a == a
    ensures var t := Runs.Exec(Next, s, steps); t.eips == s.eips && Foreign(t, a) == Foreign(s, a)
  {
    assert Inv(s);
    hide Next, Foreign, Inv;
    var mine := (t: Sys, st: Step) => st.a == a;
    var same := (t: Sys) => Inv(t) && t.eips == s.eips && Foreign(t, a) == Foreign(s, a);
    forall t, st | same(t) && mine(t, st) ensures same(Next(t, st)) { InvStep(t, st); ForeignKept(t, st); }
    Runs.Invariance(Next, mine, same, s, steps);
  }

  /** After a successful Unassign an instance that never had two has none. */
  lemma ReleasedIsUnattached(s: Sys, st: Step)
    requires Inv(s) && Enabled(s, st) && st.call.Disassociate?
    requires OneAssoc(s, st.a)
    ensures !Attached(Next(s, st), st.a) && Next(s, st).agents[st.a].Released?
  {
    assert AgentInv(s, st.a, s.agents[st.a]);
  }

  // ----- An Unassign without failing calls, on its own -----

  /** The calls of an Unassign that finds the association `x`, none of which fails. */
  function Release(a: Instance, x: nat): seq<Step> {
    [Step(a, StartRelease), Step(a, FindAssigned(x)), Step(a, Disassociate)]
  }

  /** It succeeds from wherever Unassign may be called, for whichever association of the instance is found. */
  lemma {:induction false} ReleaseAlone(s: Sys, a: Instance, x: nat)
    requires a in s.agents && CanCall(s, a, s.agents[a], StartRelease) && x in s.assocs && s.assocs[x].instance == a
    ensures Runs.Exec(Next, s, Release(a, x)) == s.(assocs := s.assocs - {x}, agents := s.agents[a := Released])
  {
    var ls := Release(a, x);
    ReleaseSteps(s, a, x);
    hide Next;
    assert ls[..2][..1] == ls[..1] && ls[..1][..0] == [];
    assert Runs.Exec(Next, s, ls[..1]) == Next(s, ls[0]);
    assert Runs.Exec(Next, s, ls[..2]) == Next(Next(s, ls[0]), ls[1]);
  }

  lemma ReleaseSteps(s: Sys, a: Instance, x: nat)
    requires a in s.agents && CanCall(s, a, s.agents[a], StartRelease) && x in s.assocs && s.assocs[x].instance == a
    ensures var s1, s2 := s.(agents := s.agents[a := Releasing]), s.(agents := s.agents[a := Disassociating(x)]);
      && Next(s, Step(a, StartRelease)) == s1 && Next(s1, Step(a, FindAssigned(x))) == s2
      && Next(s2, Step(a, Disassociate)) == s.(assocs := s.assocs - {x}, agents := s.agents[a := Released])
  {
    hide InUse, Attached, AllFree;
    var s1, s2 := s.(agents := s.agents[a := Releasing]), s.(agents := s.agents[a := Disassociating(x)]);
    assert s.agents[a := Releasing][a := Disassociating(x)] == s.agents[a := Disassociating(x)];
    assert s.agents[a := Disassociating(x)][a := Released] == s.agents[a := Released];
  }

  /** After any run, if `a`'s Assign has just succeeded, an Unassign without failing calls succeeds. It takes
      an association of `a`; if `a` had none before, that is the one it was given, and nothing is left. */
  lemma AssignThenReleaseAlone(s: Sys, steps: seq<Step>, a: Instance, t: Sys) returns (x: nat)
    requires Init(s) && t == Runs.Exec(Next, s, steps) && !Attached(s, a)
    requires a in t.agents && t.agents[a].Done? && t.agents[a].outcome.Bound?
    ensures x in t.assocs && t.assocs[x] == Assoc(t.agents[a].outcome.eip, a)
    ensures var u := Runs.Exec(Next, s, steps + Release(a, x));
      u.assocs == t.assocs - {x} && a in u.agents && u.agents[a].Released? && !Attached(u, a)
  {
    InvRun(s, steps, |steps|);
    assert steps[..|steps|] == steps;
    AtMostOne(s, steps, a);
    hide Next;
    assert AgentInv(t, a, t.agents[a]);
    x :| x in t.assocs && t.assocs[x] == Assoc(t.agents[a].outcome.eip, a);
    Runs.ExecAppend(Next, s, steps, Release(a, x));
    ReleaseAlone(t, a, x);
  }

  /** An instance on its own: a successful Assign followed by an Unassign without failing calls leaves the
      free pool and all associations exactly as they were. */
  lemma RoundTripRestores(s: Sys, steps: seq<Step>, a: Instance, t: Sys) returns (x: nat)
    requires Init(s) && t == Runs.Exec(Next, s, steps) && !Attached(s, a)
    requires forall i :: 0 <= i < |steps| ==> steps[i].a == a
    requires a in t.agents && t.agents[a].Done? && t.agents[a].outcome.Bound?
    ensures var u := Runs.Exec(Next, s, steps + Release(a, x)); FreePool(u) == FreePool(s) && u.assocs == s.assocs
  {
    x := AssignThenReleaseAlone(s, steps, a, t);
    hide Next, Runs.Exec, Init, Attached;
    AssignUnassignRestores(s, steps + Release(a, x), a, Runs.Exec(Next, s, steps + Release(a, x)));
  }
}
