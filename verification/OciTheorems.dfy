/** The main results about OCI: no address is taken from its owner, the pool is conserved, an Assign
    followed by an Unassign restores it, and without the lock the first of these fails. */
module OciTheorems {
  import opened Wrappers
  import opened Lists
  import opened OciFilter
  import opened OciProtocol
  import opened OciSafety
  import opened OciPool
  import Counting
  import Runs

  lemma {:induction false} InvRun(s: Sys, steps: seq<Step>, n: nat)
    requires Init(s) && Excluded(s, steps) && n <= |steps|
    ensures Inv(Runs.Exec(Next, s, steps[..n]))
  {
    hide Next;
    var hyp := (t: Sys, st: Step) => Exclusive(t);
    Runs.AlwaysPrefix(Next, hyp, s, steps, n);
    forall t, st | Inv(t) && hyp(t, st) ensures Inv(Next(t, st)) { InvStep(t, st); }
    Runs.Invariance(Next, hyp, Inv, s, steps[..n]);
  }

  /** No step of any run takes an address from another agent: a bind lands on an address nobody holds,
      and an address leaves its holder only by the holder's own step. */
  lemma {:induction false} NoSteal(s: Sys, steps: seq<Step>, n: nat)
    requires Init(s) && Excluded(s, steps) && n < |steps|
    ensures var t, st := Runs.Exec(Next, s, steps[..n]), steps[n];
      && (Enabled(t, st) && st.call.Bind? ==>
            var pc := t.agents[st.a].pc;
            t.ips[pc.ids[pc.k]].state.Available? && t.ips[pc.ids[pc.k]].target.None?
                && Holds(Next(t, st), st.a, pc.ids[pc.k]))
      && (forall b, i :: Holds(t, b, i) && !Holds(Next(t, st), b, i) ==> st.a == b)
      && (forall b, i :: !Holds(t, b, i) && Holds(Next(t, st), b, i) ==> st.a == b && st.call.Bind?)
  {
    InvRun(s, steps, n);
    var t, st := Runs.Exec(Next, s, steps[..n]), steps[n];
    if Enabled(t, st) {
      assert AgentInv(t, st.a, t.agents[st.a].pc);
      WriteTarget(t, st);
    }
  }

  /** Each address has one holder by construction; each VNIC holds at most one, at every moment of every
      run, even of one in which the lock fails. */
  lemma {:induction false} OnePerVnic(s: Sys, steps: seq<Step>, a: Vnic, i: nat, j: nat)
    requires Init(s)
    requires Holds(Runs.Exec(Next, s, steps), a, i) && Holds(Runs.Exec(Next, s, steps), a, j)
    ensures i == j
  {
    PooledRun(s, steps);
    hide Next;
  }

  // ----- Conservation -----

  ghost function Reserved(s: Sys): set<nat> {
    set i | 0 <= i < |s.ips| && s.ips[i].reserved && !s.ips[i].state.Terminated?
  }

  ghost function FreePool(s: Sys): set<nat> {
    set i | i in Reserved(s) && s.ips[i].target.None?
  }

  ghost function HeldPool(s: Sys): set<nat> {
    set i | i in Reserved(s) && s.ips[i].target.Some?
  }

  lemma ReservedKept(s: Sys, st: Step)
    requires Pooled(s)
    ensures Reserved(Next(s, st)) == Reserved(s)
  {
    if Enabled(s, st) {
      StepWrites(s, st);
      hide Next;
      assert forall i :: 0 <= i < |s.ips| ==> Live(s.ips, i) == Live(Next(s, st).ips, i);
    }
  }

  /** Over every run, with or without exclusion, the reserved pool neither grows nor shrinks, free plus
      held is its size, and so no set of agents that hold reserved addresses outnumbers it. */
  lemma {:induction false} Conservation(s: Sys, steps: seq<Step>, holders: set<Vnic>)
    requires Init(s)
    requires var t := Runs.Exec(Next, s, steps);
      forall a :: a in holders ==> exists i :: i in HeldPool(t) && Holds(t, a, i)
    ensures var t := Runs.Exec(Next, s, steps);
      && Reserved(t) == Reserved(s) && |FreePool(t)| + |HeldPool(t)| == |Reserved(s)|
      && |holders| <= |HeldPool(t)| <= |Reserved(s)|
  {
    assert Pooled(s);
    hide Next, Pooled, Reserved, Runs.Exec;
    var any := (t: Sys, st: Step) => true;
    var same := (t: Sys) => Pooled(t) && Reserved(t) == Reserved(s);
    forall t, st | same(t) ensures same(Next(t, st)) { PooledStep(t, st); ReservedKept(t, st); }
    Runs.Invariance(Next, any, same, s, steps);
    Sizes(Runs.Exec(Next, s, steps), holders);
  }

  lemma Sizes(t: Sys, holders: set<Vnic>)
    requires forall a :: a in holders ==> exists i :: i in HeldPool(t) && Holds(t, a, i)
    ensures |FreePool(t)| + |HeldPool(t)| == |Reserved(t)| && |holders| <= |HeldPool(t)| <= |Reserved(t)|
  {
    assert FreePool(t) + HeldPool(t) == Reserved(t) && FreePool(t) !! HeldPool(t);
    var holder := (i: nat) => if i < |t.ips| && t.ips[i].target.Some? then t.ips[i].target.value else "";
    forall a | a in holders ensures exists i :: i in HeldPool(t) && holder(i) == a {
      var i :| i in HeldPool(t) && Holds(t, a, i);
      assert holder(i) == a;
    }
    Counting.ImageSize(holder, HeldPool(t), holders);
  }

  // ----- Assign then Unassign -----

  ghost function FreeOrMine(s: Sys, a: Vnic): set<nat> {
    set i | i in Reserved(s) && (s.ips[i].target.None? || s.ips[i].target == Some(a))
  }

  /** Only `a` is in a call. */
  ghost predicate Alone(s: Sys, a: Vnic) {
    forall b :: b in s.agents && b != a ==> s.agents[b].pc.Out?
  }

  lemma FreeOrMineKept(s: Sys, st: Step)
    requires Inv(s) && Pooled(s)
    ensures FreeOrMine(Next(s, st), st.a) == FreeOrMine(s, st.a)
  {
    if Enabled(s, st) {
      WriteTarget(s, st);
      ReservedKept(s, st);
      hide Next, Inv, Pooled;
    }
  }

  lemma AloneStep(s: Sys, st: Step, a: Vnic)
    requires Inv(s) && Pooled(s) && Alone(s, a) && st.a == a
    ensures Inv(Next(s, st)) && Pooled(Next(s, st)) && Alone(Next(s, st), a)
              && FreeOrMine(Next(s, st), a) == FreeOrMine(s, a)
  {
    assert Exclusive(s);
    InvStep(s, st);
    PooledStep(s, st);
    FreeOrMineKept(s, st);
    hide Inv, Pooled, FreeOrMine, Answer, Effect, Enabled;
  }

  lemma {:induction false} AloneKeeps(s: Sys, steps: seq<Step>, a: Vnic)
    requires Init(s) && forall i :: 0 <= i < |steps| ==> steps[i].a == a
    ensures var t := Runs.Exec(Next, s, steps);
      Inv(t) && Pooled(t) && Alone(t, a) && FreeOrMine(t, a) == FreeOrMine(s, a)
  {
    assert Inv(s) && Pooled(s) && Alone(s, a);
    hide Next, FreeOrMine, Inv, Pooled, Alone;
    var mine := (t: Sys, st: Step) => st.a == a;
    var same := (t: Sys) => Inv(t) && Pooled(t) && Alone(t, a) && FreeOrMine(t, a) == FreeOrMine(s, a);
    forall t, st | same(t) && mine(t, st) ensures same(Next(t, st)) { AloneStep(t, st, a); }
    Runs.Invariance(Next, mine, same, s, steps);
  }

  lemma NoneMine(s: Sys, a: Vnic)
    requires forall i :: i in Reserved(s) ==> !Holds(s, a, i)
    ensures FreeOrMine(s, a) == FreePool(s)
  {
  }

  lemma ReleasedHoldsNone(s: Sys, a: Vnic)
    requires Inv(s) && a in s.agents && s.agents[a].pc.Released?
    ensures HoldsNone(s, a) && forall i :: !Holds(s, a, i)
  {
    assert AgentInv(s, a, s.agents[a].pc);
  }

  /** Whatever one agent does on its own, once its Unassign has succeeded its VNIC has no public address
      and, if it held no reserved address at the start, the free pool is exactly what it was. That the
      Unassign succeeds is OciRelease.AssignThenRelease. */
  lemma {:induction false} AssignUnassignRestores(s: Sys, steps: seq<Step>, a: Vnic, t: Sys)
    requires Init(s) && t == Runs.Exec(Next, s, steps)
    requires forall i :: 0 <= i < |steps| ==> steps[i].a == a
    requires forall i :: i in Reserved(s) ==> !Holds(s, a, i)
    requires a in t.agents && t.agents[a].pc.Released?
    ensures FreePool(t) == FreePool(s) && HoldsNone(t, a)
  {
    hide *;
    AloneKeeps(s, steps, a);
    ReleasedHoldsNone(t, a);
    NoneMine(t, a);
    NoneMine(s, a);
  }

  // ----- Without the lock -----

  ghost predicate Steals(s: Sys, st: Step) {
    exists b, i :: Holds(s, b, i) && !Holds(Next(s, st), b, i) && st.a != b
  }

  const NO_FILTERS := OCIFilters(None)

  ghost function OneAddress(target: Option<Vnic>, pa: Pc, pb: Pc): Sys {
    Sys([PublicIp("198.51.100.1", true, None, if target.Some? then Assigned else Available, target)],
        map["a" := Agent(NO_FILTERS, pa), "b" := Agent(NO_FILTERS, pb)])
  }

  lemma OneFetched(t: Sys)
    requires |t.ips| == 1 && t.ips[0].reserved && t.ips[0].state.Available?
    ensures Fetch(t.ips, Some(NO_FILTERS), false) == [0]
  {
    assert Indices(1) == [0];
    assert Filtered(Selects(t.ips, Some(NO_FILTERS), false), [0]) == [] + [0];
  }

  /** `c` runs Assign up to the bind of the one free address. */
  lemma ReachesBind(s: Sys, t: Sys, c: Vnic, any: (Sys, Step) -> bool)
    requires forall u: Sys, st: Step :: st.a == c ==> any(u, st)
    requires Runs.Reaches(Next, any, s, t) && c in t.agents && t.agents[c] == Agent(NO_FILTERS, Out)
    requires |t.ips| == 1 && t.ips[0].reserved && t.ips[0].state.Available? && t.ips[0].target.None?
    ensures Runs.Reaches(Next, any, s, t.(agents := t.agents[c := Agent(NO_FILTERS, Binding([0], 0))]))
  {
    hide Runs.Reaches;
    var calls := [Enter, GetVnic, GetPrivateIp, ListFree, Recheck];
    var pcs := [Out, Locked, Clear, Ready, Trying([0], 0), Binding([0], 0)];
    OneFetched(t);
    assert t.agents[c := Agent(NO_FILTERS, Out)] == t.agents;
    for k := 0 to 5
      invariant Runs.Reaches(Next, any, s, t.(agents := t.agents[c := Agent(NO_FILTERS, pcs[k])]))
    {
      var u := t.(agents := t.agents[c := Agent(NO_FILTERS, pcs[k])]);
      Runs.ReachesNext(Next, any, s, u, Step(c, calls[k]));
      assert Next(u, Step(c, calls[k])) == t.(agents := t.agents[c := Agent(NO_FILTERS, pcs[k + 1])]);
    }
  }

  ghost function ByTwo(): (Sys, Step) -> bool {
    (t: Sys, st: Step) => st.a == "a" || st.a == "b"
  }

  /** With exclusion dropped, two agents check the same address before either binds it, and the second
      bind, which overwrites, takes it from the first. */
  lemma StealWithoutLock()
    ensures Init(OneAddress(None, Out, Out))
    ensures exists t, st :: Runs.Reaches(Next, ByTwo(), OneAddress(None, Out, Out), t) && ByTwo()(t, st)
              && Steals(t, st)
  {
    hide Runs.Reaches;
    var any := ByTwo();
    var s := OneAddress(None, Out, Out);
    Runs.ReachesSelf(Next, any, s);
    ReachesBind(s, s, "a", any);
    var t := OneAddress(None, Binding([0], 0), Out);
    assert t.agents == s.agents["a" := Agent(NO_FILTERS, Binding([0], 0))];
    ReachesBind(s, t, "b", any);
    var u := OneAddress(None, Binding([0], 0), Binding([0], 0));
    assert u.agents == t.agents["b" := Agent(NO_FILTERS, Binding([0], 0))];
    Runs.ReachesNext(Next, any, s, u, Step("a", Bind));
    var v := Next(u, Step("a", Bind));
    assert Holds(v, "a", 0) && !Holds(Next(v, Step("b", Bind)), "a", 0);
    assert Steals(v, Step("b", Bind));
  }
}
