/** When an Assign binds: under the lock its candidates stay available, so it binds the first one listed
    unless a call fails. */
module OciBinding {
  import opened Wrappers
  import opened OciFilter
  import opened OciProtocol
  import opened OciSafety
  import opened OciCases
  import opened OciRelease
  import Runs

  /** The candidates from `k` on are available. */
  ghost predicate Open(ips: seq<PublicIp>, ids: seq<nat>, k: nat) {
    forall j :: k <= j < |ids| ==> ids[j] < |ips| && ips[ids[j]].state.Available?
  }

  ghost predicate Choosing(ips: seq<PublicIp>, pc: Pc) {
    match pc
    case Trying(ids, k) => Open(ips, ids, k)
    case Binding(ids, k) => Open(ips, ids, k)
    case _ => true
  }

  ghost predicate AllOpen(s: Sys) {
    forall a :: a in s.agents ==> Choosing(s.ips, s.agents[a].pc)
  }

  lemma ListedOpen(ips: seq<PublicIp>, filters: OCIFilters)
    ensures Open(ips, Fetch(ips, Some(filters), false), 0)
  {
    FetchExactly(ips, Some(filters), false);
    var ids := Fetch(ips, Some(filters), false);
    assert forall j :: 0 <= j < |ids| ==> ids[j] in ids;
    hide Fetch;
  }

  predicate IsChoosing(call: Call) {
    call.ListFree? || call.Recheck? || call.RecheckFails? || call.BindFails?
  }

  /** Listing and re-checking leave the candidates ahead available. */
  lemma LoopOpen(s: Sys, st: Step)
    requires Enabled(s, st) && IsChoosing(st.call) && Choosing(s.ips, s.agents[st.a].pc)
    ensures Next(s, st).ips == s.ips && Choosing(s.ips, Next(s, st).agents[st.a].pc)
  {
    ListedOpen(s.ips, s.agents[st.a].filters);
    hide Fetch, FirstWith;
  }

  lemma OutsideOpen(s: Sys, st: Step)
    requires Enabled(s, st) && !IsChoosing(st.call)
    ensures forall ips :: Choosing(ips, Next(s, st).agents[st.a].pc)
  {
    hide Open, Fetch, FetchEphemeral, FirstWith, VnicAddress, Effect;
  }

  lemma OthersOpen(s: Sys, st: Step, b: Vnic)
    requires Inv(s) && Exclusive(s) && b in s.agents && b != st.a && Choosing(s.ips, s.agents[b].pc)
    ensures Choosing(Next(s, st).ips, s.agents[b].pc)
  {
    OthersView(s, st, b);
    hide Next, Inv;
    assert s.agents[b].pc.Trying? || s.agents[b].pc.Binding? ==> !(st.a in s.agents && InAssign(s.agents[st.a].pc));
  }

  lemma OpenStep(s: Sys, st: Step)
    requires Inv(s) && Exclusive(s) && AllOpen(s)
    ensures AllOpen(Next(s, st))
  {
    if Enabled(s, st) {
      if IsChoosing(st.call) { LoopOpen(s, st); } else { OutsideOpen(s, st); }
      hide Answer, Effect, Enabled, Choosing, Inv, Exclusive;
      forall b | b in Next(s, st).agents ensures Choosing(Next(s, st).ips, Next(s, st).agents[b].pc) {
        if b != st.a { OthersOpen(s, st, b); }
      }
    }
  }

  /** All that is kept in every run in which the lock excludes. */
  ghost predicate Good(s: Sys) {
    Inv(s) && AllOpen(s) && AllKnown(s)
  }

  lemma GoodStep(s: Sys, st: Step)
    requires Good(s) && Exclusive(s)
    ensures Good(Next(s, st))
  {
    InvStep(s, st);
    OpenStep(s, st);
    KnownStep(s, st);
    hide Inv, AllOpen, AllKnown, Next;
  }

  lemma {:induction false} OpenRun(s: Sys, steps: seq<Step>, n: nat)
    requires Init(s) && Excluded(s, steps) && n <= |steps|
    ensures var t := Runs.Exec(Next, s, steps[..n]); Inv(t) && AllOpen(t)
  {
    assert Inv(s) && AllOpen(s);
    hide Next, Inv, AllOpen;
    var hyp := (t: Sys, st: Step) => Exclusive(t);
    var good := (t: Sys) => Inv(t) && AllOpen(t);
    Runs.AlwaysPrefix(Next, hyp, s, steps, n);
    forall t, st | good(t) && hyp(t, st) ensures good(Next(t, st)) { InvStep(t, st); OpenStep(t, st); }
    Runs.Invariance(Next, hyp, good, s, steps[..n]);
  }

  /** Nothing in the listing can be bound, or the VNIC's address is reserved but not in the state assigned. */
  ghost predicate NothingToDo(s: Sys, st: Step)
    requires st.a in s.agents
  {
    var ag := s.agents[st.a];
    || (st.call.ListFree? && forall i :: 0 <= i < |s.ips| ==> !Listed(s.ips[i], Some(ag.filters), Available))
    || (st.call.ListEphemeral? && HoldsStuck(s, st.a))
  }

  /** In every run in which the lock excludes, a re-check that is answered always finds its candidate
      available, and a call that goes through makes an Assign fail only when there is nothing to bind or
      the VNIC's address is a reserved one in between states: a candidate is lost only to a failing call. */
  lemma {:induction false} LostOnlyToFailures(s: Sys, steps: seq<Step>, n: nat)
    requires Init(s) && Excluded(s, steps) && n < |steps|
    ensures var t, st := Runs.Exec(Next, s, steps[..n]), steps[n];
      Enabled(t, st) && !IsFailing(st.call) ==>
        && st.a in Next(t, st).agents
        && (st.call.Recheck? ==> Next(t, st).agents[st.a].pc == Binding(t.agents[st.a].pc.ids, t.agents[st.a].pc.k))
        && (st.call.Bind? ==> Next(t, st).agents[st.a].pc == Done(Bound(t.agents[st.a].pc.ids[t.agents[st.a].pc.k])))
        && (Next(t, st).agents[st.a].pc == Done(Failed) ==> NothingToDo(t, st))
  {
    OpenRun(s, steps, n);
    KnownRun(s, steps, n);
    var t, st := Runs.Exec(Next, s, steps[..n]), steps[n];
    if Enabled(t, st) && !IsFailing(st.call) {
      hide Runs.Exec, Inv, Excluded, Init, Known;
      if st.call.Recheck? || st.call.Bind? { RecheckBinds(t, st); } else { FailsFor(t, st); }
    }
  }

  lemma RecheckBinds(s: Sys, st: Step)
    requires AllOpen(s) && Enabled(s, st) && (st.call.Recheck? || st.call.Bind?)
    ensures var pc := s.agents[st.a].pc;
      st.a in Next(s, st).agents
      && Next(s, st).agents[st.a].pc == if st.call.Recheck? then Binding(pc.ids, pc.k) else Done(Bound(pc.ids[pc.k]))
  {
    assert Choosing(s.ips, s.agents[st.a].pc);
    hide Fetch, FetchEphemeral, FirstWith, VnicAddress, AllOpen;
  }

  lemma FailsFor(s: Sys, st: Step)
    requires Inv(s) && Enabled(s, st) && Known(s, st.a) && !IsFailing(st.call) && !st.call.Recheck? && !st.call.Bind?
    ensures st.a in Next(s, st).agents && (Next(s, st).agents[st.a].pc == Done(Failed) ==> NothingToDo(s, st))
  {
    var ag := s.agents[st.a];
    StaysAgent(s, st);
    if st.call.ListEphemeral? {
      var i := HeldInCase(s, st);
      EphemeralAnswer(s, st, i);
    } else {
      if st.call.ListFree? { FetchExactly(s.ips, Some(ag.filters), false); }
      hide Fetch, FetchEphemeral, FirstWith, VnicAddress, Effect, Listed, Inv;
    }
  }

  /** Whether or not the lock excludes, a candidate that is not available, or for which a call fails, is left
      as it is and followed by the next one; Assign fails after the last. */
  lemma NextOneTried(s: Sys, st: Step, ids: seq<nat>, k: nat)
    requires Enabled(s, st) && k < |ids|
    requires || (st.call.Recheck? && s.agents[st.a].pc == Trying(ids, k) && !s.ips[ids[k]].state.Available?)
             || (st.call.RecheckFails? && s.agents[st.a].pc == Trying(ids, k))
             || (st.call.BindFails? && s.agents[st.a].pc == Binding(ids, k))
    ensures st.a in Next(s, st).agents && Next(s, st).ips == s.ips
    ensures Next(s, st).agents[st.a].pc == if k + 1 < |ids| then Trying(ids, k + 1) else Done(Failed)
  {
    hide Fetch, FetchEphemeral, FirstWith, VnicAddress;
  }

  /** The two calls of the fallback loop, when they go through. */
  predicate IsBinding(call: Call) {
    call.Recheck? || call.Bind?
  }

  function After(ids: seq<nat>, calls: nat): Pc
    requires |ids| > 0
  {
    if calls == 0 then Trying(ids, 0) else if calls == 1 then Binding(ids, 0) else Done(Bound(ids[0]))
  }

  /** Interleaved with everybody else, an agent with candidates whose calls go through binds the first one
      listed with its second call. */
  lemma {:induction false} FirstListedBound(s: Sys, steps: seq<Step>, a: Vnic, ids: seq<nat>)
    requires Inv(s) && AllOpen(s) && Excluded(s, steps)
    requires |ids| > 0 && a in s.agents && s.agents[a].pc == Trying(ids, 0)
    requires forall j :: 0 <= j < |steps| && steps[j].a == a ==> IsBinding(steps[j].call)
    ensures var t := Runs.Exec(Next, s, steps);
      && Inv(t) && AllOpen(t) && a in t.agents && t.agents[a].pc == After(ids, Made(s, steps, a))
      && (Made(s, steps, a) >= 2 ==> Holds(t, a, ids[0]))
  {
    if |steps| > 0 {
      var n := |steps| - 1;
      var u := Runs.Exec(Next, s, steps[..n]);
      Runs.AlwaysPrefix(Next, (t: Sys, st: Step) => Exclusive(t), s, steps, n);
      FirstListedBound(s, steps[..n], a, ids);
      assert Exclusive(u);
      hide Next, Inv, AllOpen, Exclusive, Enabled;
      InvStep(u, steps[n]);
      OpenStep(u, steps[n]);
      BindingStep(u, steps[n], a, ids, Made(s, steps[..n], a));
    }
    BoundHeld(Runs.Exec(Next, s, steps), a);
  }

  lemma BindingStep(s: Sys, st: Step, a: Vnic, ids: seq<nat>, calls: nat)
    requires Inv(s) && AllOpen(s) && |ids| > 0 && a in s.agents && s.agents[a].pc == After(ids, calls)
    requires st.a == a ==> IsBinding(st.call)
    ensures a in Next(s, st).agents
    ensures Next(s, st).agents[a].pc == After(ids, calls + (if st.a == a && Enabled(s, st) then 1 else 0))
  {
    if st.a == a && Enabled(s, st) { RecheckBinds(s, st); }
    hide Answer, Effect, Inv, AllOpen;
  }

  lemma BoundHeld(s: Sys, a: Vnic)
    requires Inv(s) && a in s.agents
    ensures s.agents[a].pc.Done? && s.agents[a].pc.outcome.Bound? ==> Holds(s, a, s.agents[a].pc.outcome.id)
  {
    assert AgentInv(s, a, s.agents[a].pc);
  }
}
