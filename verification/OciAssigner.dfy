/** internal/address/oci.go in its own form. The methods' API calls interleave with any steps of other
    agents that the lock allows, and together they are a run of OciProtocol. */
module OciAssigner {
  import opened Wrappers
  import opened Lists
  import opened OciFilter
  import opened OciProtocol
  import opened OciSafety
  import opened OciCases
  import opened OciBinding
  import Runs

  /** The compartment, and everybody who uses it. */
  class Cloud {
    var s: Sys
    ghost const start: Sys
    ghost var log: seq<Step>

    /** The state is reached from a clean start by a run in which the lock excludes. */
    ghost predicate Valid()
      reads this
    {
      Init(start) && Excluded(start, log) && s == Runs.Exec(Next, start, log) && Exclusive(s) && Good(s)
    }

    constructor (start: Sys)
      requires Init(start)
      ensures Valid() && s == start && log == []
    {
      GoodStart(start);
      s, log, this.start := start, [], start;
    }

    ghost predicate At(me: Vnic, pc: Pc)
      reads this
    {
      me in s.agents && s.agents[me].pc == pc
    }

    ghost function Writes(me: Vnic): nat
      reads this
    {
      Count(IsWrite, log, me)
    }

    ghost function Tries(me: Vnic): nat
      reads this
    {
      Count(IsTry, log, me)
    }

    ghost function Fails(me: Vnic): nat
      reads this
    {
      Count(IsFailing, log, me)
    }

    method Take(st: Step)
      requires Valid() && Exclusive(Next(s, st))
      modifies this
      ensures Valid() && s == Next(old(s), st) && log == old(log) + [st]
    {
      Runs.AlwaysSnoc(Next, (t: Sys, st: Step) => Exclusive(t), start, log, st);
      GoodStep(s, st);
      hide Good, Next;
      s, log := Next(s, st), log + [st];
    }

    /** Any finite number of steps of other agents that keep the lock exclusive. */
    method Interfere(me: Vnic)
      requires Valid() && me in s.agents
      modifies this
      ensures Valid() && old(log) <= log && me in s.agents && s.agents[me] == old(s).agents[me]
      ensures Writes(me) == old(Writes(me)) && Tries(me) == old(Tries(me)) && Fails(me) == old(Fails(me))
      ensures SameAddresses(old(s).ips, s.ips) && SameHeld(old(s), s, me)
    {
      hide Next, Runs.Exec, Good, Excluded, Count, Exclusive, SameHeld;
      HeldSelf(s, me);
      var n: nat := *;
      while n > 0
        invariant Valid() && old(log) <= log && me in s.agents && s.agents[me] == old(s).agents[me]
        invariant Writes(me) == old(Writes(me)) && Tries(me) == old(Tries(me)) && Fails(me) == old(Fails(me))
        invariant SameAddresses(old(s).ips, s.ips) && SameHeld(old(s), s, me)
      {
        var st: Step := *;
        if st.a != me && Exclusive(Next(s, st)) {
          OtherAgents(s, st, me);
          AddressesStay(s, st);
          OthersHeld(s, st, me);
          HeldTrans(old(s), s, Next(s, st), me);
          CountSnoc(IsWrite, log, st, me);
          CountSnoc(IsTry, log, st, me);
          CountSnoc(IsFailing, log, st, me);
          Take(st);
        }
        n := n - 1;
      }
    }

    /** `t` is a state the run went through since its step number `from`. */
    ghost predicate Passed(from: nat, t: Sys)
      reads this
    {
      Runs.Passes(Next, start, log, from, t)
    }

    /** One call of `me` after everybody else had their turn, in the state `t`: `asked`, or its failure
        `failing`. */
    method Call(me: Vnic, asked: OciProtocol.Call, failing: OciProtocol.Call)
        returns (seen: seq<PublicIp>, ok: bool, ghost t: Sys)
      requires Valid() && me in s.agents && CanCall(s, s.agents[me].pc, asked) && CanCall(s, s.agents[me].pc, failing)
      requires !asked.Enter? && !IsFailing(asked) && IsFailing(failing)
      modifies this
      ensures Valid() && me in s.agents && s.agents[me].filters == old(s).agents[me].filters
      ensures old(log) <= log && Passed(|old(log)|, t)
      ensures Runs.StepsFrom(Next, start, log, |old(log)|, t, Exactly(Step(me, if ok then asked else failing)))
      ensures var pc, call := old(s).agents[me].pc, if ok then asked else failing;
        && t.ips == seen && me in t.agents && t.agents[me] == old(s).agents[me] && CanCall(t, pc, call) && Good(t)
        && SameHeld(old(s), t, me)
        && SameAddresses(old(s).ips, seen) && SameAddresses(seen, s.ips)
        && s.ips == Effect(t, me, pc, call) && s.agents[me].pc == Answer(t, me, t.agents[me], call)
        && (!IsWrite(call) ==> SameHeld(old(s), s, me))
        && Writes(me) == old(Writes(me)) + (if IsWrite(call) then 1 else 0)
        && Tries(me) == old(Tries(me)) + (if IsTry(call) then 1 else 0)
        && Fails(me) == old(Fails(me)) + (if ok then 0 else 1)
    {
      hide Valid, Runs.Passes, Runs.StepsFrom, Runs.Exec, Next, Good, Exclusive, Count, Answer, Effect, CanCall,
          SameAddresses, SameHeld;
      Interfere(me);
      ok := *;
      seen, t := s.ips, s;
      ValidGood(this);
      StaysCallable(old(s), s, me, asked);
      StaysCallable(old(s), s, me, failing);
      PassedNow(this, |old(log)|);
      ghost var before := log;
      ReadHeld(s, me, if ok then asked else failing);
      ghost var was := s;
      Commit(me, if ok then asked else failing);
      PassedLater(this, before, |old(log)|, |old(log)|, t);
      if !IsWrite(if ok then asked else failing) { HeldTrans(old(s), was, s, me); }
      SteppedNow(this, before, Step(me, if ok then asked else failing), |old(log)|, t);
    }

    /** `me`'s own call, in the present state. */
    method Commit(me: Vnic, call: OciProtocol.Call)
      requires Valid() && me in s.agents && CanCall(s, s.agents[me].pc, call) && !call.Enter?
      modifies this
      ensures log == old(log) + [Step(me, call)]
      ensures Valid() && me in s.agents && s.agents[me].filters == old(s).agents[me].filters
      ensures SameAddresses(old(s).ips, s.ips) && s.ips == Effect(old(s), me, old(s).agents[me].pc, call)
      ensures s.agents[me].pc == Answer(old(s), me, old(s).agents[me], call)
      ensures Writes(me) == old(Writes(me)) + (if IsWrite(call) then 1 else 0)
      ensures Tries(me) == old(Tries(me)) + (if IsTry(call) then 1 else 0)
      ensures Fails(me) == old(Fails(me)) + (if IsFailing(call) then 1 else 0)
    {
      hide Runs.Exec, Next, Good, Exclusive, Count, Excluded, Answer, Effect, CanCall, SameAddresses;
      var st := Step(me, call);
      KeepsExclusive(s, st);
      AddressesStay(s, st);
      OwnStep(s, st);
      CountSnoc(IsWrite, log, st, me);
      CountSnoc(IsTry, log, st, me);
      CountSnoc(IsFailing, log, st, me);
      Take(st);
    }
  }

  /** No call changes which addresses there are. */
  predicate SameAddresses(ips: seq<PublicIp>, ips': seq<PublicIp>) {
    |ips| == |ips'| && forall i :: 0 <= i < |ips| ==> ips[i].address == ips'[i].address
  }

  lemma AddressesStay(s: Sys, st: Step)
    requires Good(s)
    ensures SameAddresses(s.ips, Next(s, st).ips)
  {
    if Enabled(s, st) { WriteTarget(s, st); }
  }

  lemma {:induction false} CountSnoc(kind: OciProtocol.Call -> bool, log: seq<Step>, st: Step, me: Vnic)
    ensures Count(kind, log + [st], me) == Count(kind, log, me) + (if st.a == me && kind(st.call) then 1 else 0)
  {
    assert (log + [st])[..|log|] == log;
  }

  lemma OwnStep(s: Sys, st: Step)
    requires st.a in s.agents && CanCall(s, s.agents[st.a].pc, st.call)
    ensures var s' := Next(s, st);
      && st.a in s'.agents && s'.agents[st.a].filters == s.agents[st.a].filters
      && s'.ips == Effect(s, st.a, s.agents[st.a].pc, st.call)
      && s'.agents[st.a].pc == Answer(s, st.a, s.agents[st.a], st.call)
  {
  }

  lemma GoodStart(s: Sys)
    requires Init(s)
    ensures Good(s)
  {
  }

  lemma ValidGood(c: Cloud)
    requires c.Valid()
    ensures Good(c.s) && c.s == Runs.Exec(Next, c.start, c.log)
  {
  }

  lemma HeldSelf(s: Sys, a: Vnic)
    ensures SameHeld(s, s, a)
  {
  }

  lemma HeldTrans(s: Sys, t: Sys, u: Sys, a: Vnic)
    requires SameHeld(s, t, a) && SameHeld(t, u, a)
    ensures SameHeld(s, u, a)
  {
  }

  /** A call that reads leaves everything as it is. */
  lemma ReadHeld(s: Sys, a: Vnic, call: OciProtocol.Call)
    requires a in s.agents && CanCall(s, s.agents[a].pc, call)
    ensures !IsWrite(call) ==>
              forall t: Sys :: t.ips == Effect(s, a, s.agents[a].pc, call) ==> t.ips == s.ips && SameHeld(s, t, a)
  {
  }

  /** What holds of the VNIC's address goes on holding. */
  lemma HeldSame(s: Sys, t: Sys, a: Vnic)
    requires SameHeld(s, t, a) && a in s.agents && a in t.agents && s.agents[a].filters == t.agents[a].filters
    ensures HoldsSelected(s, a) <==> HoldsSelected(t, a)
    ensures HoldsStuck(s, a) <==> HoldsStuck(t, a)
  {
    if i: nat :| Holds(s, a, i) && Selected(s, a, i) { assert Holds(t, a, i) && Selected(t, a, i); }
    if i: nat :| Holds(t, a, i) && Selected(t, a, i) { assert Holds(s, a, i) && Selected(s, a, i); }
    if i: nat :| Holds(s, a, i) && Stuck(s.ips[i]) { assert Holds(t, a, i) && Stuck(t.ips[i]); }
    if i: nat :| Holds(t, a, i) && Stuck(t.ips[i]) { assert Holds(s, a, i) && Stuck(s.ips[i]); }
  }

  lemma HeldHas(s: Sys, me: Vnic) returns (i: nat)
    requires Good(s) && me in s.agents
    requires var pc := s.agents[me].pc; pc.HaveVnic? || pc.NotFiltered? || pc.NotReserved? || pc.ReleaseVnic?
    ensures Holds(s, me, i) && (forall j: nat :: Holds(s, me, j) ==> j == i) && s.agents[me].pc.pub == s.ips[i].address
  {
    assert AgentInv(s, me, s.agents[me].pc);
    i :| 0 <= i < |s.ips| && s.ips[i].target == Some(me) && s.ips[i].address == s.agents[me].pc.pub;
    hide AgentInv;
  }

  /** The filtered listing has the VNIC's address exactly when the filters select it. */
  lemma {:induction false} CaseOne(s: Sys, me: Vnic, pub: string)
    requires Good(s) && me in s.agents && (s.agents[me].pc == HaveVnic(pub) || s.agents[me].pc == ReleaseVnic(pub))
    ensures FirstWith(s.ips, Fetch(s.ips, Some(s.agents[me].filters), true), pub).Some? <==> HoldsSelected(s, me)
  {
    var i := HeldHas(s, me);
    FetchExactly(s.ips, Some(s.agents[me].filters), true);
    FoundExactly(s, me, i, Fetch(s.ips, Some(s.agents[me].filters), true));
    hide Fetch, FirstWith, Inv, AllOpen, AllKnown;
  }

  lemma {:induction false} CaseTwo(s: Sys, me: Vnic, pub: string)
    requires Good(s) && me in s.agents && s.agents[me].pc == NotFiltered(pub)
    ensures FirstWith(s.ips, Fetch(s.ips, None, true), pub).Some? ==> !HoldsStuck(s, me)
  {
    var i := HeldHas(s, me);
    FetchExactly(s.ips, None, true);
    FoundExactly(s, me, i, Fetch(s.ips, None, true));
    hide Fetch, FirstWith, Inv, AllOpen, AllKnown;
  }

  lemma {:induction false} CaseThree(s: Sys, me: Vnic, pub: string)
    requires Good(s) && me in s.agents && s.agents[me].pc == NotReserved(pub)
    ensures FirstWith(s.ips, FetchEphemeral(s.ips), pub).None? <==> HoldsStuck(s, me)
  {
    var i := HeldHas(s, me);
    assert Known(s, me);
    FetchEphemeralExactly(s.ips);
    FoundExactly(s, me, i, FetchEphemeral(s.ips));
    hide FetchEphemeral, FirstWith, AllOpen, AllKnown;
  }

  lemma {:induction false} NoneHeld(s: Sys, me: Vnic)
    requires me in s.agents && VnicAddress(s.ips, me).None?
    ensures !HoldsSelected(s, me)
  {
    hide VnicAddress;
  }

  /** Under the lock a candidate stays available. */
  lemma StaysOpen(s: Sys, me: Vnic)
    requires Good(s) && me in s.agents && s.agents[me].pc.Trying?
    ensures var pc := s.agents[me].pc; pc.k < |pc.ids| ==>
              pc.ids[pc.k] < |s.ips| && s.ips[pc.ids[pc.k]].state.Available?
  {
    assert Choosing(s.ips, s.agents[me].pc);
    hide Inv, AllKnown;
  }

  lemma WasNone(s: Sys, me: Vnic)
    requires Good(s) && me in s.agents && s.agents[me].pc.Clear?
    ensures !HoldsSelected(s, me) && !HoldsStuck(s, me)
  {
    assert AgentInv(s, me, s.agents[me].pc);
  }

  lemma SelectedNotStuck(s: Sys, me: Vnic)
    requires Good(s) && me in s.agents && HoldsSelected(s, me)
    ensures !HoldsStuck(s, me)
  {
    assert CloudOk(s.ips);
    hide Inv, AllOpen, AllKnown;
  }

  /** The steps of others leave alone what an agent holds. */
  lemma OthersHeld(s: Sys, st: Step, a: Vnic)
    requires Good(s) && st.a != a
    ensures SameHeld(s, Next(s, st), a)
  {
    OthersView(s, st, a);
    hide Next, Inv, AllOpen, AllKnown;
    forall i: nat ensures Holds(s, a, i) <==> Holds(Next(s, st), a, i) {
    }
  }

  /** The present state is one the run went through. */
  lemma PassedNow(c: Cloud, from: nat)
    requires c.Valid() && from <= |c.log|
    ensures c.Passed(from, c.s)
  {
    hide Next, Good, Exclusive, Runs.Exec;
    Runs.PassesNow(Next, c.start, c.log, from);
  }

  ghost function Exactly(st: Step): Step -> bool {
    (x: Step) => x == st
  }

  /** The re-checks of `me`. */
  ghost function TryOf(me: Vnic): Step -> bool {
    (st: Step) => st.a == me && IsTry(st.call)
  }

  lemma {:induction false} SteppedNow(c: Cloud, log: seq<Step>, st: Step, from: nat, t: Sys)
    requires c.log == log + [st] && from <= |log| && t == Runs.Exec(Next, c.start, log)
    ensures Runs.StepsFrom(Next, c.start, c.log, from, t, Exactly(st))
  {
    Runs.StepsNow(Next, c.start, log, st, from, Exactly(st));
  }

  lemma TryNow(c: Cloud, st: Step, from: nat, t: Sys)
    requires Runs.StepsFrom(Next, c.start, c.log, from, t, Exactly(st)) && IsTry(st.call)
    ensures Runs.StepsFrom(Next, c.start, c.log, from, t, TryOf(st.a))
  {
    var n :| from <= n < |c.log| && t == Runs.Exec(Next, c.start, c.log[..n]) && Exactly(st)(c.log[n]);
    assert TryOf(st.a)(c.log[n]);
  }

  /** The states from which candidates number 0, 1, ... of `ids` were re-checked, one each. */
  ghost predicate Tried(start: Sys, log: seq<Step>, from: nat, me: Vnic, ids: seq<nat>, ts: seq<Sys>) {
    |ts| <= |ids| && forall j :: 0 <= j < |ts| ==>
      && Runs.StepsFrom(Next, start, log, from, ts[j], TryOf(me))
      && me in ts[j].agents && ts[j].agents[me].pc == Trying(ids, j)
  }

  lemma TriedLater(c: Cloud, log: seq<Step>, from: nat, earlier: nat, me: Vnic, ids: seq<nat>, ts: seq<Sys>)
    requires Tried(c.start, log, from, me, ids, ts) && log <= c.log && earlier <= from
    ensures Tried(c.start, c.log, earlier, me, ids, ts)
  {
    hide Runs.StepsFrom;
    forall j | 0 <= j < |ts| ensures Runs.StepsFrom(Next, c.start, c.log, earlier, ts[j], TryOf(me)) {
      Runs.StepsLater(Next, c.start, log, c.log, from, earlier, ts[j], TryOf(me));
    }
  }

  lemma NoneTried(start: Sys, from: nat, me: Vnic, ids: seq<nat>)
    ensures forall log :: Tried(start, log, from, me, ids, [])
  {
  }

  lemma TriedMore(c: Cloud, from: nat, me: Vnic, ids: seq<nat>, ts: seq<Sys>, t: Sys)
    requires Tried(c.start, c.log, from, me, ids, ts) && |ts| < |ids|
    requires Runs.StepsFrom(Next, c.start, c.log, from, t, TryOf(me)) && me in t.agents
               && t.agents[me].pc == Trying(ids, |ts|)
    ensures Tried(c.start, c.log, from, me, ids, ts + [t])
  {
    hide Runs.StepsFrom;
  }

  /** A state the run went through stays one. */
  lemma PassedLater(c: Cloud, log: seq<Step>, from: nat, earlier: nat, t: Sys)
    requires Runs.Passes(Next, c.start, log, from, t) && log <= c.log && earlier <= from
    ensures c.Passed(earlier, t)
  {
    Runs.PassesLater(Next, c.start, log, c.log, from, earlier, t);
  }

  lemma OtherAgents(s: Sys, st: Step, me: Vnic)
    requires me in s.agents && st.a != me
    ensures me in Next(s, st).agents && Next(s, st).agents[me] == s.agents[me]
  {
  }

  /** Nothing but Enter takes the lock. */
  lemma KeepsExclusive(s: Sys, st: Step)
    requires Exclusive(s) && !st.call.Enter?
    ensures Exclusive(Next(s, st))
  {
    hide FirstWith, Fetch, FetchEphemeral, VnicAddress, Effect;
  }

  /** What an agent can call depends on itself alone. */
  lemma StaysCallable(s: Sys, t: Sys, me: Vnic, call: OciProtocol.Call)
    requires me in s.agents && me in t.agents && s.agents[me] == t.agents[me] && Good(t)
    requires CanCall(s, s.agents[me].pc, call)
    ensures CanCall(t, t.agents[me].pc, call)
  {
    assert AgentInv(t, me, t.agents[me].pc);
  }

  lemma {:induction false} FilteredTwice(p: nat -> bool, q: nat -> bool, r: nat -> bool, ids: seq<nat>)
    requires forall i :: r(i) <==> p(i) && q(i)
    ensures Filtered(q, Filtered(p, ids)) == Filtered(r, ids)
  {
    if |ids| > 0 {
      var init, last := ids[..|ids| - 1], ids[|ids| - 1];
      FilteredTwice(p, q, r, init);
      var kept := Filtered(p, init);
      assert kept + [] == kept && (kept + [last])[..|kept|] == kept;
      assert p(last) ==> Filtered(q, kept + [last]) == Filtered(q, kept) + (if q(last) then [last] else []);
    }
  }

  lemma CallableWhenDetaching(s: Sys, me: Vnic)
    requires Good(s) && me in s.agents
    ensures var pc := s.agents[me].pc; (pc.Detaching? || pc.Deleting? || pc.Freeing?) ==> pc.id < |s.ips|
  {
    assert AgentInv(s, me, s.agents[me].pc);
  }

  lemma ReleasedNone(s: Sys, me: Vnic)
    requires Good(s) && me in s.agents && s.agents[me].pc.Released?
    ensures HoldsNone(s, me)
  {
    assert AgentInv(s, me, s.agents[me].pc);
  }

  lemma ClearNone(s: Sys, me: Vnic)
    requires Good(s) && me in s.agents && s.agents[me].pc.Clear?
    ensures HoldsNone(s, me)
  {
    assert AgentInv(s, me, s.agents[me].pc);
  }

  lemma OwnAddress(s: Sys, me: Vnic)
    requires Good(s) && me in s.agents && s.agents[me].pc.HaveVnic?
    ensures HoldsAddress(s, me, s.agents[me].pc.pub) && CloudOk(s.ips)
  {
    assert AgentInv(s, me, s.agents[me].pc);
  }

  lemma BoundReserved(s: Sys, me: Vnic)
    requires Good(s) && me in s.agents && s.agents[me].pc.Done? && s.agents[me].pc.outcome.Bound?
    ensures Holds(s, me, s.agents[me].pc.outcome.id) && s.ips[s.agents[me].pc.outcome.id].reserved
  {
    assert AgentInv(s, me, s.agents[me].pc);
  }

  lemma TryingInRange(s: Sys, me: Vnic)
    requires Good(s) && me in s.agents && (s.agents[me].pc.Trying? || s.agents[me].pc.Binding?)
    ensures var pc := s.agents[me].pc; pc.k < |pc.ids| && pc.ids[pc.k] < |s.ips|
  {
    assert AgentInv(s, me, s.agents[me].pc);
  }

  /** The outcome of one case of handlePublicIPAlreadyAssignedCase. */
  datatype CaseResult = Hit | Miss | Error

  datatype AssignError = StaticIPAlreadyAssigned(address: string) | AssignFailed

  /** ociAssigner for one instance. */
  class OciAssigner {
    const cloud: Cloud
    const me: Vnic
    const filters: OCIFilters

    constructor (cloud: Cloud, me: Vnic, filters: OCIFilters)
      ensures this.cloud == cloud && this.me == me && this.filters == filters
    {
      this.cloud, this.me, this.filters := cloud, me, filters;
    }

    ghost predicate Valid()
      reads this, cloud
    {
      cloud.Valid() && me in cloud.s.agents && cloud.s.agents[me].filters == filters
    }

    ghost predicate At(pc: Pc)
      reads this, cloud
    {
      Valid() && cloud.s.agents[me].pc == pc
    }

    /** ListPublicIps' tag filter and fetchPublicIps' lifecycle filter, on one answer of the service. */
    method FetchPublicIps(items: seq<PublicIp>, filters: Option<OCIFilters>, inUse: bool)
        returns (updatedList: seq<nat>)
      ensures updatedList == Fetch(items, filters, inUse)
    {
      var all := Indices(|items|);
      ghost var tagged := (i: nat) => i < |items| && items[i].reserved
          && (filters.Some? ==> CheckFreeformTagFilter(filters.value, items[i].tags));
      ghost var state := (i: nat) => i < |items| && items[i].state == if inUse then Assigned else Available;
      var list: seq<nat> := [];
      for i := 0 to |all|
        invariant list == Filtered(tagged, all[..i]) && forall j :: j in list ==> j < |items|
      {
        FilteredSnoc(tagged, all, i);
        var ip := items[all[i]];
        if ip.reserved && (filters.None? || CheckFreeformTagFilter(filters.value, ip.tags)) {
          list := list + [all[i]];
        }
      }
      var lifecycleState := if inUse then Assigned else Available;
      updatedList := [];
      for i := 0 to |list|
        invariant updatedList == Filtered(state, list[..i])
      {
        FilteredSnoc(state, list, i);
        assert list[i] in list;
        if items[list[i]].state == lifecycleState {
          updatedList := updatedList + [list[i]];
        }
      }
      assert all[..|all|] == all && list[..|list|] == list;
      FilteredTwice(tagged, state, Selects(items, filters, inUse), all);
    }

    /** The search for an address that the loops over a listing perform. */
    method Search(items: seq<PublicIp>, ids: seq<nat>, pub: string) returns (found: Option<nat>)
      ensures found == FirstWith(items, ids, pub)
    {
      for k := 0 to |ids|
        invariant FirstWith(items, ids, pub) == FirstWith(items, ids[k..], pub)
      {
        if ids[k] < |items| && items[ids[k]].address == pub {
          return Some(ids[k]);
        }
        assert ids[k..][1..] == ids[k + 1..];
      }
      return None;
    }

    /** Case 1: the VNIC's address is an assigned one that matches the filters. */
    method FindFiltered(pub: string) returns (r: CaseResult)
      requires At(HaveVnic(pub))
      modifies cloud
      ensures old(cloud.log) <= cloud.log && Valid() && cloud.Tries(me) == old(cloud.Tries(me))
                && cloud.Writes(me) == old(cloud.Writes(me))
      ensures At(match r
                 case Hit => Done(Already(pub))
                 case Miss => NotFiltered(pub)
                 case Error => Done(Failed))
      ensures r.Hit? ==> exists i: nat ::
                Holds(cloud.s, me, i) && Listed(cloud.s.ips[i], Some(filters), Assigned)
                    && cloud.s.ips[i].address == pub
      ensures cloud.Fails(me) == old(cloud.Fails(me)) + (if r.Error? then 1 else 0)
      ensures !r.Error? ==> (r.Hit? <==> HoldsSelected(old(cloud.s), me)) && SameHeld(old(cloud.s), cloud.s, me)
    {
      hide Cloud.Valid, Runs.Passes, Runs.StepsFrom, Exclusive, Count, FirstWith, Fetch, Good, SameHeld, HoldsSelected;
      var items, ok, t := cloud.Call(me, ListFiltered, CallFails);
      if !ok {
        return Error;
      }
      CaseOne(t, me, pub);
      HeldSame(old(cloud.s), t, me);
      var list := FetchPublicIps(items, Some(filters), true);
      var found := Search(items, list, pub);
      if found.Some? {
        FetchExactly(items, Some(filters), true);
        OwnAddress(t, me);
        Found(t, me, pub, list);
        return Hit;
      }
      return Miss;
    }

    /** Case 2: it is another reserved address, which is unassigned. */
    method UnassignReserved(pub: string) returns (r: CaseResult)
      requires At(NotFiltered(pub))
      modifies cloud
      ensures old(cloud.log) <= cloud.log && Valid() && cloud.Tries(me) == old(cloud.Tries(me))
      ensures At(match r
                 case Hit => Clear
                 case Miss => NotReserved(pub)
                 case Error => Done(Failed))
      ensures cloud.Writes(me) == old(cloud.Writes(me)) + (if r.Hit? then 1 else 0)
      ensures cloud.Fails(me) == old(cloud.Fails(me)) + (if r.Error? then 1 else 0)
      ensures r.Hit? ==> !HoldsStuck(old(cloud.s), me)
      ensures r.Miss? ==> SameHeld(old(cloud.s), cloud.s, me)
    {
      hide Cloud.Valid, Runs.Passes, Runs.StepsFrom, Exclusive, Count, FirstWith, Fetch, Good, VnicAddress,
          SameAddresses, SameHeld, HoldsStuck;
      var items, ok, t := cloud.Call(me, ListAll, CallFails);
      if !ok {
        return Error;
      }
      CaseTwo(t, me, pub);
      HeldSame(old(cloud.s), t, me);
      var list := FetchPublicIps(items, None, true);
      var found := Search(items, list, pub);
      if found.None? {
        return Miss;
      }
      ValidGood(cloud);
      CallableWhenDetaching(cloud.s, me);
      items, ok, t := cloud.Call(me, Detach, CallFails);
      return if ok then Hit else Error;
    }

    /** Case 3: it is ephemeral, and deleted. Anything else is an error. */
    method DeleteEphemeralIp(pub: string) returns (r: CaseResult)
      requires At(NotReserved(pub))
      modifies cloud
      ensures old(cloud.log) <= cloud.log && Valid() && cloud.Tries(me) == old(cloud.Tries(me)) && !r.Miss?
      ensures At(if r.Hit? then Clear else Done(Failed))
      ensures cloud.Writes(me) == old(cloud.Writes(me)) + (if r.Hit? then 1 else 0)
      ensures r.Hit? ==> !HoldsStuck(old(cloud.s), me) && cloud.Fails(me) == old(cloud.Fails(me))
      ensures r.Error? ==> cloud.Fails(me) == old(cloud.Fails(me)) + 1
                           || (cloud.Fails(me) == old(cloud.Fails(me)) && HoldsStuck(old(cloud.s), me))
    {
      hide Cloud.Valid, Runs.Passes, Runs.StepsFrom, Exclusive, Count, FirstWith, FetchEphemeral, Good, VnicAddress,
          SameAddresses, SameHeld, HoldsStuck;
      var items, ok, t := cloud.Call(me, ListEphemeral, CallFails);
      if !ok {
        return Error;
      }
      CaseThree(t, me, pub);
      HeldSame(old(cloud.s), t, me);
      var found := Search(items, FetchEphemeral(items), pub);
      if found.None? {
        return Error;
      }
      ValidGood(cloud);
      CallableWhenDetaching(cloud.s, me);
      items, ok, t := cloud.Call(me, DeleteEphemeral, CallFails);
      return if ok then Hit else Error;
    }

    /** handlePublicIPAlreadyAssignedCase. (true, nil): nothing written, and the VNIC's address is an
        assigned one that matches the filters. (false, nil): it was none such, and the VNIC has no public
        address, after one write if it had one. An error: nothing written, and either one call failed or
        the address is a reserved one in between states. */
    method HandlePublicIPAlreadyAssignedCase(publicIP: Option<string>) returns (r: Result<bool, AssignError>)
      requires if publicIP.Some? then At(HaveVnic(publicIP.value)) else At(Clear)
      modifies cloud
      ensures old(cloud.log) <= cloud.log && Valid() && cloud.Tries(me) == old(cloud.Tries(me))
      ensures r == Success(true) ==>
                && publicIP.Some? && At(Done(Already(publicIP.value))) && cloud.Writes(me) == old(cloud.Writes(me))
                && exists i: nat ::
                     Holds(cloud.s, me, i) && Listed(cloud.s.ips[i], Some(filters), Assigned)
                         && cloud.s.ips[i].address == publicIP.value
      ensures r == Success(false) ==>
                && At(Clear) && HoldsNone(cloud.s, me)
                && cloud.Writes(me) == old(cloud.Writes(me)) + (if publicIP.Some? then 1 else 0)
      ensures r.Failure? ==> At(Done(Failed)) && cloud.Writes(me) == old(cloud.Writes(me))
      ensures r.Success? ==>
                && cloud.Fails(me) == old(cloud.Fails(me)) && (r.value <==> HoldsSelected(old(cloud.s), me))
                && !HoldsStuck(old(cloud.s), me)
      ensures r.Failure? ==>
                || cloud.Fails(me) == old(cloud.Fails(me)) + 1
                || (cloud.Fails(me) == old(cloud.Fails(me)) && HoldsStuck(old(cloud.s), me))
    {
      hide Cloud.Valid, Runs.Passes, Runs.StepsFrom, Exclusive, Count, Good, HoldsSelected, HoldsStuck, SameHeld;
      if publicIP.Some? {
        var case1 := FindFiltered(publicIP.value);
        if case1.Error? {
          return Failure(AssignFailed);
        }
        HeldSame(old(cloud.s), cloud.s, me);
        if case1.Hit? {
          ValidGood(cloud);
          SelectedNotStuck(cloud.s, me);
          return Success(true);
        }
        ghost var asked := cloud.s;
        var case2 := UnassignReserved(publicIP.value);
        if case2.Error? {
          return Failure(AssignFailed);
        }
        if case2.Miss? {
          HeldTrans(old(cloud.s), asked, cloud.s, me);
          HeldSame(old(cloud.s), cloud.s, me);
          var case3 := DeleteEphemeralIp(publicIP.value);
          if case3.Error? {
            return Failure(AssignFailed);
          }
        }
      }
      ValidGood(cloud);
      ClearNone(cloud.s, me);
      if publicIP.None? { WasNone(old(cloud.s), me); }
      return Success(false);
    }

    /** The re-check of tryAssignAddress. */
    method RecheckAddress(ids: seq<nat>, k: nat) returns (available: bool, ghost t: Sys)
      requires At(Trying(ids, k)) && k < |ids|
      modifies cloud
      ensures old(cloud.log) <= cloud.log && SameAddresses(old(cloud.s).ips, cloud.s.ips)
      ensures cloud.Tries(me) == old(cloud.Tries(me)) + 1 && cloud.Writes(me) == old(cloud.Writes(me))
      ensures me in t.agents && t.agents[me].pc == Trying(ids, k)
      ensures Runs.StepsFrom(Next, cloud.start, cloud.log, |old(cloud.log)|, t, TryOf(me))
      ensures available ==> ids[k] < |t.ips| && t.ips[ids[k]].state.Available?
      ensures At(if available then Binding(ids, k) else NextCandidate(ids, k))
      ensures cloud.Fails(me) == old(cloud.Fails(me)) + (if available then 0 else 1)
    {
      hide Cloud.Valid, Runs.Passes, Runs.StepsFrom, Exclusive, Count, Good, SameHeld, FirstWith, Fetch, VnicAddress;
      ValidGood(cloud);
      TryingInRange(cloud.s, me);
      var items, answered;
      items, answered, t := cloud.Call(me, Recheck, RecheckFails);
      StaysOpen(t, me);
      TryNow(cloud, Step(me, if answered then Recheck else RecheckFails), |old(cloud.log)|, t);
      available := answered && ids[k] < |items| && items[ids[k]].state.Available?;
    }

    /** The bind of tryAssignAddress. */
    method BindAddress(ids: seq<nat>, k: nat) returns (ok: bool)
      requires At(Binding(ids, k)) && k < |ids|
      modifies cloud
      ensures old(cloud.log) <= cloud.log && SameAddresses(old(cloud.s).ips, cloud.s.ips)
      ensures cloud.Tries(me) == old(cloud.Tries(me))
      ensures cloud.Writes(me) == old(cloud.Writes(me)) + (if ok then 1 else 0)
      ensures At(if ok then Done(Bound(ids[k])) else NextCandidate(ids, k)) && (ok ==> Holds(cloud.s, me, ids[k]))
      ensures cloud.Fails(me) == old(cloud.Fails(me)) + (if ok then 0 else 1)
    {
      hide Cloud.Valid, Runs.Passes, Runs.StepsFrom, Exclusive, Count, Good, SameHeld, FirstWith, Fetch, VnicAddress;
      ValidGood(cloud);
      TryingInRange(cloud.s, me);
      var items;
      ghost var t;
      items, ok, t := cloud.Call(me, Bind, BindFails);
    }

    /** tryAssignAddress: one re-check, in the state `t`, and a bind only of an address that was available
        then. It fails exactly when one of its two calls does. */
    method TryAssignAddress(ids: seq<nat>, k: nat) returns (ok: bool, ghost t: Sys)
      requires At(Trying(ids, k)) && k < |ids|
      modifies cloud
      ensures old(cloud.log) <= cloud.log && Valid() && cloud.Tries(me) == old(cloud.Tries(me)) + 1
      ensures SameAddresses(old(cloud.s).ips, cloud.s.ips)
      ensures me in t.agents && t.agents[me].pc == Trying(ids, k)
      ensures Runs.StepsFrom(Next, cloud.start, cloud.log, |old(cloud.log)|, t, TryOf(me))
      ensures ok ==> ids[k] < |t.ips| && t.ips[ids[k]].state.Available?
      ensures ok ==>
                && At(Done(Bound(ids[k]))) && Holds(cloud.s, me, ids[k])
                && cloud.Writes(me) == old(cloud.Writes(me)) + 1
      ensures !ok ==> At(NextCandidate(ids, k)) && cloud.Writes(me) == old(cloud.Writes(me))
      ensures cloud.Fails(me) == old(cloud.Fails(me)) + (if ok then 0 else 1)
    {
      hide Cloud.Valid, Runs.Passes, Runs.StepsFrom, Exclusive, Count, Good, SameHeld;
      ok, t := RecheckAddress(ids, k);
      if !ok {
        return;
      }
      ghost var log := cloud.log;
      ok := BindAddress(ids, k);
      Runs.StepsLater(Next, cloud.start, log, cloud.log, |old(cloud.log)|, |old(cloud.log)|, t, TryOf(me));
    }

    /** The fallback loop: the position of the first candidate whose re-check and bind succeed, or the
        number of candidates. `ts` are the states of the re-checks: candidates 0, 1, ... up to that position
        were tried, in order and once each, all before the last one in vain, for a failing call each, and
        the bind of the last one is the only write. */
    method TryInOrder(ids: seq<nat>, items: seq<PublicIp>) returns (k: nat, address: string, ghost ts: seq<Sys>)
      requires |ids| > 0 && At(Trying(ids, 0)) && SameAddresses(items, cloud.s.ips)
      requires forall i :: i in ids ==> i < |items|
      modifies cloud
      ensures old(cloud.log) <= cloud.log && Valid() && k <= |ids| && SameAddresses(items, cloud.s.ips)
      ensures k < |ids| ==> ids[k] < |cloud.s.ips| && cloud.s.ips[ids[k]].address == address
      ensures |ts| == (if k < |ids| then k + 1 else k) && cloud.Tries(me) == old(cloud.Tries(me)) + |ts|
      ensures Tried(cloud.start, cloud.log, |old(cloud.log)|, me, ids, ts)
      ensures k < |ids| ==> ids[k] < |ts[k].ips| && ts[k].ips[ids[k]].state.Available?
      ensures cloud.Writes(me) == old(cloud.Writes(me)) + (if k < |ids| then 1 else 0)
      ensures cloud.Fails(me) == old(cloud.Fails(me)) + k
      ensures if k < |ids| then At(Done(Bound(ids[k]))) && Holds(cloud.s, me, ids[k]) && cloud.s.ips[ids[k]].reserved
              else At(Done(Failed))
    {
      hide Cloud.Valid, Runs.Passes, Runs.StepsFrom, Exclusive, Count, Good, SameHeld, Tried;
      NoneTried(cloud.start, |cloud.log|, me, ids);
      k, address, ts := 0, "", [];
      while k < |ids|
        invariant old(cloud.log) <= cloud.log && Valid() && k <= |ids| && SameAddresses(items, cloud.s.ips)
        invariant cloud.Tries(me) == old(cloud.Tries(me)) + k && cloud.Writes(me) == old(cloud.Writes(me))
        invariant cloud.Fails(me) == old(cloud.Fails(me)) + k
        invariant At(if k < |ids| then Trying(ids, k) else Done(Failed))
        invariant |ts| == k && Tried(cloud.start, cloud.log, |old(cloud.log)|, me, ids, ts)
      {
        ghost var log := cloud.log;
        var bound, t := TryAssignAddress(ids, k);
        Runs.StepsLater(Next, cloud.start, cloud.log, cloud.log, |log|, |old(cloud.log)|, t, TryOf(me));
        TriedLater(cloud, log, |old(cloud.log)|, |old(cloud.log)|, me, ids, ts);
        TriedMore(cloud, |old(cloud.log)|, me, ids, ts, t);
        ts := ts + [t];
        if bound {
          ValidGood(cloud);
          BoundReserved(cloud.s, me);
          assert ids[k] in ids;
          address := items[ids[k]].address;
          return;
        }
        k := k + 1;
      }
    }

    /** The primary VNIC's public address. */
    method GetPrimaryVnic(releasing: bool) returns (publicIP: Option<string>, ok: bool)
      requires At(if releasing then Releasing else Locked)
      modifies cloud
      ensures old(cloud.log) <= cloud.log && Valid() && cloud.Tries(me) == old(cloud.Tries(me))
                && cloud.Writes(me) == old(cloud.Writes(me))
      ensures At(if releasing then (if ok && publicIP.Some? then ReleaseVnic(publicIP.value) else Out)
                 else if !ok then Done(Failed)
                 else if publicIP.Some? then HaveVnic(publicIP.value)
                 else Clear)
      ensures cloud.Fails(me) == old(cloud.Fails(me)) + (if ok then 0 else 1)
      ensures SameHeld(old(cloud.s), cloud.s, me)
      ensures ok && publicIP.None? ==> !HoldsSelected(old(cloud.s), me)
    {
      hide Cloud.Valid, Runs.Passes, Runs.StepsFrom, Exclusive, Count, VnicAddress, Good, SameHeld,
          HoldsSelected;
      var items, answered, t := cloud.Call(me, if releasing then GetVnicForRelease else GetVnic, CallFails);
      publicIP, ok := VnicAddress(items, me), answered;
      if publicIP.None? {
        NoneHeld(t, me);
        HeldSame(old(cloud.s), t, me);
      }
    }

    /** The private IP, then the available addresses that match the filters, in listing order, as they are
        in the state `t`. */
    method ListCandidates() returns (ids: seq<nat>, items: seq<PublicIp>, ghost t: Sys)
      requires At(Clear)
      modifies cloud
      ensures old(cloud.log) <= cloud.log && Valid() && cloud.Tries(me) == old(cloud.Tries(me))
      ensures cloud.Writes(me) == old(cloud.Writes(me))
      ensures At(if |ids| > 0 then Trying(ids, 0) else Done(Failed))
      ensures SameAddresses(items, cloud.s.ips) && (forall i :: i in ids ==> i < |items|)
      ensures cloud.Passed(|old(cloud.log)|, t) && items == t.ips
      ensures |ids| > 0 ==> ids == Fetch(t.ips, Some(filters), false) && cloud.Fails(me) == old(cloud.Fails(me))
      ensures |ids| == 0 ==> cloud.Fails(me) == old(cloud.Fails(me)) + 1
                             || (cloud.Fails(me) == old(cloud.Fails(me)) && Fetch(t.ips, Some(filters), false) == [])
    {
      hide Cloud.Valid, Runs.Passes, Runs.StepsFrom, Exclusive, Count, Fetch, Good, SameHeld;
      ids := [];
      var ok;
      items, ok, t := cloud.Call(me, GetPrivateIp, CallFails);
      if ok {
        ghost var from := |cloud.log|;
        items, ok, t := cloud.Call(me, ListFree, CallFails);
        PassedLater(cloud, cloud.log, from, |old(cloud.log)|, t);
        if ok {
          ids := FetchPublicIps(items, Some(filters), false);
          FetchExactly(items, Some(filters), false);
        }
      }
    }

    /** The second half of Assign: the candidates and the fallback loop. */
    method BindCandidate() returns (bound: Option<string>, ghost ids: seq<nat>, ghost t: Sys, ghost ts: seq<Sys>)
      requires At(Clear)
      modifies cloud
      ensures old(cloud.log) <= cloud.log && Valid() && cloud.Passed(|old(cloud.log)|, t)
      ensures |ids| > 0 ==> ids == Fetch(t.ips, Some(filters), false)
      ensures cloud.Writes(me) == old(cloud.Writes(me)) + (if bound.Some? then 1 else 0)
      ensures Tried(cloud.start, cloud.log, |old(cloud.log)|, me, ids, ts)
                && cloud.Tries(me) == old(cloud.Tries(me)) + |ts|
      ensures var tried := |ts|;
        if bound.Some? then
          && 1 <= tried <= |ids| && At(Done(Bound(ids[tried - 1]))) && Holds(cloud.s, me, ids[tried - 1])
          && cloud.s.ips[ids[tried - 1]].reserved && cloud.s.ips[ids[tried - 1]].address == bound.value
        else tried == |ids| && At(Done(Failed))
      ensures |ids| > 0 ==> cloud.Fails(me) == old(cloud.Fails(me)) + |ts| - (if bound.Some? then 1 else 0)
      ensures |ids| == 0 ==> cloud.Fails(me) == old(cloud.Fails(me)) + 1
                             || (cloud.Fails(me) == old(cloud.Fails(me)) && Fetch(t.ips, Some(filters), false) == [])
    {
      hide Cloud.Valid, Runs.Passes, Runs.StepsFrom, Exclusive, Count, Listed, Good, SameHeld, Fetch, SameAddresses,
          Tried;
      NoneTried(cloud.start, |cloud.log|, me, []);
      var reserved, listed;
      reserved, listed, t := ListCandidates();
      ids, ts := reserved, [];
      if |reserved| == 0 {
        return None, [], t, [];
      }
      ghost var log := cloud.log;
      var k, address;
      k, address, ts := TryInOrder(reserved, listed);
      PassedLater(cloud, log, |old(cloud.log)|, |old(cloud.log)|, t);
      TriedLater(cloud, cloud.log, |log|, |old(cloud.log)|, me, ids, ts);
      return if k < |reserved| then Some(address) else None, ids, t, ts;
    }

    /** Assign, under the lock. An address that the VNIC held on entry is reported if and only if the
        filters select it. Else Assign binds the first candidate, in listing order, whose re-check and bind
        succeed: it tries exactly the candidates up to that one and writes once to bind it. Without a failing
        call that is the first one, and it fails only when there is no candidate or the VNIC's address is a
        reserved one in between states. The candidates are the available addresses that match the filters
        in `t`, a state the run went through during the call. */
    method Assign() returns (r: Result<string, AssignError>, ghost ids: seq<nat>, ghost t: Sys, ghost ts: seq<Sys>)
      requires At(Locked)
      modifies cloud
      ensures old(cloud.log) <= cloud.log && Valid()
      ensures |ids| > 0 ==> cloud.Passed(|old(cloud.log)|, t) && ids == Fetch(t.ips, Some(filters), false)
      ensures Tried(cloud.start, cloud.log, |old(cloud.log)|, me, ids, ts)
                && cloud.Tries(me) == old(cloud.Tries(me)) + |ts|
      ensures var tried := |ts|;
        match r
        case Success(address) =>
          && 1 <= tried <= |ids| && At(Done(Bound(ids[tried - 1]))) && Holds(cloud.s, me, ids[tried - 1])
          && cloud.s.ips[ids[tried - 1]].reserved && cloud.s.ips[ids[tried - 1]].address == address
          && cloud.Writes(me) <= old(cloud.Writes(me)) + 2
        case Failure(StaticIPAlreadyAssigned(address)) =>
          tried == 0 && At(Done(Already(address))) && HoldsAddress(cloud.s, me, address)
              && cloud.Writes(me) == old(cloud.Writes(me))
        case Failure(AssignFailed) =>
          tried == |ids| && At(Done(Failed)) && cloud.Writes(me) <= old(cloud.Writes(me)) + 1
      ensures match r
        case Success(address) => !HoldsSelected(old(cloud.s), me) && cloud.Fails(me) == old(cloud.Fails(me)) + |ts| - 1
        case Failure(StaticIPAlreadyAssigned(address)) =>
          HoldsSelected(old(cloud.s), me) && cloud.Fails(me) == old(cloud.Fails(me))
        case Failure(AssignFailed) =>
          || cloud.Fails(me) > old(cloud.Fails(me))
          || HoldsStuck(old(cloud.s), me)
          || (cloud.Passed(|old(cloud.log)|, t) && Fetch(t.ips, Some(filters), false) == []
              && !HoldsSelected(old(cloud.s), me))
    {
      hide Cloud.Valid, Runs.Passes, Runs.StepsFrom, Exclusive, Count, Listed, Good, SameHeld, HoldsNone, Fetch, Tried,
          HoldsSelected, HoldsStuck;
      NoneTried(cloud.start, |cloud.log|, me, []);
      ids, t, ts := [], cloud.s, [];
      var publicIP, ok := GetPrimaryVnic(false);
      if !ok {
        return Failure(AssignFailed), ids, t, ts;
      }
      HeldSame(old(cloud.s), cloud.s, me);
      var alreadyAssigned := HandlePublicIPAlreadyAssignedCase(publicIP);
      if alreadyAssigned.Failure? {
        return Failure(AssignFailed), ids, t, ts;
      }
      if alreadyAssigned.value {
        return Failure(StaticIPAlreadyAssigned(publicIP.value)), ids, t, ts;
      }
      ghost var log := cloud.log;
      var bound;
      bound, ids, t, ts := BindCandidate();
      PassedLater(cloud, cloud.log, |log|, |old(cloud.log)|, t);
      TriedLater(cloud, cloud.log, |log|, |old(cloud.log)|, me, ids, ts);
      return if bound.Some? then Success(bound.value) else Failure(AssignFailed), ids, t, ts;
    }

    /** The listing of Unassign: the reserved address of the VNIC, if the filters select it. */
    method FindReserved(pub: string) returns (found: Option<nat>)
      requires At(ReleaseVnic(pub))
      modifies cloud
      ensures old(cloud.log) <= cloud.log && Valid() && cloud.Tries(me) == old(cloud.Tries(me))
      ensures cloud.Writes(me) == old(cloud.Writes(me))
      ensures At(if found.Some? then Freeing(found.value) else Out)
      ensures found.Some? ==> HoldsSelected(old(cloud.s), me) && cloud.Fails(me) == old(cloud.Fails(me))
      ensures found.None? ==>
                || cloud.Fails(me) == old(cloud.Fails(me)) + 1
                || (cloud.Fails(me) == old(cloud.Fails(me)) && !HoldsSelected(old(cloud.s), me))
    {
      hide Cloud.Valid, Runs.Passes, Runs.StepsFrom, Exclusive, Count, Fetch, FirstWith, Good, SameHeld, HoldsSelected;
      var items, answered, t := cloud.Call(me, ListForRelease, CallFails);
      if !answered {
        return None;
      }
      CaseOne(t, me, pub);
      HeldSame(old(cloud.s), t, me);
      var reserved := FetchPublicIps(items, Some(filters), true);
      found := Search(items, reserved, pub);
    }

    /** Unassign, without the lock: success means one write, and that the VNIC has no public address. It
        succeeds if and only if no call fails and the VNIC held an address that the filters select. */
    method Unassign() returns (ok: bool)
      requires At(Releasing)
      modifies cloud
      ensures old(cloud.log) <= cloud.log && Valid() && cloud.Tries(me) == old(cloud.Tries(me))
      ensures ok ==> At(Released) && HoldsNone(cloud.s, me) && cloud.Writes(me) == old(cloud.Writes(me)) + 1
      ensures !ok ==> At(Out) && cloud.Writes(me) == old(cloud.Writes(me))
      ensures cloud.Fails(me) <= old(cloud.Fails(me)) + 1
      ensures ok <==> cloud.Fails(me) == old(cloud.Fails(me)) && HoldsSelected(old(cloud.s), me)
    {
      hide Cloud.Valid, Runs.Passes, Runs.StepsFrom, Exclusive, Count, HoldsNone, Good, SameHeld, HoldsSelected,
          FirstWith, Fetch, VnicAddress,
          SameAddresses;
      var publicIP, got := GetPrimaryVnic(true);
      if !got || publicIP.None? {
        return false;
      }
      HeldSame(old(cloud.s), cloud.s, me);
      var found := FindReserved(publicIP.value);
      if found.None? {
        return false;
      }
      ok := FreeAddress(found.value);
    }

    /** The one write of Unassign. */
    method FreeAddress(ghost id: nat) returns (ok: bool)
      requires At(Freeing(id))
      modifies cloud
      ensures old(cloud.log) <= cloud.log && At(if ok then Released else Out) && (ok ==> HoldsNone(cloud.s, me))
      ensures cloud.Tries(me) == old(cloud.Tries(me))
      ensures cloud.Writes(me) == old(cloud.Writes(me)) + (if ok then 1 else 0)
      ensures cloud.Fails(me) == old(cloud.Fails(me)) + (if ok then 0 else 1)
    {
      hide Cloud.Valid, Runs.Passes, Runs.StepsFrom, Exclusive, Count, HoldsNone, Good, SameHeld, FirstWith, Fetch,
          VnicAddress, SameAddresses;
      ValidGood(cloud);
      CallableWhenDetaching(cloud.s, me);
      var items, answered, t := cloud.Call(me, Free, CallFails);
      ok := answered;
      ValidGood(cloud);
      if ok { ReleasedNone(cloud.s, me); }
    }
  }
}
