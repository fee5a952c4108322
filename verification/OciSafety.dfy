/** Ownership of OCI reserved addresses over every run in which the lock excludes. */
module OciSafety {
  import opened Wrappers
  import opened OciProtocol
  import Runs

  ghost predicate HoldsAddress(s: Sys, a: Vnic, pub: string) {
    exists i :: 0 <= i < |s.ips| && s.ips[i].target == Some(a) && s.ips[i].address == pub
  }

  ghost predicate HoldsNone(s: Sys, a: Vnic) {
    forall i :: 0 <= i < |s.ips| ==> s.ips[i].target != Some(a)
  }

  ghost predicate Candidates(s: Sys, ids: seq<nat>, k: nat) {
    k < |ids| && forall j :: 0 <= j < |ids| ==> ids[j] < |s.ips| && s.ips[ids[j]].reserved
  }

  /** What an agent may rely on at each point, whatever the others do. */
  ghost predicate AgentInv(s: Sys, a: Vnic, pc: Pc) {
    match pc
    case HaveVnic(pub) => HoldsAddress(s, a, pub)
    case NotFiltered(pub) => HoldsAddress(s, a, pub)
    case NotReserved(pub) => HoldsAddress(s, a, pub)
    case ReleaseVnic(pub) => HoldsAddress(s, a, pub)
    case Detaching(id) => Holds(s, a, id) && s.ips[id].reserved
    case Freeing(id) => Holds(s, a, id) && s.ips[id].reserved
    case Deleting(id) => Holds(s, a, id) && !s.ips[id].reserved
    case Clear => HoldsNone(s, a)
    case Ready => HoldsNone(s, a)
    case Trying(ids, k) => HoldsNone(s, a) && Candidates(s, ids, k)
    case Binding(ids, k) => HoldsNone(s, a) && Candidates(s, ids, k) && s.ips[ids[k]].state.Available?
    case Done(outcome) => outcome.Bound? ==> Holds(s, a, outcome.id) && s.ips[outcome.id].reserved
    case Released => HoldsNone(s, a)
    case _ => true
  }

  ghost predicate Inv(s: Sys) {
    CloudOk(s.ips) && forall a :: a in s.agents ==> AgentInv(s, a, s.agents[a].pc)
  }

  /** A run in which the lock excludes at every moment. */
  ghost predicate Excluded(s: Sys, steps: seq<Step>) {
    Runs.Always(Next, (t: Sys, st: Step) => Exclusive(t), s, steps)
  }

  /** Two addresses of one compartment with the same text are the same address. */
  lemma SameAddress(ips: seq<PublicIp>, i: nat, j: nat)
    requires CloudOk(ips) && i < |ips| && j < |ips| && ips[i].address == ips[j].address
    ensures i == j
  {
  }

  /** Writes touch only what the writer holds, except that a bind takes an available address. */
  lemma WriteTarget(s: Sys, st: Step)
    requires Inv(s) && Enabled(s, st)
    ensures var s', pc := Next(s, st), s.agents[st.a].pc;
      && |s'.ips| == |s.ips|
      && forall i :: 0 <= i < |s.ips| ==>
           && s'.ips[i].address == s.ips[i].address && s'.ips[i].reserved == s.ips[i].reserved
           && s'.ips[i].tags == s.ips[i].tags
           && (s'.ips[i] != s.ips[i] ==>
                 || (Holds(s, st.a, i) && s'.ips[i].target.None?
                    && (s'.ips[i].state.Available? || s'.ips[i].state.Terminated?))
                 || (st.call.Bind? && s.ips[i].state.Available? && s'.ips[i].state.Assigned?
                    && s'.ips[i].target == Some(st.a) && i == pc.ids[pc.k]))
  {
    assert AgentInv(s, st.a, s.agents[st.a].pc);
  }

  lemma CloudKept(s: Sys, st: Step)
    requires Inv(s)
    ensures CloudOk(Next(s, st).ips)
  {
    if Enabled(s, st) {
      WriteTarget(s, st);
      assert AgentInv(s, st.a, s.agents[st.a].pc);
    }
  }

  /** What a step of others leaves of an agent's view. */
  lemma OthersView(s: Sys, st: Step, a: Vnic)
    requires Inv(s) && st.a != a
    ensures var ips := Next(s, st).ips;
      && |ips| == |s.ips|
      && (forall i :: 0 <= i < |ips| ==> ips[i].reserved == s.ips[i].reserved && ips[i].address == s.ips[i].address)
      && (forall i :: 0 <= i < |ips| && s.ips[i].target == Some(a) ==> ips[i] == s.ips[i])
      && (forall i :: 0 <= i < |ips| && ips[i].target == Some(a) ==> s.ips[i].target == Some(a))
      && (!(st.a in s.agents && InAssign(s.agents[st.a].pc)) ==>
            forall i :: 0 <= i < |ips| && s.ips[i].state.Available? ==> ips[i].state.Available?)
  {
    if Enabled(s, st) {
      WriteTarget(s, st);
      hide Next;
    }
  }

  /** The steps of others keep what an agent relies on. */
  lemma OthersKept(s: Sys, st: Step, a: Vnic)
    requires Inv(s) && Exclusive(s) && a in s.agents && st.a != a
    ensures AgentInv(Next(s, st), a, s.agents[a].pc)
  {
    var pc := s.agents[a].pc;
    assert AgentInv(s, a, pc);
    OthersView(s, st, a);
    hide Next, Inv;
    if pc.HaveVnic? || pc.NotFiltered? || pc.NotReserved? || pc.ReleaseVnic? {
      var i :| 0 <= i < |s.ips| && s.ips[i].target == Some(a) && s.ips[i].address == pc.pub;
      assert Next(s, st).ips[i] == s.ips[i];
    }
    if pc.Binding? {
      assert InAssign(pc) && !(st.a in s.agents && InAssign(s.agents[st.a].pc));
    }
  }

  predicate IsListing(call: Call) {
    call.ListAll? || call.ListForRelease? || call.ListEphemeral? || call.ListFree?
  }

  /** What the agent finds in a listing is its own, or free. */
  lemma ListingKept(s: Sys, st: Step)
    requires Inv(s) && Enabled(s, st) && IsListing(st.call)
    ensures AgentInv(Next(s, st), st.a, Next(s, st).agents[st.a].pc)
  {
    var ag := s.agents[st.a];
    assert AgentInv(s, st.a, ag.pc);
    assert Next(s, st).ips == s.ips;
    if st.call.ListFree? {
      FetchExactly(s.ips, Some(ag.filters), false);
      var ids := Fetch(s.ips, Some(ag.filters), false);
      assert forall j :: 0 <= j < |ids| ==> ids[j] in ids;
    } else {
      var ids := if st.call.ListAll? then Fetch(s.ips, None, true)
                 else if st.call.ListForRelease? then Fetch(s.ips, Some(ag.filters), true)
                 else FetchEphemeral(s.ips);
      FetchExactly(s.ips, None, true);
      FetchExactly(s.ips, Some(ag.filters), true);
      FetchEphemeralExactly(s.ips);
      Found(s, st.a, ag.pc.pub, ids);
    }
  }

  lemma WriteKept(s: Sys, st: Step)
    requires Inv(s) && Enabled(s, st) && IsWrite(st.call)
    ensures AgentInv(Next(s, st), st.a, Next(s, st).agents[st.a].pc)
  {
    assert AgentInv(s, st.a, s.agents[st.a].pc);
    hide FirstWith, Fetch, FetchEphemeral, VnicAddress;
  }

  lemma OtherKept(s: Sys, st: Step)
    requires Inv(s) && Enabled(s, st) && !IsWrite(st.call) && !IsListing(st.call)
    ensures AgentInv(Next(s, st), st.a, Next(s, st).agents[st.a].pc)
  {
    assert AgentInv(s, st.a, s.agents[st.a].pc);
    assert Next(s, st).ips == s.ips;
    hide FirstWith, Fetch, FetchEphemeral, CloudOk, Inv, Effect, Candidates;
  }

  /** A step of the agent itself establishes what it relies on next. */
  lemma OwnKept(s: Sys, st: Step)
    requires Inv(s) && Enabled(s, st)
    ensures AgentInv(Next(s, st), st.a, Next(s, st).agents[st.a].pc)
  {
    hide Next, AgentInv, Enabled;
    if IsListing(st.call) {
      ListingKept(s, st);
    } else if IsWrite(st.call) {
      WriteKept(s, st);
    } else {
      OtherKept(s, st);
    }
  }

  /** The listed address with the VNIC's text is the VNIC's own. */
  lemma {:induction false} Found(s: Sys, a: Vnic, pub: string, ids: seq<nat>)
    requires CloudOk(s.ips) && HoldsAddress(s, a, pub)
    ensures FirstWith(s.ips, ids, pub).Some? ==> Holds(s, a, FirstWith(s.ips, ids, pub).value)
  {
    var i :| 0 <= i < |s.ips| && s.ips[i].target == Some(a) && s.ips[i].address == pub;
    var r := FirstWith(s.ips, ids, pub);
    if r.Some? { SameAddress(s.ips, i, r.value); }
  }

  lemma InvStep(s: Sys, st: Step)
    requires Inv(s) && Exclusive(s)
    ensures Inv(Next(s, st))
  {
    CloudKept(s, st);
    forall a | a in Next(s, st).agents ensures AgentInv(Next(s, st), a, Next(s, st).agents[a].pc) {
      if st.a != a { OthersKept(s, st, a); } else if Enabled(s, st) { OwnKept(s, st); }
    }
  }
}
