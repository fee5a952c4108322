/** What every run of the OCI agents keeps, whether or not the lock excludes: an address may be taken
    from its owner, but the pool and the one address per VNIC survive. */
module OciPool {
  import opened Wrappers
  import opened OciFilter
  import opened OciProtocol
  import opened OciSafety
  import Runs

  /** A reserved address that exists. */
  predicate Live(ips: seq<PublicIp>, i: nat) {
    i < |ips| && ips[i].reserved && !ips[i].state.Terminated?
  }

  predicate AllLive(ips: seq<PublicIp>, ids: seq<nat>) {
    forall j :: 0 <= j < |ids| ==> Live(ips, ids[j])
  }

  /** Whatever `a` holds has the text `pub`. */
  ghost predicate HoldsOnlyText(ips: seq<PublicIp>, a: Vnic, pub: string) {
    forall i :: 0 <= i < |ips| && ips[i].target == Some(a) ==> ips[i].address == pub
  }

  ghost predicate HoldsOnly(ips: seq<PublicIp>, a: Vnic, id: nat) {
    forall i :: 0 <= i < |ips| && ips[i].target == Some(a) ==> i == id
  }

  ghost predicate HoldsNothing(ips: seq<PublicIp>, a: Vnic) {
    forall i :: 0 <= i < |ips| ==> ips[i].target != Some(a)
  }

  /** The part of OciSafety.AgentInv that needs no lock. */
  ghost predicate Bounds(ips: seq<PublicIp>, a: Vnic, pc: Pc) {
    match pc
    case HaveVnic(pub) => HoldsOnlyText(ips, a, pub)
    case NotFiltered(pub) => HoldsOnlyText(ips, a, pub)
    case NotReserved(pub) => HoldsOnlyText(ips, a, pub)
    case ReleaseVnic(pub) => HoldsOnlyText(ips, a, pub)
    case Detaching(id) => Live(ips, id) && HoldsOnly(ips, a, id)
    case Freeing(id) => Live(ips, id) && HoldsOnly(ips, a, id)
    case Deleting(id) => id < |ips| && !ips[id].reserved && HoldsOnly(ips, a, id)
    case Clear => HoldsNothing(ips, a)
    case Ready => HoldsNothing(ips, a)
    case Trying(ids, _) => HoldsNothing(ips, a) && AllLive(ips, ids)
    case Binding(ids, _) => HoldsNothing(ips, a) && AllLive(ips, ids)
    case Released => HoldsNothing(ips, a)
    case _ => true
  }

  ghost predicate Distinct(ips: seq<PublicIp>) {
    forall i, j :: 0 <= i < j < |ips| ==> ips[i].address != ips[j].address
  }

  ghost predicate OneEach(ips: seq<PublicIp>) {
    forall i, j :: 0 <= i < j < |ips| && ips[i].target.Some? ==> ips[i].target != ips[j].target
  }

  ghost predicate Pooled(s: Sys) {
    Distinct(s.ips) && OneEach(s.ips) && forall a :: a in s.agents ==> Bounds(s.ips, a, s.agents[a].pc)
  }

  /** A call of `a`: one address at most is written, it becomes free or `a`'s, and no reserved address
      appears or disappears. */
  ghost predicate Writes(ips: seq<PublicIp>, ips': seq<PublicIp>, a: Vnic, id: nat) {
    && |ips'| == |ips|
    && (forall i :: 0 <= i < |ips| ==> ips'[i].address == ips[i].address && ips'[i].reserved == ips[i].reserved)
    && (forall i :: 0 <= i < |ips| ==> Live(ips, i) == Live(ips', i))
    && (forall i :: 0 <= i < |ips| && i != id ==> ips'[i] == ips[i])
    && (id < |ips| ==>
          ips'[id] == ips[id] || ips'[id].target.None? || (ips'[id].target == Some(a) && HoldsNothing(ips, a)))
  }

  /** The address the call writes, or none. */
  function Target(pc: Pc, call: Call, ips: seq<PublicIp>): nat {
    if pc.Detaching? || pc.Freeing? || pc.Deleting? then pc.id
    else if pc.Binding? && pc.k < |pc.ids| then pc.ids[pc.k]
    else |ips|
  }

  lemma StepWrites(s: Sys, st: Step)
    requires Pooled(s) && Enabled(s, st)
    ensures Writes(s.ips, Next(s, st).ips, st.a, Target(s.agents[st.a].pc, st.call, s.ips))
  {
    assert Bounds(s.ips, st.a, s.agents[st.a].pc);
    hide Answer;
  }

  lemma OthersBounded(ips: seq<PublicIp>, ips': seq<PublicIp>, a: Vnic, id: nat, b: Vnic, pc: Pc)
    requires Writes(ips, ips', a, id) && b != a && Bounds(ips, b, pc)
    ensures Bounds(ips', b, pc)
  {
    assert forall i :: 0 <= i < |ips| && ips'[i].target == Some(b) ==> ips[i].target == Some(b);
  }

  /** The listed address with the VNIC's text is the only one the VNIC may hold. */
  lemma {:induction false} FoundOnly(ips: seq<PublicIp>, ids: seq<nat>, a: Vnic, pub: string)
    requires Distinct(ips) && HoldsOnlyText(ips, a, pub)
    ensures FirstWith(ips, ids, pub).Some? ==> HoldsOnly(ips, a, FirstWith(ips, ids, pub).value)
  {
  }

  lemma CandidatesLive(ips: seq<PublicIp>, filters: OCIFilters)
    ensures AllLive(ips, Fetch(ips, Some(filters), false))
  {
    FetchExactly(ips, Some(filters), false);
    var ids := Fetch(ips, Some(filters), false);
    assert forall j :: 0 <= j < |ids| ==> ids[j] in ids;
    hide Fetch;
  }

  lemma {:induction false} FoundLive(ips: seq<PublicIp>, filters: Option<OCIFilters>, pub: string)
    ensures var r := FirstWith(ips, Fetch(ips, filters, true), pub); r.Some? ==> Live(ips, r.value)
  {
    FetchExactly(ips, filters, true);
    hide Fetch, FirstWith;
  }

  lemma {:induction false} FoundEphemeral(ips: seq<PublicIp>, pub: string)
    ensures var r := FirstWith(ips, FetchEphemeral(ips), pub); r.Some? ==> !ips[r.value].reserved
  {
    FetchEphemeralExactly(ips);
    hide FetchEphemeral, FirstWith;
  }

  lemma OwnListing(s: Sys, st: Step)
    requires Pooled(s) && Enabled(s, st) && IsListing(st.call)
    ensures Bounds(s.ips, st.a, Answer(s, st.a, s.agents[st.a], st.call))
  {
    var ag := s.agents[st.a];
    assert Bounds(s.ips, st.a, ag.pc);
    match st.call
    case ListFree => CandidatesLive(s.ips, ag.filters);
    case ListAll =>
      FoundLive(s.ips, None, ag.pc.pub);
      FoundOnly(s.ips, Fetch(s.ips, None, true), st.a, ag.pc.pub);
    case ListForRelease =>
      FoundLive(s.ips, Some(ag.filters), ag.pc.pub);
      FoundOnly(s.ips, Fetch(s.ips, Some(ag.filters), true), st.a, ag.pc.pub);
    case ListEphemeral =>
      FoundEphemeral(s.ips, ag.pc.pub);
      FoundOnly(s.ips, FetchEphemeral(s.ips), st.a, ag.pc.pub);
    hide Fetch, FetchEphemeral, FirstWith, Live, AllLive;
  }

  lemma OwnVnic(s: Sys, st: Step)
    requires Pooled(s) && Enabled(s, st) && (st.call.GetVnic? || st.call.GetVnicForRelease?)
    ensures Bounds(s.ips, st.a, Answer(s, st.a, s.agents[st.a], st.call))
  {
    var pub := VnicAddress(s.ips, st.a);
    if pub.Some? {
      var i :| 0 <= i < |s.ips| && s.ips[i].target == Some(st.a) && s.ips[i].address == pub.value;
      forall j | 0 <= j < |s.ips| && s.ips[j].target == Some(st.a) ensures j == i {
      }
    }
    hide VnicAddress;
  }

  lemma OwnWrite(s: Sys, st: Step)
    requires Pooled(s) && Enabled(s, st) && IsWrite(st.call)
    ensures Bounds(Next(s, st).ips, st.a, Answer(s, st.a, s.agents[st.a], st.call))
  {
    assert Bounds(s.ips, st.a, s.agents[st.a].pc);
    hide FirstWith, Fetch, FetchEphemeral, VnicAddress;
  }

  lemma OwnOther(s: Sys, st: Step)
    requires Pooled(s) && Enabled(s, st) && !IsWrite(st.call) && !IsListing(st.call)
    requires !st.call.GetVnic? && !st.call.GetVnicForRelease?
    ensures Bounds(s.ips, st.a, Answer(s, st.a, s.agents[st.a], st.call))
  {
    assert Bounds(s.ips, st.a, s.agents[st.a].pc);
    hide FirstWith, Fetch, FetchEphemeral, VnicAddress, HoldsOnlyText, HoldsOnly, HoldsNothing, AllLive, Live;
  }

  lemma ReadsKeepIps(s: Sys, st: Step)
    requires Enabled(s, st) && !IsWrite(st.call)
    ensures Next(s, st).ips == s.ips
  {
    hide Answer;
  }

  lemma OwnBounded(s: Sys, st: Step)
    requires Pooled(s) && Enabled(s, st)
    ensures Bounds(Next(s, st).ips, st.a, Answer(s, st.a, s.agents[st.a], st.call))
  {
    hide Next, Answer, Bounds, Enabled, Pooled;
    if IsWrite(st.call) {
      OwnWrite(s, st);
    } else {
      ReadsKeepIps(s, st);
      if IsListing(st.call) {
        OwnListing(s, st);
      } else if st.call.GetVnic? || st.call.GetVnicForRelease? {
        OwnVnic(s, st);
      } else {
        OwnOther(s, st);
      }
    }
  }

  lemma CloudPooled(ips: seq<PublicIp>, ips': seq<PublicIp>, a: Vnic, id: nat)
    requires Distinct(ips) && OneEach(ips) && Writes(ips, ips', a, id)
    ensures Distinct(ips') && OneEach(ips')
  {
  }

  /** Every step of every agent keeps the pool, with no premise about the lock. */
  lemma PooledStep(s: Sys, st: Step)
    requires Pooled(s)
    ensures Pooled(Next(s, st))
  {
    if Enabled(s, st) {
      var s', id := Next(s, st), Target(s.agents[st.a].pc, st.call, s.ips);
      StepWrites(s, st);
      CloudPooled(s.ips, s'.ips, st.a, id);
      OwnBounded(s, st);
      hide Enabled, Effect, Answer, Writes, Bounds, Distinct, OneEach, Target;
      forall b | b in s'.agents ensures Bounds(s'.ips, b, s'.agents[b].pc) {
        if b != st.a { OthersBounded(s.ips, s'.ips, st.a, id, b, s.agents[b].pc); }
      }
    }
  }

  lemma {:induction false} PooledRun(s: Sys, steps: seq<Step>)
    requires Init(s)
    ensures Pooled(Runs.Exec(Next, s, steps))
  {
    assert Pooled(s);
    hide Next, Pooled;
    var any := (t: Sys, st: Step) => true;
    forall t, st | Pooled(t) ensures Pooled(Next(t, st)) { PooledStep(t, st); }
    Runs.Invariance(Next, any, Pooled, s, steps);
  }
}
