/** Assign and Unassign of internal/address/oci.go as a step system: any number of agents, each a
    sequence of single API calls, share one compartment's public IPs. Assign runs under the cluster
    lock, Unassign does not. An agent is identified with its primary VNIC and that VNIC's private IP. */
module OciProtocol {
  import opened Wrappers
  import opened Lists
  import opened OciFilter

  type Vnic = string

  datatype Lifecycle = Available | Assigned | Terminated | Transient

  /** Reserved addresses have region scope; ephemeral ones are listed per availability domain. */
  datatype PublicIp = PublicIp(address: string, reserved: bool, tags: Option<Tags>, state: Lifecycle,
      target: Option<Vnic>)

  datatype Outcome = Bound(id: nat) | Already(address: string) | Failed

  /** Where an agent is. A public IP is identified by its index, which is also the listing order. */
  datatype Pc =
    | Out                                    // in neither call
    | Locked                                 // Assign entered under the lock
    | HaveVnic(pub: string)                  // the VNIC has a public address
    | NotFiltered(pub: string)               // ... that is not a filtered reserved one
    | NotReserved(pub: string)               // ... and not a reserved one either
    | Detaching(id: nat)                     // UpdatePublicIP(id, "") pending in Assign
    | Deleting(id: nat)                      // DeletePublicIP(id) pending
    | Clear                                  // handlePublicIPAlreadyAssignedCase returned (false, nil)
    | Ready                                  // private IP known
    | Trying(ids: seq<nat>, k: nat)          // GetPublicIP(ids[k]) pending
    | Binding(ids: seq<nat>, k: nat)         // ids[k] was available; UpdatePublicIP pending
    | Done(outcome: Outcome)                 // Assign returned, lock still held
    | Releasing                              // Unassign entered, without the lock
    | ReleaseVnic(pub: string)
    | Freeing(id: nat)                       // UpdatePublicIP(id, "") pending in Unassign
    | Released                               // Unassign returned nil

  datatype Agent = Agent(filters: OCIFilters, pc: Pc)

  datatype Sys = Sys(ips: seq<PublicIp>, agents: map<Vnic, Agent>)

  datatype Call =
    | Enter | GetVnic | ListFiltered | ListAll | Detach | ListEphemeral | DeleteEphemeral
    | GetPrivateIp | ListFree | Recheck | Bind | Leave
    | StartRelease | GetVnicForRelease | ListForRelease | Free
    | RecheckFails | BindFails | CallFails | Crash

  datatype Step = Step(a: Vnic, call: Call)

  /** ListPublicIps with region scope, then fetchPublicIps' selection. */
  predicate Listed(ip: PublicIp, filters: Option<OCIFilters>, state: Lifecycle) {
    ip.reserved && ip.state == state && (filters.Some? ==> CheckFreeformTagFilter(filters.value, ip.tags))
  }

  function Indices(n: nat): seq<nat> {
    seq(n, (i: nat) => i)
  }

  function Selects(ips: seq<PublicIp>, filters: Option<OCIFilters>, inUse: bool): nat -> bool {
    (i: nat) => i < |ips| && Listed(ips[i], filters, if inUse then Assigned else Available)
  }

  function Ephemeral(ips: seq<PublicIp>): nat -> bool {
    (i: nat) => i < |ips| && !ips[i].reserved && !ips[i].state.Terminated?
  }

  function Fetch(ips: seq<PublicIp>, filters: Option<OCIFilters>, inUse: bool): seq<nat> {
    Filtered(Selects(ips, filters, inUse), Indices(|ips|))
  }

  /** ListPublicIps with availability-domain scope. */
  function FetchEphemeral(ips: seq<PublicIp>): seq<nat> {
    Filtered(Ephemeral(ips), Indices(|ips|))
  }

  /** The first listed address equal to `pub`. */
  function FirstWith(ips: seq<PublicIp>, ids: seq<nat>, pub: string): (r: Option<nat>)
    ensures r.Some? ==> r.value in ids && r.value < |ips| && ips[r.value].address == pub
    ensures r.None? ==> forall i :: i in ids && i < |ips| ==> ips[i].address != pub
  {
    if |ids| == 0 then None
    else if ids[0] < |ips| && ips[ids[0]].address == pub then Some(ids[0])
    else
      var r := FirstWith(ips, ids[1..], pub);
      assert forall i :: i in ids ==> i == ids[0] || i in ids[1..];
      r
  }

  predicate Holds(s: Sys, a: Vnic, i: nat) {
    i < |s.ips| && s.ips[i].target == Some(a)
  }

  /** The public address of `a`'s VNIC. */
  function VnicAddress(ips: seq<PublicIp>, a: Vnic): (r: Option<string>)
    ensures r.Some? ==> exists i :: 0 <= i < |ips| && ips[i].target == Some(a) && ips[i].address == r.value
    ensures r.None? ==> forall i :: 0 <= i < |ips| ==> ips[i].target != Some(a)
  {
    if |ips| == 0 then None
    else if ips[|ips| - 1].target == Some(a) then Some(ips[|ips| - 1].address)
    else VnicAddress(ips[..|ips| - 1], a)
  }

  /** Between Lock and Unlock. */
  predicate InAssign(pc: Pc) {
    pc.Locked? || pc.HaveVnic? || pc.NotFiltered? || pc.NotReserved? || pc.Detaching? || pc.Deleting?
    || pc.Clear? || pc.Ready? || pc.Trying? || pc.Binding? || pc.Done?
  }

  predicate InRelease(pc: Pc) {
    pc.Releasing? || pc.ReleaseVnic? || pc.Freeing?
  }

  predicate CanCall(s: Sys, pc: Pc, call: Call) {
    match call
    case Enter => pc.Out? || pc.Released?
    case GetVnic => pc.Locked?
    case ListFiltered => pc.HaveVnic?
    case ListAll => pc.NotFiltered?
    case Detach => pc.Detaching? && pc.id < |s.ips|
    case ListEphemeral => pc.NotReserved?
    case DeleteEphemeral => pc.Deleting? && pc.id < |s.ips|
    case GetPrivateIp => pc.Clear?
    case ListFree => pc.Ready?
    case Recheck => pc.Trying? && pc.k < |pc.ids| && pc.ids[pc.k] < |s.ips|
    case Bind => pc.Binding? && pc.k < |pc.ids| && pc.ids[pc.k] < |s.ips|
    case Leave => pc.Done?
    case StartRelease => pc.Out? || pc.Released?
    case GetVnicForRelease => pc.Releasing?
    case ListForRelease => pc.ReleaseVnic?
    case Free => pc.Freeing? && pc.id < |s.ips|
    case RecheckFails => pc.Trying?
    case BindFails => pc.Binding?
    case CallFails => InRelease(pc) || (InAssign(pc) && !pc.Done? && !pc.Trying? && !pc.Binding?)
    case Crash => true
  }

  predicate Enabled(s: Sys, st: Step) {
    st.a in s.agents && CanCall(s, s.agents[st.a].pc, st.call)
  }

  /** The fallback loop moves on, or gives up after the last candidate. */
  function NextCandidate(ids: seq<nat>, k: nat): Pc {
    if k + 1 < |ids| then Trying(ids, k + 1) else Done(Failed)
  }

  function Unbound(ip: PublicIp): PublicIp {
    ip.(state := Available, target := None)
  }

  /** The agent's new program counter. */
  function Answer(s: Sys, a: Vnic, ag: Agent, call: Call): Pc
    requires CanCall(s, ag.pc, call)
  {
    match call
    case Enter => Locked
    case GetVnic =>
      var pub := VnicAddress(s.ips, a);
      if pub.None? then Clear else HaveVnic(pub.value)
    case ListFiltered =>
      if FirstWith(s.ips, Fetch(s.ips, Some(ag.filters), true), ag.pc.pub).Some? then Done(Already(ag.pc.pub))
          else NotFiltered(ag.pc.pub)
    case ListAll =>
      var found := FirstWith(s.ips, Fetch(s.ips, None, true), ag.pc.pub);
      if found.Some? then Detaching(found.value) else NotReserved(ag.pc.pub)
    case Detach => Clear
    case ListEphemeral =>
      var found := FirstWith(s.ips, FetchEphemeral(s.ips), ag.pc.pub);
      if found.Some? then Deleting(found.value) else Done(Failed)
    case DeleteEphemeral => Clear
    case GetPrivateIp => Ready
    case ListFree =>
      var ids := Fetch(s.ips, Some(ag.filters), false);
      if |ids| == 0 then Done(Failed) else Trying(ids, 0)
    case Recheck =>
      if s.ips[ag.pc.ids[ag.pc.k]].state.Available? then Binding(ag.pc.ids, ag.pc.k)
          else NextCandidate(ag.pc.ids, ag.pc.k)
    case Bind => Done(Bound(ag.pc.ids[ag.pc.k]))
    case Leave => Out
    case StartRelease => Releasing
    case GetVnicForRelease =>
      var pub := VnicAddress(s.ips, a);
      if pub.None? then Out else ReleaseVnic(pub.value)
    case ListForRelease =>
      var found := FirstWith(s.ips, Fetch(s.ips, Some(ag.filters), true), ag.pc.pub);
      if found.Some? then Freeing(found.value) else Out
    case Free => Released
    case RecheckFails => NextCandidate(ag.pc.ids, ag.pc.k)
    case BindFails => NextCandidate(ag.pc.ids, ag.pc.k)
    case CallFails => if InRelease(ag.pc) then Out else Done(Failed)
    case Crash => Out
  }

  /** What the call does to the compartment. UpdatePublicIP overwrites any current assignment. */
  function Effect(s: Sys, a: Vnic, pc: Pc, call: Call): seq<PublicIp>
    requires CanCall(s, pc, call)
  {
    match call
    case Detach => s.ips[pc.id := Unbound(s.ips[pc.id])]
    case Free => s.ips[pc.id := Unbound(s.ips[pc.id])]
    case DeleteEphemeral => s.ips[pc.id := s.ips[pc.id].(state := Terminated, target := None)]
    case Bind => s.ips[pc.ids[pc.k] := s.ips[pc.ids[pc.k]].(state := Assigned, target := Some(a))]
    case _ => s.ips
  }

  function Next(s: Sys, st: Step): Sys {
    if !Enabled(s, st) then s
    else
      var ag := s.agents[st.a];
      Sys(Effect(s, st.a, ag.pc, st.call), s.agents[st.a := ag.(pc := Answer(s, st.a, ag, st.call))])
  }

  predicate IsWrite(call: Call) {
    call.Detach? || call.Free? || call.DeleteEphemeral? || call.Bind?
  }

  /** One per candidate: its re-check, answered or failed. */
  predicate IsTry(call: Call) {
    call.Recheck? || call.RecheckFails?
  }

  predicate IsFailing(call: Call) {
    call.CallFails? || call.RecheckFails? || call.BindFails? || call.Crash?
  }

  /** How many calls of a kind `a` made in a log of steps. */
  function Count(kind: Call -> bool, log: seq<Step>, a: Vnic): nat {
    if |log| == 0 then 0
    else Count(kind, log[..|log| - 1], a) + (if log[|log| - 1].a == a && kind(log[|log| - 1].call) then 1 else 0)
  }

  /** The lock: at most one agent is between Lock and Unlock. */
  predicate Exclusive(s: Sys) {
    forall a, b :: a in s.agents && b in s.agents && InAssign(s.agents[a].pc) && InAssign(s.agents[b].pc) ==> a == b
  }

  /** Addresses are distinct, a VNIC has at most one public IP, and lifecycle states mean what they say. */
  ghost predicate CloudOk(ips: seq<PublicIp>) {
    && (forall i, j :: 0 <= i < j < |ips| ==> ips[i].address != ips[j].address)
    && (forall i, j :: 0 <= i < j < |ips| && ips[i].target.Some? ==> ips[i].target != ips[j].target)
    && (forall i :: 0 <= i < |ips| && (ips[i].state.Available? || ips[i].state.Terminated?) ==> ips[i].target.None?)
    && (forall i :: 0 <= i < |ips| && ips[i].state.Assigned? ==> ips[i].target.Some?)
  }

  ghost predicate Init(s: Sys) {
    CloudOk(s.ips) && forall a :: a in s.agents ==> s.agents[a].pc.Out?
  }

  /** The two listings return exactly the matching addresses, in order. */
  lemma FetchExactly(ips: seq<PublicIp>, filters: Option<OCIFilters>, inUse: bool)
    ensures forall i: nat :: i in Fetch(ips, filters, inUse)
                        <==> i < |ips| && Listed(ips[i], filters, if inUse then Assigned else Available)
    ensures forall j, k :: 0 <= j < k < |Fetch(ips, filters, inUse)| ==>
              Fetch(ips, filters, inUse)[j] < Fetch(ips, filters, inUse)[k]
  {
    var keep := Selects(ips, filters, inUse);
    var at := FilteredExactly(keep, Indices(|ips|));
    forall i: nat ensures i in Filtered(keep, Indices(|ips|)) <==> keep(i) {
      FilteredMember(keep, Indices(|ips|), i);
      assert i < |ips| ==> Indices(|ips|)[i] == i;
    }
  }

  lemma FetchEphemeralExactly(ips: seq<PublicIp>)
    ensures forall i: nat :: i in FetchEphemeral(ips) <==> i < |ips| && !ips[i].reserved && !ips[i].state.Terminated?
  {
    var keep := Ephemeral(ips);
    forall i: nat ensures i in Filtered(keep, Indices(|ips|)) <==> keep(i) {
      FilteredMember(keep, Indices(|ips|), i);
      assert i < |ips| ==> Indices(|ips|)[i] == i;
    }
  }
}
