/** Assign and Unassign of internal/address/aws.go as a step system. No lock is assumed: any agents'
    single API calls interleave freely. An agent is identified with its instance and that instance's
    primary network interface. */
module AwsProtocol {
  import opened AwsSort

  type Instance = string

  /** A record of AssociateAddress; its key in `assocs` is the association ID. */
  datatype Assoc = Assoc(eip: nat, instance: Instance)

  datatype Outcome = Bound(eip: nat) | Already | Failed

  datatype Pc =
    | Out
    | Entered                            // Assign entered
    | Checked                            // no elastic IP was attached to the instance
    | Chosen(ids: seq<nat>)              // available addresses listed and sorted
    | Trying(ids: seq<nat>, k: nat)      // re-check of ids[k] pending
    | Binding(ids: seq<nat>, k: nat)     // ids[k] had no association; AssociateAddress pending
    | Done(outcome: Outcome)
    | Releasing                          // Unassign entered
    | Disassociating(assoc: nat)
    | Released                           // Unassign returned nil

  datatype Sys = Sys(eips: seq<Address>, assocs: map<nat, Assoc>, nextAssoc: nat, agents: map<Instance, Pc>)

  datatype Call =
    | Enter | CheckAssigned | ListAvailable(ids: seq<nat>) | GetInstance
    | Recheck | Associate | RecheckFails | AssociateFails | Leave
    | StartRelease | FindAssigned(assoc: nat) | NoneAssigned | Disassociate
    | CallFails | Crash

  datatype Step = Step(a: Instance, call: Call)

  predicate InUse(s: Sys, eip: nat) {
    exists x :: x in s.assocs && s.assocs[x].eip == eip
  }

  predicate Attached(s: Sys, a: Instance) {
    exists x :: x in s.assocs && s.assocs[x].instance == a
  }

  /** Any selection of addresses without association, in any order. */
  predicate AllFree(s: Sys, ids: seq<nat>) {
    forall i :: 0 <= i < |ids| ==> ids[i] < |s.eips| && !InUse(s, ids[i])
  }

  predicate CanCall(s: Sys, a: Instance, pc: Pc, call: Call) {
    match call
    case Enter => pc.Out? || pc.Done? || pc.Released?
    case CheckAssigned => pc.Entered?
    case ListAvailable(ids) => pc.Checked? && AllFree(s, ids)
    case GetInstance => pc.Chosen? && |pc.ids| > 0
    case Recheck => pc.Trying? && pc.k < |pc.ids|
    case Associate =>   // AllowReassociation: false
      pc.Binding? && pc.k < |pc.ids| && pc.ids[pc.k] < |s.eips| && !InUse(s, pc.ids[pc.k])
    case RecheckFails => pc.Trying?
    case AssociateFails => pc.Binding?
    case Leave => pc.Done?
    case StartRelease => pc.Out? || pc.Done? || pc.Released?
    case FindAssigned(x) => pc.Releasing? && x in s.assocs && s.assocs[x].instance == a
    case NoneAssigned => pc.Releasing? && !Attached(s, a)
    case Disassociate => pc.Disassociating? && pc.assoc in s.assocs
    case CallFails => pc.Entered? || pc.Checked? || pc.Chosen? || pc.Releasing? || pc.Disassociating?
    case Crash => true
  }

  predicate Enabled(s: Sys, st: Step) {
    st.a in s.agents && CanCall(s, st.a, s.agents[st.a], st.call)
  }

  function NextCandidate(ids: seq<nat>, k: nat): Pc {
    if k + 1 < |ids| then Trying(ids, k + 1) else Done(Failed)
  }

  function Answer(s: Sys, a: Instance, pc: Pc, call: Call): Pc
    requires CanCall(s, a, pc, call)
  {
    match call
    case Enter => Entered
    case CheckAssigned => if Attached(s, a) then Done(Already) else Checked
    case ListAvailable(ids) => if |ids| == 0 then Done(Failed) else Chosen(ids)
    case GetInstance => Trying(pc.ids, 0)
    case Recheck => if InUse(s, pc.ids[pc.k]) then NextCandidate(pc.ids, pc.k) else Binding(pc.ids, pc.k)
    case Associate => Done(Bound(pc.ids[pc.k]))
    case RecheckFails => NextCandidate(pc.ids, pc.k)
    case AssociateFails => NextCandidate(pc.ids, pc.k)
    case Leave => Out
    case StartRelease => Releasing
    case FindAssigned(x) => Disassociating(x)
    case NoneAssigned => Out
    case Disassociate => Released
    case CallFails => if pc.Releasing? || pc.Disassociating? then Out else Done(Failed)
    case Crash => Out
  }

  function Effect(s: Sys, a: Instance, pc: Pc, call: Call): Sys
    requires call.Associate? ==> pc.Binding? && pc.k < |pc.ids|
    requires call.Disassociate? ==> pc.Disassociating?
  {
    match call
    case Associate => s.(assocs := s.assocs[s.nextAssoc := Assoc(pc.ids[pc.k], a)], nextAssoc := s.nextAssoc + 1)
    case Disassociate => s.(assocs := s.assocs - {pc.assoc})
    case _ => s
  }

  function Next(s: Sys, st: Step): Sys {
    if !Enabled(s, st) then s
    else
      var pc := s.agents[st.a];
      Effect(s, st.a, pc, st.call).(agents := s.agents[st.a := Answer(s, st.a, pc, st.call)])
  }

  predicate IsWrite(call: Call) {
    call.Associate? || call.Disassociate?
  }

  predicate IsTry(call: Call) {
    call.Recheck? || call.RecheckFails?
  }

  /** A call that fails, or a crash; AssociateAddress also fails on an address in use. */
  predicate IsFailing(call: Call) {
    call.CallFails? || call.RecheckFails? || call.AssociateFails? || call.Crash?
  }

  function Count(kind: Call -> bool, log: seq<Step>, a: Instance): nat {
    if |log| == 0 then 0
    else Count(kind, log[..|log| - 1], a) + (if log[|log| - 1].a == a && kind(log[|log| - 1].call) then 1 else 0)
  }

  ghost predicate Init(s: Sys) {
    && (forall i :: 0 <= i < |s.eips| ==> s.eips[i].allocationId == i)
    && (forall x :: x in s.assocs ==> x < s.nextAssoc && s.assocs[x].eip < |s.eips|)
    && (forall x, y :: x in s.assocs && y in s.assocs && s.assocs[x].eip == s.assocs[y].eip ==> x == y)
    && (forall a :: a in s.agents ==> s.agents[a].Out?)
  }
}
