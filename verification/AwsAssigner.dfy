/** internal/address/aws.go in its own form. The methods' API calls interleave with any steps of other
    agents, and together they are a run of AwsProtocol. */
module AwsAssigner {
  import opened Wrappers
  import opened Lists
  import opened AwsFilter
  import opened AwsSort
  import opened AwsProtocol
  import opened AwsTheorems
  import Runs

  class Cloud {
    var s: Sys
    ghost const start: Sys
    ghost var log: seq<Step>

    ghost predicate Valid()
      reads this
    {
      Init(start) && s == Runs.Exec(Next, start, log) && Inv(s)
    }

    constructor (start: Sys)
      requires Init(start)
      ensures Valid() && s == start && log == []
    {
      s, log, this.start := start, [], start;
    }

    ghost function Writes(me: Instance): nat
      reads this
    {
      Count(IsWrite, log, me)
    }

    ghost function Tries(me: Instance): nat
      reads this
    {
      Count(IsTry, log, me)
    }

    ghost function Fails(me: Instance): nat
      reads this
    {
      Count(IsFailing, log, me)
    }

    /** `t` is a state the run went through since its step number `from`. */
    ghost predicate Passed(from: nat, t: Sys)
      reads this
    {
      Runs.Passes(Next, start, log, from, t)
    }

    method Take(st: Step)
      requires Valid()
      modifies this
      ensures Valid() && s == Next(old(s), st) && log == old(log) + [st]
    {
      hide Next;
      Runs.ExecSnoc(Next, start, log, st);
      InvStep(s, st);
      s, log := Next(s, st), log + [st];
    }

    /** Any finite number of steps of other agents. */
    method Others(me: Instance)
      requires Valid() && me in s.agents
      modifies this
      ensures old(log) <= log && Valid() && me in s.agents && s.agents[me] == old(s).agents[me] && s.eips == old(s).eips
      ensures Writes(me) == old(Writes(me)) && Tries(me) == old(Tries(me)) && Fails(me) == old(Fails(me))
      ensures Attached(s, me) == Attached(old(s), me)
    {
      hide Next, Runs.Exec, Inv, Count, Attached;
      var n: nat := *;
      while n > 0
        invariant old(log) <= log && Valid() && me in s.agents && s.agents[me] == old(s).agents[me]
                    && s.eips == old(s).eips
        invariant Writes(me) == old(Writes(me)) && Tries(me) == old(Tries(me)) && Fails(me) == old(Fails(me))
        invariant Attached(s, me) == Attached(old(s), me)
      {
        var st: Step := *;
        if st.a != me {
          OtherAgents(s, st, me);
          OthersAttach(s, st, me);
          CountSnoc(IsFailing, log, st, me);
          CountSnoc(IsWrite, log, st, me);
          CountSnoc(IsTry, log, st, me);
          Take(st);
        }
        n := n - 1;
      }
    }

    /** `me`'s own call, in the present state. */
    method Commit(me: Instance, call: Call)
      requires Valid() && me in s.agents && CanCall(s, me, s.agents[me], call)
      modifies this
      ensures log == old(log) + [Step(me, call)]
      ensures Valid() && me in s.agents && s.agents[me] == Answer(old(s), me, old(s).agents[me], call)
      ensures s.eips == old(s).eips && s.assocs == Effect(old(s), me, old(s).agents[me], call).assocs
      ensures Writes(me) == old(Writes(me)) + (if IsWrite(call) then 1 else 0)
      ensures Tries(me) == old(Tries(me)) + (if IsTry(call) then 1 else 0)
      ensures Fails(me) == old(Fails(me)) + (if IsFailing(call) then 1 else 0)
    {
      hide Next, Runs.Exec, Inv, Count, Answer, Effect;
      var st := Step(me, call);
      OwnStep(s, st);
      CountSnoc(IsFailing, log, st, me);
      CountSnoc(IsWrite, log, st, me);
      CountSnoc(IsTry, log, st, me);
      Take(st);
    }
  }

  lemma ValidInv(c: Cloud)
    requires c.Valid()
    ensures Inv(c.s) && c.s == Runs.Exec(Next, c.start, c.log)
  {
  }

  /** The present state is one the run went through. */
  lemma PassedNow(c: Cloud, from: nat)
    requires c.Valid() && from <= |c.log|
    ensures c.Passed(from, c.s)
  {
    Runs.PassesNow(Next, c.start, c.log, from);
  }

  /** A state the run went through stays one. */
  lemma PassedLater(c: Cloud, log: seq<Step>, from: nat, earlier: nat, t: Sys)
    requires Runs.Passes(Next, c.start, log, from, t) && log <= c.log && earlier <= from
    ensures c.Passed(earlier, t)
  {
    Runs.PassesLater(Next, c.start, log, c.log, from, earlier, t);
  }

  /** The re-checks of `me`. */
  ghost function TryOf(me: Instance): Step -> bool {
    (st: Step) => st.a == me && IsTry(st.call)
  }

  lemma {:induction false} TryNow(c: Cloud, log: seq<Step>, st: Step, from: nat, t: Sys)
    requires c.log == log + [st] && IsTry(st.call) && from <= |log| && t == Runs.Exec(Next, c.start, log)
    ensures Runs.StepsFrom(Next, c.start, c.log, from, t, TryOf(st.a))
  {
    Runs.StepsNow(Next, c.start, log, st, from, TryOf(st.a));
  }

  /** The states from which candidates number 0, 1, ... of `ids` were re-checked, one each. */
  ghost predicate Tried(start: Sys, log: seq<Step>, from: nat, me: Instance, ids: seq<nat>, ts: seq<Sys>) {
    |ts| <= |ids| && forall j :: 0 <= j < |ts| ==>
      && Runs.StepsFrom(Next, start, log, from, ts[j], TryOf(me))
      && me in ts[j].agents && ts[j].agents[me] == Trying(ids, j)
  }

  lemma NoneTried(start: Sys, from: nat, me: Instance, ids: seq<nat>)
    ensures forall log :: Tried(start, log, from, me, ids, [])
  {
  }

  lemma TriedLater(c: Cloud, log: seq<Step>, from: nat, earlier: nat, me: Instance, ids: seq<nat>, ts: seq<Sys>)
    requires Tried(c.start, log, from, me, ids, ts) && log <= c.log && earlier <= from
    ensures Tried(c.start, c.log, earlier, me, ids, ts)
  {
    hide Runs.StepsFrom;
    forall j | 0 <= j < |ts| ensures Runs.StepsFrom(Next, c.start, c.log, earlier, ts[j], TryOf(me)) {
      Runs.StepsLater(Next, c.start, log, c.log, from, earlier, ts[j], TryOf(me));
    }
  }

  lemma TriedMore(c: Cloud, from: nat, me: Instance, ids: seq<nat>, ts: seq<Sys>, t: Sys)
    requires Tried(c.start, c.log, from, me, ids, ts) && |ts| < |ids|
    requires Runs.StepsFrom(Next, c.start, c.log, from, t, TryOf(me)) && me in t.agents
               && t.agents[me] == Trying(ids, |ts|)
    ensures Tried(c.start, c.log, from, me, ids, ts + [t])
  {
    hide Runs.StepsFrom;
  }

  lemma {:induction false} CountSnoc(kind: Call -> bool, log: seq<Step>, st: Step, me: Instance)
    ensures Count(kind, log + [st], me) == Count(kind, log, me) + (if st.a == me && kind(st.call) then 1 else 0)
  {
    assert (log + [st])[..|log|] == log;
  }

  lemma OtherAgents(s: Sys, st: Step, me: Instance)
    requires me in s.agents && st.a != me
    ensures me in Next(s, st).agents && Next(s, st).agents[me] == s.agents[me] && Next(s, st).eips == s.eips
  {
  }

  lemma OthersAttach(s: Sys, st: Step, me: Instance)
    requires Inv(s) && st.a != me
    ensures Attached(Next(s, st), me) == Attached(s, me)
  {
    StepChanges(s, st);
    hide Inv, Next;
    if x :| x in s.assocs && s.assocs[x].instance == me {
      assert x in Next(s, st).assocs && Next(s, st).assocs[x].instance == me;
    }
  }

  lemma OwnStep(s: Sys, st: Step)
    requires st.a in s.agents && CanCall(s, st.a, s.agents[st.a], st.call)
    ensures var s', pc := Next(s, st), s.agents[st.a];
      && st.a in s'.agents && s'.agents[st.a] == Answer(s, st.a, pc, st.call)
      && s'.eips == s.eips && s'.assocs == Effect(s, st.a, pc, st.call).assocs
  {
  }

  lemma TryingInRange(s: Sys, me: Instance)
    requires Inv(s) && me in s.agents && (s.agents[me].Trying? || s.agents[me].Binding?)
    ensures var pc := s.agents[me]; pc.k < |pc.ids| && pc.ids[pc.k] < |s.eips|
  {
    assert AgentInv(s, me, s.agents[me]);
  }

  datatype AssignError = StaticIPAlreadyAssigned | InvalidFilter(error: FilterError) | Panicked | AssignFailed

  /** The addresses a query lists: those the service selects that have no association. */
  function Available(s: Sys, selected: set<nat>): Address -> bool {
    (address: Address) => address.allocationId in selected && !InUse(s, address.allocationId)
  }

  function Ids(addresses: seq<Address>): (ids: seq<nat>)
    ensures |ids| == |addresses| && forall i :: 0 <= i < |ids| ==> ids[i] == addresses[i].allocationId
  {
    seq(|addresses|, i requires 0 <= i < |addresses| => addresses[i].allocationId)
  }

  /** awsAssigner for one instance. `service` is the answer of DescribeAddresses to a query. */
  class AwsAssigner {
    const cloud: Cloud
    const me: Instance
    const service: Query -> set<nat>

    constructor (cloud: Cloud, me: Instance, service: Query -> set<nat>)
      ensures this.cloud == cloud && this.me == me && this.service == service
    {
      this.cloud, this.me, this.service := cloud, me, service;
    }

    ghost predicate At(pc: Pc)
      reads this, cloud
    {
      cloud.Valid() && me in cloud.s.agents && cloud.s.agents[me] == pc
    }

    ghost predicate Valid()
      reads this, cloud
    {
      cloud.Valid() && me in cloud.s.agents
    }

    /** The free addresses that the query selects in the state `t`. */
    ghost function Selected(t: Sys, query: Query): multiset<Address> {
      multiset(Filtered(Available(t, service(query)), t.eips))
    }

    /** `addresses` are those addresses, once each, sorted as asked by a tag, when the comparator is a strict
        weak order on them, or by a field. */
    ghost predicate Listing(addresses: seq<Address>, t: Sys, query: Query, sortBy: string) {
      && multiset(addresses) == Selected(t, query) && !Panics(Selected(t, query), sortBy)
      && (Unmixed(multiset(addresses), sortBy) ==> Ascending(addresses, sortBy))
    }

    /** checkElasticIPAssigned */
    method CheckElasticIPAssigned() returns (r: Result<(), AssignError>)
      requires At(Entered)
      modifies cloud
      ensures old(cloud.log) <= cloud.log && Valid() && cloud.Writes(me) == old(cloud.Writes(me))
                && cloud.Tries(me) == old(cloud.Tries(me))
      ensures At(match r
                 case Success(_) => Checked
                 case Failure(e) => if e.StaticIPAlreadyAssigned? then Done(Already) else Done(Failed))
      ensures r == Failure(StaticIPAlreadyAssigned) ==> Attached(cloud.s, me)
      ensures r.Failure? ==> r.error.StaticIPAlreadyAssigned? || r.error.AssignFailed?
      ensures cloud.Fails(me) == old(cloud.Fails(me)) + (if r == Failure(AssignFailed) then 1 else 0)
      ensures r != Failure(AssignFailed) ==> (r.Failure? <==> Attached(old(cloud.s), me))
    {
      hide Cloud.Valid, Runs.Passes, Runs.StepsFrom, Runs.Exec, Count, Inv;
      cloud.Others(me);
      var failed: bool := *;
      if failed {
        cloud.Commit(me, CallFails);
        return Failure(AssignFailed);
      }
      var attached := Attached(cloud.s, me);
      cloud.Commit(me, CheckAssigned);
      return if attached then Failure(StaticIPAlreadyAssigned) else Success(());
    }

    method ParseFilters(filters: seq<string>) returns (r: Result<Query, FilterError>)
      ensures r == CompiledQuery(filters)
    {
      var query: Query := map[];
      for i := 0 to |filters|
        invariant CompiledQuery(filters[..i]) == Success(query)
      {
        assert filters[..i + 1][..i] == filters[..i];
        QueryPrefix(filters, i + 1);
        var parsed := Parse(filters[i]);
        if parsed.Failure? {
          return Failure(parsed.error);
        }
        query := query[parsed.value.0 := parsed.value.1];
      }
      assert filters[..|filters|] == filters;
      return Success(query);
    }

    /** The answer to a query, sorted; sorting may panic, which ends the agent. Otherwise it fails only with
        the call, or when nothing is selected. */
    method ListSorted(query: Query, sortBy: string) returns (r: Result<seq<Address>, AssignError>, ghost t: Sys)
      requires At(Checked)
      modifies cloud
      ensures old(cloud.log) <= cloud.log && Valid()
      ensures cloud.Writes(me) == old(cloud.Writes(me)) && cloud.Tries(me) == old(cloud.Tries(me))
      ensures cloud.Passed(|old(cloud.log)|, t)
      ensures r.Failure? ==>
                && (r.error.Panicked? || r.error.AssignFailed?) && At(if r.error.Panicked? then Out else Done(Failed))
                && (r.error.Panicked? ==> Panics(Selected(t, query), sortBy))
      ensures r == Failure(AssignFailed) ==>
                || cloud.Fails(me) == old(cloud.Fails(me)) + 1
                || (cloud.Fails(me) == old(cloud.Fails(me)) && Selected(t, query) == multiset{})
      ensures r.Success? ==> cloud.Fails(me) == old(cloud.Fails(me))
      ensures r.Success? ==>
                && |r.value| > 0 && At(Chosen(Ids(r.value))) && t.eips == cloud.s.eips
                && Listing(r.value, t, query, sortBy)
    {
      hide Cloud.Valid, Runs.Passes, Runs.StepsFrom, Runs.Exec, Count, Inv, Unmixed, Ascending, Panics, InUse;
      cloud.Others(me);
      t := cloud.s;
      PassedNow(cloud, |old(cloud.log)|);
      ghost var log := cloud.log;
      var failed: bool := *;
      if failed {
        cloud.Commit(me, CallFails);
        PassedLater(cloud, log, |old(cloud.log)|, |old(cloud.log)|, t);
        return Failure(AssignFailed), t;
      }
      var selected := service(query);
      var listed := Select(Available(cloud.s, selected), cloud.s.eips);
      var addresses, panicked := Sort(listed, sortBy);
      ValidInv(cloud);
      AllAvailable(cloud.s, selected, listed, addresses);
      cloud.Commit(me, if panicked then Crash else ListAvailable(Ids(addresses)));
      PassedLater(cloud, log, |old(cloud.log)|, |old(cloud.log)|, t);
      if panicked { return Failure(Panicked), t; }
      return if |addresses| == 0 then Failure(AssignFailed) else Success(addresses), t;
    }

    /** getAvailableElasticIPs */
    method GetAvailableElasticIPs(filters: seq<string>, sortBy: string)
        returns (r: Result<seq<Address>, AssignError>, ghost t: Sys)
      requires At(Checked)
      modifies cloud
      ensures old(cloud.log) <= cloud.log && Valid()
      ensures cloud.Writes(me) == old(cloud.Writes(me)) && cloud.Tries(me) == old(cloud.Tries(me))
      ensures r.Failure? ==> At(if r.error.Panicked? then Out else Done(Failed))
      ensures CompiledQuery(filters).Failure? ==> r == Failure(InvalidFilter(CompiledQuery(filters).error))
      ensures CompiledQuery(filters).Success? ==>
                && cloud.Passed(|old(cloud.log)|, t)
                && (r == Failure(Panicked) ==> Panics(Selected(t, CompiledQuery(filters).value), sortBy))
      ensures r == Failure(AssignFailed) ==>
                && CompiledQuery(filters).Success?
                && (cloud.Fails(me) == old(cloud.Fails(me)) + 1
                    || (cloud.Fails(me) == old(cloud.Fails(me))
                        && Selected(t, CompiledQuery(filters).value) == multiset{}))
      ensures r.Success? ==> cloud.Fails(me) == old(cloud.Fails(me))
      ensures r.Failure? ==> !r.error.StaticIPAlreadyAssigned?
      ensures r.Success? ==>
                && |r.value| > 0 && At(Chosen(Ids(r.value))) && t.eips == cloud.s.eips
                && CompiledQuery(filters).Success? && Listing(r.value, t, CompiledQuery(filters).value, sortBy)
    {
      hide Cloud.Valid, Runs.Passes, Runs.StepsFrom, Runs.Exec, Count, Inv, Listing, Selected, Panics, CompiledQuery,
          InUse;
      t := cloud.s;
      var query := ParseFilters(filters);
      if query.Failure? {
        cloud.Commit(me, CallFails);
        return Failure(InvalidFilter(query.error)), t;
      }
      r, t := ListSorted(query.value, sortBy);
    }

    /** tryAssignAddress: the forced re-check, in the state `t`, then AssociateAddress, which the service
        refuses for an address in use. An address seen in use is not associated; one that is not is lost
        only to a failing call. */
    method TryAssignAddress(ids: seq<nat>, k: nat) returns (ok: bool, ghost t: Sys)
      requires At(Trying(ids, k))
      modifies cloud
      ensures old(cloud.log) <= cloud.log && Valid() && k < |ids| && cloud.s.eips == old(cloud.s).eips
      ensures me in t.agents && t.agents[me] == Trying(ids, k)
      ensures Runs.StepsFrom(Next, cloud.start, cloud.log, |old(cloud.log)|, t, TryOf(me))
      ensures cloud.Tries(me) == old(cloud.Tries(me)) + 1
      ensures ok ==> !InUse(t, ids[k]) && At(Done(Bound(ids[k]))) && cloud.Writes(me) == old(cloud.Writes(me)) + 1
      ensures !ok ==> At(NextCandidate(ids, k)) && cloud.Writes(me) == old(cloud.Writes(me))
      ensures !ok && !InUse(t, ids[k]) ==> cloud.Fails(me) == old(cloud.Fails(me)) + 1
      ensures ok ==> cloud.Fails(me) == old(cloud.Fails(me))
      ensures cloud.Fails(me) >= old(cloud.Fails(me))
    {
      hide Cloud.Valid, Runs.Passes, Runs.StepsFrom, Runs.Exec, Count, Inv, InUse;
      cloud.Others(me);
      ValidInv(cloud);
      TryingInRange(cloud.s, me);
      t := cloud.s;
      ghost var log := cloud.log;
      ok := Recheck(ids, k);
      Runs.StepsLater(Next, cloud.start, cloud.log, cloud.log, |log|, |old(cloud.log)|, t, TryOf(me));
      log := cloud.log;
      if ok {
        ok := Associate(ids, k);
      }
      Runs.StepsLater(Next, cloud.start, log, cloud.log, |old(cloud.log)|, |old(cloud.log)|, t, TryOf(me));
    }

    /** The re-check in the present state, answered or failed. */
    method Recheck(ghost ids: seq<nat>, ghost k: nat) returns (free: bool)
      requires At(Trying(ids, k)) && k < |ids| && ids[k] < |cloud.s.eips|
      modifies cloud
      ensures old(cloud.log) <= cloud.log && Valid() && cloud.s.eips == old(cloud.s).eips
      ensures cloud.Tries(me) == old(cloud.Tries(me)) + 1 && cloud.Writes(me) == old(cloud.Writes(me))
      ensures At(if free then Binding(ids, k) else NextCandidate(ids, k)) && (free ==> !InUse(old(cloud.s), ids[k]))
      ensures Runs.StepsFrom(Next, cloud.start, cloud.log, |old(cloud.log)|, old(cloud.s), TryOf(me))
      ensures free ==> cloud.Fails(me) == old(cloud.Fails(me))
      ensures !free ==> (cloud.Fails(me) == old(cloud.Fails(me)) && InUse(old(cloud.s), ids[k]))
                        || cloud.Fails(me) == old(cloud.Fails(me)) + 1
    {
      hide Cloud.Valid, Runs.Passes, Runs.StepsFrom, Runs.Exec, Count, Inv, InUse;
      ValidInv(cloud);
      var pc := cloud.s.agents[me];
      var failed: bool := *;
      free := !failed && !InUse(cloud.s, pc.ids[pc.k]);
      var call := if failed then RecheckFails else Call.Recheck;
      cloud.Commit(me, call);
      TryNow(cloud, old(cloud.log), Step(me, call), |old(cloud.log)|, old(cloud.s));
    }

    method Associate(ghost ids: seq<nat>, ghost k: nat) returns (ok: bool)
      requires At(Binding(ids, k)) && k < |ids|
      modifies cloud
      ensures old(cloud.log) <= cloud.log && Valid() && cloud.s.eips == old(cloud.s).eips
      ensures cloud.Tries(me) == old(cloud.Tries(me))
      ensures cloud.Writes(me) == old(cloud.Writes(me)) + (if ok then 1 else 0)
      ensures At(if ok then Done(Bound(ids[k])) else NextCandidate(ids, k))
      ensures cloud.Fails(me) == old(cloud.Fails(me)) + (if ok then 0 else 1)
    {
      hide Cloud.Valid, Runs.Passes, Runs.StepsFrom, Runs.Exec, Count, Inv, InUse;
      cloud.Others(me);
      ValidInv(cloud);
      TryingInRange(cloud.s, me);
      var pc := cloud.s.agents[me];
      var failed: bool := *;
      ok := !failed && !InUse(cloud.s, pc.ids[pc.k]);
      cloud.Commit(me, if ok then Call.Associate else AssociateFails);
    }

    /** The fallback loop: the position of the first candidate that could be associated, or the number of
        candidates. `ts` are the states of the re-checks: candidates 0, 1, ... up to that position were tried,
        in order and once each, all before the last one in vain, and associating the last one is the only
        write. Without a failing call, all candidates passed over were in use when they were re-checked. */
    method TryInOrder(ids: seq<nat>) returns (k: nat, ghost ts: seq<Sys>)
      requires |ids| > 0 && At(Trying(ids, 0))
      modifies cloud
      ensures old(cloud.log) <= cloud.log && Valid() && k <= |ids| && cloud.s.eips == old(cloud.s).eips
      ensures |ts| == (if k < |ids| then k + 1 else k) && cloud.Tries(me) == old(cloud.Tries(me)) + |ts|
      ensures Tried(cloud.start, cloud.log, |old(cloud.log)|, me, ids, ts)
      ensures k < |ids| ==> !InUse(ts[k], ids[k])
      ensures cloud.Fails(me) >= old(cloud.Fails(me))
      ensures cloud.Fails(me) == old(cloud.Fails(me)) ==> forall j :: 0 <= j < k ==> InUse(ts[j], ids[j])
      ensures cloud.Writes(me) == old(cloud.Writes(me)) + (if k < |ids| then 1 else 0)
      ensures At(Done(if k < |ids| then Bound(ids[k]) else Outcome.Failed))
    {
      hide Cloud.Valid, Runs.Passes, Runs.StepsFrom, Runs.Exec, Count, Inv, InUse, Tried;
      NoneTried(cloud.start, |cloud.log|, me, ids);
      k, ts := 0, [];
      while k < |ids|
        invariant old(cloud.log) <= cloud.log && Valid() && k <= |ids| && cloud.s.eips == old(cloud.s).eips
        invariant cloud.Tries(me) == old(cloud.Tries(me)) + k && cloud.Writes(me) == old(cloud.Writes(me))
        invariant At(if k < |ids| then Trying(ids, k) else Done(Outcome.Failed))
        invariant |ts| == k && Tried(cloud.start, cloud.log, |old(cloud.log)|, me, ids, ts)
        invariant cloud.Fails(me) >= old(cloud.Fails(me))
        invariant cloud.Fails(me) == old(cloud.Fails(me)) ==> forall j :: 0 <= j < k ==> InUse(ts[j], ids[j])
      {
        ghost var log := cloud.log;
        var bound, t := TryAssignAddress(ids, k);
        Runs.StepsLater(Next, cloud.start, cloud.log, cloud.log, |log|, |old(cloud.log)|, t, TryOf(me));
        TriedLater(cloud, log, |old(cloud.log)|, |old(cloud.log)|, me, ids, ts);
        TriedMore(cloud, |old(cloud.log)|, me, ids, ts, t);
        ts := ts + [t];
        if bound {
          return;
        }
        k := k + 1;
      }
    }

    /** The instance and its primary network interface; either may be missing. */
    method GetNetworkInterface(ghost ids: seq<nat>) returns (ok: bool)
      requires |ids| > 0 && At(Chosen(ids))
      modifies cloud
      ensures old(cloud.log) <= cloud.log
      ensures At(if ok then Trying(ids, 0) else Done(Outcome.Failed)) && cloud.s.eips == old(cloud.s).eips
      ensures cloud.Writes(me) == old(cloud.Writes(me)) && cloud.Tries(me) == old(cloud.Tries(me))
      ensures cloud.Fails(me) == old(cloud.Fails(me)) + (if ok then 0 else 1)
    {
      hide Cloud.Valid, Runs.Passes, Runs.StepsFrom, Runs.Exec, Count, Inv, InUse;
      cloud.Others(me);
      ok := *;
      cloud.Commit(me, if ok then GetInstance else CallFails);
    }

    /** The second half of Assign: the network interface and the fallback loop. */
    method BindCandidate(addresses: seq<Address>) returns (bound: Option<string>, ghost reached: bool,
        ghost ts: seq<Sys>)
      requires |addresses| > 0 && At(Chosen(Ids(addresses)))
      modifies cloud
      ensures old(cloud.log) <= cloud.log && Valid()
      ensures cloud.Writes(me) == old(cloud.Writes(me)) + (if bound.Some? then 1 else 0)
      ensures Tried(cloud.start, cloud.log, |old(cloud.log)|, me, Ids(addresses), ts)
      ensures cloud.Tries(me) == old(cloud.Tries(me)) + |ts|
      ensures var tried, ids := |ts|, Ids(addresses);
        if bound.Some? then
          && reached && 1 <= tried <= |ids| && At(Done(Bound(ids[tried - 1])))
          && ids[tried - 1] < |cloud.s.eips| && cloud.s.eips[ids[tried - 1]].publicIp == bound.value
          && exists x :: x in cloud.s.assocs && cloud.s.assocs[x] == Assoc(ids[tried - 1], me)
        else tried == (if reached then |ids| else 0) && At(Done(Outcome.Failed))
      ensures cloud.Fails(me) >= old(cloud.Fails(me))
      ensures cloud.Fails(me) == old(cloud.Fails(me)) ==>
                && reached
                && (forall j :: 0 <= j < |ts| - (if bound.Some? then 1 else 0) ==>
                      InUse(ts[j], addresses[j].allocationId))
    {
      hide Cloud.Valid, Runs.Passes, Runs.StepsFrom, Runs.Exec, Count, Inv, InUse, Tried;
      NoneTried(cloud.start, |cloud.log|, me, Ids(addresses));
      var ready := GetNetworkInterface(Ids(addresses));
      reached := ready;
      if !ready {
        return None, false, [];
      }
      ghost var from := |cloud.log|;
      var k;
      k, ts := TryInOrder(Ids(addresses));
      TriedLater(cloud, cloud.log, from, |old(cloud.log)|, me, Ids(addresses), ts);
      if k < |addresses| {
        ValidInv(cloud);
        BoundAddress(cloud.s, me);
        return Some(cloud.s.eips[addresses[k].allocationId].publicIp), true, ts;
      }
      return None, true, ts;
    }

    /** Assign. An instance that had an elastic IP on entry is reported, and no other, and nothing is tried.
        Else the candidates are listed in `t`, a state the run went through during the call, and Assign
        associates the first one, in sorted order, whose re-check and association succeed, with that one
        write. Without a failing call all those passed over were in use when they were re-checked, and it
        fails only when all were, when there were none, or for a filter or a sort that went wrong. */
    method Assign(filters: seq<string>, sortBy: string)
        returns (r: Result<string, AssignError>, ghost ids: seq<nat>, ghost listed: seq<Address>, ghost t: Sys,
                 ghost ts: seq<Sys>)
      requires At(Entered)
      modifies cloud
      ensures old(cloud.log) <= cloud.log && Valid()
      ensures |ids| > 0 ==>
                && ids == Ids(listed) && cloud.Passed(|old(cloud.log)|, t)
                && CompiledQuery(filters).Success? && Listing(listed, t, CompiledQuery(filters).value, sortBy)
      ensures Tried(cloud.start, cloud.log, |old(cloud.log)|, me, ids, ts)
                && cloud.Tries(me) == old(cloud.Tries(me)) + |ts|
      ensures var tried, wrote := |ts|, cloud.Writes(me) - old(cloud.Writes(me));
        match r
        case Success(address) =>
          && 1 <= tried <= |ids| && wrote == 1 && At(Done(Bound(ids[tried - 1])))
          && ids[tried - 1] < |cloud.s.eips| && cloud.s.eips[ids[tried - 1]].publicIp == address
          && exists x :: x in cloud.s.assocs && cloud.s.assocs[x] == Assoc(ids[tried - 1], me)
        case Failure(StaticIPAlreadyAssigned) => tried == 0 && wrote == 0 && At(Done(Already)) && Attached(cloud.s, me)
        case Failure(e) => tried == |ids| && wrote == 0 && At(if e.Panicked? then Out else Done(Outcome.Failed))
      ensures r == Failure(StaticIPAlreadyAssigned) ==> Attached(old(cloud.s), me)
      ensures r.Success? ==> !Attached(old(cloud.s), me)
      ensures cloud.Fails(me) == old(cloud.Fails(me)) ==>
        && (Attached(old(cloud.s), me) ==> r == Failure(StaticIPAlreadyAssigned))
        && (forall j :: 0 <= j < |ts| - (if r.Success? then 1 else 0) ==> InUse(ts[j], ids[j]))
        && (r == Failure(AssignFailed) && ids == [] ==>
              && CompiledQuery(filters).Success? && cloud.Passed(|old(cloud.log)|, t)
              && Selected(t, CompiledQuery(filters).value) == multiset{})
    {
      hide Cloud.Valid, Runs.Passes, Runs.StepsFrom, Runs.Exec, Count, Inv, InUse, Attached, AllFree, Listing,
          CompiledQuery, Tried;
      NoneTried(cloud.start, |cloud.log|, me, []);
      ids, listed, t, ts := [], [], cloud.s, [];
      var checked := CheckElasticIPAssigned();
      if checked.Failure? {
        return Failure(checked.error), ids, listed, t, ts;
      }
      ghost var from := |cloud.log|;
      var addresses;
      addresses, t := GetAvailableElasticIPs(filters, sortBy);
      ghost var log := cloud.log;
      if addresses.Failure? {
        if CompiledQuery(filters).Success? { PassedLater(cloud, log, from, |old(cloud.log)|, t); }
        return Failure(addresses.error), ids, listed, t, ts;
      }
      var bound;
      ghost var reached;
      bound, reached, ts := BindCandidate(addresses.value);
      ids, listed := if reached then Ids(addresses.value) else [], addresses.value;
      PassedLater(cloud, log, from, |old(cloud.log)|, t);
      TriedLater(cloud, cloud.log, |log|, |old(cloud.log)|, me, Ids(addresses.value), ts);
      return if bound.Some? then Success(bound.value) else Failure(AssignFailed), ids, listed, t, ts;
    }

    /** Unassign: success is one write, and that write removed, from the state `t` in which it was made, an
        association of this instance and no other. It succeeds if and only if no call fails and the instance
        had an elastic IP. */
    method Unassign() returns (ok: bool, ghost t: Sys)
      requires At(Releasing)
      modifies cloud
      ensures old(cloud.log) <= cloud.log && Valid() && cloud.Tries(me) == old(cloud.Tries(me))
      ensures ok ==> At(Released) && cloud.Writes(me) == old(cloud.Writes(me)) + 1
      ensures ok ==> cloud.Passed(|old(cloud.log)|, t)
                     && exists x :: x in t.assocs && t.assocs[x].instance == me && cloud.s.assocs == t.assocs - {x}
      ensures !ok ==> At(Out) && cloud.Writes(me) == old(cloud.Writes(me))
      ensures ok <==> cloud.Fails(me) == old(cloud.Fails(me)) && Attached(old(cloud.s), me)
    {
      hide Cloud.Valid, Runs.Passes, Runs.StepsFrom, Runs.Exec, Count, Inv, InUse, Attached;
      t := cloud.s;
      var found := GetAssignedElasticIP();
      if found.None? {
        return false, t;
      }
      cloud.Others(me);
      ValidInv(cloud);
      StillMine(cloud.s, me);
      t := cloud.s;
      PassedNow(cloud, |old(cloud.log)|);
      var failed: bool := *;
      if failed {
        cloud.Commit(me, CallFails);
        return false, t;
      }
      ghost var log := cloud.log;
      cloud.Commit(me, Disassociate);
      PassedLater(cloud, log, |old(cloud.log)|, |old(cloud.log)|, t);
      return true, t;
    }

    /** getAssignedElasticIP: an association of this instance, if there is one. */
    method GetAssignedElasticIP() returns (found: Option<nat>)
      requires At(Releasing)
      modifies cloud
      ensures old(cloud.log) <= cloud.log && Valid()
      ensures cloud.Writes(me) == old(cloud.Writes(me)) && cloud.Tries(me) == old(cloud.Tries(me))
      ensures At(if found.Some? then Disassociating(found.value) else Out)
      ensures found.Some? ==> cloud.Fails(me) == old(cloud.Fails(me)) && Attached(old(cloud.s), me)
      ensures found.None? ==>
                || cloud.Fails(me) == old(cloud.Fails(me)) + 1
                || (cloud.Fails(me) == old(cloud.Fails(me)) && !Attached(old(cloud.s), me))
    {
      hide Cloud.Valid, Runs.Passes, Runs.StepsFrom, Runs.Exec, Count, Inv, InUse;
      cloud.Others(me);
      var failed: bool := *;
      if failed {
        cloud.Commit(me, CallFails);
        return None;
      }
      if !Attached(cloud.s, me) {
        cloud.Commit(me, NoneAssigned);
        return None;
      }
      var x :| x in cloud.s.assocs && cloud.s.assocs[x].instance == me;
      cloud.Commit(me, FindAssigned(x));
      return Some(x);
    }
  }

  lemma StillMine(s: Sys, me: Instance)
    requires Inv(s) && me in s.agents && s.agents[me].Disassociating?
    ensures s.agents[me].assoc in s.assocs && s.assocs[s.agents[me].assoc].instance == me
  {
    assert AgentInv(s, me, s.agents[me]);
  }

  lemma BoundAddress(s: Sys, me: Instance)
    requires Inv(s) && me in s.agents && s.agents[me].Done? && s.agents[me].outcome.Bound?
    ensures exists x :: x in s.assocs && s.assocs[x] == Assoc(s.agents[me].outcome.eip, me)
    ensures s.agents[me].outcome.eip < |s.eips|
  {
    assert AgentInv(s, me, s.agents[me]);
  }

  method Select(keep: Address -> bool, eips: seq<Address>) returns (listed: seq<Address>)
    ensures listed == Filtered(keep, eips)
  {
    listed := [];
    for i := 0 to |eips|
      invariant listed == Filtered(keep, eips[..i])
    {
      FilteredSnoc(keep, eips, i);
      if keep(eips[i]) {
        listed := listed + [eips[i]];
      }
    }
    assert eips[..|eips|] == eips;
  }

  /** sortAddressesByField, in place on the listed slice. */
  method Sort(listed: seq<Address>, sortBy: string) returns (sorted: seq<Address>, panicked: bool)
    ensures multiset(sorted) == multiset(listed) && (panicked <==> Panics(multiset(listed), sortBy))
    ensures !panicked && Unmixed(multiset(listed), sortBy) ==> Ascending(sorted, sortBy)
  {
    var slice := new Address[|listed|](i requires 0 <= i < |listed| => listed[i]);
    assert slice[..] == listed;
    panicked := SortAddressesByField(slice, sortBy);
    sorted := slice[..];
  }

  lemma AllAvailable(s: Sys, selected: set<nat>, listed: seq<Address>, addresses: seq<Address>)
    requires Inv(s) && listed == Filtered(Available(s, selected), s.eips) && multiset(addresses) == multiset(listed)
    ensures AllFree(s, Ids(addresses))
  {
    forall i | 0 <= i < |addresses|
      ensures addresses[i].allocationId < |s.eips| && !InUse(s, addresses[i].allocationId)
    {
      assert addresses[i] in multiset(listed);
      FilteredMember(Available(s, selected), s.eips, addresses[i]);
    }
  }
}
