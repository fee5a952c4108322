/** An Unassign whose calls do not fail succeeds after every successful Assign, whatever the others do in
    between as long as the lock excludes. */
module OciRelease {
  import opened Wrappers
  import opened OciFilter
  import opened OciProtocol
  import opened OciSafety
  import opened OciTheorems
  import Runs

  predicate Matches(ips: seq<PublicIp>, i: nat, filters: OCIFilters) {
    i < |ips| && CheckFreeformTagFilter(filters, ips[i].tags)
  }

  predicate AllMatch(ips: seq<PublicIp>, ids: seq<nat>, filters: OCIFilters) {
    forall j :: 0 <= j < |ids| ==> Matches(ips, ids[j], filters)
  }

  /** Candidates match the agent's filters, and so does the address it was given, which is assigned. */
  ghost predicate Chosen(ips: seq<PublicIp>, ag: Agent) {
    match ag.pc
    case Trying(ids, _) => AllMatch(ips, ids, ag.filters)
    case Binding(ids, _) => AllMatch(ips, ids, ag.filters)
    case Done(outcome) => outcome.Bound? ==> Matches(ips, outcome.id, ag.filters) && ips[outcome.id].state.Assigned?
    case _ => true
  }

  ghost predicate AllChosen(s: Sys) {
    forall a :: a in s.agents ==> Chosen(s.ips, s.agents[a])
  }

  lemma ListedMatch(ips: seq<PublicIp>, filters: OCIFilters)
    ensures AllMatch(ips, Fetch(ips, Some(filters), false), filters)
  {
    FetchExactly(ips, Some(filters), false);
    var ids := Fetch(ips, Some(filters), false);
    assert forall j :: 0 <= j < |ids| ==> ids[j] in ids;
    hide Fetch;
  }

  predicate InLoop(call: Call) {
    call.ListFree? || call.Recheck? || call.RecheckFails? || call.Bind? || call.BindFails?
  }

  lemma LoopChosen(s: Sys, st: Step)
    requires Inv(s) && Enabled(s, st) && InLoop(st.call) && !st.call.Bind? && Chosen(s.ips, s.agents[st.a])
    ensures Chosen(s.ips, Next(s, st).agents[st.a]) && Next(s, st).ips == s.ips
  {
    ListedMatch(s.ips, s.agents[st.a].filters);
    hide AllMatch, Matches, Inv, Fetch, FirstWith;
  }

  lemma BindChosen(s: Sys, st: Step)
    requires Enabled(s, st) && st.call.Bind? && Chosen(s.ips, s.agents[st.a])
    ensures Chosen(Next(s, st).ips, Next(s, st).agents[st.a])
  {
    hide CheckFreeformTagFilter;
  }

  lemma OutsideLoop(s: Sys, st: Step)
    requires Enabled(s, st) && !InLoop(st.call)
    ensures forall ips :: Chosen(ips, Next(s, st).agents[st.a])
  {
    hide AllMatch, Matches, Fetch, FetchEphemeral, FirstWith, VnicAddress, Effect;
  }

  lemma OwnChosen(s: Sys, st: Step)
    requires Inv(s) && AllChosen(s) && Enabled(s, st)
    ensures Chosen(Next(s, st).ips, Next(s, st).agents[st.a])
  {
    assert Chosen(s.ips, s.agents[st.a]);
    hide Next, Chosen, Inv;
    if !InLoop(st.call) {
      OutsideLoop(s, st);
    } else if st.call.Bind? {
      BindChosen(s, st);
    } else {
      LoopChosen(s, st);
    }
  }

  lemma OthersChosen(s: Sys, st: Step, a: Vnic)
    requires Inv(s) && AllChosen(s) && Enabled(s, st) && a in s.agents && a != st.a
    ensures Chosen(Next(s, st).ips, s.agents[a])
  {
    assert Chosen(s.ips, s.agents[a]) && AgentInv(s, a, s.agents[a].pc);
    WriteTarget(s, st);
    hide Next, Inv, Enabled;
  }

  lemma ChosenStep(s: Sys, st: Step)
    requires Inv(s) && AllChosen(s)
    ensures AllChosen(Next(s, st))
  {
    if Enabled(s, st) {
      OwnChosen(s, st);
      forall a | a in s.agents && a != st.a ensures Chosen(Next(s, st).ips, s.agents[a]) { OthersChosen(s, st, a); }
      hide Chosen, Answer, Effect, Enabled, Inv;
    }
  }

  lemma {:induction false} ChosenRun(s: Sys, steps: seq<Step>)
    requires Init(s) && Excluded(s, steps)
    ensures var t := Runs.Exec(Next, s, steps); Inv(t) && AllChosen(t)
  {
    assert Inv(s) && AllChosen(s);
    hide Next, Inv, AllChosen;
    var hyp := (t: Sys, st: Step) => Exclusive(t);
    var good := (t: Sys) => Inv(t) && AllChosen(t);
    forall t, st | good(t) && hyp(t, st) ensures good(Next(t, st)) { InvStep(t, st); ChosenStep(t, st); }
    Runs.Invariance(Next, hyp, good, s, steps);
  }

  /** The state with `a` at `pc`. */
  function Moved(s: Sys, a: Vnic, pc: Pc): Sys
    requires a in s.agents
  {
    s.(agents := s.agents[a := s.agents[a].(pc := pc)])
  }

  // ----- Interleaved with everybody else -----

  /** The calls from the end of Assign to the end of Unassign, when none fails. */
  predicate IsRelease(call: Call) {
    call.Leave? || call.StartRelease? || call.GetVnicForRelease? || call.ListForRelease? || call.Free?
  }

  /** `a` holds the address `i` that its filters select, and is on its way to giving it back. */
  ghost predicate OnTrack(s: Sys, a: Vnic, i: nat) {
    && a in s.agents && Holds(s, a, i) && Listed(s.ips[i], Some(s.agents[a].filters), Assigned)
    && match s.agents[a].pc
       case Done(_) => true
       case Out => true
       case Releasing => true
       case ReleaseVnic(pub) => pub == s.ips[i].address
       case Freeing(id) => id == i
       case _ => false
  }

  /** How many of these calls are left. */
  function Left(pc: Pc): nat {
    match pc
    case Done(_) => 5
    case Out => 4
    case Releasing => 3
    case ReleaseVnic(_) => 2
    case Freeing(_) => 1
    case _ => 0
  }

  lemma OthersTrack(s: Sys, st: Step, a: Vnic, i: nat)
    requires Inv(s) && OnTrack(s, a, i) && st.a != a
    ensures OnTrack(Next(s, st), a, i) && Next(s, st).agents[a] == s.agents[a]
  {
    if Enabled(s, st) {
      WriteTarget(s, st);
      hide Inv, Answer, Effect, Enabled;
    }
  }

  lemma OwnRead(s: Sys, st: Step)
    requires Enabled(s, st) && !IsWrite(st.call)
    ensures Next(s, st) == Moved(s, st.a, Answer(s, st.a, s.agents[st.a], st.call))
  {
    hide Answer;
  }

  lemma {:induction false} Answers(s: Sys, a: Vnic, ag: Agent, pub: string, i: nat)
    requires VnicAddress(s.ips, a) == Some(pub)
    requires FirstWith(s.ips, Fetch(s.ips, Some(ag.filters), true), pub) == Some(i)
    ensures ag.pc.Done? ==> Answer(s, a, ag, Leave) == Out
    ensures ag.pc.Out? ==> Answer(s, a, ag, StartRelease) == Releasing
    ensures ag.pc.Releasing? ==> Answer(s, a, ag, GetVnicForRelease) == ReleaseVnic(pub)
    ensures ag.pc == ReleaseVnic(pub) ==> Answer(s, a, ag, ListForRelease) == Freeing(i)
  {
    hide Fetch, FirstWith, VnicAddress, FetchEphemeral;
  }

  lemma TrackCalls(s: Sys, st: Step, i: nat)
    requires OnTrack(s, st.a, i) && Enabled(s, st) && IsRelease(st.call) && !st.call.Free?
    ensures var pc := s.agents[st.a].pc;
      || (pc.Done? && st.call.Leave?) || (pc.Out? && st.call.StartRelease?)
      || (pc.Releasing? && st.call.GetVnicForRelease?)
      || (pc == ReleaseVnic(s.ips[i].address) && st.call.ListForRelease?)
  {
    hide Listed;
  }

  lemma TrackAnswer(s: Sys, st: Step, i: nat)
    requires CloudOk(s.ips) && OnTrack(s, st.a, i) && Enabled(s, st) && IsRelease(st.call) && !st.call.Free?
    ensures var pc := Answer(s, st.a, s.agents[st.a], st.call);
      && Left(pc) == Left(s.agents[st.a].pc) - 1
      && (pc.Out? || pc.Releasing? || pc == ReleaseVnic(s.ips[i].address) || pc == Freeing(i))
  {
    FindsOwn(s.ips, s.agents[st.a].filters, st.a, i);
    TrackCalls(s, st, i);
    Answers(s, st.a, s.agents[st.a], s.ips[i].address, i);
    hide CloudOk, Fetch, FirstWith, VnicAddress, FetchEphemeral, Listed, Answer, OnTrack, CanCall;
  }

  lemma OwnTrack(s: Sys, st: Step, i: nat)
    requires Inv(s) && OnTrack(s, st.a, i) && Enabled(s, st) && IsRelease(st.call) && !st.call.Free?
    ensures OnTrack(Next(s, st), st.a, i) && Left(Next(s, st).agents[st.a].pc) == Left(s.agents[st.a].pc) - 1
  {
    hide Next, Answer, Enabled, Left, Listed;
    OwnRead(s, st);
    TrackAnswer(s, st, i);
  }

  lemma OwnFree(s: Sys, st: Step, i: nat)
    requires OnTrack(s, st.a, i) && Enabled(s, st) && st.call.Free?
    ensures s.agents[st.a].pc == Freeing(i)
    ensures Next(s, st) == Sys(s.ips[i := Unbound(s.ips[i])], s.agents[st.a := s.agents[st.a].(pc := Released)])
  {
    hide Fetch, FirstWith, VnicAddress, FetchEphemeral;
  }

  /** An agent on its way is never stuck. */
  lemma NeverStuck(s: Sys, a: Vnic, i: nat)
    requires OnTrack(s, a, i)
    ensures exists call :: IsRelease(call) && Enabled(s, Step(a, call))
  {
    var pc := s.agents[a].pc;
    var call := if pc.Done? then Leave else if pc.Out? then StartRelease else if pc.Releasing? then GetVnicForRelease
                else if pc.ReleaseVnic? then ListForRelease else Free;
    assert IsRelease(call) && Enabled(s, Step(a, call));
  }

  /** A call that `a` makes. */
  ghost function CallsOf(a: Vnic): (Sys, Step) -> bool {
    (s: Sys, st: Step) => st.a == a && Enabled(s, st)
  }

  /** How many calls `a` makes in the run. */
  ghost function Made(s: Sys, steps: seq<Step>, a: Vnic): nat {
    Runs.Taken(Next, CallsOf(a), s, steps)
  }

  /** Step `n` of the run gives back exactly the address `i`, and ends `a`'s Unassign with success. */
  ghost predicate FreesAt(s: Sys, steps: seq<Step>, a: Vnic, i: nat, n: nat)
    requires n < |steps|
  {
    var t := Runs.Exec(Next, s, steps[..n]);
    && steps[n] == Step(a, Free) && a in t.agents && Holds(t, a, i)
    && Next(t, steps[n]) == Sys(t.ips[i := Unbound(t.ips[i])], t.agents[a := t.agents[a].(pc := Released)])
  }

  /** Whatever the others do while the lock excludes, an agent on its way that makes no failing call gives
      back exactly its address with the last of its calls, and is on its way before that. */
  lemma {:induction false} ReleaseSucceeds(s: Sys, steps: seq<Step>, a: Vnic, i: nat)
    requires Inv(s) && Excluded(s, steps) && OnTrack(s, a, i)
    requires forall j :: 0 <= j < |steps| && steps[j].a == a ==> IsRelease(steps[j].call)
    ensures var t := Runs.Exec(Next, s, steps);
      && Inv(t)
      && if Made(s, steps, a) < Left(s.agents[a].pc)
         then OnTrack(t, a, i) && Left(t.agents[a].pc) == Left(s.agents[a].pc) - Made(s, steps, a)
         else exists n :: 0 <= n < |steps| && FreesAt(s, steps, a, i, n)
  {
    hide Next, Inv, OnTrack, Enabled, Exclusive, Left, FreesAt;
    LeftPositive(s, a, i);
    if |steps| > 0 {
      var n := |steps| - 1;
      var u := Runs.Exec(Next, s, steps[..n]);
      Runs.AlwaysPrefix(Next, (t: Sys, st: Step) => Exclusive(t), s, steps, n);
      ReleaseSucceeds(s, steps[..n], a, i);
      InvStep(u, steps[n]);
      if Made(s, steps[..n], a) < Left(s.agents[a].pc) {
        StepTrack(u, steps[n], a, i);
        if steps[n].a == a && Enabled(u, steps[n]) && steps[n].call.Free? {
          assert steps[n] == Step(a, Free);
          FreesNow(s, steps, a, i);
        } else {
          LeftPositive(Next(u, steps[n]), a, i);
        }
      } else {
        var m :| 0 <= m < n && FreesAt(s, steps[..n], a, i, m);
        FreesLater(s, steps, a, i, n, m);
      }
    }
  }

  lemma FreesLater(s: Sys, steps: seq<Step>, a: Vnic, i: nat, n: nat, m: nat)
    requires m < n <= |steps| && FreesAt(s, steps[..n], a, i, m)
    ensures FreesAt(s, steps, a, i, m)
  {
    assert steps[..n][..m] == steps[..m];
    hide Next, Holds;
  }

  lemma LeftPositive(s: Sys, a: Vnic, i: nat)
    requires OnTrack(s, a, i)
    ensures a in s.agents && Left(s.agents[a].pc) > 0
  {
  }

  /** One step of anybody: `a` stays on its way, one call further if the call was its own, unless that call
      gave the address back. */
  lemma StepTrack(s: Sys, st: Step, a: Vnic, i: nat)
    requires Inv(s) && OnTrack(s, a, i) && (st.a == a ==> IsRelease(st.call))
    ensures var own := st.a == a && Enabled(s, st);
      if own && st.call.Free? then Left(s.agents[a].pc) == 1
      else
        && OnTrack(Next(s, st), a, i) && a in s.agents && a in Next(s, st).agents
        && Left(Next(s, st).agents[a].pc) == Left(s.agents[a].pc) - (if own then 1 else 0)
  {
    LeftPositive(s, a, i);
    if st.a != a {
      OthersTrack(s, st, a, i);
    } else if Enabled(s, st) {
      if st.call.Free? { OwnFree(s, st, i); } else { OwnTrack(s, st, i); }
    }
    hide OnTrack, Inv, Enabled, Answer, Effect;
  }

  lemma FreesNow(s: Sys, steps: seq<Step>, a: Vnic, i: nat)
    requires |steps| > 0
    requires var u, st := Runs.Exec(Next, s, steps[..|steps| - 1]), steps[|steps| - 1];
      OnTrack(u, a, i) && st == Step(a, Free) && Enabled(u, st)
    ensures FreesAt(s, steps, a, i, |steps| - 1)
  {
    OwnFree(Runs.Exec(Next, s, steps[..|steps| - 1]), steps[|steps| - 1], i);
    hide Next, Enabled, Listed;
  }

  /** After any run in which `a`'s Assign has just succeeded, and any run after that in which `a` only
      leaves it and releases, without a failing call: with its fifth call the address it was given, and only
      that one, is given back, whatever the others did meanwhile. */
  lemma {:induction false} AssignThenRelease(s: Sys, steps: seq<Step>, more: seq<Step>, a: Vnic, t: Sys)
    requires Init(s) && Excluded(s, steps + more) && t == Runs.Exec(Next, s, steps)
    requires a in t.agents && t.agents[a].pc.Done? && t.agents[a].pc.outcome.Bound?
    requires forall j :: 0 <= j < |more| && more[j].a == a ==> IsRelease(more[j].call)
    ensures Made(t, more, a) >= 5 ==> exists n :: 0 <= n < |more| && FreesAt(t, more, a, t.agents[a].pc.outcome.id, n)
  {
    var hyp := (t: Sys, st: Step) => Exclusive(t);
    Runs.AlwaysPrefix(Next, hyp, s, steps + more, |steps|);
    assert (steps + more)[..|steps|] == steps;
    Runs.AlwaysSuffix(Next, hyp, s, steps, more);
    ChosenRun(s, steps);
    assert AgentInv(t, a, t.agents[a].pc) && Chosen(t.ips, t.agents[a]);
    hide Next, Inv, Exclusive;
    ReleaseSucceeds(t, more, a, t.agents[a].pc.outcome.id);
  }

  // ----- On its own -----

  /** The four calls of an Unassign, none of which fails. */
  function Release(a: Vnic): seq<Step> {
    [Step(a, StartRelease), Step(a, GetVnicForRelease), Step(a, ListForRelease), Step(a, Free)]
  }

  /** The VNIC's address is the one it holds, and the filtered listing finds it. */
  lemma {:induction false} FindsOwn(ips: seq<PublicIp>, filters: OCIFilters, a: Vnic, i: nat)
    requires CloudOk(ips) && i < |ips| && ips[i].target == Some(a) && Listed(ips[i], Some(filters), Assigned)
    ensures VnicAddress(ips, a) == Some(ips[i].address)
    ensures FirstWith(ips, Fetch(ips, Some(filters), true), ips[i].address) == Some(i)
  {
    FetchExactly(ips, Some(filters), true);
    hide Fetch, FirstWith, VnicAddress;
  }

  /** A call that reads moves its agent and nothing else. */
  lemma ReadMoves(s: Sys, a: Vnic, pc: Pc, call: Call)
    requires a in s.agents && CanCall(s, pc, call) && !IsWrite(call)
    ensures Next(Moved(s, a, pc), Step(a, call)) == Moved(s, a, Answer(s, a, s.agents[a].(pc := pc), call))
  {
    var u := Moved(s, a, pc);
    SameView(s, a, pc, call);
    hide Answer, CanCall;
    assert u.agents[a := u.agents[a].(pc := Answer(u, a, u.agents[a], call))]
        == s.agents[a := s.agents[a].(pc := Answer(u, a, u.agents[a], call))];
  }

  /** Calls look at the addresses and at their own agent only. */
  lemma SameView(s: Sys, a: Vnic, pc: Pc, call: Call)
    requires a in s.agents && CanCall(s, pc, call)
    ensures var u := Moved(s, a, pc);
      && CanCall(u, pc, call) && u.agents[a] == s.agents[a].(pc := pc)
      && Answer(u, a, u.agents[a], call) == Answer(s, a, s.agents[a].(pc := pc), call)
  {
    hide Fetch, FetchEphemeral, FirstWith, VnicAddress;
  }

  lemma {:induction false} ReadsBeforeRelease(s: Sys, a: Vnic, pub: string, i: nat)
    requires a in s.agents && (s.agents[a].pc.Out? || s.agents[a].pc.Released?) && VnicAddress(s.ips, a) == Some(pub)
    requires FirstWith(s.ips, Fetch(s.ips, Some(s.agents[a].filters), true), pub) == Some(i)
    ensures Next(s, Step(a, StartRelease)) == Moved(s, a, Releasing)
    ensures Next(Moved(s, a, Releasing), Step(a, GetVnicForRelease)) == Moved(s, a, ReleaseVnic(pub))
    ensures Next(Moved(s, a, ReleaseVnic(pub)), Step(a, ListForRelease)) == Moved(s, a, Freeing(i))
  {
    hide Next, Fetch, FetchEphemeral, FirstWith, VnicAddress;
    assert Moved(s, a, s.agents[a].pc) == s;
    ReadMoves(s, a, s.agents[a].pc, StartRelease);
    ReadMoves(s, a, Releasing, GetVnicForRelease);
    ReadMoves(s, a, ReleaseVnic(pub), ListForRelease);
    hide Moved;
  }

  lemma Frees(s: Sys, a: Vnic, i: nat)
    requires a in s.agents && i < |s.ips|
    ensures Next(Moved(s, a, Freeing(i)), Step(a, Free)) ==
              Sys(s.ips[i := Unbound(s.ips[i])], s.agents[a := s.agents[a].(pc := Released)])
  {
    hide Fetch, FirstWith, VnicAddress;
  }

  lemma {:induction false} ExecFour(s: Sys, ls: seq<Step>)
    requires |ls| == 4
    ensures Runs.Exec(Next, s, ls) == Next(Next(Next(Next(s, ls[0]), ls[1]), ls[2]), ls[3])
  {
    hide Next;
    assert ls[..3][..2] == ls[..2] && ls[..2][..1] == ls[..1] && ls[..1][..0] == [];
    assert Runs.Exec(Next, s, ls[..1]) == Next(s, ls[0]);
    assert Runs.Exec(Next, s, ls[..2]) == Next(Next(s, ls[0]), ls[1]);
    assert Runs.Exec(Next, s, ls[..3]) == Next(Next(Next(s, ls[0]), ls[1]), ls[2]);
  }

  /** An agent outside both calls that holds a reserved address matching its filters gives it back. */
  lemma {:induction false} ReleaseAlone(s: Sys, a: Vnic, i: nat)
    requires CloudOk(s.ips) && a in s.agents && (s.agents[a].pc.Out? || s.agents[a].pc.Released?)
    requires Holds(s, a, i) && Listed(s.ips[i], Some(s.agents[a].filters), Assigned)
    ensures Runs.Exec(Next, s, Release(a)) ==
              Sys(s.ips[i := Unbound(s.ips[i])], s.agents[a := s.agents[a].(pc := Released)])
  {
    hide Next, Runs.Exec, Moved, CloudOk, Fetch, FirstWith, VnicAddress;
    FindsOwn(s.ips, s.agents[a].filters, a, i);
    ReadsBeforeRelease(s, a, s.ips[i].address, i);
    Frees(s, a, i);
    ExecFour(s, Release(a));
  }

  /** After any run in which the lock excludes, if `a`'s Assign has just succeeded, leaving it and running
      Unassign without a failing call frees exactly the address it was given. */
  lemma {:induction false} AssignThenReleaseAlone(s: Sys, steps: seq<Step>, a: Vnic, t: Sys)
    requires Init(s) && Excluded(s, steps) && t == Runs.Exec(Next, s, steps)
    requires a in t.agents && t.agents[a].pc.Done? && t.agents[a].pc.outcome.Bound?
    ensures var u, id := Runs.Exec(Next, s, steps + [Step(a, Leave)] + Release(a)), t.agents[a].pc.outcome.id;
      id < |t.ips| && u.ips == t.ips[id := Unbound(t.ips[id])] && a in u.agents && u.agents[a].pc.Released?
  {
    ChosenRun(s, steps);
    assert AgentInv(t, a, t.agents[a].pc) && Chosen(t.ips, t.agents[a]);
    Runs.ExecSnoc(Next, s, steps, Step(a, Leave));
    Runs.ExecAppend(Next, s, steps + [Step(a, Leave)], Release(a));
    ReleaseAlone(Next(t, Step(a, Leave)), a, t.agents[a].pc.outcome.id);
    hide Inv, AgentInv, Chosen;
  }

  /** One agent on its own: a successful Assign followed by an Unassign without failing calls restores the
      free pool exactly, and leaves the VNIC with no public address. */
  lemma {:induction false} RoundTripRestores(s: Sys, steps: seq<Step>, a: Vnic, t: Sys)
    requires Init(s) && t == Runs.Exec(Next, s, steps) && forall i :: 0 <= i < |steps| ==> steps[i].a == a
    requires forall i :: i in Reserved(s) ==> !Holds(s, a, i)
    requires a in t.agents && t.agents[a].pc.Done? && t.agents[a].pc.outcome.Bound?
    ensures var u := Runs.Exec(Next, s, steps + [Step(a, Leave)] + Release(a));
      FreePool(u) == FreePool(s) && HoldsNone(u, a)
  {
    AloneExcluded(s, steps, a);
    AssignThenReleaseAlone(s, steps, a, t);
    hide *;
    var all := steps + [Step(a, Leave)] + Release(a);
    assert forall i :: 0 <= i < |all| ==> all[i].a == a by { ReleaseByOne(a); }
    AssignUnassignRestores(s, all, a, Runs.Exec(Next, s, all));
  }

  lemma ReleaseByOne(a: Vnic)
    ensures forall i :: 0 <= i < |Release(a)| ==> Release(a)[i].a == a
  {
  }

  /** A run of one agent respects the lock. */
  lemma AloneExcluded(s: Sys, steps: seq<Step>, a: Vnic)
    requires Init(s) && forall i :: 0 <= i < |steps| ==> steps[i].a == a
    ensures Excluded(s, steps)
  {
    hide Next, Init;
    forall i | 0 <= i < |steps| ensures Exclusive(Runs.Exec(Next, s, steps[..i])) {
      AloneKeeps(s, steps[..i], a);
    }
  }
}
