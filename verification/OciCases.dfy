/** What Assign finds out about the VNIC's present address, told from the address itself: it is kept when
    the filters select it, given up when they do not, deleted when it is ephemeral. */
module OciCases {
  import opened Wrappers
  import opened OciProtocol
  import opened OciSafety
  import Runs

  /** The address is one the agent's own filters select, and assigned. */
  predicate Selected(s: Sys, a: Vnic, i: nat)
    requires a in s.agents
  {
    i < |s.ips| && Listed(s.ips[i], Some(s.agents[a].filters), Assigned)
  }

  /** A reserved address that is assigned. */
  predicate Taken(ip: PublicIp) {
    ip.reserved && ip.state.Assigned?
  }

  /** A reserved address that is not assigned: when a VNIC holds it, it is in between states. */
  predicate Stuck(ip: PublicIp) {
    ip.reserved && !ip.state.Assigned?
  }

  /** The VNIC holds an address its filters select. */
  ghost predicate HoldsSelected(s: Sys, a: Vnic)
    requires a in s.agents
  {
    exists i: nat :: Holds(s, a, i) && Selected(s, a, i)
  }

  /** The VNIC holds a reserved address that is in between states. */
  ghost predicate HoldsStuck(s: Sys, a: Vnic) {
    exists i: nat :: Holds(s, a, i) && Stuck(s.ips[i])
  }

  /** `a` holds what it held in `s`. */
  ghost predicate SameHeld(s: Sys, t: Sys, a: Vnic) {
    forall i: nat :: (Holds(s, a, i) <==> Holds(t, a, i)) && (Holds(s, a, i) ==> t.ips[i] == s.ips[i])
  }

  /** The address held in `s` can be given up. */
  ghost predicate GivenUp(s: Sys, a: Vnic)
    requires a in s.agents
  {
    forall i: nat :: Holds(s, a, i) ==> !Selected(s, a, i) && !Stuck(s.ips[i])
  }

  /** What an agent has already found out about the address its VNIC holds. */
  ghost predicate Known(s: Sys, a: Vnic)
    requires a in s.agents
  {
    match s.agents[a].pc
    case NotFiltered(_) => forall i: nat :: Holds(s, a, i) ==> !Selected(s, a, i)
    case NotReserved(_) => forall i: nat :: Holds(s, a, i) ==> !Taken(s.ips[i])
    case Detaching(id) => !Selected(s, a, id)
    case _ => true
  }

  ghost predicate AllKnown(s: Sys) {
    forall a :: a in s.agents ==> Known(s, a)
  }

  /** The VNIC's address is found in a listing exactly when the listing has it. */
  lemma {:induction false} FoundExactly(s: Sys, a: Vnic, i: nat, ids: seq<nat>)
    requires CloudOk(s.ips) && Holds(s, a, i)
    ensures FirstWith(s.ips, ids, s.ips[i].address) == if i in ids then Some(i) else None
  {
    var r := FirstWith(s.ips, ids, s.ips[i].address);
    if r.Some? { SameAddress(s.ips, i, r.value); }
    hide FirstWith;
  }

  lemma HeldText(s: Sys, a: Vnic, i: nat, pub: string)
    requires CloudOk(s.ips) && Holds(s, a, i) && HoldsAddress(s, a, pub)
    ensures pub == s.ips[i].address
  {
  }

  /** The first question. */
  lemma VnicAnswer(s: Sys, st: Step)
    requires Inv(s) && Enabled(s, st) && st.call.GetVnic?
    ensures var pc' := Next(s, st).agents[st.a].pc;
      && (forall i: nat :: Holds(s, st.a, i) ==> pc' == HaveVnic(s.ips[i].address))
      && (HoldsNone(s, st.a) ==> pc' == Clear)
  {
    hide VnicAddress;
    var pub := VnicAddress(s.ips, st.a);
    if pub.Some? {
      forall i: nat | Holds(s, st.a, i) ensures pub.value == s.ips[i].address { HeldText(s, st.a, i, pub.value); }
    }
  }

  /** Case 1: the address is kept if and only if the filters select it. */
  lemma FilteredAnswer(s: Sys, st: Step, i: nat)
    requires Inv(s) && Enabled(s, st) && st.call.ListFiltered? && Holds(s, st.a, i)
    ensures Next(s, st).agents[st.a].pc ==
              if Selected(s, st.a, i) then Done(Already(s.ips[i].address)) else NotFiltered(s.ips[i].address)
  {
    var ag := s.agents[st.a];
    assert AgentInv(s, st.a, ag.pc);
    HeldText(s, st.a, i, ag.pc.pub);
    FetchExactly(s.ips, Some(ag.filters), true);
    FoundExactly(s, st.a, i, Fetch(s.ips, Some(ag.filters), true));
    hide Fetch, FirstWith, VnicAddress, Inv, FetchEphemeral;
  }

  /** Case 2: any other reserved address is given up if and only if it is assigned. */
  lemma AllAnswer(s: Sys, st: Step, i: nat)
    requires Inv(s) && Enabled(s, st) && st.call.ListAll? && Holds(s, st.a, i)
    ensures Next(s, st).agents[st.a].pc == if Taken(s.ips[i]) then Detaching(i) else NotReserved(s.ips[i].address)
  {
    var ag := s.agents[st.a];
    assert AgentInv(s, st.a, ag.pc);
    HeldText(s, st.a, i, ag.pc.pub);
    FetchExactly(s.ips, None, true);
    FoundExactly(s, st.a, i, Fetch(s.ips, None, true));
    hide Fetch, FirstWith, VnicAddress, Inv, FetchEphemeral;
  }

  /** Case 3: an ephemeral address is deleted; anything else is an error. */
  lemma EphemeralAnswer(s: Sys, st: Step, i: nat)
    requires Inv(s) && Enabled(s, st) && st.call.ListEphemeral? && Holds(s, st.a, i)
    ensures Next(s, st).agents[st.a].pc == if s.ips[i].reserved then Done(Failed) else Deleting(i)
  {
    var ag := s.agents[st.a];
    assert AgentInv(s, st.a, ag.pc);
    HeldText(s, st.a, i, ag.pc.pub);
    FetchEphemeralExactly(s.ips);
    FoundExactly(s, st.a, i, FetchEphemeral(s.ips));
    hide Fetch, FirstWith, VnicAddress, Inv, FetchEphemeral;
  }

  /** Giving up or deleting an address touches that one alone, and leaves the VNIC with none. */
  lemma GiveUpAnswer(s: Sys, st: Step)
    requires Inv(s) && Enabled(s, st) && (st.call.Detach? || st.call.DeleteEphemeral?)
    ensures var s', id := Next(s, st), s.agents[st.a].pc.id;
      && s'.agents[st.a].pc == Clear && Holds(s, st.a, id) && HoldsNone(s', st.a)
      && |s'.ips| == |s.ips| && (forall j :: 0 <= j < |s.ips| && j != id ==> s'.ips[j] == s.ips[j])
      && s'.ips[id].state == if st.call.Detach? then Available else Terminated
  {
    assert AgentInv(s, st.a, s.agents[st.a].pc);
    hide Fetch, FirstWith, VnicAddress, FetchEphemeral;
  }

  predicate IsCase(call: Call) {
    call.GetVnic? || call.ListFiltered? || call.ListAll? || call.ListEphemeral?
  }

  lemma OtherCalls(s: Sys, st: Step)
    requires Enabled(s, st) && !IsCase(st.call)
    ensures st.a in Next(s, st).agents && Known(Next(s, st), st.a)
  {
    hide Fetch, FirstWith, VnicAddress, FetchEphemeral, Effect, Selected, Taken;
  }

  lemma ReadsKeep(s: Sys, st: Step)
    requires Enabled(s, st) && IsCase(st.call)
    ensures Next(s, st).ips == s.ips && st.a in Next(s, st).agents
    ensures Next(s, st).agents[st.a].filters == s.agents[st.a].filters
  {
    hide Answer;
  }

  lemma HeldInCase(s: Sys, st: Step) returns (i: nat)
    requires Inv(s) && Enabled(s, st) && IsCase(st.call) && !st.call.GetVnic?
    ensures Holds(s, st.a, i) && forall j: nat :: Holds(s, st.a, j) ==> j == i
  {
    assert AgentInv(s, st.a, s.agents[st.a].pc);
    i :| 0 <= i < |s.ips| && s.ips[i].target == Some(st.a);
    hide AgentInv;
  }

  lemma OwnKnown(s: Sys, st: Step)
    requires Inv(s) && Enabled(s, st) && Known(s, st.a)
    ensures st.a in Next(s, st).agents && Known(Next(s, st), st.a)
  {
    if !IsCase(st.call) {
      OtherCalls(s, st);
    } else {
      ReadsKeep(s, st);
      if st.call.GetVnic? {
        VnicAnswer(s, st);
        VnicKnown(s, st);
      } else {
        var i := HeldInCase(s, st);
        assert st.call.ListAll? ==> !Selected(s, st.a, i);
        if st.call.ListFiltered? {
          FilteredAnswer(s, st, i);
        } else if st.call.ListAll? {
          AllAnswer(s, st, i);
        } else {
          EphemeralAnswer(s, st, i);
        }
        hide Next, Inv, Enabled, Taken;
      }
    }
  }

  lemma VnicKnown(s: Sys, st: Step)
    requires Enabled(s, st) && st.call.GetVnic?
    ensures st.a in Next(s, st).agents && Known(Next(s, st), st.a)
  {
    hide VnicAddress;
  }

  lemma OthersKnown(s: Sys, st: Step, a: Vnic)
    requires Inv(s) && a in s.agents && st.a != a && Known(s, a)
    ensures a in Next(s, st).agents && Next(s, st).agents[a] == s.agents[a] && Known(Next(s, st), a)
  {
    OthersView(s, st, a);
    assert AgentInv(s, a, s.agents[a].pc);
    assert a in Next(s, st).agents && Next(s, st).agents[a] == s.agents[a];
    hide Next, Inv;
    forall i: nat | Holds(Next(s, st), a, i) ensures Holds(s, a, i) && Next(s, st).ips[i] == s.ips[i] {
    }
  }

  lemma KnownStep(s: Sys, st: Step)
    requires Inv(s) && AllKnown(s)
    ensures AllKnown(Next(s, st))
  {
    if Enabled(s, st) {
      OwnKnown(s, st);
      hide Answer, Effect, Enabled, Known, Inv;
      forall a | a in Next(s, st).agents ensures Known(Next(s, st), a) {
        if a != st.a { OthersKnown(s, st, a); }
      }
    }
  }

  lemma {:induction false} KnownRun(s: Sys, steps: seq<Step>, n: nat)
    requires Init(s) && Excluded(s, steps) && n <= |steps|
    ensures var t := Runs.Exec(Next, s, steps[..n]); Inv(t) && AllKnown(t)
  {
    assert Inv(s) && AllKnown(s);
    hide Next, Inv, AllKnown;
    var hyp := (t: Sys, st: Step) => Exclusive(t);
    var good := (t: Sys) => Inv(t) && AllKnown(t);
    Runs.AlwaysPrefix(Next, hyp, s, steps, n);
    forall t, st | good(t) && hyp(t, st) ensures good(Next(t, st)) { InvStep(t, st); KnownStep(t, st); }
    Runs.Invariance(Next, hyp, good, s, steps[..n]);
  }

  /** In every run in which the lock excludes, what each answered question about the VNIC's address leads
      to depends on that address alone: no address and an address are told apart; an address the filters
      select is reported as already assigned; any other reserved one that is assigned is detached, an
      ephemeral one deleted, and one in between states is an error. In particular an agent never detaches
      an address its own filters select. */
  lemma {:induction false} CasesExactly(s: Sys, steps: seq<Step>, n: nat, i: nat)
    requires Init(s) && Excluded(s, steps) && n < |steps|
    requires var t, st := Runs.Exec(Next, s, steps[..n]), steps[n]; Enabled(t, st) && Holds(t, st.a, i)
    ensures var t, st := Runs.Exec(Next, s, steps[..n]), steps[n];
      var ip, selected, t' := t.ips[i], Selected(t, st.a, i), Next(t, st);
      && st.a in t'.agents
      && (st.call.GetVnic? ==> t'.agents[st.a].pc == HaveVnic(ip.address))
      && (st.call.ListFiltered? ==>
            t'.agents[st.a].pc == if selected then Done(Already(ip.address)) else NotFiltered(ip.address))
      && (st.call.ListAll? ==>
            !selected && t'.agents[st.a].pc == if Taken(ip) then Detaching(i) else NotReserved(ip.address))
      && (st.call.ListEphemeral? ==>
            !Taken(ip) && t'.agents[st.a].pc == if ip.reserved then Done(Failed) else Deleting(i))
      && (st.call.Detach? ==> !selected && t.agents[st.a].pc.id == i && HoldsNone(t', st.a))
      && (st.call.DeleteEphemeral? ==> !ip.reserved && t.agents[st.a].pc.id == i && HoldsNone(t', st.a))
  {
    KnownRun(s, steps, n);
    CaseAnswers(Runs.Exec(Next, s, steps[..n]), steps[n], i);
  }

  lemma CaseAnswers(t: Sys, st: Step, i: nat)
    requires Inv(t) && AllKnown(t) && Enabled(t, st) && Holds(t, st.a, i)
    ensures var ip, selected, t' := t.ips[i], Selected(t, st.a, i), Next(t, st);
      && st.a in t'.agents
      && (st.call.GetVnic? ==> t'.agents[st.a].pc == HaveVnic(ip.address))
      && (st.call.ListFiltered? ==>
            t'.agents[st.a].pc == if selected then Done(Already(ip.address)) else NotFiltered(ip.address))
      && (st.call.ListAll? ==>
            !selected && t'.agents[st.a].pc == if Taken(ip) then Detaching(i) else NotReserved(ip.address))
      && (st.call.ListEphemeral? ==>
            !Taken(ip) && t'.agents[st.a].pc == if ip.reserved then Done(Failed) else Deleting(i))
      && (st.call.Detach? ==> !selected && t.agents[st.a].pc.id == i && HoldsNone(t', st.a))
      && (st.call.DeleteEphemeral? ==> !ip.reserved && t.agents[st.a].pc.id == i && HoldsNone(t', st.a))
  {
    assert Known(t, st.a) && AgentInv(t, st.a, t.agents[st.a].pc);
    StaysAgent(t, st);
    match st.call {
      case GetVnic => VnicAnswer(t, st);
      case ListFiltered => FilteredAnswer(t, st, i);
      case ListAll => AllAnswer(t, st, i);
      case ListEphemeral => EphemeralAnswer(t, st, i);
      case Detach => GiveUpAnswer(t, st);
      case DeleteEphemeral => GiveUpAnswer(t, st);
      case _ =>
    }
    hide Next, AllKnown, Taken;
  }

  lemma StaysAgent(t: Sys, st: Step)
    requires Enabled(t, st)
    ensures st.a in Next(t, st).agents
  {
    hide Answer, Effect;
  }
}
