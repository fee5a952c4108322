/** A whole Assign whose calls go through, interleaved with everybody else. */
module OciOutcome {
  import opened Wrappers
  import opened OciFilter
  import opened OciProtocol
  import opened OciSafety
  import opened OciCases
  import opened OciRelease
  import opened OciBinding
  import Runs

  /** The calls of an Assign, when none fails. */
  predicate IsAssign(call: Call) {
    IsCase(call) || IsBinding(call) || call.Detach? || call.DeleteEphemeral? || call.GetPrivateIp? || call.ListFree?
  }

  /** How many of these calls are left at most. */
  function Rank(pc: Pc): nat {
    match pc
    case Locked => 9
    case HaveVnic(_) => 8
    case NotFiltered(_) => 7
    case NotReserved(_) => 6
    case Detaching(_) => 5
    case Deleting(_) => 5
    case Clear => 4
    case Ready => 3
    case Trying(_, _) => 2
    case Binding(_, _) => 1
    case _ => 0
  }

  /** `ids` are the available addresses that the filters select, in listing order. */
  ghost predicate Lists(t: Sys, filters: OCIFilters, ids: seq<nat>) {
    && (forall i: nat :: i in ids <==> i < |t.ips| && Listed(t.ips[i], Some(filters), Available))
    && (forall j, k :: 0 <= j < k < |ids| ==> ids[j] < ids[k])
  }

  ghost predicate ListedAt(s: Sys, steps: seq<Step>, filters: OCIFilters, ids: seq<nat>, n: nat) {
    n <= |steps| && Lists(Runs.Exec(Next, s, steps[..n]), filters, ids)
  }

  /** They were so at some moment of the run. */
  ghost predicate WasListed(s: Sys, steps: seq<Step>, filters: OCIFilters, ids: seq<nat>) {
    exists n: nat :: ListedAt(s, steps, filters, ids, n)
  }

  lemma ListedLater(s: Sys, steps: seq<Step>, n: nat, filters: OCIFilters, ids: seq<nat>)
    requires n <= |steps| && WasListed(s, steps[..n], filters, ids)
    ensures WasListed(s, steps, filters, ids)
  {
    var m: nat :| ListedAt(s, steps[..n], filters, ids, m);
    assert steps[..n][..m] == steps[..m];
    assert ListedAt(s, steps, filters, ids, m);
  }

  lemma {:induction false} ListedNow(s: Sys, steps: seq<Step>, n: nat, filters: OCIFilters, ids: seq<nat>)
    requires n <= |steps| && Lists(Runs.Exec(Next, s, steps[..n]), filters, ids)
    ensures WasListed(s, steps, filters, ids)
  {
    assert ListedAt(s, steps, filters, ids, n);
  }

  /** Where an Assign that `a` entered in `s` has come to in `t`, after the run `steps`. */
  ghost predicate OnCourse(s: Sys, steps: seq<Step>, t: Sys, a: Vnic)
    requires a in s.agents && a in t.agents
  {
    var filters := s.agents[a].filters;
    t.agents[a].filters == filters
    && match t.agents[a].pc
       case Locked => SameHeld(s, t, a)
       case HaveVnic(_) => SameHeld(s, t, a)
       case NotFiltered(_) => SameHeld(s, t, a)
       case NotReserved(_) => SameHeld(s, t, a)
       case Detaching(id) => SameHeld(s, t, a) && id < |t.ips| && Taken(t.ips[id])
       case Deleting(_) => SameHeld(s, t, a)
       case Clear => GivenUp(s, a)
       case Ready => GivenUp(s, a)
       case Trying(ids, k) => GivenUp(s, a) && k == 0 && WasListed(s, steps, filters, ids)
       case Binding(ids, k) => GivenUp(s, a) && k == 0 && WasListed(s, steps, filters, ids)
       case Done(outcome) => Ends(s, steps, a, outcome)
       case _ => false
  }

  /** How it may end. */
  ghost predicate Ends(s: Sys, steps: seq<Step>, a: Vnic, outcome: Outcome)
    requires a in s.agents
  {
    var filters := s.agents[a].filters;
    && (outcome.Already? ==> HoldsSelected(s, a))
    && match outcome
       case Already(pub) => exists i: nat :: Holds(s, a, i) && pub == s.ips[i].address
       case Bound(id) => GivenUp(s, a) && exists ids :: |ids| > 0 && ids[0] == id && WasListed(s, steps, filters, ids)
       case Failed =>
         HoldsStuck(s, a) || (GivenUp(s, a) && WasListed(s, steps, filters, []))
  }

  lemma CourseLater(s: Sys, steps: seq<Step>, n: nat, t: Sys, a: Vnic)
    requires n <= |steps| && a in s.agents && a in t.agents && OnCourse(s, steps[..n], t, a)
    ensures OnCourse(s, steps, t, a)
  {
    var filters := s.agents[a].filters;
    forall ids | WasListed(s, steps[..n], filters, ids) ensures WasListed(s, steps, filters, ids) {
      ListedLater(s, steps, n, filters, ids);
    }
    hide WasListed, SameHeld, GivenUp, Stuck;
  }

  lemma OthersCourse(s: Sys, steps: seq<Step>, t: Sys, st: Step, a: Vnic)
    requires Inv(t) && a in s.agents && a in t.agents && st.a != a && OnCourse(s, steps, t, a)
    ensures a in Next(t, st).agents && Next(t, st).agents[a] == t.agents[a] && OnCourse(s, steps, Next(t, st), a)
  {
    OthersView(t, st, a);
    assert AgentInv(t, a, t.agents[a].pc);
    assert a in Next(t, st).agents && Next(t, st).agents[a] == t.agents[a];
    hide Next, Inv, WasListed, GivenUp, Ends, Stuck;
    if SameHeld(s, t, a) {
      forall i: nat ensures Holds(t, a, i) <==> Holds(Next(t, st), a, i) {
      }
    }
  }

  lemma FetchLists(t: Sys, filters: OCIFilters)
    ensures Lists(t, filters, Fetch(t.ips, Some(filters), false))
  {
    FetchExactly(t.ips, Some(filters), false);
  }

  /** The questions about the present address. */
  lemma CaseCourse(s: Sys, steps: seq<Step>, t: Sys, st: Step)
    requires Inv(t) && Enabled(t, st) && Known(t, st.a) && IsCase(st.call)
    requires st.a in s.agents && OnCourse(s, steps, t, st.a)
    ensures var t' := Next(t, st);
      st.a in t'.agents && OnCourse(s, steps, t', st.a) && Rank(t'.agents[st.a].pc) < Rank(t.agents[st.a].pc)
  {
    ReadsKeep(t, st);
    assert AgentInv(t, st.a, t.agents[st.a].pc);
    if st.call.GetVnic? {
      VnicAnswer(t, st);
      if i: nat :| Holds(t, st.a, i) {
        hide Next;
      } else {
        assert HoldsNone(t, st.a);
        forall i: nat ensures !Holds(s, st.a, i) {
        }
        hide Next;
      }
    } else {
      var i := HeldInCase(t, st);
      assert Holds(s, st.a, i) && t.ips[i] == s.ips[i];
      if st.call.ListFiltered? {
        FilteredAnswer(t, st, i);
      } else if st.call.ListAll? {
        AllAnswer(t, st, i);
      } else {
        EphemeralAnswer(t, st, i);
      }
      hide Next, WasListed, Inv;
    }
  }

  lemma GiveUpCourse(s: Sys, steps: seq<Step>, t: Sys, st: Step)
    requires Inv(t) && Enabled(t, st) && Known(t, st.a) && (st.call.Detach? || st.call.DeleteEphemeral?)
    requires st.a in s.agents && OnCourse(s, steps, t, st.a)
    ensures var t' := Next(t, st);
      st.a in t'.agents && OnCourse(s, steps, t', st.a) && Rank(t'.agents[st.a].pc) < Rank(t.agents[st.a].pc)
  {
    GiveUpAnswer(t, st);
    SameFilters(t, st);
    assert AgentInv(t, st.a, t.agents[st.a].pc);
    var id := t.agents[st.a].pc.id;
    forall i: nat | Holds(s, st.a, i) ensures i == id {
      assert Holds(t, st.a, i);
    }
    hide Next, WasListed, Inv;
  }

  lemma SameFilters(t: Sys, st: Step)
    requires Enabled(t, st)
    ensures st.a in Next(t, st).agents && Next(t, st).agents[st.a].filters == t.agents[st.a].filters
  {
    hide Answer, Effect;
  }

  /** The listing and the fallback loop. */
  lemma BindCourse(s: Sys, steps: seq<Step>, t: Sys, st: Step)
    requires AllOpen(t) && Enabled(t, st) && (st.call.GetPrivateIp? || st.call.ListFree? || IsBinding(st.call))
    requires st.a in s.agents && OnCourse(s, steps, t, st.a)
    requires WasListed(s, steps, s.agents[st.a].filters, Fetch(t.ips, Some(s.agents[st.a].filters), false))
    ensures var t' := Next(t, st);
      st.a in t'.agents && OnCourse(s, steps, t', st.a) && Rank(t'.agents[st.a].pc) < Rank(t.agents[st.a].pc)
  {
    SameFilters(t, st);
    if IsBinding(st.call) {
      RecheckBinds(t, st);
      hide Next, WasListed, AllOpen, GivenUp, Stuck;
    } else {
      hide WasListed, Fetch, FirstWith, VnicAddress, GivenUp, Stuck, AllOpen;
    }
  }

  lemma {:induction false} OwnCourse(s: Sys, steps: seq<Step>, n: nat, t: Sys, a: Vnic)
    requires n < |steps| && steps[n].a == a && t == Runs.Exec(Next, s, steps[..n])
    requires Inv(t) && AllOpen(t) && AllKnown(t) && Enabled(t, steps[n]) && IsAssign(steps[n].call)
    requires a in s.agents && OnCourse(s, steps, t, a)
    ensures var t' := Next(t, steps[n]);
      a in t'.agents && OnCourse(s, steps, t', a) && Rank(t'.agents[a].pc) < Rank(t.agents[a].pc)
  {
    var st, filters := steps[n], s.agents[a].filters;
    hide Next, Runs.Exec, Enabled, OnCourse, Inv, Known, AllOpen, WasListed;
    if IsCase(st.call) {
      CaseCourse(s, steps, t, st);
    } else if st.call.Detach? || st.call.DeleteEphemeral? {
      GiveUpCourse(s, steps, t, st);
    } else {
      FetchLists(t, filters);
      ListedNow(s, steps, n, filters, Fetch(t.ips, Some(filters), false));
      BindCourse(s, steps, t, st);
    }
  }

  /** One step of anybody. */
  lemma {:induction false} CourseStep(s: Sys, steps: seq<Step>, n: nat, t: Sys, a: Vnic)
    requires n < |steps| && t == Runs.Exec(Next, s, steps[..n]) && (steps[n].a == a ==> IsAssign(steps[n].call))
    requires Inv(t) && AllOpen(t) && AllKnown(t)
    requires a in s.agents && a in t.agents && OnCourse(s, steps[..n], t, a)
    ensures var t', own := Next(t, steps[n]), if steps[n].a == a && Enabled(t, steps[n]) then 1 else 0;
      a in t'.agents && OnCourse(s, steps, t', a) && Rank(t'.agents[a].pc) + own <= Rank(t.agents[a].pc)
  {
    CourseLater(s, steps, n, t, a);
    if steps[n].a != a {
      OthersCourse(s, steps, t, steps[n], a);
    } else if Enabled(t, steps[n]) {
      OwnCourse(s, steps, n, t, a);
    }
    hide OnCourse, Inv, Known, AllOpen, Answer, Effect, Enabled;
  }

  lemma {:induction false} CourseRun(s: Sys, steps: seq<Step>, a: Vnic)
    requires Good(s) && Excluded(s, steps) && a in s.agents && s.agents[a].pc.Locked?
    requires forall j :: 0 <= j < |steps| && steps[j].a == a ==> IsAssign(steps[j].call)
    ensures var t := Runs.Exec(Next, s, steps);
      Good(t) && a in t.agents && OnCourse(s, steps, t, a) && Rank(t.agents[a].pc) + Made(s, steps, a) <= 9
  {
    if |steps| > 0 {
      var n := |steps| - 1;
      var t := Runs.Exec(Next, s, steps[..n]);
      Runs.AlwaysPrefix(Next, (t: Sys, st: Step) => Exclusive(t), s, steps, n);
      CourseRun(s, steps[..n], a);
      assert Exclusive(t);
      hide Next, Inv, Known, AllOpen, Exclusive, OnCourse, Enabled, Rank;
      GoodStep(t, steps[n]);
      CourseStep(s, steps, n, t, a);
    }
  }

  /** An Assign that `a` enters in any state `t` of a run, interleaved with everybody else while the lock
      excludes, and none of whose calls fails, returns after at most nine of them. It reports an address as
      already assigned exactly when the VNIC held one that the filters select, and that one; else it binds
      the first available address that the filters select, as listed at some moment of the call; it fails
      only when there is none, or on a reserved address that is in between states. */
  lemma {:induction false} FaultFreeAssign(s: Sys, steps: seq<Step>, more: seq<Step>, a: Vnic, t: Sys)
    requires Init(s) && Excluded(s, steps + more) && t == Runs.Exec(Next, s, steps)
    requires a in t.agents && t.agents[a].pc.Locked?
    requires forall j :: 0 <= j < |more| && more[j].a == a ==> IsAssign(more[j].call)
    ensures var u := Runs.Exec(Next, t, more);
      && a in u.agents
      && (Made(t, more, a) >= 9 ==> u.agents[a].pc.Done?)
      && (u.agents[a].pc.Done? ==>
            && Ends(t, more, a, u.agents[a].pc.outcome)
            && (u.agents[a].pc.outcome.Already? <==> HoldsSelected(t, a)))
      && (u.agents[a].pc.Done? && u.agents[a].pc.outcome.Bound? ==> Holds(u, a, u.agents[a].pc.outcome.id))
  {
    var hyp := (t: Sys, st: Step) => Exclusive(t);
    Runs.AlwaysPrefix(Next, hyp, s, steps + more, |steps|);
    assert (steps + more)[..|steps|] == steps && steps[..|steps|] == steps;
    Runs.AlwaysSuffix(Next, hyp, s, steps, more);
    OpenRun(s, steps, |steps|);
    KnownRun(s, steps, |steps|);
    hide Next, Inv, AllOpen, AllKnown, Exclusive, OnCourse, Ends, Rank;
    CourseRun(t, more, a);
    assert Good(t);
    CourseEnds(t, more, Runs.Exec(Next, t, more), a);
  }

  lemma CourseEnds(s: Sys, steps: seq<Step>, t: Sys, a: Vnic)
    requires Good(s) && Good(t) && a in s.agents && a in t.agents && OnCourse(s, steps, t, a)
    ensures Rank(t.agents[a].pc) == 0 ==> t.agents[a].pc.Done?
    ensures t.agents[a].pc.Done? ==>
              && Ends(s, steps, a, t.agents[a].pc.outcome)
              && (t.agents[a].pc.outcome.Already? <==> HoldsSelected(s, a))
    ensures t.agents[a].pc.Done? && t.agents[a].pc.outcome.Bound? ==> Holds(t, a, t.agents[a].pc.outcome.id)
  {
    BoundHeld(t, a);
    forall i: nat, j: nat | Holds(s, a, i) && Holds(s, a, j) ensures i == j {
    }
    hide Inv, AllOpen, Known, WasListed;
  }

  /** Until it has returned, one of those calls can be made. */
  lemma NeverStuck(s: Sys, a: Vnic)
    requires Inv(s) && a in s.agents && InAssign(s.agents[a].pc) && !s.agents[a].pc.Done?
    ensures exists call :: IsAssign(call) && Enabled(s, Step(a, call))
  {
    var pc := s.agents[a].pc;
    assert AgentInv(s, a, pc);
    var call := match pc
                case Locked => GetVnic
                case HaveVnic(_) => ListFiltered
                case NotFiltered(_) => ListAll
                case NotReserved(_) => ListEphemeral
                case Detaching(_) => Detach
                case Deleting(_) => DeleteEphemeral
                case Clear => GetPrivateIp
                case Ready => ListFree
                case Trying(_, _) => Recheck
                case _ => Bind;
    assert IsAssign(call) && Enabled(s, Step(a, call));
  }
}
