/** The lease and the OCI compartment together: the agents of cmd/main.go enter Assign only inside the
    lock and leave the lock only after Assign returned, while Unassign runs outside it. Lease identities
    and agents coincide. */
module Joint {
  import opened Wrappers
  import L = LeaseProtocol
  import LS = LeaseSafety
  import LT = LeaseTiming
  import LX = LeaseTheorems
  import LH = LeaseHazards
  import O = OciProtocol
  import OS = OciSafety
  import OX = OciTheorems
  import Runs

  datatype World = World(cluster: L.Cluster, cloud: O.Sys)

  /** A crash ends the agent on both sides. */
  datatype Step = Lease(st: L.Step) | Cloud(call: O.Step) | Crash(a: string)

  predicate Assigning(w: World, a: string) {
    a in w.cloud.agents && O.InAssign(w.cloud.agents[a].pc)
  }

  /** Assign is called when Lock has returned; the deferred Unlock runs when Assign has returned. */
  predicate Bracketed(w: World, s: Step) {
    match s
    case Lease(st) => st.Act? && (st.act.StartUnlock? || st.act.Crash?) ==> !Assigning(w, st.c)
    case Cloud(call) => call.call.Enter? ==> L.InCritical(w.cluster, call.a)
    case Crash(_) => true
  }

  function Next(w: World, s: Step): World {
    if !Bracketed(w, s) then w
    else
      match s
      case Lease(st) => w.(cluster := L.Next(w.cluster, st))
      case Cloud(call) => w.(cloud := O.Next(w.cloud, call))
      case Crash(a) => World(L.Next(w.cluster, L.Act(a, L.Crash)), O.Next(w.cloud, O.Step(a, O.Crash)))
  }

  ghost predicate Init(w: World, dl: LT.Delays) {
    LX.Start(w.cluster, dl) && LT.AllFit(w.cluster, dl) && O.Init(w.cloud)
  }

  /** The premises of LeaseTheorems.TimedExclusion; nothing is asked of the cloud's steps. */
  ghost predicate Timed(w: World, s: Step, dl: LT.Delays) {
    s.Lease? ==> LX.Careful(w.cluster, s.st) && LT.Timely(w.cluster, s.st, dl)
  }

  ghost function TimedBy(dl: LT.Delays): (World, Step) -> bool {
    (w: World, s: Step) => Timed(w, s, dl)
  }

  /** Whoever is in Assign is in the critical section. */
  ghost predicate Inside(w: World) {
    forall a :: Assigning(w, a) ==> L.InCritical(w.cluster, a)
  }

  ghost predicate Good(w: World, dl: LT.Delays) {
    LX.Good(w.cluster, dl) && OS.Inv(w.cloud) && Inside(w)
  }

  lemma Excludes(w: World, dl: LT.Delays)
    requires Good(w, dl)
    ensures LS.Exclusive(w.cluster) && O.Exclusive(w.cloud)
  {
    LS.SafeIsOwned(w.cluster);
    hide LX.Good, OS.Inv;
    forall a, b | a in w.cloud.agents && b in w.cloud.agents && O.InAssign(w.cloud.agents[a].pc)
        && O.InAssign(w.cloud.agents[b].pc)
      ensures a == b
    {
      assert Assigning(w, a) && Assigning(w, b);
    }
  }

  lemma CriticalKept(s: L.Cluster, st: L.Step, a: string)
    requires L.InCritical(s, a) && !(st.Act? && st.c == a && (st.act.StartUnlock? || st.act.Crash?))
    ensures L.InCritical(L.Next(s, st), a)
  {
  }

  /** Only Enter brings an agent into Assign. */
  lemma AssigningBefore(s: O.Sys, st: O.Step, a: string)
    requires a in O.Next(s, st).agents && O.InAssign(O.Next(s, st).agents[a].pc)
    ensures a in s.agents && (O.InAssign(s.agents[a].pc) || (st.a == a && st.call.Enter?))
    ensures st.call.Crash? ==> st.a != a
  {
    hide O.FirstWith, O.Fetch, O.FetchEphemeral, O.VnicAddress;
  }

  lemma InsideKept(w: World, s: Step)
    requires Inside(w)
    ensures Inside(Next(w, s))
  {
    hide L.Next, O.Next, L.InCritical, O.InAssign;
    var w' := Next(w, s);
    forall a | Assigning(w', a) ensures L.InCritical(w'.cluster, a) {
      if Bracketed(w, s) {
        match s
        case Lease(st) => CriticalKept(w.cluster, st, a);
        case Cloud(call) => AssigningBefore(w.cloud, call, a);
        case Crash(b) =>
          AssigningBefore(w.cloud, O.Step(b, O.Crash), a);
          CriticalKept(w.cluster, L.Act(b, L.Crash), a);
      }
    }
  }

  lemma CrashIsTimed(s: L.Cluster, a: string, dl: LT.Delays)
    ensures LX.Careful(s, L.Act(a, L.Crash)) && LT.Timely(s, L.Act(a, L.Crash), dl)
  {
  }

  lemma GoodStep(w: World, s: Step, dl: LT.Delays)
    requires Good(w, dl) && Timed(w, s, dl)
    ensures Good(Next(w, s), dl)
  {
    InsideKept(w, s);
    Excludes(w, dl);
    hide L.Next, O.Next, Inside, LX.Good, OS.Inv, O.Exclusive, LS.Exclusive, LX.Careful, LT.Timely;
    if Bracketed(w, s) {
      match s
      case Lease(st) => LX.GoodStep(w.cluster, st, dl);
      case Cloud(call) => OS.InvStep(w.cloud, call);
      case Crash(a) =>
        CrashIsTimed(w.cluster, a, dl);
        LX.GoodStep(w.cluster, L.Act(a, L.Crash), dl);
        OS.InvStep(w.cloud, O.Step(a, O.Crash));
    }
  }

  lemma GoodStart(w: World, dl: LT.Delays)
    requires Init(w, dl)
    ensures Good(w, dl)
  {
    assert forall a :: !Assigning(w, a);
  }

  lemma {:induction false} GoodRun(w: World, steps: seq<Step>, n: nat, dl: LT.Delays)
    requires Init(w, dl) && Runs.Always(Next, TimedBy(dl), w, steps) && n <= |steps|
    ensures Good(Runs.Exec(Next, w, steps[..n]), dl)
  {
    GoodStart(w, dl);
    hide Good, Init, Timed, Next;
    Runs.AlwaysPrefix(Next, TimedBy(dl), w, steps, n);
    var good := (v: World) => Good(v, dl);
    forall v, s | good(v) && TimedBy(dl)(v, s) ensures good(Next(v, s)) { GoodStep(v, s, dl); }
    Runs.Invariance(Next, TimedBy(dl), good, w, steps[..n]);
  }

  /** The step taken by a cloud call or by a crash, if any. */
  function CloudStep(s: Step): Option<O.Step> {
    match s
    case Lease(_) => None
    case Cloud(call) => Some(call)
    case Crash(a) => Some(O.Step(a, O.Crash))
  }

  /** End to end: with delays below L, renewals that succeed, undisturbed takeovers, unexpired re-entries
      and 500·Dh + L <= 1000·Dc, no step of any run of any number of agents takes an address from its
      owner. Assign is exclusive, a bind lands on an address nobody holds, an address leaves its owner
      only by the owner's own call, and no VNIC gets a second one. */
  lemma {:induction false} NoStealUnderLease(w: World, steps: seq<Step>, n: nat, dl: LT.Delays)
    requires Init(w, dl) && Runs.Always(Next, TimedBy(dl), w, steps) && n < |steps|
    ensures var v := Runs.Exec(Next, w, steps[..n]);
      var v' := Next(v, steps[n]);
      && O.Exclusive(v.cloud)
      && (forall b, i :: O.Holds(v.cloud, b, i) && !O.Holds(v'.cloud, b, i) ==>
            CloudStep(steps[n]).Some? && CloudStep(steps[n]).value.a == b)
      && (forall b, i: nat :: !O.Holds(v.cloud, b, i) && O.Holds(v'.cloud, b, i) ==>
            steps[n].Cloud? && steps[n].call.call.Bind? && steps[n].call.a == b && i < |v.cloud.ips|
                && v.cloud.ips[i].target.None?)
      && (forall b, i, j :: O.Holds(v.cloud, b, i) && O.Holds(v.cloud, b, j) ==> i == j)
  {
    GoodRun(w, steps, n, dl);
    var v := Runs.Exec(Next, w, steps[..n]);
    Excludes(v, dl);
    hide Runs.Exec, LX.Good, Inside, Init, Timed, Runs.Always;
    if Bracketed(v, steps[n]) && CloudStep(steps[n]).Some? { StepTakesFree(v.cloud, CloudStep(steps[n]).value); }
  }

  lemma StepTakesFree(s: O.Sys, st: O.Step)
    requires OS.Inv(s)
    ensures forall b, i :: O.Holds(s, b, i) && !O.Holds(O.Next(s, st), b, i) ==> st.a == b
    ensures forall b, i: nat :: !O.Holds(s, b, i) && O.Holds(O.Next(s, st), b, i) ==>
              st.call.Bind? && st.a == b && i < |s.ips| && s.ips[i].target.None?
  {
    if O.Enabled(s, st) {
      OS.WriteTarget(s, st);
      hide O.Next;
    }
  }

  // ----- What a broken lock does to addresses -----

  /** Every premise but undisturbed takeovers. */
  ghost function Racing(): (World, Step) -> bool {
    (w: World, s: Step) => s.Lease? ==> LH.Kept(LH.UndisturbedTakeovers, w.cluster, s.st)
  }

  ghost predicate Arrives(w: World, v: World) {
    Runs.Reaches(Next, Racing(), w, v)
  }

  lemma {:induction false} LeaseRun(s: L.Cluster, steps: seq<L.Step>, cloud: O.Sys)
    requires Runs.Always(L.Next, (t, st) => LH.Kept(LH.UndisturbedTakeovers, t, st), s, steps)
    requires forall a :: a in cloud.agents ==> !O.InAssign(cloud.agents[a].pc)
    ensures Arrives(World(s, cloud), World(Runs.Exec(L.Next, s, steps), cloud))
  {
    hide L.Next, LH.Kept;
    var hyp := (t: L.Cluster, st: L.Step) => LH.Kept(LH.UndisturbedTakeovers, t, st);
    if |steps| == 0 {
      Runs.ReachesSelf(Next, Racing(), World(s, cloud));
    } else {
      var n := |steps| - 1;
      Runs.AlwaysPrefix(L.Next, hyp, s, steps, n);
      LeaseRun(s, steps[..n], cloud);
      var t := Runs.Exec(L.Next, s, steps[..n]);
      assert hyp(t, steps[n]);
      Runs.ReachesNext(Next, Racing(), World(s, cloud), World(t, cloud), Lease(steps[n]));
    }
  }

  lemma {:induction false} CloudRun(w: World, t: L.Cluster, s: O.Sys, steps: seq<O.Step>)
    requires Arrives(w, World(t, s)) && L.InCritical(t, "a") && L.InCritical(t, "b")
    requires Runs.Always(O.Next, OX.ByTwo(), s, steps)
    ensures Arrives(w, World(t, Runs.Exec(O.Next, s, steps)))
  {
    hide O.Next, LH.Kept;
    if |steps| > 0 {
      var n := |steps| - 1;
      Runs.AlwaysPrefix(O.Next, OX.ByTwo(), s, steps, n);
      CloudRun(w, t, s, steps[..n]);
      var u := Runs.Exec(O.Next, s, steps[..n]);
      assert OX.ByTwo()(u, steps[n]);
      Runs.ReachesNext(Next, Racing(), w, World(t, u), Cloud(steps[n]));
    }
  }

  /** The takeover race reaches the addresses: dropping that one premise, in an otherwise timely and
      disciplined run, one agent's bind takes the address another agent holds. */
  lemma TakeoverSteals()
    ensures var w := World(LH.World(2000, L.Lease(Some("x"), Some(0), 0), 0), OX.OneAddress(None, O.Out, O.Out));
      && L.Init(w.cluster) && O.Init(w.cloud)
      && exists v, st :: Arrives(w, v) && Bracketed(v, Cloud(st)) && OX.Steals(v.cloud, st)
  {
    var left := L.Lease(Some("x"), Some(0), 0);
    var s, c := LH.World(2000, left, 0), OX.OneAddress(None, O.Out, O.Out);
    var w := World(s, c);
    LH.TakeoverRace();
    OX.StealWithoutLock();
    var t :| LH.Arrives(LH.UndisturbedTakeovers, s, t) && L.InCritical(t, "a") && L.InCritical(t, "b");
    var ls :| Runs.Always(L.Next, (t, st) => LH.Kept(LH.UndisturbedTakeovers, t, st), s, ls)
        && t == Runs.Exec(L.Next, s, ls);
    LeaseRun(s, ls, c);
    var u, st :| Runs.Reaches(O.Next, OX.ByTwo(), c, u) && OX.ByTwo()(u, st) && OX.Steals(u, st);
    var cs :| Runs.Always(O.Next, OX.ByTwo(), c, cs) && u == Runs.Exec(O.Next, c, cs);
    CloudRun(w, t, c, cs);
    assert Bracketed(World(t, u), Cloud(st));
  }
}
