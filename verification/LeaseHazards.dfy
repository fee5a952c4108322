/** Each premise of mutual exclusion is needed: dropping it alone lets two clients in. */
module LeaseHazards {
  import opened Wrappers
  import opened Runs
  import opened LeaseProtocol
  import opened LeaseSafety
  import opened LeaseTiming

  datatype Premise = FreshLeases | UndisturbedTakeovers | UndisturbedReentries | NamedReentries

  const DELAYS := Delays(0, 0, 0, 0, 1)

  /** Timely, and every premise but `dropped` holds of the step. */
  ghost predicate Kept(dropped: Premise, s: Cluster, st: Step) {
    && Timely(s, st, DELAYS)
    && (st.Act? && Enabled(s, st) ==>
          && (st.act.Judge? && !dropped.FreshLeases? ==> FreshAtJudge(s, st.c))
          && (st.act.Judge? && !dropped.UndisturbedReentries? ==> Undisturbed(s, st))
          && (st.act.Judge? && !dropped.NamedReentries? ==> NamedReentry(s, st))
          && (st.act.Delete? && !dropped.UndisturbedTakeovers? ==> Undisturbed(s, st)))
  }

  ghost predicate Arrives(dropped: Premise, s: Cluster, t: Cluster) {
    Reaches(Next, (t, st) => Kept(dropped, t, st), s, t)
  }

  lemma Stays(dropped: Premise, s: Cluster)
    ensures Arrives(dropped, s, s)
  {
    ReachesSelf(Next, (t, st) => Kept(dropped, t, st), s);
  }

  lemma Moves(dropped: Premise, s: Cluster, t: Cluster, st: Step)
    requires Arrives(dropped, s, t) && Kept(dropped, t, st)
    ensures Arrives(dropped, s, Next(t, st))
  {
    ReachesNext(Next, (t, st) => Kept(dropped, t, st), s, t, st);
  }

  /** With all premises kept, no run of these clients puts two of them in. */
  lemma {:induction false} NoneDropped(s: Cluster, steps: seq<Step>)
    requires Init(s) && Always(Next, (t, st) => forall p :: Kept(p, t, st), s, steps)
    ensures Exclusive(Exec(Next, s, steps))
  {
    var kept := (t: Cluster, st: Step) => forall p :: Kept(p, t, st);
    forall i | 0 <= i < |steps| ensures Disciplined(Exec(Next, s, steps[..i]), steps[i]) {
      assert kept(Exec(Next, s, steps[..i]), steps[i]);
      assert Kept(FreshLeases, Exec(Next, s, steps[..i]), steps[i]);
      assert Kept(UndisturbedTakeovers, Exec(Next, s, steps[..i]), steps[i]);
    }
    MutualExclusion(s, steps, |steps|);
    assert steps[..|steps|] == steps;
  }

  /** Two clients with one-second leases, the clock of "b" ahead by `ahead`, and the lease `left`. */
  ghost function World(now: int, left: Lease, ahead: nat): Cluster {
    Cluster(now, Some(left),
            map["a" := Client(1, 0, Phase.Idle, Off), "b" := Client(1, ahead, Phase.Idle, Off)], {}, 1, 0, 0)
  }

  lemma Begins(dropped: Premise, s: Cluster, t: Cluster, c: Id)
    requires Arrives(dropped, s, t) && c in t.clients && t.clients[c].phase.Idle?
    ensures Arrives(dropped, s, SetPhase(t, c, Creating(t.now + t.clients[c].skew)))
  {
    hide Arrives;
    Moves(dropped, s, t, Act(c, Begin));
  }

  lemma Finds(dropped: Premise, s: Cluster, t: Cluster, c: Id)
    requires Arrives(dropped, s, t) && c in t.clients && t.clients[c].phase.Creating? && t.lease.Some?
    ensures Arrives(dropped, s, SetPhase(t, c, Getting))
  {
    hide Arrives;
    Moves(dropped, s, t, Act(c, CreateExists));
  }

  lemma Gets(dropped: Premise, s: Cluster, t: Cluster, c: Id)
    requires Arrives(dropped, s, t) && c in t.clients && t.clients[c].phase.Getting? && t.lease.Some?
    ensures Arrives(dropped, s, SetPhase(t, c, Judging(t.lease.value, t.now, t.acquisitions, t.takeovers)))
  {
    hide Arrives;
    Moves(dropped, s, t, Act(c, Get));
  }

  lemma Acquires(dropped: Premise, s: Cluster, t: Cluster, c: Id)
    requires Arrives(dropped, s, t) && c in t.clients && t.lease.None?
    requires t.clients[c].phase == Creating(t.now + t.clients[c].skew)
    ensures Arrives(dropped, s, Acquire(t, c, t.now + Period(t.clients[c])))
  {
    hide Arrives;
    Moves(dropped, s, t, Act(c, Create(t.now + Period(t.clients[c]))));
  }

  lemma SetPhaseTwice(t: Cluster, c: Id, p: Phase, q: Phase)
    requires c in t.clients
    ensures SetPhase(SetPhase(t, c, p), c, q) == SetPhase(t, c, q)
  {
    assert t.clients[c := t.clients[c].(phase := p)][c := t.clients[c].(phase := q)] ==
        t.clients[c := t.clients[c].(phase := q)];
  }

  /** `c` runs its Lock up to the judgement. */
  lemma Reads(dropped: Premise, s: Cluster, t: Cluster, c: Id)
    requires Arrives(dropped, s, t) && c in t.clients && t.clients[c].phase.Idle? && t.lease.Some?
    ensures Arrives(dropped, s, SetPhase(t, c, Judging(t.lease.value, t.now, t.acquisitions, t.takeovers)))
  {
    hide Arrives;
    var creating := Creating(t.now + t.clients[c].skew);
    Begins(dropped, s, t, c);
    Finds(dropped, s, SetPhase(t, c, creating), c);
    SetPhaseTwice(t, c, creating, Getting);
    Gets(dropped, s, SetPhase(t, c, Getting), c);
    SetPhaseTwice(t, c, Getting, Judging(t.lease.value, t.now, t.acquisitions, t.takeovers));
  }

  /** `c` acquires through Create once the lease is gone. */
  lemma Creates(dropped: Premise, s: Cluster, t: Cluster, c: Id) returns (t': Cluster)
    requires Arrives(dropped, s, t) && c in t.clients && t.clients[c].phase.Idle? && t.lease.None?
    ensures Arrives(dropped, s, t') && InCritical(t', c)
    ensures forall d :: d in t.clients && d != c ==> d in t'.clients && t'.clients[d] == t.clients[d]
    ensures t'.lease.Some? && t'.now == t.now && t'.clients.Keys == t.clients.Keys
  {
    hide Arrives;
    var t1 := SetPhase(t, c, Creating(t.now + t.clients[c].skew));
    Begins(dropped, s, t, c);
    Acquires(dropped, s, t1, c);
    t' := Acquire(t1, c, t.now + Period(t.clients[c]));
  }

  /** `c` judges what it read expired and deletes whatever lease is stored. */
  lemma TakesOver(dropped: Premise, s: Cluster, t: Cluster, c: Id)
    requires Arrives(dropped, s, t) && c in t.clients && t.clients[c].phase.Deleting? && t.lease.Some?
    requires dropped.UndisturbedTakeovers? || t.clients[c].phase.acq == t.acquisitions
    ensures Arrives(dropped, s, SetPhase(t, c, Phase.Idle).(lease := None, takeovers := t.takeovers + 1))
  {
    hide Arrives;
    Moves(dropped, s, t, Act(c, Delete));
  }

  /** With no deadline pending, time passes freely. */
  lemma TimePasses(dropped: Premise, s: Cluster, t: Cluster, to: int)
    requires Arrives(dropped, s, t) && t.now <= to
    requires forall c :: c in t.clients ==> InTime(t.clients[c], to, DELAYS)
    ensures Arrives(dropped, s, t.(now := to))
  {
    hide Arrives;
    Moves(dropped, s, t, Advance(to));
  }

  ghost predicate TwoHolders(dropped: Premise, s: Cluster) {
    exists t :: Arrives(dropped, s, t) && InCritical(t, "a") && InCritical(t, "b")
  }

  /** Two takeovers of one expired lease: the second Delete removes the lease the first taker created. */
  lemma TakeoverRace()
    ensures Init(World(2000, Lease(Some("x"), Some(0), 0), 0))
    ensures TwoHolders(UndisturbedTakeovers, World(2000, Lease(Some("x"), Some(0), 0), 0))
  {
    hide Arrives;
    var dropped := UndisturbedTakeovers;
    var s := World(2000, Lease(Some("x"), Some(0), 0), 0);
    Stays(dropped, s);
    Reads(dropped, s, s, "a");
    var t := SetPhase(s, "a", Judging(s.lease.value, 2000, 0, 0));
    Moves(dropped, s, t, Act("a", Judge));
    t := SetPhase(t, "a", Deleting(s.lease.value, 0));
    Reads(dropped, s, t, "b");
    t := SetPhase(t, "b", Judging(s.lease.value, 2000, 0, 0));
    Moves(dropped, s, t, Act("b", Judge));
    t := SetPhase(t, "b", Deleting(s.lease.value, 0));
    TakesOver(dropped, s, t, "a");
    t := Creates(dropped, s, SetPhase(t, "a", Phase.Idle).(lease := None, takeovers := 1), "a");
    TakesOver(dropped, s, t, "b");
    t := Creates(dropped, s, SetPhase(t, "b", Phase.Idle).(lease := None, takeovers := t.takeovers + 1), "b");
  }

  /** A re-entered lease is not renewed: it expires under its holder. */
  lemma ReentryExpires()
    ensures Init(World(0, Lease(Some("a"), Some(0), 0), 0))
    ensures TwoHolders(FreshLeases, World(0, Lease(Some("a"), Some(0), 0), 0))
  {
    hide Arrives;
    var dropped := FreshLeases;
    var s := World(0, Lease(Some("a"), Some(0), 0), 0);
    Stays(dropped, s);
    Reads(dropped, s, s, "a");
    var t := SetPhase(s, "a", Judging(s.lease.value, 0, 0, 0));
    Moves(dropped, s, t, Act("a", Judge));
    t := SetPhase(t, "a", Critical(false)).(acquisitions := 1);
    TimePasses(dropped, s, t, 2000);
    t := t.(now := 2000);
    Reads(dropped, s, t, "b");
    t := SetPhase(t, "b", Judging(s.lease.value, 2000, 1, 0));
    Moves(dropped, s, t, Act("b", Judge));
    t := SetPhase(t, "b", Deleting(s.lease.value, 1));
    TakesOver(dropped, s, t, "b");
    t := Creates(dropped, s, SetPhase(t, "b", Phase.Idle).(lease := None, takeovers := 1), "b");
  }

  /** Re-entry trusts an old reading: the lease is taken over between "a"'s Get and its decision. */
  lemma StaleReentry()
    ensures Init(World(1000, Lease(Some("a"), Some(0), 0), 1))
    ensures TwoHolders(UndisturbedReentries, World(1000, Lease(Some("a"), Some(0), 0), 1))
  {
    hide Arrives;
    var dropped := UndisturbedReentries;
    var s := World(1000, Lease(Some("a"), Some(0), 0), 1);
    Stays(dropped, s);
    Reads(dropped, s, s, "a");
    var t := SetPhase(s, "a", Judging(s.lease.value, 1000, 0, 0));
    Reads(dropped, s, t, "b");
    t := SetPhase(t, "b", Judging(s.lease.value, 1000, 0, 0));
    Moves(dropped, s, t, Act("b", Judge));
    t := SetPhase(t, "b", Deleting(s.lease.value, 0));
    TakesOver(dropped, s, t, "b");
    t := Creates(dropped, s, SetPhase(t, "b", Phase.Idle).(lease := None, takeovers := 1), "b");
    Moves(dropped, s, t, Act("a", Judge));
    t := Next(t, Act("a", Judge));
  }

  /** A leftover lease without a holder is taken by everybody for its own. */
  lemma UnnamedLeftover()
    ensures Init(World(0, Lease(None, Some(0), 0), 0))
    ensures TwoHolders(NamedReentries, World(0, Lease(None, Some(0), 0), 0))
  {
    hide Arrives;
    var dropped := NamedReentries;
    var s := World(0, Lease(None, Some(0), 0), 0);
    Stays(dropped, s);
    Reads(dropped, s, s, "a");
    var t := SetPhase(s, "a", Judging(s.lease.value, 0, 0, 0));
    Moves(dropped, s, t, Act("a", Judge));
    t := SetPhase(t, "a", Critical(false)).(acquisitions := 1);
    Reads(dropped, s, t, "b");
    t := SetPhase(t, "b", Judging(s.lease.value, 0, 1, 0));
    Moves(dropped, s, t, Act("b", Judge));
    t := Next(t, Act("b", Judge));
  }
}
