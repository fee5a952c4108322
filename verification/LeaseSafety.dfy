/** Mutual exclusion over every interleaving of the lease protocol. */
module LeaseSafety {
  import opened Wrappers
  import opened Runs
  import opened LeaseProtocol

  /** Every client in its critical section is the one the stored lease names. */
  ghost predicate Owned(s: Cluster) {
    forall c :: InCritical(s, c) ==> Names(s.lease, c)
  }

  ghost predicate Exclusive(s: Cluster) {
    forall c, d :: InCritical(s, c) && InCritical(s, d) ==> c == d
  }

  /** `c` is about to delete the lease of another client that is in its critical section. */
  predicate DeletesForeign(s: Cluster, c: Id) {
    s.lease.Some? && s.lease.value.holder.Some?
    && s.lease.value.holder.value != c && InCritical(s, s.lease.value.holder.value)
  }

  /** The two guards that lock.go leaves out: Delete has no precondition on the lease it removes, and
      re-entry trusts a lease that was read earlier. */
  predicate Hazard(s: Cluster, st: Step) {
    st.Act? && Enabled(s, st) &&
    match st.act
    case Delete => DeletesForeign(s, st.c)
    case UnlockDelete => DeletesForeign(s, st.c)
    case Judge => ReEnters(s, st.c) && !Names(s.lease, st.c)
    case _ => false
  }

  lemma OwnedStep(s: Cluster, st: Step)
    requires Owned(s)
    ensures Owned(Next(s, st)) <==> !Hazard(s, st)
  {
    var s' := Next(s, st);
    if Hazard(s, st) {
      assert InCritical(s', if st.act.Judge? then st.c else s.lease.value.holder.value);
    } else {
      forall c | InCritical(s', c) ensures Names(s'.lease, c) {
        assert InCritical(s, c) || (st.Act? && st.c == c);
      }
    }
  }

  /** Exactly when the lock works: from an owned state, the stored lease names every client in its
      critical section after every step of the run if and only if no step of the run is a hazard. */
  lemma {:induction false} OwnedExactly(s: Cluster, steps: seq<Step>)
    requires Owned(s)
    ensures (forall i :: 0 <= i <= |steps| ==> Owned(Exec(Next, s, steps[..i])))
       <==> Always(Next, (t, st) => !Hazard(t, st), s, steps)
  {
    var hyp := (t, st) => !Hazard(t, st);
    if Always(Next, hyp, s, steps) {
      forall i | 0 <= i <= |steps| ensures Owned(Exec(Next, s, steps[..i])) {
        AlwaysPrefix(Next, hyp, s, steps, i);
        forall t, st | Owned(t) && hyp(t, st) ensures Owned(Next(t, st)) { OwnedStep(t, st); }
        Invariance(Next, hyp, Owned, s, steps[..i]);
      }
    } else {
      var i :| 0 <= i < |steps| && !hyp(Exec(Next, s, steps[..i]), steps[i]);
      if Owned(Exec(Next, s, steps[..i])) {
        OwnedStep(Exec(Next, s, steps[..i]), steps[i]);
        assert steps[..i + 1][..i] == steps[..i];
        assert !Owned(Exec(Next, s, steps[..i + 1]));
      }
    }
  }

  lemma OwnedIsExclusive(s: Cluster)
    requires Owned(s)
    ensures Exclusive(s)
  {
    forall c, d | InCritical(s, c) && InCritical(s, d) ensures c == d {
      assert Names(s.lease, c) && Names(s.lease, d);
    }
  }

  // ----- The environment conditions under which no hazard arises -----

  /** The lease `c` judges expired belongs to no other client that is in its critical section or
      mid-Unlock, unless somebody has acquired since `c` read it. */
  predicate FreshAtJudge(s: Cluster, c: Id) {
    c in s.clients && s.clients[c].phase.Judging? &&
    var p := s.clients[c].phase;
    Expired(p.seen, s.now, s.clients[c]) && p.acq == s.acquisitions && p.seen.holder.Some? && p.seen.holder.value != c
    ==> !Engaged(s, p.seen.holder.value)
  }

  /** No acquisition between a takeover's Get and its Delete, and no takeover between the Get and the
      decision of a client that re-enters. */
  predicate Undisturbed(s: Cluster, st: Step) {
    st.Act? && Enabled(s, st) ==>
      match st.act
      case Delete => s.clients[st.c].phase.acq == s.acquisitions
      case Judge => ReEnters(s, st.c) ==> s.clients[st.c].phase.tko == s.takeovers
      case _ => true
  }

  /** Nobody re-enters on a lease without a holder, which lock.go takes for its own. */
  predicate NamedReentry(s: Cluster, st: Step) {
    st.Act? && st.act.Judge? && ReEnters(s, st.c) ==> s.clients[st.c].phase.seen.holder.Some?
  }

  predicate Disciplined(s: Cluster, st: Step) {
    && Undisturbed(s, st) && NamedReentry(s, st)
    && (st.Act? && st.act.Judge? && Enabled(s, st) ==> FreshAtJudge(s, st.c))
  }

  /** What a client with a lease in hand (or judged expired) relies on. */
  ghost predicate PendingInv(s: Cluster, e: Id)
    requires e in s.clients
  {
    var p := s.clients[e].phase;
    match p
    case Judging(seen, _, acq, tko) =>
      && acq <= s.acquisitions && tko <= s.takeovers
      && (tko == s.takeovers && seen.holder == Some(e) ==> Names(s.lease, e))
      && (acq == s.acquisitions ==> forall d :: Engaged(s, d) ==> seen.holder == Some(d))
    case Deleting(seen, acq) =>
      && acq <= s.acquisitions
      && (acq == s.acquisitions ==> forall d :: !Engaged(s, d))
    case _ => true
  }

  ghost predicate Safe(s: Cluster) {
    && (forall c :: Engaged(s, c) ==> Names(s.lease, c))
    && (forall e :: e in s.clients ==> PendingInv(s, e))
  }

  lemma SafeIsOwned(s: Cluster)
    requires Safe(s)
    ensures Owned(s) && Exclusive(s)
  {
    OwnedIsExclusive(s);
  }

  /** An engaged client got there by this step only if it acquired. */
  lemma EngagedBefore(s: Cluster, st: Step, d: Id)
    requires Engaged(Next(s, st), d)
    ensures Engaged(s, d) || (st.Act? && st.c == d && Next(s, st).acquisitions == s.acquisitions + 1)
  {
  }

  lemma NoHazard(s: Cluster, st: Step)
    requires Safe(s) && Disciplined(s, st)
    ensures !Hazard(s, st)
  {
    if st.Act? && st.c in s.clients {
      assert PendingInv(s, st.c);
      assert Engaged(s, st.c) ==> Names(s.lease, st.c);
      assert DeletesForeign(s, st.c) ==> Engaged(s, s.lease.value.holder.value);
    }
  }

  /** A step that removes the lease leaves no other client engaged. */
  lemma LoneDeleter(s: Cluster, st: Step, d: Id)
    requires Safe(s) && Disciplined(s, st) && st.Act? && Enabled(s, st) && (st.act.Delete? || st.act.UnlockDelete?)
    requires Engaged(s, d)
    ensures d == st.c
  {
    assert PendingInv(s, st.c);
    assert Names(s.lease, d);
    assert Engaged(s, st.c) ==> Names(s.lease, st.c);
  }

  lemma EngagedKept(s: Cluster, st: Step)
    requires Safe(s) && Disciplined(s, st)
    ensures forall c :: Engaged(Next(s, st), c) ==> Names(Next(s, st).lease, c)
  {
    var s' := Next(s, st);
    forall c | Engaged(s', c) ensures Names(s'.lease, c) {
      EngagedBefore(s, st, c);
      if st.Act? && Enabled(s, st) {
        assert PendingInv(s, st.c);
        if Engaged(s, c) && (st.act.Delete? || st.act.UnlockDelete?) { LoneDeleter(s, st, c); }
      }
    }
  }

  /** A lease that names a client outside Unlock keeps naming it until a takeover. */
  lemma NamedUntilTakeover(s: Cluster, st: Step, e: Id)
    requires Safe(s) && e in s.clients && s.clients[e].phase.Judging?
    requires Names(s.lease, e) && Next(s, st).takeovers == s.takeovers
    ensures Names(Next(s, st).lease, e)
  {
    assert st.Act? && InUnlock(s, st.c) ==> Engaged(s, st.c);
  }

  lemma CountersGrow(s: Cluster, st: Step)
    ensures Next(s, st).acquisitions >= s.acquisitions && Next(s, st).takeovers >= s.takeovers
  {
  }

  lemma PendingOwn(s: Cluster, st: Step)
    requires Safe(s) && Disciplined(s, st) && st.Act? && st.c in s.clients
    ensures PendingInv(Next(s, st), st.c)
  {
    var s', e := Next(s, st), st.c;
    assert PendingInv(s, e);
    forall d | Engaged(s', d) ensures Engaged(s, d) || s'.acquisitions > s.acquisitions {
      EngagedBefore(s, st, d);
    }
    CountersGrow(s, st);
  }

  lemma PendingOther(s: Cluster, st: Step, e: Id)
    requires Safe(s) && Disciplined(s, st) && e in s.clients && !(st.Act? && st.c == e)
    ensures PendingInv(Next(s, st), e)
  {
    var s' := Next(s, st);
    assert PendingInv(s, e);
    assert s'.clients[e] == s.clients[e];
    CountersGrow(s, st);
    if s.clients[e].phase.Judging? && Names(s.lease, e) && s'.takeovers == s.takeovers {
      NamedUntilTakeover(s, st, e);
    }
    forall d | Engaged(s', d) ensures Engaged(s, d) || s'.acquisitions > s.acquisitions {
      EngagedBefore(s, st, d);
    }
  }

  lemma ClientsKept(s: Cluster, st: Step)
    ensures Next(s, st).clients.Keys == s.clients.Keys
  {
  }

  lemma SafeStep(s: Cluster, st: Step)
    requires Safe(s) && Disciplined(s, st)
    ensures Safe(Next(s, st))
  {
    EngagedKept(s, st);
    ClientsKept(s, st);
    hide Next, PendingInv, Disciplined, Engaged;
    forall e | e in Next(s, st).clients ensures PendingInv(Next(s, st), e) {
      if st.Act? && st.c == e { PendingOwn(s, st); } else { PendingOther(s, st, e); }
    }
  }

  /** The environment conditions rule every hazard out, in every run and at every step of it: they are
      enough for the exact condition of OwnedExactly. */
  lemma DisciplineAvoidsHazards(s: Cluster, steps: seq<Step>)
    requires Init(s) && Always(Next, Disciplined, s, steps)
    ensures Owned(s) && Always(Next, (t, st) => !Hazard(t, st), s, steps)
  {
    var calm := (t: Cluster, st: Step) => !Hazard(t, st);
    hide Next, Hazard, Disciplined;
    forall i | 0 <= i < |steps| ensures calm(Exec(Next, s, steps[..i]), steps[i]) {
      SafeRun(s, steps, i);
      NoHazard(Exec(Next, s, steps[..i]), steps[i]);
    }
  }

  lemma {:induction false} SafeRun(s: Cluster, steps: seq<Step>, n: nat)
    requires Init(s) && Always(Next, Disciplined, s, steps) && n <= |steps|
    ensures Safe(Exec(Next, s, steps[..n]))
  {
    assert Safe(s);
    hide Next, Safe, Disciplined;
    AlwaysPrefix(Next, Disciplined, s, steps, n);
    forall t, st | Safe(t) && Disciplined(t, st) ensures Safe(Next(t, st)) { SafeStep(t, st); }
    Invariance(Next, Disciplined, Safe, s, steps[..n]);
  }

  /** Mutual exclusion under the environment conditions, for every number of clients, every leftover
      lease, every run and every moment of it. */
  lemma {:induction false} MutualExclusion(s: Cluster, steps: seq<Step>, n: nat)
    requires Init(s) && Always(Next, Disciplined, s, steps) && n <= |steps|
    ensures var t := Exec(Next, s, steps[..n]);
            Exclusive(t) && forall c :: Engaged(t, c) ==> Names(t.lease, c)
  {
    SafeRun(s, steps, n);
    SafeIsOwned(Exec(Next, s, steps[..n]));
  }
}
