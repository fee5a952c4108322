/** Timing: with bounded delays and successful renewals, a lease acquired through Create is never seen
    expired while its holder is in its critical section or mid-Unlock. */
module LeaseTiming {
  import opened Wrappers
  import opened LeaseProtocol
  import opened LeaseSafety

  /** Bounds in milliseconds: from the timestamp to the start of the ticker, from a ticker firing to
      the landing of its Update, from a Get to the reading of the clock, from cancelling the renewer to
      the end of Unlock, and between the clocks of an observer and a holder. */
  datatype Delays = Delays(create: nat, renew: nat, judge: nat, unlock: nat, skew: nat)

  /** An observer's delay and an Unlock do not add up: only the longer of the two counts. */
  function Total(dl: Delays): nat {
    dl.create + dl.renew + (if dl.judge < dl.unlock then dl.unlock else dl.judge) + dl.skew
  }

  predicate Fits(holder: Client, observer: Client, dl: Delays) {
    500 * holder.duration + Total(dl) <= 1000 * observer.duration
  }

  /** Delays are shorter than a ticker period and clocks agree up to `skew`. */
  ghost predicate Bounded(s: Cluster, dl: Delays) {
    && (forall d :: d in s.clients ==> Total(dl) < Period(s.clients[d]))
    && (forall d, e :: d in s.clients && e in s.clients ==> s.clients[e].skew - s.clients[d].skew <= dl.skew)
  }

  ghost predicate AllFit(s: Cluster, dl: Delays) {
    forall d, e :: d in s.clients && e in s.clients ==> Fits(s.clients[d], s.clients[e], dl)
  }

  /** Time may not pass a pending deadline of `cl`. */
  predicate InTime(cl: Client, to: int, dl: Delays) {
    && (!cl.renewer.Off? ==> to <= cl.renewer.tick + dl.renew)
    && (cl.phase.Judging? ==> to <= cl.phase.at + dl.judge)
    && (cl.phase.UnlockGetting? || cl.phase.UnlockDeleting? ==> to <= cl.phase.since + dl.unlock)
  }

  /** The delays are kept, and no renewal of a running critical section fails. */
  ghost predicate Timely(s: Cluster, st: Step, dl: Delays) {
    match st
    case Advance(to) => forall c :: c in s.clients ==> InTime(s.clients[c], to, dl)
    case Act(c, act) =>
      c in s.clients && CanAct(s, s.clients[c], act) ==>
        var cl := s.clients[c];
        (match act
         case Create(tick) => tick <= cl.phase.stamp - cl.skew + dl.create + Period(cl)
         case RenewLost(_) => !Matches(s.lease, cl.renewer.version)
         case RenewStop => !cl.phase.Critical?
         case _ => true)
    case _ => true
  }

  /** In its critical section, or mid-Unlock, on a lease it created. */
  predicate Fresh(cl: Client) {
    match cl.phase
    case Critical(created) => created
    case UnlockGetting(created, _, _) => created
    case UnlockDeleting(created, _, _) => created
    case _ => false
  }

  /** The stored renew time of `c`'s lease is no older than the last firing of the ticker allows. */
  ghost predicate Renewed(s: Cluster, c: Id, dl: Delays)
    requires c in s.clients
  {
    var cl := s.clients[c];
    Fresh(cl) ==>
      && Names(s.lease, c) && s.lease.value.renew.Some?
      && var stamped := s.lease.value.renew.value - cl.skew;
      && stamped <= s.now
      && match cl.phase
         case Critical(_) =>
           && !cl.renewer.Off?
           && s.now <= cl.renewer.tick + dl.renew
           && cl.renewer.tick - Period(cl) - dl.create <= stamped
           && (cl.renewer.Writing? ==>
                 cl.renewer.version == s.lease.value.version && cl.renewer.tick <= cl.renewer.since)
         case UnlockGetting(_, since, due) => UnlockFresh(s, cl, since, due, stamped, dl)
         case UnlockDeleting(_, since, due) => UnlockFresh(s, cl, since, due, stamped, dl)
         case _ => true
  }

  predicate UnlockFresh(s: Cluster, cl: Client, since: int, due: int, stamped: int, dl: Delays) {
    && due - Period(cl) - dl.create <= stamped
    && since <= due + dl.renew
    && s.now <= since + dl.unlock
  }

  /** Renewers run only in a critical section entered through Create, and write at most what they read. */
  ghost predicate RenewerOk(s: Cluster, c: Id)
    requires c in s.clients
  {
    var cl := s.clients[c];
    && (cl.phase.Creating? ==> cl.phase.stamp - cl.skew <= s.now)
    && (!cl.renewer.Off? ==> cl.phase == Critical(true))
    && (cl.renewer.Writing? ==> WriteOk(s, Write(c, cl.renewer.version, cl.renewer.since)))
  }

  /** Landing a pending Update never moves the stored renew time back. */
  predicate WriteOk(s: Cluster, w: Write) {
    && w.owner in s.clients && w.version < s.nextVersion && w.since <= s.now
    && (Matches(s.lease, w.version) ==>
          && s.lease.value.holder == Some(w.owner) && s.lease.value.renew.Some?
          && s.lease.value.renew.value - s.clients[w.owner].skew <= w.since)
  }

  ghost predicate StraysOk(s: Cluster) {
    && (forall w :: w in s.stray ==> WriteOk(s, w))
    && (forall w, c :: w in s.stray && InCritical(s, c) && s.clients[c].phase.created ==> !Matches(s.lease, w.version))
  }

  /** How old `stamped` may be at time `at` for `cl`'s lease: renewed on time then, or unlocking now. */
  predicate Young(cl: Client, at: int, stamped: int, dl: Delays) {
    || at <= stamped + Period(cl) + dl.create + dl.renew
    || (cl.phase.UnlockGetting? && cl.phase.due - Period(cl) - dl.create <= stamped)
    || (cl.phase.UnlockDeleting? && cl.phase.due - Period(cl) - dl.create <= stamped)
  }

  /** A lease of an engaged creator that was read without a later acquisition was young when read. */
  ghost predicate SeenYoung(s: Cluster, e: Id, dl: Delays)
    requires e in s.clients
  {
    var p := s.clients[e].phase;
    p.Judging? ==>
      && s.now <= p.at + dl.judge
      && (forall d :: d in s.clients && d != e && p.acq == s.acquisitions && p.seen.holder == Some(d)
                      && Fresh(s.clients[d]) ==>
            p.seen.renew.Some? && Young(s.clients[d], p.at, p.seen.renew.value - s.clients[d].skew, dl))
  }

  ghost predicate OnTime(s: Cluster, dl: Delays) {
    && Bounded(s, dl)
    && (s.lease.Some? ==> s.lease.value.version < s.nextVersion)
    && StraysOk(s)
    && (forall c :: c in s.clients ==> RenewerOk(s, c) && Renewed(s, c, dl) && SeenYoung(s, c, dl))
  }

  lemma StoredYoung(s: Cluster, d: Id, dl: Delays)
    requires d in s.clients && Renewed(s, d, dl) && Fresh(s.clients[d])
    ensures s.lease.Some? && s.lease.value.renew.Some?
    ensures Young(s.clients[d], s.now, s.lease.value.renew.value - s.clients[d].skew, dl)
  {
  }

  /** Common premises of the step lemmas below. */
  ghost predicate StepOk(s: Cluster, st: Step, dl: Delays) {
    Safe(s) && OnTime(s, dl) && Disciplined(s, st) && Timely(s, st, dl)
  }

  /** The lease of an engaged creator is unchanged, or has its renew time raised while being unlocked. */
  predicate Framed(s: Cluster, s': Cluster, c: Id)
    requires c in s.clients
  {
    s'.lease == s.lease
    || (InUnlock(s, c) && s.lease.Some? && s.lease.value.renew.Some?
        && Names(s'.lease, c) && s'.lease.value.renew.Some?
        && s.lease.value.renew.value <= s'.lease.value.renew.value <= s.now + s.clients[c].skew)
  }

  /** Another client's step, or a stray Update, respects the lease of an engaged creator. */
  lemma LeaseStable(s: Cluster, st: Step, c: Id, dl: Delays)
    requires StepOk(s, st, dl) && c in s.clients && Fresh(s.clients[c]) && !(st.Act? && st.c == c)
    ensures Framed(s, Next(s, st), c)
  {
    assert Engaged(s, c) && Names(s.lease, c) && Renewed(s, c, dl);
    if Enabled(s, st) {
      match st
      case StrayPut(w, _) =>
        assert WriteOk(s, w);
        assert w.owner == c;
      case Act(d, act) =>
        assert RenewerOk(s, d);
        if act.Delete? || act.UnlockDelete? { LoneDeleter(s, st, c); }
      case _ =>
    }
  }

  lemma RenewedOther(s: Cluster, st: Step, c: Id, dl: Delays)
    requires c in s.clients && Renewed(s, c, dl) && Timely(s, st, dl) && !(st.Act? && st.c == c)
    requires Fresh(s.clients[c]) ==> Framed(s, Next(s, st), c)
    ensures Renewed(Next(s, st), c, dl)
  {
    assert Next(s, st).clients[c] == s.clients[c];
  }

  lemma RenewedOwn(s: Cluster, st: Step, dl: Delays)
    requires st.Act? && st.c in s.clients && Renewed(s, st.c, dl) && RenewerOk(s, st.c) && Timely(s, st, dl)
    requires Total(dl) < Period(s.clients[st.c])
    ensures Renewed(Next(s, st), st.c, dl)
  {
  }

  /** A lease changes only by being removed or by getting a version never used before. */
  lemma LeaseReplaced(s: Cluster, st: Step)
    ensures var s' := Next(s, st);
            && s'.now >= s.now && s'.nextVersion >= s.nextVersion
            && (s'.lease == s.lease || s'.lease.None? || (s'.lease.value.version == s.nextVersion < s'.nextVersion))
  {
  }

  lemma WriteOkKept(s: Cluster, st: Step, w: Write)
    requires WriteOk(s, w)
    ensures WriteOk(Next(s, st), w)
  {
    LeaseReplaced(s, st);
    SettingsKept(s, st);
  }

  lemma RenewerOwn(s: Cluster, st: Step, dl: Delays)
    requires st.Act? && st.c in s.clients && RenewerOk(s, st.c) && Renewed(s, st.c, dl) && Timely(s, st, dl)
    requires s.lease.Some? ==> s.lease.value.version < s.nextVersion
    ensures RenewerOk(Next(s, st), st.c)
  {
  }

  lemma RenewerOther(s: Cluster, st: Step, c: Id, dl: Delays)
    requires c in s.clients && RenewerOk(s, c) && !(st.Act? && st.c == c)
    ensures RenewerOk(Next(s, st), c)
  {
    assert Next(s, st).clients[c] == s.clients[c];
    LeaseReplaced(s, st);
    var r := s.clients[c].renewer;
    if r.Writing? { WriteOkKept(s, st, Write(c, r.version, r.since)); }
  }

  lemma StraysKept(s: Cluster, st: Step, dl: Delays)
    requires StepOk(s, st, dl)
    ensures StraysOk(Next(s, st))
  {
    var s' := Next(s, st);
    forall w | w in s'.stray ensures WriteOk(s', w) {
      if w in s.stray {
        WriteOkKept(s, st, w);
      } else {
        assert RenewerOk(s, w.owner);
        WriteOkKept(s, st, w);
      }
    }
    forall w, c | w in s'.stray && InCritical(s', c) && s'.clients[c].phase.created
      ensures !Matches(s'.lease, w.version)
    {
      StrayMisses(s, st, w, c, dl);
    }
  }

  lemma StrayMisses(s: Cluster, st: Step, w: Write, c: Id, dl: Delays)
    requires StepOk(s, st, dl)
    requires w in Next(s, st).stray && InCritical(Next(s, st), c) && Next(s, st).clients[c].phase.created
    ensures !Matches(Next(s, st).lease, w.version)
  {
    StrayWasKnown(s, st, w, dl);
    if InCritical(s, c) && s.clients[c].phase.created {
      assert Engaged(s, c) && Renewed(s, c, dl);
      if st.Act? && st.c == c {
        OwnWriteMisses(s, st, w, dl);
      } else {
        LeaseStable(s, st, c, dl);
        OtherWriteMisses(s, st, w, c, dl);
      }
    } else {
      CreatedNow(s, st, c);
    }
  }

  /** A stray Update, or the pending Update it was before this step, carries a version already used. */
  lemma StrayWasKnown(s: Cluster, st: Step, w: Write, dl: Delays)
    requires StepOk(s, st, dl) && w in Next(s, st).stray
    ensures WriteOk(s, w)
    ensures w in s.stray || (st.Act? && st.c == w.owner && st.c in s.clients
              && !Next(s, st).clients[st.c].phase.Critical?)
  {
    if w !in s.stray { assert RenewerOk(s, w.owner); }
  }

  lemma OwnWriteMisses(s: Cluster, st: Step, w: Write, dl: Delays)
    requires StepOk(s, st, dl) && st.Act? && w in s.stray && InCritical(s, st.c) && s.clients[st.c].phase.created
    ensures !Matches(Next(s, st).lease, w.version)
  {
    assert WriteOk(s, w) && !Matches(s.lease, w.version);
    LeaseReplaced(s, st);
  }

  lemma OtherWriteMisses(s: Cluster, st: Step, w: Write, c: Id, dl: Delays)
    requires StepOk(s, st, dl) && InCritical(s, c) && s.clients[c].phase.created && Framed(s, Next(s, st), c)
    requires w in s.stray || !Matches(s.lease, w.version)
    ensures !Matches(Next(s, st).lease, w.version)
  {
  }

  lemma CreatedNow(s: Cluster, st: Step, c: Id)
    requires InCritical(Next(s, st), c) && Next(s, st).clients[c].phase.created
               && !(InCritical(s, c) && s.clients[c].phase.created)
    ensures Next(s, st).lease.Some? && Next(s, st).lease.value.version == s.nextVersion
  {
  }

  /** A creator that is engaged after a step without acquisition was engaged before it. */
  lemma FreshBefore(s: Cluster, st: Step, d: Id)
    requires d in s.clients && Fresh(Next(s, st).clients[d]) && Next(s, st).acquisitions == s.acquisitions
    ensures Fresh(s.clients[d])
    ensures forall at, stamped, dl :: Young(s.clients[d], at, stamped, dl) ==>
              Young(Next(s, st).clients[d], at, stamped, dl)
  {
  }

  lemma JudgingKept(s: Cluster, st: Step, e: Id)
    requires e in s.clients && s.clients[e].phase.Judging?
    requires e in Next(s, st).clients && Next(s, st).clients[e].phase.Judging?
    ensures Next(s, st).clients[e].phase == s.clients[e].phase
  {
  }

  /** A client starts judging only by its own Get. */
  lemma GetStarts(s: Cluster, c: Id, act: Action, e: Id)
    requires c in s.clients && CanAct(s, s.clients[c], act) && e in s.clients && !s.clients[e].phase.Judging?
    requires e in Perform(s, c, act).clients && Perform(s, c, act).clients[e].phase.Judging?
    ensures c == e && act.Get?
  {
    hide CanAct, Expired, HeldByOther, Names;
  }

  lemma JudgingStarts(s: Cluster, st: Step, e: Id)
    requires e in s.clients && !s.clients[e].phase.Judging?
    requires e in Next(s, st).clients && Next(s, st).clients[e].phase.Judging?
    ensures s.lease.Some? && Next(s, st) == SetPhase(s, e, Judging(s.lease.value, s.now, s.acquisitions, s.takeovers))
  {
    if st.Act? && Enabled(s, st) {
      hide Perform;
      GetStarts(s, st.c, st.act, e);
    }
    assert st.Act? ==> Enabled(s, st) && st == Act(e, Get);
  }

  /** A client already judging: only time passed, or somebody acquired. */
  lemma SeenYoungHeld(s: Cluster, st: Step, e: Id, dl: Delays)
    requires e in s.clients && SeenYoung(s, e, dl) && PendingInv(s, e) && Timely(s, st, dl)
    requires s.clients[e].phase.Judging? && e in Next(s, st).clients && Next(s, st).clients[e].phase.Judging?
    ensures SeenYoung(Next(s, st), e, dl)
  {
    JudgingKept(s, st, e);
    CountersGrow(s, st);
    SettingsKept(s, st);
    forall d | d in s.clients && Next(s, st).acquisitions == s.acquisitions && Fresh(Next(s, st).clients[d])
      ensures Fresh(s.clients[d])
      ensures forall at, stamped :: Young(s.clients[d], at, stamped, dl) ==>
                Young(Next(s, st).clients[d], at, stamped, dl)
    {
      FreshBefore(s, st, d);
    }
  }

  /** A client whose Get just answered saw the stored lease. */
  lemma SeenYoungTaken(s: Cluster, st: Step, e: Id, dl: Delays)
    requires OnTime(s, dl) && e in s.clients
    requires !s.clients[e].phase.Judging? && e in Next(s, st).clients && Next(s, st).clients[e].phase.Judging?
    ensures SeenYoung(Next(s, st), e, dl)
  {
    JudgingStarts(s, st, e);
    forall d | d in s.clients && d != e && Fresh(s.clients[d])
      ensures s.lease.value.renew.Some?
           && Young(s.clients[d], s.now, s.lease.value.renew.value - s.clients[d].skew, dl)
    {
      StoredYoung(s, d, dl);
    }
  }

  lemma SeenYoungKept(s: Cluster, st: Step, e: Id, dl: Delays)
    requires e in s.clients && OnTime(s, dl) && PendingInv(s, e) && Timely(s, st, dl)
    ensures e in Next(s, st).clients && SeenYoung(Next(s, st), e, dl)
  {
    ClientsKept(s, st);
    hide Next;
    if Next(s, st).clients[e].phase.Judging? {
      if s.clients[e].phase.Judging? {
        assert SeenYoung(s, e, dl);
        SeenYoungHeld(s, st, e, dl);
      } else {
        SeenYoungTaken(s, st, e, dl);
      }
    }
  }

  lemma OnTimeStep(s: Cluster, st: Step, dl: Delays)
    requires StepOk(s, st, dl)
    ensures OnTime(Next(s, st), dl)
  {
    var s' := Next(s, st);
    SettingsKept(s, st);
    LeaseReplaced(s, st);
    StraysKept(s, st, dl);
    hide Next, Timely, StraysOk;
    forall c | c in s'.clients ensures RenewerOk(s', c) && Renewed(s', c, dl) && SeenYoung(s', c, dl) {
      assert RenewerOk(s, c) && Renewed(s, c, dl) && PendingInv(s, c);
      hide RenewerOk, Renewed, SeenYoung, PendingInv;
      if st.Act? && st.c == c {
        RenewerOwn(s, st, dl);
        RenewedOwn(s, st, dl);
      } else {
        RenewerOther(s, st, c, dl);
        if Fresh(s.clients[c]) { LeaseStable(s, st, c, dl); }
        RenewedOther(s, st, c, dl);
      }
      SeenYoungKept(s, st, c, dl);
    }
  }

  lemma PerformSettings(s: Cluster, c: Id, act: Action)
    requires c in s.clients && CanAct(s, s.clients[c], act)
    ensures var cs := Perform(s, c, act).clients;
      && cs.Keys == s.clients.Keys && cs[c].skew == s.clients[c].skew && cs[c].duration == s.clients[c].duration
      && forall d :: d in s.clients && d != c ==> cs[d] == s.clients[d]
  {
    hide CanAct, Expired, HeldByOther;
  }

  lemma SettingsKept(s: Cluster, st: Step)
    ensures Next(s, st).clients.Keys == s.clients.Keys
    ensures forall c :: c in s.clients ==> Next(s, st).clients[c].skew == s.clients[c].skew
    ensures forall c :: c in s.clients ==> Next(s, st).clients[c].duration == s.clients[c].duration
  {
    hide Perform, CanAct;
    if st.Act? && Enabled(s, st) { PerformSettings(s, st.c, st.act); }
  }
}
