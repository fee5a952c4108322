/** The main results about the lease: the exact renewal bound, mutual exclusion with the bound in place
    of the freshness premise, and the runs that break the lock when a premise is dropped. */
module LeaseTheorems {
  import opened Wrappers
  import opened Runs
  import opened LeaseProtocol
  import opened LeaseSafety
  import opened LeaseTiming

  /** `c` is about to judge the lease of an engaged creator, and nobody has acquired since it was read. */
  predicate JudgesLive(s: Cluster, c: Id) {
    && c in s.clients && s.clients[c].phase.Judging?
    && var p := s.clients[c].phase;
       p.acq == s.acquisitions && p.seen.holder.Some? && p.seen.holder.value != c
       && p.seen.holder.value in s.clients && Fresh(s.clients[p.seen.holder.value])
  }

  /** It judges that lease expired. */
  predicate ExpiresLive(s: Cluster, st: Step) {
    st.Act? && st.act.Judge? && JudgesLive(s, st.c) && Expired(s.clients[st.c].phase.seen, s.now, s.clients[st.c])
  }

  /** What no timing bound can give: undisturbed takeovers, and no expiry of a re-entered lease, which
      nobody renews. */
  predicate Careful(s: Cluster, st: Step) {
    && Undisturbed(s, st) && NamedReentry(s, st)
    && (st.Act? && st.act.Judge? && Enabled(s, st) ==> FreshAtJudge(s, st.c) || ExpiresLive(s, st))
  }

  ghost predicate Good(s: Cluster, dl: Delays) {
    Safe(s) && OnTime(s, dl) && AllFit(s, dl)
  }

  lemma NotExpired(s: Cluster, c: Id, dl: Delays)
    requires OnTime(s, dl) && AllFit(s, dl) && JudgesLive(s, c)
    ensures !Expired(s.clients[c].phase.seen, s.now, s.clients[c])
  {
    var d := s.clients[c].phase.seen.holder.value;
    assert SeenYoung(s, c, dl) && Renewed(s, d, dl);
    assert Fits(s.clients[d], s.clients[c], dl);
  }

  lemma NoLiveExpiry(s: Cluster, st: Step, dl: Delays)
    requires OnTime(s, dl) && AllFit(s, dl)
    ensures !ExpiresLive(s, st)
  {
    if st.Act? && JudgesLive(s, st.c) { NotExpired(s, st.c, dl); }
  }

  lemma GoodStep(s: Cluster, st: Step, dl: Delays)
    requires Good(s, dl) && Careful(s, st) && Timely(s, st, dl)
    ensures Good(Next(s, st), dl)
  {
    NoLiveExpiry(s, st, dl);
    SafeStep(s, st);
    OnTimeStep(s, st, dl);
    SettingsKept(s, st);
  }

  /** A run whose every step is careful and timely. */
  ghost predicate TimelyRun(s: Cluster, steps: seq<Step>, dl: Delays) {
    Always(Next, (t, st) => Careful(t, st) && Timely(t, st, dl), s, steps)
  }

  ghost predicate Start(s: Cluster, dl: Delays) {
    Init(s) && Bounded(s, dl)
  }

  lemma {:induction false} GoodRun(s: Cluster, steps: seq<Step>, n: nat, dl: Delays)
    requires Start(s, dl) && AllFit(s, dl) && n <= |steps|
    requires TimelyRun(s, steps, dl)
    ensures Good(Exec(Next, s, steps[..n]), dl)
  {
    var hyp := (t, st) => Careful(t, st) && Timely(t, st, dl);
    AlwaysPrefix(Next, hyp, s, steps, n);
    forall t, st | Good(t, dl) && hyp(t, st) ensures Good(Next(t, st), dl) { GoodStep(t, st, dl); }
    Invariance(Next, hyp, t => Good(t, dl), s, steps[..n]);
  }

  /** Mutual exclusion with numbers: when 500·Dh + L <= 1000·Dc for every two clients, delays stay
      below L and renewals succeed, then at every moment of every run with undisturbed takeovers and
      unexpired re-entries at most one client is between Lock and the end of Unlock, the stored lease
      names it, and nobody judges a created lease expired. */
  lemma {:induction false} TimedExclusion(s: Cluster, steps: seq<Step>, n: nat, dl: Delays)
    requires Start(s, dl) && AllFit(s, dl) && n <= |steps|
    requires TimelyRun(s, steps, dl)
    ensures var t := Exec(Next, s, steps[..n]);
            && Exclusive(t)
            && (forall c, d :: Engaged(t, c) && Engaged(t, d) ==> c == d)
            && (forall c :: Engaged(t, c) ==> Names(t.lease, c))
            && (n < |steps| ==> !ExpiresLive(t, steps[n]))
  {
    GoodRun(s, steps, n, dl);
    var t := Exec(Next, s, steps[..n]);
    SafeIsOwned(t);
    if n < |steps| { NoLiveExpiry(t, steps[n], dl); }
    forall c, d | Engaged(t, c) && Engaged(t, d) ensures c == d {
      assert Names(t.lease, c) && Names(t.lease, d);
    }
  }

  // ----- The bound is exact -----

  /** The clients of `s` have exactly these lease durations, in seconds. */
  ghost predicate Durations(s: Cluster, durations: map<Id, int>) {
    s.clients.Keys == durations.Keys && forall c :: c in s.clients ==> s.clients[c].duration == durations[c]
  }

  ghost predicate RenewalSuffices(durations: map<Id, int>, dl: Delays) {
    forall s, steps :: Start(s, dl) && Durations(s, durations) && TimelyRun(s, steps, dl)
                    ==> Always(Next, (t, st) => !ExpiresLive(t, st), s, steps)
  }

  lemma BoundSuffices(durations: map<Id, int>, dl: Delays)
    requires forall d, e :: d in durations && e in durations ==> 500 * durations[d] + Total(dl) <= 1000 * durations[e]
    ensures RenewalSuffices(durations, dl)
  {
    var live := (t: Cluster, st: Step) => !ExpiresLive(t, st);
    forall s, steps | Start(s, dl) && Durations(s, durations) && TimelyRun(s, steps, dl)
      ensures Always(Next, live, s, steps)
    {
      forall i | 0 <= i < |steps| ensures live(Exec(Next, s, steps[..i]), steps[i]) {
        TimedExclusion(s, steps, i, dl);
      }
    }
  }

  /** `t` is reached from `s` by a careful and timely run. */
  ghost predicate Reached(s: Cluster, t: Cluster, dl: Delays) {
    exists steps :: TimelyRun(s, steps, dl) && t == Exec(Next, s, steps)
  }

  lemma ReachedNext(s: Cluster, t: Cluster, st: Step, dl: Delays)
    requires Reached(s, t, dl) && Careful(t, st) && Timely(t, st, dl)
    ensures Reached(s, Next(t, st), dl)
  {
    var steps :| TimelyRun(s, steps, dl) && t == Exec(Next, s, steps);
    AlwaysSnoc(Next, (t, st) => Careful(t, st) && Timely(t, st, dl), s, steps, st);
    assert TimelyRun(s, steps + [st], dl);
  }

  /** A client acts, in a way that is careful and timely in every state. */
  lemma Acts(s: Cluster, t: Cluster, c: Id, act: Action, dl: Delays)
    requires Reached(s, t, dl) && c in t.clients && CanAct(t, t.clients[c], act)
    requires act.Begin? || act.CreateExists? || act.Get? || act.RenewGet? || act.RenewPut? || act.StartUnlock?
          || (act.Create? && var cl := t.clients[c]; act.tick <= cl.phase.stamp - cl.skew + dl.create + Period(cl))
    ensures Reached(s, Perform(t, c, act), dl)
  {
    ReachedNext(s, t, Act(c, act), dl);
  }

  /** A holder `d` and an observer `e` among clients that stay idle. */
  datatype Duel = Duel(start: Cluster, d: Id, e: Id, dl: Delays) {
    ghost predicate Ready() {
      && Start(start, dl) && d in start.clients && e in start.clients && d != e
      && start.lease.None? && start.now == 0 && start.nextVersion == start.acquisitions == start.takeovers == 0
      && start.clients[d].skew == 0 && start.clients[e].skew == dl.skew
    }

    /** The state in which `d` and `e` are as given. */
    ghost function At(now: int, lease: Option<Lease>, version: nat, acq: nat, cd: Client, ce: Client): Cluster {
      Cluster(now, lease, start.clients[d := cd][e := ce], {}, version, acq, 0)
    }

    ghost predicate Holds(t: Cluster) {
      Reached(start, t, dl)
    }

    ghost function P(): int
      requires Ready()
    {
      Period(start.clients[d])
    }

    ghost function Holder(p: Phase, r: Renewer): Client
      requires Ready()
    {
      start.clients[d].(phase := p, renewer := r)
    }

    ghost function Observer(p: Phase): Client
      requires Ready()
    {
      start.clients[e].(phase := p)
    }

    lemma Waits(now: int, lease: Option<Lease>, version: nat, acq: nat, cd: Client, ce: Client, to: int)
      requires Ready() && now <= to && InTime(cd, to, dl) && InTime(ce, to, dl)
      requires Holds(At(now, lease, version, acq, cd, ce))
      ensures Holds(At(to, lease, version, acq, cd, ce))
    {
      ReachedNext(start, At(now, lease, version, acq, cd, ce), Advance(to), dl);
    }

    /** A step of `d` leaves the duel's shape. */
    lemma HolderShape(now: int, lease: Option<Lease>, version: nat, acq: nat, cd: Client, ce: Client, act: Action)
      requires Ready() && CanAct(At(now, lease, version, acq, cd, ce), cd, act)
      requires act.Begin? || act.RenewGet? || act.RenewPut? || act.StartUnlock? || act.Create?
      requires cd.renewer.Writing? ==> !act.StartUnlock?
      ensures var t := Perform(At(now, lease, version, acq, cd, ce), d, act);
              t == At(now, t.lease, t.nextVersion, t.acquisitions, t.clients[d], ce)
    {
      hide CanAct, Names, Bounded;
    }

    /** `d` acts: its own new state and the new lease are read off the step. */
    lemma HolderActs(now: int, lease: Option<Lease>, version: nat, acq: nat, cd: Client, ce: Client, act: Action)
        returns (cd': Client, t: Cluster)
      requires Ready() && Holds(At(now, lease, version, acq, cd, ce))
      requires CanAct(At(now, lease, version, acq, cd, ce), cd, act)
      requires act.Begin? || act.RenewGet? || act.RenewPut? || act.StartUnlock?
            || (act.Create? && act.tick <= cd.phase.stamp - cd.skew + dl.create + Period(cd))
      requires cd.renewer.Writing? ==> !act.StartUnlock?
      ensures t == Perform(At(now, lease, version, acq, cd, ce), d, act) && cd' == t.clients[d]
      ensures Holds(At(now, t.lease, t.nextVersion, t.acquisitions, cd', ce))
    {
      Acts(start, At(now, lease, version, acq, cd, ce), d, act, dl);
      t := Perform(At(now, lease, version, acq, cd, ce), d, act);
      cd' := t.clients[d];
      HolderShape(now, lease, version, acq, cd, ce, act);
    }

    /** `e` acts, without touching the lease. */
    lemma ObserverActs(now: int, lease: Option<Lease>, version: nat, acq: nat, cd: Client, ce: Client, act: Action)
        returns (ce': Client)
      requires Ready() && Holds(At(now, lease, version, acq, cd, ce))
      requires CanAct(At(now, lease, version, acq, cd, ce), ce, act)
      requires act.Begin? || act.CreateExists? || act.Get?
      ensures ce' == Perform(At(now, lease, version, acq, cd, ce), e, act).clients[e]
      ensures Holds(At(now, lease, version, acq, cd, ce'))
    {
      Acts(start, At(now, lease, version, acq, cd, ce), e, act, dl);
      var t := Perform(At(now, lease, version, acq, cd, ce), e, act);
      ce' := t.clients[e];
      assert t == At(now, lease, version, acq, cd, ce');
    }

    ghost function Created(): Option<Lease> {
      Some(Lease(Some(d), Some(0), 0))
    }

    /** `d` takes its timestamp at time 0. */
    lemma Begins()
      requires Ready()
      ensures Holds(At(0, None, 0, 0, Holder(Creating(0), Off), start.clients[e]))
      ensures start.clients[e] == Observer(Phase.Idle) && start.clients[e].renewer.Off?
    {
      assert At(0, None, 0, 0, start.clients[d], start.clients[e]) == start;
      assert TimelyRun(start, [], dl);
      var cd, t := HolderActs(0, None, 0, 0, start.clients[d], start.clients[e], Begin);
    }

    /** `d` creates the lease as slowly as allowed. */
    lemma SlowCreate()
      requires Ready()
      ensures Holds(At(dl.create, Created(), 1, 1, Holder(Critical(true), Waiting(dl.create + P())), start.clients[e]))
    {
      hide Reached;
      Begins();
      var cd, ce := Holder(Creating(0), Off), start.clients[e];
      Waits(0, None, 0, 0, cd, ce, dl.create);
      var cd', t := HolderActs(dl.create, None, 0, 0, cd, ce, Create(dl.create + P()));
    }

    /** Its first renewal is overdue as far as allowed when `e` is about to read the lease. */
    lemma Overdue()
      requires Ready()
      ensures Holds(At(dl.create + P() + dl.renew, Created(), 1, 1,
                       Holder(Critical(true), Waiting(dl.create + P())), Observer(Getting)))
    {
      SlowCreate();
      var cd, ce := Holder(Critical(true), Waiting(dl.create + P())), start.clients[e];
      ce := ObserverActs(dl.create, Created(), 1, 1, cd, ce, Begin);
      ce := ObserverActs(dl.create, Created(), 1, 1, cd, ce, CreateExists);
      Waits(dl.create, Created(), 1, 1, cd, ce, dl.create + P() + dl.renew);
    }

    /** A slow observer: it reads the lease, the renewal lands, and only then it judges what it read. */
    lemma SlowObserver() returns (t: Cluster)
      requires Ready() && dl.judge >= dl.unlock && Total(dl) < P()
      requires P() + Total(dl) > 1000 * start.clients[e].duration
      ensures Holds(t) && ExpiresLive(t, Act(e, Judge))
    {
      var due := dl.create + P() + dl.renew;
      var cd, ce := Holder(Critical(true), Waiting(dl.create + P())), Observer(Getting);
      Overdue();
      ce := ObserverActs(due, Created(), 1, 1, cd, ce, Get);
      cd, t := HolderActs(due, Created(), 1, 1, cd, ce, RenewGet);
      cd, t := HolderActs(due, Created(), 1, 1, cd, ce, RenewPut(due, dl.create + 2 * P()));
      Waits(due, t.lease, 2, 1, cd, ce, due + dl.judge);
      t := At(due + dl.judge, t.lease, 2, 1, cd, ce);
    }

    /** A slow Unlock: the renewer is cancelled when its renewal is due, and the lease is read at the end. */
    lemma SlowUnlock() returns (t: Cluster)
      requires Ready() && dl.judge < dl.unlock && P() + Total(dl) > 1000 * start.clients[e].duration
      ensures Holds(t) && ExpiresLive(t, Act(e, Judge))
    {
      var due := dl.create + P() + dl.renew;
      var cd, ce := Holder(Critical(true), Waiting(dl.create + P())), Observer(Getting);
      Overdue();
      cd, t := HolderActs(due, Created(), 1, 1, cd, ce, StartUnlock);
      var now := due + dl.unlock;
      Waits(due, Created(), 1, 1, cd, ce, now);
      ce := ObserverActs(now, Created(), 1, 1, cd, ce, Get);
      t := At(now, Created(), 1, 1, cd, ce);
    }
  }

  /** Clients that have not started, with the clock of `ahead` ahead by the whole allowance. */
  ghost function Idlers(durations: map<Id, int>, ahead: Id, dl: Delays): Cluster {
    Cluster(0, None,
            map c | c in durations :: Client(durations[c], if c == ahead then dl.skew else 0, Phase.Idle, Off),
            {}, 0, 0, 0)
  }

  lemma SomeoneExpires(durations: map<Id, int>, d: Id, e: Id, dl: Delays)
    requires forall c :: c in durations ==> Total(dl) < 500 * durations[c]
    requires d in durations && e in durations && 500 * durations[d] + Total(dl) > 1000 * durations[e]
    ensures !RenewalSuffices(durations, dl)
  {
    var s := Idlers(durations, e, dl);
    var duel := Duel(s, d, e, dl);
    var t;
    if dl.judge >= dl.unlock { t := duel.SlowObserver(); } else { t := duel.SlowUnlock(); }
    IdlersStart(durations, e, dl);
    ReachedExpires(durations, s, t, e, dl);
  }

  lemma IdlersStart(durations: map<Id, int>, ahead: Id, dl: Delays)
    requires forall c :: c in durations ==> Total(dl) < 500 * durations[c]
    ensures Start(Idlers(durations, ahead, dl), dl) && Durations(Idlers(durations, ahead, dl), durations)
  {
  }

  /** A run that reaches a live expiry refutes the bound. */
  lemma ReachedExpires(durations: map<Id, int>, s: Cluster, t: Cluster, e: Id, dl: Delays)
    requires Start(s, dl) && Durations(s, durations) && Reached(s, t, dl) && ExpiresLive(t, Act(e, Judge))
    ensures !RenewalSuffices(durations, dl)
  {
    var last := Act(e, Judge);
    assert Careful(t, last) && Timely(t, last, dl);
    hide Next, Start, Durations, ExpiresLive, Careful, Timely;
    var steps :| TimelyRun(s, steps, dl) && t == Exec(Next, s, steps);
    var live := (t: Cluster, st: Step) => !ExpiresLive(t, st);
    AlwaysSnoc(Next, (t, st) => Careful(t, st) && Timely(t, st, dl), s, steps, last);
    assert TimelyRun(s, steps + [last], dl);
    assert (steps + [last])[..|steps|] == steps && !live(t, last);
    assert !Always(Next, live, s, steps + [last]);
  }

  /** The exact renewal bound. Given delays shorter than a ticker period, no creator in its critical
      section or mid-Unlock is ever judged expired, in any careful and timely run of clients with these
      durations, if and only if 500·Dh + L <= 1000·Dc for every holder h and observer c. */
  lemma RenewalBoundExact(durations: map<Id, int>, dl: Delays)
    requires forall c :: c in durations ==> Total(dl) < 500 * durations[c]
    ensures RenewalSuffices(durations, dl)
       <==> forall d, e :: d in durations && e in durations ==> 500 * durations[d] + Total(dl) <= 1000 * durations[e]
  {
    if d, e :| d in durations && e in durations && 500 * durations[d] + Total(dl) > 1000 * durations[e] {
      SomeoneExpires(durations, d, e, dl);
    } else {
      BoundSuffices(durations, dl);
    }
  }
}
