/** When an attempt of Lock acquires: a client whose calls go through, with nobody else acting meanwhile. */
module LeaseProgress {
  import opened Wrappers
  import opened Runs
  import opened LeaseProtocol

  /** The acts of one attempt that finds the lease of `s`. */
  function Attempt(s: Cluster, c: Id): seq<Step>
    requires c in s.clients
  {
    if s.lease.None? then [Act(c, Begin), Act(c, Create(s.now + Period(s.clients[c])))]
    else
      [Act(c, Begin), Act(c, CreateExists), Act(c, Get), Act(c, Judge)]
      + (if Expired(s.lease.value, s.now, s.clients[c]) then [Act(c, Delete)] else [])
  }

  function AfterAttempt(s: Cluster, c: Id): Cluster
    requires c in s.clients
  {
    if s.lease.None? then Acquire(SetPhase(s, c, Creating(s.now + s.clients[c].skew)), c, s.now + Period(s.clients[c]))
    else if Expired(s.lease.value, s.now, s.clients[c])
        then SetPhase(s, c, Idle).(lease := None, takeovers := s.takeovers + 1)
    else if HeldByOther(s.lease.value, c) then SetPhase(s, c, Idle)
    else SetPhase(s, c, Critical(false)).(acquisitions := s.acquisitions + 1)
  }

  lemma {:induction false} ExecCons(s: Cluster, st: Step, more: seq<Step>)
    ensures Exec(Next, s, [st] + more) == Exec(Next, Next(s, st), more)
  {
    hide Next;
    ExecAppend(Next, s, [st], more);
    assert Exec(Next, s, [st][..0]) == s;
  }

  lemma SetTwice(s: Cluster, c: Id, p: Phase, q: Phase)
    requires c in s.clients
    ensures SetPhase(SetPhase(s, c, p), c, q) == SetPhase(s, c, q)
  {
    assert s.clients[c := s.clients[c].(phase := p)][c := s.clients[c].(phase := q)] ==
        s.clients[c := s.clients[c].(phase := q)];
  }

  /** Creating the lease, or finding that there is one. */
  lemma Creates(s: Cluster, c: Id)
    requires c in s.clients && s.clients[c].phase.Idle?
    ensures var t := SetPhase(s, c, Creating(s.now + s.clients[c].skew));
      && Next(s, Act(c, Begin)) == t
      && (s.lease.None? ==> Next(t, Act(c, Create(s.now + Period(s.clients[c])))) == AfterAttempt(s, c))
      && (s.lease.Some? ==> Next(t, Act(c, CreateExists)) == SetPhase(s, c, Getting))
  {
    SetTwice(s, c, Creating(s.now + s.clients[c].skew), Getting);
  }

  lemma Reads(s: Cluster, c: Id)
    requires c in s.clients && s.lease.Some?
    ensures var p := Judging(s.lease.value, s.now, s.acquisitions, s.takeovers);
      Next(SetPhase(s, c, Getting), Act(c, Get)) == SetPhase(s, c, p)
  {
    SetTwice(s, c, Getting, Judging(s.lease.value, s.now, s.acquisitions, s.takeovers));
  }

  lemma Judges(s: Cluster, c: Id)
    requires c in s.clients && s.lease.Some?
    ensures var p, q := Judging(s.lease.value, s.now, s.acquisitions, s.takeovers),
              Deleting(s.lease.value, s.acquisitions);
      && Next(SetPhase(s, c, p), Act(c, Judge)) ==
           (if Expired(s.lease.value, s.now, s.clients[c]) then SetPhase(s, c, q) else AfterAttempt(s, c))
      && (Expired(s.lease.value, s.now, s.clients[c]) ==> Next(SetPhase(s, c, q), Act(c, Delete)) == AfterAttempt(s, c))
  {
    var p, q := Judging(s.lease.value, s.now, s.acquisitions, s.takeovers), Deleting(s.lease.value, s.acquisitions);
    SetTwice(s, c, p, q);
    SetTwice(s, c, p, Idle);
    SetTwice(s, c, p, Critical(false));
    SetTwice(s, c, q, Idle);
  }

  lemma {:induction false} AttemptRuns(s: Cluster, c: Id)
    requires c in s.clients && s.clients[c].phase.Idle?
    ensures Exec(Next, s, Attempt(s, c)) == AfterAttempt(s, c)
  {
    Creates(s, c);
    var t := SetPhase(s, c, Creating(s.now + s.clients[c].skew));
    hide Next, Exec, Expired, HeldByOther, AfterAttempt, SetPhase, Acquire;
    if s.lease.None? {
      var create := Act(c, Create(s.now + Period(s.clients[c])));
      assert Attempt(s, c) == [Act(c, Begin)] + ([create] + []);
      ExecCons(s, Act(c, Begin), [create] + []);
      ExecCons(t, create, []);
      ExecNone(AfterAttempt(s, c));
    } else {
      Reads(s, c);
      Judges(s, c);
      var p := Judging(s.lease.value, s.now, s.acquisitions, s.takeovers);
      var last := if Expired(s.lease.value, s.now, s.clients[c]) then [Act(c, Delete)] + [] else [];
      assert Attempt(s, c) == [Act(c, Begin)] + ([Act(c, CreateExists)] + ([Act(c, Get)] + ([Act(c, Judge)] + last)));
      ExecCons(s, Act(c, Begin), [Act(c, CreateExists)] + ([Act(c, Get)] + ([Act(c, Judge)] + last)));
      ExecCons(t, Act(c, CreateExists), [Act(c, Get)] + ([Act(c, Judge)] + last));
      ExecCons(SetPhase(s, c, Getting), Act(c, Get), [Act(c, Judge)] + last);
      ExecCons(SetPhase(s, c, p), Act(c, Judge), last);
      ExecCons(SetPhase(s, c, Deleting(s.lease.value, s.acquisitions)), Act(c, Delete), []);
      ExecNone(AfterAttempt(s, c));
    }
  }

  lemma {:induction false} ExecNone(s: Cluster)
    ensures Exec(Next, s, []) == s
  {
  }

  /** One attempt acquires exactly when no lease is stored, or an unexpired one that is not another
      client's. It names the client then, unless the stored one names nobody. */
  lemma {:induction false} FirstAttemptExactly(s: Cluster, c: Id)
    requires c in s.clients && s.clients[c].phase.Idle?
    ensures var t := Exec(Next, s, Attempt(s, c));
      && (InCritical(t, c) <==>
            s.lease.None? || !(Expired(s.lease.value, s.now, s.clients[c]) || HeldByOther(s.lease.value, c)))
      && (InCritical(t, c) ==> Names(t.lease, c) || (s.lease.Some? && s.lease.value.holder.None?))
      && (!InCritical(t, c) ==> c in t.clients && t.clients[c].phase.Idle?)
  {
    AttemptRuns(s, c);
    hide Exec, Next, Expired;
  }

  /** Two attempts acquire exactly unless the stored lease is another client's and not expired: an expired
      one is deleted by the first and recreated by the second. */
  lemma {:induction false} TwoAttemptsExactly(s: Cluster, c: Id)
    requires c in s.clients && s.clients[c].phase.Idle?
    ensures var t := Exec(Next, s, Attempt(s, c));
      && c in t.clients
      && (InCritical(t, c) || InCritical(Exec(Next, t, Attempt(t, c)), c)
          <==> s.lease.None? || Expired(s.lease.value, s.now, s.clients[c]) || !HeldByOther(s.lease.value, c))
  {
    FirstAttemptExactly(s, c);
    AttemptRuns(s, c);
    var t := Exec(Next, s, Attempt(s, c));
    AttemptShape(s, c);
    if t.clients[c].phase.Idle? { FirstAttemptExactly(t, c); }
    hide Exec, Next, Attempt, AfterAttempt;
  }

  lemma AttemptShape(s: Cluster, c: Id)
    requires c in s.clients && s.clients[c].phase.Idle?
    ensures var t := AfterAttempt(s, c);
      && c in t.clients && t.now == s.now && t.clients[c].skew == s.clients[c].skew
      && t.clients[c].duration == s.clients[c].duration
      && (s.lease.Some? && Expired(s.lease.value, s.now, s.clients[c]) ==> t.lease.None?)
      && (s.lease.Some? && !Expired(s.lease.value, s.now, s.clients[c]) && HeldByOther(s.lease.value, c) ==>
            t.lease == s.lease)
  {
  }
}
