/** internal/lease/lock.go in its own form: Lock, Unlock and the renewer as methods whose API calls
    interleave with any number of steps of everybody else. Each method's calls are a run of
    LeaseProtocol, so its theorems apply to the code. */
module LeaseLock {
  import opened Wrappers
  import opened Runs
  import opened LeaseProtocol
  import opened LeaseSafety

  /** The two goroutines of a client. */
  datatype Thread = Caller(c: Id) | Background(c: Id)

  predicate IsRenewal(act: Action) {
    act.RenewGet? || act.RenewPut? || act.RenewLost? || act.RenewStop?
  }

  /** The steps that only `th` itself takes. A renewer's context does not outlive its acquisition, so
      no new acquisition of its client falls into its lifetime. */
  predicate Owns(th: Thread, st: Step) {
    match th
    case Caller(c) => st.Act? && st.c == c && !IsRenewal(st.act)
    case Background(c) => st.Act? && st.c == c && (IsRenewal(st.act) || st.act.Create?)
  }

  /** What everybody else leaves alone: settings, and what the thread itself moves. */
  predicate LeftAlone(th: Thread, s: Cluster, cl: Client) {
    && th.c in s.clients
    && s.clients[th.c].duration == cl.duration && s.clients[th.c].skew == cl.skew
    && match th
       case Caller(_) => s.clients[th.c].phase == cl.phase
       case Background(_) => s.clients[th.c].renewer == cl.renewer || s.clients[th.c].renewer.Off?
  }

  lemma OthersLeaveAlone(th: Thread, s: Cluster, st: Step, cl: Client)
    requires LeftAlone(th, s, cl) && !Owns(th, st)
    ensures LeftAlone(th, Next(s, st), cl)
  {
  }

  lemma CreateLands(s: Cluster, c: Id, tick: int)
    requires c in s.clients && s.clients[c].phase.Creating? && s.lease.None? && tick >= s.now + Period(s.clients[c])
    ensures Next(s, Act(c, Action.Create(tick))) == Acquire(s, c, tick)
  {
  }

  /** How many acts of a kind `c` has in a log. */
  ghost function Count(kind: Action -> bool, log: seq<Step>, c: Id): nat {
    if |log| == 0 then 0
    else
      var last := log[|log| - 1];
      Count(kind, log[..|log| - 1], c) + (if last.Act? && last.c == c && kind(last.act) then 1 else 0)
  }

  /** The Updates of a renewer: landed, or refused. */
  ghost function IsUpdate(): Action -> bool { (act: Action) => act.RenewPut? || act.RenewLost? }

  /** The renewer's failing Gets. */
  ghost function IsStop(): Action -> bool { (act: Action) => act.RenewStop? }

  /** What cancels a renewer's context: the start of Unlock, and the end of the process. */
  ghost function IsCancel(): Action -> bool { (act: Action) => act.StartUnlock? || act.Crash? }

  /** Nothing else that others do stops a renewer. */
  lemma OnlyCancels(s: Cluster, st: Step, c: Id)
    requires c in s.clients && !Owns(Background(c), st)
    ensures c in Next(s, st).clients
    ensures Next(s, st).clients[c].renewer == s.clients[c].renewer || (st.Act? && st.c == c && IsCancel()(st.act))
  {
  }

  /** The calls of Lock and Unlock that return an error. */
  ghost function IsFail(): Action -> bool { (act: Action) => act.Fail? }

  /** The attempts of Lock. */
  ghost function IsBegin(): Action -> bool { (act: Action) => act.Begin? }

  lemma {:induction false} CountSnoc(kind: Action -> bool, log: seq<Step>, st: Step, c: Id)
    ensures Count(kind, log + [st], c) == Count(kind, log, c) + (if st.Act? && st.c == c && kind(st.act) then 1 else 0)
  {
    assert (log + [st])[..|log|] == log;
  }

  lemma {:induction false} CountOthers(kind: Action -> bool, log: seq<Step>, log': seq<Step>, th: Thread)
    requires log <= log' && forall i :: |log| <= i < |log'| ==> !Owns(th, log'[i])
    requires forall act :: kind(act) ==> Owns(th, Act(th.c, act))
    ensures Count(kind, log', th.c) == Count(kind, log, th.c)
  {
    if |log'| > |log| {
      var last := log'[|log'| - 1];
      assert !Owns(th, last) && (last.Act? && last.c == th.c ==> last == Act(th.c, last.act));
      CountOthers(kind, log, log'[..|log'| - 1], th);
    } else {
      assert log == log';
    }
  }

  /** Why a renewer stops. */
  datatype Stop = ContextDone | GetFailed | NotHolder(seen: Lease)

  datatype CreateReply = Created | AlreadyExists | CreateFailed

  /** The API server, the clock and everybody who uses them. */
  class ApiServer {
    var s: Cluster
    ghost const start: Cluster
    ghost var log: seq<Step>

    ghost predicate Valid()
      reads this
    {
      s == Exec(Next, start, log)
    }

    constructor (start: Cluster)
      ensures Valid() && s == start && this.start == start && log == []
    {
      s, log, this.start := start, [], start;
    }

    /** The log grew, and `th` contributed nothing. */
    twostate predicate OnlyOthers(th: Thread)
      reads this
    {
      && old(log) <= log
      && forall i :: |old(log)| <= i < |log| ==> !Owns(th, log[i])
    }

    /** The attempts and the failing calls of `c`. */
    ghost function Begins(c: Id): nat
      reads this
    {
      Count(IsBegin(), log, c)
    }

    ghost function Fails(c: Id): nat
      reads this
    {
      Count(IsFail(), log, c)
    }

    ghost predicate Same(th: Thread, cl: Client)
      reads this
    {
      LeftAlone(th, s, cl)
    }

    /** The renewer of `c` is as it was, or has been cancelled since. */
    twostate predicate KeptOrCancelled(c: Id)
      reads this
    {
      && c in old(s).clients && c in s.clients
      && Count(IsCancel(), log, c) >= old(Count(IsCancel(), log, c))
      && (s.clients[c].renewer == old(s).clients[c].renewer
          || Count(IsCancel(), log, c) > old(Count(IsCancel(), log, c)))
    }

    method Take(st: Step)
      requires Valid()
      modifies this
      ensures Valid() && s == Next(old(s), st) && log == old(log) + [st]
    {
      ExecSnoc(Next, start, log, st);
      s, log := Next(s, st), log + [st];
    }

    /** Any finite number of steps that are not `th`'s own. */
    method Interfere(th: Thread)
      requires Valid() && th.c in s.clients
      modifies this
      ensures Valid() && OnlyOthers(th) && Same(th, old(s).clients[th.c])
      ensures th.Background? ==> KeptOrCancelled(th.c)
    {
      hide Next, Exec, Count;
      var n: nat := *;
      while n > 0
        invariant Valid() && OnlyOthers(th) && Same(th, old(s).clients[th.c])
        invariant th.Background? ==> KeptOrCancelled(th.c)
      {
        var st: Step := *;
        if !Owns(th, st) {
          if th.Background? { OnlyCancels(s, st, th.c); }
          CountSnoc(IsCancel(), log, st, th.c);
          OthersLeaveAlone(th, s, st, old(s).clients[th.c]);
          Take(st);
        }
        n := n - 1;
      }
    }

    /** One act of the caller, after any steps of the others. */
    method Perform(c: Id, act: Action)
      requires Valid() && !IsRenewal(act)
      modifies this
      ensures Valid() && s == Next(old(s), Act(c, act)) && log == old(log) + [Act(c, act)]
      ensures Begins(c) == old(Begins(c)) + (if act.Begin? then 1 else 0)
      ensures Fails(c) == old(Fails(c)) + (if act.Fail? then 1 else 0)
    {
      hide Exec, Next, Count;
      CountSnoc(IsBegin(), log, Act(c, act), c);
      CountSnoc(IsFail(), log, Act(c, act), c);
      Take(Act(c, act));
    }

    method Others(c: Id)
      requires Valid() && c in s.clients
      modifies this
      ensures Valid() && OnlyOthers(Caller(c)) && Same(Caller(c), old(s).clients[c])
      ensures Begins(c) == old(Begins(c)) && Fails(c) == old(Fails(c))
    {
      hide Exec, Next, Count;
      Interfere(Caller(c));
      CountOthers(IsBegin(), old(log), log, Caller(c));
      CountOthers(IsFail(), old(log), log, Caller(c));
    }

    /** time.Now() at the start of an attempt. */
    method Timestamp(c: Id) returns (stamp: int)
      requires Valid() && c in s.clients && s.clients[c].phase.Idle?
      modifies this
      ensures Valid() && old(log) <= log
      ensures Begins(c) == old(Begins(c)) + 1 && Fails(c) == old(Fails(c))
      ensures Same(Caller(c), old(s).clients[c].(phase := Creating(stamp)))
    {
      hide Exec, Count;
      Others(c);
      stamp := s.now + s.clients[c].skew;
      Perform(c, Begin);
    }

    method Create(c: Id) returns (reply: CreateReply)
      requires Valid() && c in s.clients && s.clients[c].phase.Creating?
      modifies this
      ensures Valid() && old(log) <= log
      ensures Begins(c) == old(Begins(c)) && Fails(c) == old(Fails(c)) + (if reply.CreateFailed? then 1 else 0)
      ensures Same(Caller(c), old(s).clients[c].(phase :=
                if reply.Created? then Critical(true) else if reply.AlreadyExists? then Getting else Idle))
      ensures reply.Created? ==> Names(s.lease, c) && s.clients[c].renewer.Waiting?
    {
      hide Exec, Count;
      Others(c);
      var failed: bool := *;
      if failed {
        Perform(c, Fail);
        reply := CreateFailed;
      } else if s.lease.Some? {
        Perform(c, CreateExists);
        reply := AlreadyExists;
      } else {
        var delay: int := *;
        var earliest := s.now + Period(s.clients[c]);
        var tick := if delay < 0 then earliest else earliest + delay;
        CreateLands(s, c, tick);
        Perform(c, Action.Create(tick));
        reply := Created;
      }
    }

    /** Get on behalf of Lock. */
    method Get(c: Id) returns (got: Option<Lease>, ghost read: Cluster)
      requires Valid() && c in s.clients && s.clients[c].phase.Getting?
      modifies this
      ensures Valid() && old(log) <= log
      ensures Begins(c) == old(Begins(c)) && Fails(c) == old(Fails(c)) + (if got.None? then 1 else 0)
      ensures got.Some? ==> got == read.lease && Passes(Next, start, log, |old(log)|, read)
      ensures got.None? ==> Same(Caller(c), old(s).clients[c].(phase := Idle))
      ensures got.Some? ==> c in s.clients && s.clients[c].phase.Judging? && s.clients[c].phase.seen == got.value
      ensures got.Some? ==> Same(Caller(c), old(s).clients[c].(phase := s.clients[c].phase))
    {
      hide Exec, Count, Passes;
      Others(c);
      read := s;
      PassesNow(Next, start, log, |old(log)|);
      ghost var before := log;
      var failed: bool := *;
      if failed || s.lease.None? {
        Perform(c, Fail);
        got := None;
      } else {
        got := s.lease;
        Perform(c, Action.Get);
        PassesLater(Next, start, before, log, |old(log)|, |old(log)|, read);
      }
    }

    /** time.Since: the decision taken on this reading is the caller's. */
    method Now(c: Id) returns (clock: int, ghost judged: Cluster)
      requires Valid() && c in s.clients && s.clients[c].phase.Judging?
      modifies this
      ensures Valid() && old(log) <= log
      ensures Begins(c) == old(Begins(c)) && Fails(c) == old(Fails(c))
      ensures Passes(Next, start, log, |old(log)|, judged) && clock == judged.now + old(s).clients[c].skew
      ensures var p := old(s).clients[c].phase;
              Same(Caller(c), old(s).clients[c].(phase :=
                if p.seen.renew.Some? && clock - p.seen.renew.value > 1000 * old(s).clients[c].duration
                    then Deleting(p.seen, p.acq)
                else if HeldByOther(p.seen, c) then Idle
                else Critical(false)))
    {
      hide Exec, Count, Passes;
      Others(c);
      clock, judged := s.now + s.clients[c].skew, s;
      PassesNow(Next, start, log, |old(log)|);
      ghost var before := log;
      Perform(c, Judge);
      PassesLater(Next, start, before, log, |old(log)|, |old(log)|, judged);
    }

    /** Delete, unconditional, on behalf of a takeover or of Unlock. */
    method Delete(c: Id) returns (ok: bool)
      requires Valid() && c in s.clients && (s.clients[c].phase.Deleting? || s.clients[c].phase.UnlockDeleting?)
      modifies this
      ensures Valid() && old(log) <= log && Same(Caller(c), old(s).clients[c].(phase := Idle))
      ensures Begins(c) == old(Begins(c)) && Fails(c) == old(Fails(c)) + (if ok then 0 else 1)
      ensures ok ==> s.lease.None?
    {
      hide Exec, Count;
      Others(c);
      var failed: bool := *;
      ok := !failed && s.lease.Some?;
      if !ok {
        Perform(c, Fail);
      } else if s.clients[c].phase.Deleting? {
        Perform(c, Action.Delete);
      } else {
        Perform(c, UnlockDelete);
      }
    }

    /** Cancels the renewer, if any. */
    method CancelRenewal(c: Id)
      requires Valid() && c in s.clients && s.clients[c].phase.Critical?
      modifies this
      ensures Valid() && old(log) <= log && c in s.clients
      ensures s.clients[c].phase.UnlockGetting? && s.clients[c].renewer.Off? && Fails(c) == old(Fails(c))
      ensures Same(Caller(c), old(s).clients[c].(phase := s.clients[c].phase))
    {
      hide Exec, Count;
      Others(c);
      Perform(c, StartUnlock);
    }

    /** Get on behalf of Unlock. */
    method GetForUnlock(c: Id) returns (got: Option<Lease>)
      requires Valid() && c in s.clients && s.clients[c].phase.UnlockGetting?
      modifies this
      ensures Valid() && old(log) <= log && c in s.clients
      ensures got.Some? && got.value.holder == Some(c) <==> s.clients[c].phase.UnlockDeleting?
      ensures got.Some? ==> got == s.lease
      ensures Fails(c) == old(Fails(c)) + (if got.None? then 1 else 0)
      ensures Same(Caller(c), old(s).clients[c].(phase := s.clients[c].phase))
      ensures s.clients[c].phase.UnlockDeleting? || s.clients[c].phase.Idle?
    {
      hide Exec, Count;
      Others(c);
      var failed: bool := *;
      if failed || s.lease.None? {
        Perform(c, Fail);
        got := None;
      } else {
        got := s.lease;
        Perform(c, UnlockGet);
      }
    }

    /** Waits for the ticker or for cancellation; false when the context is done. */
    method AwaitTick(c: Id) returns (ticked: bool)
      requires Valid() && c in s.clients && !s.clients[c].renewer.Writing?
      modifies this
      ensures Valid() && old(log) <= log && c in s.clients && s.clients[c].duration == old(s).clients[c].duration
      ensures if ticked then s.clients[c].renewer.Waiting? else s.clients[c].renewer.Off?
      ensures old(s).clients[c].renewer.Off? ==> !ticked
      ensures Count(IsUpdate(), log, c) == old(Count(IsUpdate(), log, c))
      ensures Count(IsStop(), log, c) == old(Count(IsStop(), log, c))
      ensures Count(IsCancel(), log, c) >= old(Count(IsCancel(), log, c))
      ensures old(s).clients[c].renewer.Waiting? && !ticked ==>
                Count(IsCancel(), log, c) > old(Count(IsCancel(), log, c))
      ensures ticked ==> s.now >= s.clients[c].renewer.tick
    {
      hide Exec;
      Interfere(Background(c));
      CountOthers(IsUpdate(), old(log), log, Background(c));
      CountOthers(IsStop(), old(log), log, Background(c));
      if s.clients[c].renewer.Waiting? && s.now < s.clients[c].renewer.tick {
        CountSnoc(IsUpdate(), log, Advance(s.clients[c].renewer.tick), c);
        CountSnoc(IsStop(), log, Advance(s.clients[c].renewer.tick), c);
        CountSnoc(IsCancel(), log, Advance(s.clients[c].renewer.tick), c);
        Take(Advance(s.clients[c].renewer.tick));
      }
      ticked := s.clients[c].renewer.Waiting?;
    }

    /** Get on behalf of the renewer; afterwards an Update is pending or the renewer is off. */
    method GetForRenewal(c: Id) returns (got: Option<Lease>)
      requires Valid() && c in s.clients && !s.clients[c].renewer.Writing?
      requires s.clients[c].renewer.Waiting? ==> s.now >= s.clients[c].renewer.tick
      modifies this
      ensures Valid() && old(log) <= log && c in s.clients && s.clients[c].duration == old(s).clients[c].duration
      ensures !s.clients[c].renewer.Waiting?
      ensures s.clients[c].renewer.Writing? ==> got.Some? && got.value.holder == Some(c)
      ensures got.None? || got.value.holder != Some(c) ==> s.clients[c].renewer.Off?
      ensures got.Some? ==> got == old(s).lease
      ensures old(s).clients[c].renewer.Waiting? ==>
                Count(IsStop(), log, c) == old(Count(IsStop(), log, c)) + (if got.None? then 1 else 0)
      ensures Count(IsCancel(), log, c) == old(Count(IsCancel(), log, c))
      ensures old(s).clients[c].renewer.Waiting? && got.Some? && got.value.holder == Some(c) ==>
                s.clients[c].renewer.Writing?
      ensures Count(IsUpdate(), log, c) == old(Count(IsUpdate(), log, c))
    {
      hide Exec, Count;
      var failed: bool := *;
      if failed || s.lease.None? {
        if s.clients[c].renewer.Waiting? {
          CountSnoc(IsUpdate(), log, Act(c, RenewStop), c);
          CountSnoc(IsStop(), log, Act(c, RenewStop), c);
          CountSnoc(IsCancel(), log, Act(c, RenewStop), c);
          Take(Act(c, RenewStop));
        }
        got := None;
      } else {
        got := s.lease;
        CountSnoc(IsUpdate(), log, Act(c, RenewGet), c);
        CountSnoc(IsStop(), log, Act(c, RenewGet), c);
        CountSnoc(IsCancel(), log, Act(c, RenewGet), c);
        Take(Act(c, RenewGet));
      }
    }

    /** Update with the current time; a refusal is ignored, so that only cancelling stops the renewer. */
    method Update(c: Id)
      requires Valid() && c in s.clients && !s.clients[c].renewer.Waiting?
      modifies this
      ensures Valid() && old(log) <= log && c in s.clients && s.clients[c].duration == old(s).clients[c].duration
      ensures !s.clients[c].renewer.Writing?
      ensures Count(IsUpdate(), log, c) == old(Count(IsUpdate(), log, c)) + 1
           || (Count(IsUpdate(), log, c) == old(Count(IsUpdate(), log, c)) && s.clients[c].renewer.Off?)
      ensures Count(IsStop(), log, c) == old(Count(IsStop(), log, c))
      ensures Count(IsCancel(), log, c) >= old(Count(IsCancel(), log, c))
      ensures old(s).clients[c].renewer.Writing? ==>
                s.clients[c].renewer.Waiting? || Count(IsCancel(), log, c) > old(Count(IsCancel(), log, c))
    {
      hide Exec, Count;
      Interfere(Background(c));
      CountOthers(IsUpdate(), old(log), log, Background(c));
      CountOthers(IsStop(), old(log), log, Background(c));
      if s.clients[c].renewer.Writing? {
        var cl := s.clients[c];
        var next := cl.renewer.tick + Period(cl);
        var stamp: int := *;
        var put := Act(c, RenewPut(stamp, next));
        CountSnoc(IsUpdate(), log, put, c);
        CountSnoc(IsUpdate(), log, Act(c, RenewLost(next)), c);
        CountSnoc(IsCancel(), log, put, c);
        CountSnoc(IsCancel(), log, Act(c, RenewLost(next)), c);
        CountSnoc(IsStop(), log, put, c);
        CountSnoc(IsStop(), log, Act(c, RenewLost(next)), c);
        if Enabled(s, put) { Take(put); } else { Take(Act(c, RenewLost(next))); }
      }
    }
  }

  datatype Attempt = Acquired | Retry | Failed

  /** kubeLeaseLock. */
  class KubeLeaseLock {
    const server: ApiServer
    const holderIdentity: Id
    const leaseDuration: int
    var cancellable: bool    // cancelFunc != nil

    constructor (server: ApiServer, holderIdentity: Id, leaseDuration: int)
      ensures this.server == server && this.holderIdentity == holderIdentity && this.leaseDuration == leaseDuration
      ensures !cancellable
    {
      this.server, this.holderIdentity, this.leaseDuration, cancellable := server, holderIdentity, leaseDuration, false;
    }

    ghost predicate Valid()
      reads this, server
    {
      && server.Valid() && holderIdentity in server.s.clients
      && server.s.clients[holderIdentity].duration == leaseDuration
    }

    ghost function Phase(): Phase
      requires Valid()
      reads this, server
    {
      server.s.clients[holderIdentity].phase
    }

    /** One iteration of the backoff loop in Lock. It fails exactly when one of its calls does. Otherwise it
        acquires when its Create landed, or when the lease it read, `seen`, stored in `read`, was neither
        expired by the clock of `judged` nor another client's; it retries when `seen` was another's, or
        expired, and then no lease is stored any more. */
    method TryLock() returns (r: Attempt, ghost seen: Option<Lease>, ghost read: Cluster, ghost judged: Cluster)
      requires Valid() && Phase().Idle?
      modifies this, server
      ensures Valid() && old(server.log) <= server.log
      ensures server.Begins(holderIdentity) == old(server.Begins(holderIdentity)) + 1
      ensures server.Fails(holderIdentity) == old(server.Fails(holderIdentity)) + (if r.Failed? then 1 else 0)
      ensures if r.Acquired? then Phase().Critical? else Phase().Idle?
      ensures r.Acquired? && Phase().created ==> cancellable
      ensures seen.Some? ==> read.lease == seen && Passes(Next, server.start, server.log, |old(server.log)|, read)
      ensures !r.Failed? && seen.Some? ==> Passes(Next, server.start, server.log, |old(server.log)|, judged)
      ensures r.Acquired? && seen.None? ==> Phase().created && Names(server.s.lease, holderIdentity)
      ensures r.Acquired? && seen.Some? ==>
                !Phase().created && !Late(seen.value, judged) && !HeldByOther(seen.value, holderIdentity)
      ensures r.Retry? ==> seen.Some? && (Late(seen.value, judged) || HeldByOther(seen.value, holderIdentity))
      ensures r.Retry? && Late(seen.value, judged) ==> server.s.lease.None?
    {
      hide Exec, Count, Passes;
      seen, read, judged := None, server.s, server.s;
      var stamp := server.Timestamp(holderIdentity);
      var reply := server.Create(holderIdentity);
      if reply.CreateFailed? {
        return Failed, seen, read, judged;
      }
      if reply.AlreadyExists? {
        ghost var log := server.log;
        var got;
        got, read := server.Get(holderIdentity);
        if got.None? {
          return Failed, seen, read, judged;
        }
        seen := got;
        ghost var log1 := server.log;
        var clock;
        clock, judged := server.Now(holderIdentity);
        PassesLater(Next, server.start, log1, server.log, |log|, |old(server.log)|, read);
        PassesLater(Next, server.start, server.log, server.log, |log1|, |old(server.log)|, judged);
        if got.value.renew.Some? && clock - got.value.renew.value > 1000 * leaseDuration {
          ghost var log2 := server.log;
          var deleted := server.Delete(holderIdentity);
          PassesLater(Next, server.start, log2, server.log, |old(server.log)|, |old(server.log)|, read);
          PassesLater(Next, server.start, log2, server.log, |old(server.log)|, |old(server.log)|, judged);
          return if deleted then Retry else Failed, seen, read, judged;
        }
        if got.value.holder.Some? && got.value.holder.value != holderIdentity {
          return Retry, seen, read, judged;
        }
        return Acquired, seen, read, judged;
      }
      cancellable := true;
      return Acquired, seen, read, judged;
    }

    /** `seen` is expired by the client's clock in `t`. */
    ghost predicate Late(seen: Lease, t: Cluster)
      requires Valid()
      reads this, server
    {
      Expired(seen, t.now, server.s.clients[holderIdentity])
    }

    /** Lock: at most a hundred attempts, of which only the last can be other than a retry. It returns an
        error exactly when a call failed or all hundred ended in a retry. From an owned start, and unless a
        hazard step occurred somewhere in the system, the stored lease names the caller when it returns nil. */
    method Lock() returns (ok: bool, ghost tries: nat)
      requires Valid() && Phase().Idle?
      modifies this, server
      ensures Valid() && old(server.log) <= server.log
      ensures tries <= 100 && server.Begins(holderIdentity) == old(server.Begins(holderIdentity)) + tries
      ensures ok ==> tries > 0 && server.Fails(holderIdentity) == old(server.Fails(holderIdentity))
      ensures !ok ==> (server.Fails(holderIdentity) == old(server.Fails(holderIdentity)) + 1
                       || (tries == 100 && server.Fails(holderIdentity) == old(server.Fails(holderIdentity))))
      ensures if ok then Phase().Critical? else Phase().Idle?
      ensures ok && Owned(server.start) && Always(Next, (t, st) => !Hazard(t, st), server.start, server.log)
           ==> Names(server.s.lease, holderIdentity) && Exclusive(server.s)
    {
      hide Count, Passes, Late;
      tries := 0;
      for i := 0 to 100
        invariant Valid() && Phase().Idle? && old(server.log) <= server.log && tries == i
        invariant server.Begins(holderIdentity) == old(server.Begins(holderIdentity)) + tries
        invariant server.Fails(holderIdentity) == old(server.Fails(holderIdentity))
      {
        var r, seen, read, judged := TryLock();
        tries := tries + 1;
        match r
        case Acquired =>
          if Owned(server.start) && Always(Next, (t, st) => !Hazard(t, st), server.start, server.log) {
            OwnedExactly(server.start, server.log);
            assert server.log[..|server.log|] == server.log;
            assert InCritical(server.s, holderIdentity);
            OwnedIsExclusive(server.s);
          }
          return true, tries;
        case Failed => return false, tries;
        case Retry =>
      }
      return false, tries;
    }

    /** Unlock: the client has left its critical section whatever the calls answer, of which it returns an
        error exactly when one failed. With nil, the lease it read, `seen`, is gone if it named the client,
        and left alone otherwise; either way the stored lease does not name it. */
    method Unlock() returns (ok: bool, ghost seen: Option<Lease>)
      requires Valid() && Phase().Critical?
      modifies this, server
      ensures Valid() && Phase().Idle? && old(server.log) <= server.log
      ensures server.Fails(holderIdentity) == old(server.Fails(holderIdentity)) + (if ok then 0 else 1)
      ensures ok ==> seen.Some? && !Names(server.s.lease, holderIdentity)
      ensures ok ==> server.s.lease == if seen.value.holder == Some(holderIdentity) then None else seen
    {
      hide Exec, Count;
      server.CancelRenewal(holderIdentity);
      var got := server.GetForUnlock(holderIdentity);
      seen := got;
      if got.None? {
        return false, seen;
      }
      if got.value.holder.None? || got.value.holder.value != holderIdentity {
        return true, seen;
      }
      ok := server.Delete(holderIdentity);
    }

    /** renewLeasePeriodically, for any number of firings. It stops before they are over only when its context
        was cancelled, on a failing Get, which ends it, or on a lease, then stored, that names somebody else
        or nobody; a refused Update does not stop it.
        Every other firing sends one Update; only one that was cancelled on the wire is not in the log. */
    method RenewLeasePeriodically(firings: nat) returns (stopped: Option<Stop>, handled: nat, ghost read: Cluster)
      requires Valid() && !server.s.clients[holderIdentity].renewer.Writing?
      modifies server
      ensures Valid() && old(server.log) <= server.log && handled <= firings
      ensures stopped.Some? ==> server.s.clients[holderIdentity].renewer.Off? && handled < firings
      ensures stopped.None? ==> handled == firings
      ensures stopped.Some? && stopped.value.NotHolder? ==>
                && stopped.value.seen.holder != Some(holderIdentity) && read.lease == Some(stopped.value.seen)
                && Passes(Next, server.start, server.log, |old(server.log)|, read)
      ensures !server.s.clients[holderIdentity].renewer.Writing?
      ensures Count(IsStop(), server.log, holderIdentity) ==
                old(Count(IsStop(), server.log, holderIdentity)) + (if stopped == Some(GetFailed) then 1 else 0)
      ensures stopped == Some(ContextDone) ==>
                || old(server.s).clients[holderIdentity].renewer.Off?
                || Count(IsCancel(), server.log, holderIdentity) > old(Count(IsCancel(), server.log, holderIdentity))
      ensures var sent, before := Count(IsUpdate(), server.log, holderIdentity),
                                  old(Count(IsUpdate(), server.log, holderIdentity));
        sent == before + handled || (sent == before + handled - 1 && server.s.clients[holderIdentity].renewer.Off?)
      ensures stopped.Some? && !stopped.value.ContextDone? ==>
                Count(IsUpdate(), server.log, holderIdentity) ==
                    old(Count(IsUpdate(), server.log, holderIdentity)) + handled
    {
      hide Exec, Count, Passes;
      ghost var before := Count(IsUpdate(), server.log, holderIdentity);
      handled, read := 0, server.s;
      while handled < firings
        invariant Valid() && old(server.log) <= server.log && handled <= firings
        invariant !server.s.clients[holderIdentity].renewer.Writing?
        invariant Count(IsStop(), server.log, holderIdentity) == old(Count(IsStop(), server.log, holderIdentity))
        invariant Count(IsCancel(), server.log, holderIdentity) >= old(Count(IsCancel(), server.log, holderIdentity))
        invariant || server.s.clients[holderIdentity].renewer.Waiting?
                  || old(server.s).clients[holderIdentity].renewer.Off?
                  || Count(IsCancel(), server.log, holderIdentity) > old(Count(IsCancel(), server.log, holderIdentity))
        invariant Count(IsUpdate(), server.log, holderIdentity) == before + handled
               || (Count(IsUpdate(), server.log, holderIdentity) == before + handled - 1
                  && server.s.clients[holderIdentity].renewer.Off?)
      {
        var ticked := server.AwaitTick(holderIdentity);
        if !ticked {
          return Some(ContextDone), handled, read;
        }
        read := server.s;
        PassesNow(Next, server.start, server.log, |old(server.log)|);
        ghost var log := server.log;
        var got := server.GetForRenewal(holderIdentity);
        PassesLater(Next, server.start, log, server.log, |old(server.log)|, |old(server.log)|, read);
        if got.None? {
          return Some(GetFailed), handled, read;
        }
        if got.value.holder.None? || got.value.holder.value != holderIdentity {
          return Some(NotHolder(got.value)), handled, read;
        }
        server.Update(holderIdentity);
        handled := handled + 1;
      }
      return None, handled, read;
    }
  }
}
