/** internal/lease/lock.go as a step system. Any number of clients share one lease object; every
    API call, every local decision that reads a clock and every passage of time is one step, and
    steps of different clients interleave freely. Times are milliseconds. */
module LeaseProtocol {
  import opened Wrappers

  type Id = string

  /** The stored lease. Both pointers may be nil; `version` is the resource version. */
  datatype Lease = Lease(holder: Option<Id>, renew: Option<int>, version: nat)

  /** Where a client's calling goroutine is in Lock or Unlock.
      `acq` and `tko` are history: how many acquisitions and takeovers had happened at the Get. */
  datatype Phase =
    | Idle                                                    // outside Lock and Unlock, or backing off
    | Creating(stamp: int)                                    // timestamp taken, Create pending
    | Getting                                                 // lease exists, Get pending
    | Judging(seen: Lease, at: int, acq: nat, tko: nat)       // Get answered, about to read the clock
    | Deleting(seen: Lease, acq: nat)                         // judged expired, Delete pending
    | Critical(created: bool)                                 // Lock returned nil; false: re-entered
    | UnlockGetting(created: bool, since: int, due: int)      // renewer cancelled, Get pending
    | UnlockDeleting(created: bool, since: int, due: int)     // lease is ours, Delete pending

  /** The goroutine of renewLeasePeriodically; `tick` is the ticker's current firing. */
  datatype Renewer = Off | Waiting(tick: int) | Writing(tick: int, version: nat, since: int)

  datatype Client = Client(duration: int, skew: int, phase: Phase, renewer: Renewer)

  /** An Update that was on the wire when its renewer was cancelled. */
  datatype Write = Write(owner: Id, version: nat, since: int)

  /** Clients are keyed by holder identity, so live clients have distinct identities. */
  datatype Cluster = Cluster(
    now: int,
    lease: Option<Lease>,
    clients: map<Id, Client>,
    stray: set<Write>,
    nextVersion: nat,
    acquisitions: nat,
    takeovers: nat)

  datatype Action =
    | Begin
    | Create(tick: int)
    | CreateExists
    | Get
    | Judge
    | Delete
    | Fail                                 // the pending call returns an error and has no effect
    | StartUnlock
    | UnlockGet
    | UnlockDelete
    | RenewGet
    | RenewPut(stamp: int, next: int)
    | RenewLost(next: int)                 // Update refused or failed; the error is ignored
    | RenewStop                            // Get failed or the context was cancelled
    | Crash

  datatype Step =
    | Advance(to: int)
    | StrayPut(w: Write, stamp: int)
    | StrayDrop(w: Write)
    | Act(c: Id, act: Action)

  function Period(cl: Client): int {
    500 * cl.duration
  }

  predicate Names(lease: Option<Lease>, c: Id) {
    lease.Some? && lease.value.holder == Some(c)
  }

  /** Judged with the observer's own clock and its own duration, not the one stored in the lease. */
  predicate Expired(seen: Lease, now: int, observer: Client) {
    seen.renew.Some? && now + observer.skew - seen.renew.value > 1000 * observer.duration
  }

  predicate HeldByOther(seen: Lease, c: Id) {
    seen.holder.Some? && seen.holder.value != c
  }

  predicate InCritical(s: Cluster, c: Id) {
    c in s.clients && s.clients[c].phase.Critical?
  }

  predicate InUnlock(s: Cluster, c: Id) {
    c in s.clients && (s.clients[c].phase.UnlockGetting? || s.clients[c].phase.UnlockDeleting?)
  }

  /** Between a successful Lock and the end of its Unlock. */
  predicate Engaged(s: Cluster, c: Id) {
    InCritical(s, c) || InUnlock(s, c)
  }

  /** The ticker fires one period later, or later still when its consumer missed a firing. */
  predicate NextTick(s: Cluster, cl: Client, tick: int, next: int) {
    next == tick + Period(cl) || (s.now >= tick + Period(cl) && next > tick + Period(cl))
  }

  predicate Matches(lease: Option<Lease>, version: nat) {
    lease.Some? && lease.value.version == version
  }

  predicate PendingCall(p: Phase) {
    p.Creating? || p.Getting? || p.Deleting? || p.UnlockGetting? || p.UnlockDeleting?
  }

  predicate CanAct(s: Cluster, cl: Client, act: Action) {
    match act
    case Begin => cl.phase.Idle?
    case Create(tick) => cl.phase.Creating? && s.lease.None? && tick >= s.now + Period(cl)
    case CreateExists => cl.phase.Creating? && s.lease.Some?
    case Get => cl.phase.Getting? && s.lease.Some?
    case Judge => cl.phase.Judging?
    case Delete => cl.phase.Deleting? && s.lease.Some?
    case Fail => PendingCall(cl.phase)
    case StartUnlock => cl.phase.Critical?
    case UnlockGet => cl.phase.UnlockGetting? && s.lease.Some?
    case UnlockDelete => cl.phase.UnlockDeleting? && s.lease.Some?
    case RenewGet => cl.renewer.Waiting? && s.now >= cl.renewer.tick && s.lease.Some?
    case RenewPut(stamp, next) =>
      && cl.renewer.Writing? && Matches(s.lease, cl.renewer.version)
      && cl.renewer.since + cl.skew <= stamp <= s.now + cl.skew
      && NextTick(s, cl, cl.renewer.tick, next)
    case RenewLost(next) => cl.renewer.Writing? && NextTick(s, cl, cl.renewer.tick, next)
    case RenewStop => !cl.renewer.Off?
    case Crash => true
  }

  predicate Enabled(s: Cluster, st: Step) {
    match st
    case Advance(to) => to >= s.now
    case StrayPut(w, stamp) =>
      && w in s.stray && w.owner in s.clients && Matches(s.lease, w.version)
      && w.since + s.clients[w.owner].skew <= stamp <= s.now + s.clients[w.owner].skew
    case StrayDrop(w) => w in s.stray
    case Act(c, act) => c in s.clients && CanAct(s, s.clients[c], act)
  }

  function SetPhase(s: Cluster, c: Id, p: Phase): Cluster
    requires c in s.clients
  {
    s.(clients := s.clients[c := s.clients[c].(phase := p)])
  }

  function SetRenewer(s: Cluster, c: Id, r: Renewer): Cluster
    requires c in s.clients
  {
    s.(clients := s.clients[c := s.clients[c].(renewer := r)])
  }

  /** Cancelling a renewer leaves an Update that is already on the wire behind. */
  function Cancel(s: Cluster, c: Id): Cluster
    requires c in s.clients
  {
    var r := s.clients[c].renewer;
    var s' := SetRenewer(s, c, Off);
    if r.Writing? then s'.(stray := s.stray + {Write(c, r.version, r.since)}) else s'
  }

  function Put(s: Cluster, stamp: int): Cluster
    requires s.lease.Some?
  {
    s.(lease := Some(s.lease.value.(renew := Some(stamp), version := s.nextVersion)), nextVersion := s.nextVersion + 1)
  }

  predicate ReEnters(s: Cluster, c: Id) {
    && c in s.clients && s.clients[c].phase.Judging?
    && !Expired(s.clients[c].phase.seen, s.now, s.clients[c])
    && !HeldByOther(s.clients[c].phase.seen, c)
  }

  function Decide(s: Cluster, c: Id): Cluster
    requires c in s.clients && s.clients[c].phase.Judging?
  {
    var p := s.clients[c].phase;
    if Expired(p.seen, s.now, s.clients[c]) then SetPhase(s, c, Deleting(p.seen, p.acq))
    else if HeldByOther(p.seen, c) then SetPhase(s, c, Idle)
    else SetPhase(s, c, Critical(false)).(acquisitions := s.acquisitions + 1)
  }

  function Acquire(s: Cluster, c: Id, tick: int): Cluster
    requires c in s.clients && s.clients[c].phase.Creating?
  {
    var cl := s.clients[c];
    s.(lease := Some(Lease(Some(c), Some(cl.phase.stamp), s.nextVersion)),
       nextVersion := s.nextVersion + 1,
       acquisitions := s.acquisitions + 1,
       clients := s.clients[c := cl.(phase := Critical(true), renewer := Waiting(tick))])
  }

  function Perform(s: Cluster, c: Id, act: Action): Cluster
    requires c in s.clients && CanAct(s, s.clients[c], act)
  {
    var cl := s.clients[c];
    match act
    case Begin => SetPhase(s, c, Creating(s.now + cl.skew))
    case Create(tick) => Acquire(s, c, tick)
    case CreateExists => SetPhase(s, c, Getting)
    case Get => SetPhase(s, c, Judging(s.lease.value, s.now, s.acquisitions, s.takeovers))
    case Judge => Decide(s, c)
    case Delete => SetPhase(s, c, Idle).(lease := None, takeovers := s.takeovers + 1)
    case Fail => SetPhase(s, c, Idle)
    case StartUnlock =>
      SetPhase(Cancel(s, c), c,
               UnlockGetting(cl.phase.created, s.now, if cl.renewer.Off? then s.now else cl.renewer.tick))
    case UnlockGet =>
      SetPhase(s, c, if Names(s.lease, c) then UnlockDeleting(cl.phase.created, cl.phase.since, cl.phase.due) else Idle)
    case UnlockDelete => SetPhase(s, c, Idle).(lease := None)
    case RenewGet =>
      SetRenewer(s, c, if Names(s.lease, c) then Writing(cl.renewer.tick, s.lease.value.version, s.now) else Off)
    case RenewPut(stamp, next) => SetRenewer(Put(s, stamp), c, Waiting(next))
    case RenewLost(next) => SetRenewer(s, c, Waiting(next))
    case RenewStop => Cancel(s, c)
    case Crash => SetPhase(Cancel(s, c), c, Idle)
  }

  function Next(s: Cluster, st: Step): Cluster {
    if !Enabled(s, st) then s
    else
      match st
      case Advance(to) => s.(now := to)
      case StrayPut(w, stamp) => Put(s, stamp).(stray := s.stray - {w})
      case StrayDrop(w) => s.(stray := s.stray - {w})
      case Act(c, act) => Perform(s, c, act)
  }

  /** Nobody has started; an earlier agent may have left a lease behind. */
  predicate Init(s: Cluster) {
    && s.stray == {}
    && (s.lease.Some? ==> s.lease.value.version < s.nextVersion)
    && forall c :: c in s.clients ==> s.clients[c].phase.Idle? && s.clients[c].renewer.Off?
  }
}
