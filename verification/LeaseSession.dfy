// One owner's lease session (study-1/src/coordination-lease/lease-session.ts) with the judgements of
// heartbeat-judgement.ts, lease-acquisition.ts and lease-finalization.ts.
//
// A session runs one operation at a time. `Work` is where that operation is waiting: each store call
// and the journal append that settles a finalization is one suspension point, and other sessions may
// act while it waits. The appends after an acquisition or a beat change nothing a session decides on
// later, so they are part of the step before them.
module LeaseSteps {
  import opened Wrappers
  import opened LeaseItems
  import opened LeaseStore
  import opened LeaseHealths

  datatype Closure = Clean | Unclean

  datatype Phase = Idle | RefusedPhase | Unresolved | HeldPhase(state: HealthState) | Finalized(status: LeaseStatus)

  datatype Work =
    | NoWork
    | AcquirePut(issuedNs: int, at: int)
    | AcquireReplace(issuedNs: int, at: int, released: Item)
    | AcquireRead(issuedNs: int, at: int)
    | BeatWrite(issuedNs: int, at: int)
    | BeatRead(issuedNs: int, at: int, ambiguous: bool)
    | FinalRead(closure: Closure)
    | FinalWrite(closure: Closure, version: nat, at: int)
    | FinalResolve(closure: Closure)
    | FinalRecord(event: LeaseEvent)

  datatype Session = Session(
    owner: Owner,
    phase: Phase,
    work: Work,
    events: seq<LeaseEvent>,
    loss: Option<Health>,
    clock: int)

  // What a caller, the store or the journal hands to the session next; `now` and `wall` are the
  // readings of the two clocks at that moment.
  datatype Input =
    | CallAcquire
    | CallHeartbeat
    | CallFinalize(closure: Closure)
    | WriteAnswer(outcome: WriteOutcome)
    | ReadAnswer(read: ReadResult)
    | JournalAnswer

  function NewSession(owner: Owner, clock: int): Session {
    Session(owner, Idle, NoWork, [], None, clock)
  }

  function FinalTarget(closure: Closure): ItemStatus {
    if closure == Clean then RELEASED else RECOVERY_REQUIRED
  }

  function FinalEvent(closure: Closure): LeaseEvent {
    if closure == Clean then EvReleased else EvRecoveryRequired
  }

  // The write the session waits for, if it waits for one.
  function PendingWrite(s: Session): Option<Write> {
    match s.work
    case AcquirePut(_, at) => Some(PutWrite(AcquiredItem(s.owner, at), ItemAbsent))
    case AcquireReplace(_, at, released) =>
      Some(PutWrite(AcquiredItem(s.owner, at), SameReleased(released.version, released.owner.id)))
    case BeatWrite(_, at) =>
      if s.phase.HeldPhase? then Some(HeartbeatWrite(s.owner, s.phase.state.version, at)) else None
    case FinalWrite(closure, version, at) => Some(StatusWrite(s.owner, version, FinalTarget(closure), at))
    case _ => None
  }

  predicate PendingRead(s: Session) {
    s.work.AcquireRead? || s.work.BeatRead? || s.work.FinalRead? || s.work.FinalResolve?
  }

  // ---------- acquisition ----------

  predicate AcquisitionLanded(item: Item, owner: Owner, at: int) {
    IsOwnedBy(item, owner) && item.status == HELD && item.version == 1 && item.acquiredAt == at
  }

  function Acquired(s: Session, issuedNs: int, at: int): Session {
    s.(phase := HeldPhase(HealthState(CONFIRMED, 1, issuedNs, at)), work := NoWork, events := s.events + [EvAcquired])
  }

  function NotAcquired(s: Session, phase: Phase): Session {
    s.(phase := phase, work := NoWork, events := s.events + [EvAcquisitionFailed])
  }

  function AfterPut(s: Session, issuedNs: int, at: int, outcome: WriteOutcome): Session {
    match outcome
    case Applied => Acquired(s, issuedNs, at)
    case DefinitiveFailure => NotAcquired(s, RefusedPhase)
    case ConditionFailed(_) => NotAcquired(s, RefusedPhase)
    case Ambiguous => s.(work := AcquireRead(issuedNs, at))
  }

  // The first put goes on to a second one when it failed on an explicitly released item.
  function AfterFirstPut(s: Session, issuedNs: int, at: int, outcome: WriteOutcome): Session {
    var released := ReleasedHolder(outcome);
    if released.Some? then s.(work := AcquireReplace(issuedNs, at, released.value))
    else AfterPut(s, issuedNs, at, outcome)
  }

  function AfterAcquireRead(s: Session, issuedNs: int, at: int, read: ReadResult): Session {
    match read
    case ReadFailed => NotAcquired(s, Unresolved)
    case ReadUndecodable => NotAcquired(s, Unresolved)
    case ReadOk(None) => NotAcquired(s, RefusedPhase)
    case ReadOk(Some(item)) =>
      if AcquisitionLanded(item, s.owner, at) then Acquired(s, issuedNs, at) else NotAcquired(s, RefusedPhase)
  }

  // ---------- heartbeat ----------

  predicate HeartbeatLanded(item: Item, owner: Owner, expected: nat, at: int) {
    IsOwnedBy(item, owner) && item.status == HELD && item.version == expected + 1 && item.heartbeatAt == at
  }

  function JudgeItem(item: Item, owner: Owner, now: int): Observation {
    if IsOwnedBy(item, owner) && item.status == HELD then ObservedFailed(now, Some(item.version))
    else ObservedMismatch(now)
  }

  function JudgeRead(read: ReadResult, owner: Owner, now: int): Observation {
    match read
    case ReadFailed => ObservedFailed(now, None)
    case ReadUndecodable => ObservedMismatch(now)
    case ReadOk(None) => ObservedMismatch(now)
    case ReadOk(Some(item)) => JudgeItem(item, owner, now)
  }

  function BeatEvent(previous: Health, next: Health): LeaseEvent {
    match next
    case CONFIRMED => if previous == UNCERTAIN then EvRecovered else EvHeartbeatConfirmed
    case UNCERTAIN => EvHeartbeatFailed
    case LOST_OWNERSHIP_MISMATCH => EvLostOwnershipMismatch
    case LOST_STALE => EvLostStale
  }

  // A beat ends by moving the health; a loss it establishes is kept for the heartbeat loop.
  function SettleBeat(s: Session, observation: Observation): Session
    requires s.phase.HeldPhase?
  {
    var state := s.phase.state;
    var next := NextHealth(state, observation);
    var lost := next.health == LOST_STALE || observation.ObservedMismatch?;
    s.(phase := HeldPhase(next),
       work := NoWork,
       events := s.events + [BeatEvent(state.health, next.health)],
       loss := if lost then Some(next.health) else s.loss)
  }

  function StartBeat(s: Session, now: int, wall: int): Session
    requires s.phase.HeldPhase?
  {
    var state := s.phase.state;
    if IsLost(state.health) then s
    else if NextHealth(state, ObservedClock(now)).health == LOST_STALE then SettleBeat(s, ObservedClock(now))
    else s.(work := BeatWrite(now, wall))
  }

  function AfterBeatWrite(s: Session, issuedNs: int, at: int, outcome: WriteOutcome, now: int): Session
    requires s.phase.HeldPhase?
  {
    match outcome
    case Applied => SettleBeat(s, ObservedConfirmed(issuedNs, now, at, s.phase.state.version + 1))
    case DefinitiveFailure => SettleBeat(s, ObservedFailed(now, None))
    case Ambiguous => s.(work := BeatRead(issuedNs, at, true))
    case ConditionFailed(Omitted) => s.(work := BeatRead(issuedNs, at, false))
    case ConditionFailed(Undecodable) => SettleBeat(s, ObservedMismatch(now))
    case ConditionFailed(Shown(item)) => SettleBeat(s, JudgeItem(item, s.owner, now))
  }

  function AfterBeatRead(s: Session, issuedNs: int, at: int, ambiguous: bool, read: ReadResult, now: int): Session
    requires s.phase.HeldPhase?
  {
    var expected := s.phase.state.version;
    if ambiguous && read.ReadOk? && read.item.Some? && HeartbeatLanded(read.item.value, s.owner, expected, at)
    then SettleBeat(s, ObservedConfirmed(issuedNs, now, at, expected + 1))
    else SettleBeat(s, JudgeRead(read, s.owner, now))
  }

  // ---------- finalization ----------

  // The event is pushed before its journal append is awaited, and the phase changes only after it.
  function RecordFinal(s: Session, event: LeaseEvent): Session {
    s.(work := FinalRecord(event), events := s.events + [event])
  }

  function StartFinalize(s: Session, closure: Closure): Session {
    match s.phase
    case Idle => s
    case Finalized(_) => s
    case RefusedPhase => RecordFinal(s, EvReleased)
    case Unresolved => s.(work := FinalRead(closure))
    case HeldPhase(_) => s.(work := FinalRead(closure))
  }

  function KnownVersion(phase: Phase): nat {
    if phase.HeldPhase? then phase.state.version else 1
  }

  function AfterFinalRead(s: Session, closure: Closure, read: ReadResult, wall: int): Session {
    match read
    case ReadFailed => s.(work := FinalWrite(closure, KnownVersion(s.phase), wall))
    case ReadUndecodable => s.(work := FinalWrite(closure, KnownVersion(s.phase), wall))
    case ReadOk(item) =>
      if item.None? || !IsOwnedBy(item.value, s.owner) then
        RecordFinal(s, if s.phase.HeldPhase? then EvStateUnverified else EvReleased)
      else if item.value.status == RELEASED then RecordFinal(s, EvReleased)
      else if item.value.status == RECOVERY_REQUIRED && closure == Unclean then RecordFinal(s, EvRecoveryRequired)
      else s.(work := FinalWrite(closure, item.value.version, wall))
  }

  function AfterFinalWrite(s: Session, closure: Closure, outcome: WriteOutcome): Session {
    match outcome
    case Applied => RecordFinal(s, FinalEvent(closure))
    case Ambiguous => s.(work := FinalResolve(closure))
    case ConditionFailed(_) => RecordFinal(s, if closure == Clean then EvReleaseFailed else EvStateUnverified)
    case DefinitiveFailure => RecordFinal(s, if closure == Clean then EvReleaseFailed else EvStateUnverified)
  }

  function AfterFinalResolve(s: Session, closure: Closure, read: ReadResult): Session {
    if read.ReadOk? && read.item.Some? && IsOwnedBy(read.item.value, s.owner)
       && read.item.value.status == FinalTarget(closure)
    then RecordFinal(s, FinalEvent(closure))
    else RecordFinal(s, EvStateUnverified)
  }

  // ---------- one step ----------

  // An operation called out of phase throws and leaves the session as it is; so does an input the
  // session is not waiting for.
  function Advance(s: Session, input: Input, now: int, wall: int): Session {
    match input
    case CallAcquire =>
      if s.work.NoWork? && s.phase.Idle? then s.(work := AcquirePut(now, wall)) else s
    case CallHeartbeat =>
      if s.work.NoWork? && s.phase.HeldPhase? then StartBeat(s, now, wall) else s
    case CallFinalize(closure) =>
      if s.work.NoWork? then StartFinalize(s, closure) else s
    case WriteAnswer(outcome) =>
      (match s.work
       case AcquirePut(issuedNs, at) => AfterFirstPut(s, issuedNs, at, outcome)
       case AcquireReplace(issuedNs, at, _) => AfterPut(s, issuedNs, at, outcome)
       case BeatWrite(issuedNs, at) =>
         if s.phase.HeldPhase? then AfterBeatWrite(s, issuedNs, at, outcome, now) else s
       case FinalWrite(closure, _, _) => AfterFinalWrite(s, closure, outcome)
       case _ => s)
    case ReadAnswer(read) =>
      (match s.work
       case AcquireRead(issuedNs, at) => AfterAcquireRead(s, issuedNs, at, read)
       case BeatRead(issuedNs, at, ambiguous) =>
         if s.phase.HeldPhase? then AfterBeatRead(s, issuedNs, at, ambiguous, read, now) else s
       case FinalRead(closure) => AfterFinalRead(s, closure, read, wall)
       case FinalResolve(closure) => AfterFinalResolve(s, closure, read)
       case _ => s)
    case JournalAnswer =>
      if s.work.FinalRecord? then s.(phase := Finalized(FinalStatus(s.events)), work := NoWork) else s
  }

  predicate PublicationAllowed(s: Session, now: int) {
    s.phase.HeldPhase? && IsPublicationAllowed(s.phase.state, now)
  }
}
