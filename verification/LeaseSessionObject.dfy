// The session object of study-1/src/coordination-lease/lease-session.ts: its fields are updated in
// place, segment by segment between suspension points. Every method is proved against `Advance`, the
// step the protocol theorems are about, so they hold of this object too.
module LeaseSessions {
  import opened Wrappers
  import opened LeaseItems
  import opened LeaseStore
  import opened LeaseHealths
  import opened LeaseSteps

  class LeaseSession {
    const owner: Owner
    var phase: Phase
    var work: Work
    var events: seq<LeaseEvent>
    var loss: Option<Health>
    var clock: int

    function View(): Session
      reads this
    {
      Session(owner, phase, work, events, loss, clock)
    }

    constructor (owner: Owner, clock: int)
      ensures View() == NewSession(owner, clock)
    {
      this.owner := owner;
      phase, work, events, loss := Idle, NoWork, [], None;
      this.clock := clock;
    }

    // The operations are serialized: each starts only when no other is in flight.

    method Acquire(now: int, wall: int) returns (threw: bool)
      requires work.NoWork?
      modifies this`work
      ensures View() == Advance(old(View()), CallAcquire, now, wall)
      ensures threw == !phase.Idle?
    {
      if !phase.Idle? {
        return true;
      }
      work := AcquirePut(now, wall);
      return false;
    }

    method HeartbeatOnce(now: int, wall: int) returns (threw: bool)
      requires work.NoWork?
      modifies this`work, this`phase, this`events, this`loss
      ensures View() == Advance(old(View()), CallHeartbeat, now, wall)
      ensures threw == !old(phase).HeldPhase?
    {
      if !phase.HeldPhase? {
        return true;
      }
      var state := phase.state;
      if IsLost(state.health) {
        return false;
      }
      if now - state.lastConfirmedNs >= STALE_BOUNDARY_NS {
        SettleBeat(ObservedClock(now));
        return false;
      }
      work := BeatWrite(now, wall);
      return false;
    }

    // A finalized session returns its status again; one that never acquired throws.
    method Finalize(closure: Closure) returns (threw: bool)
      requires work.NoWork?
      modifies this`work, this`events
      ensures forall now, wall :: View() == Advance(old(View()), CallFinalize(closure), now, wall)
      ensures threw == phase.Idle?
    {
      threw := phase.Idle?;
      if phase.RefusedPhase? {
        Record(EvReleased);
        work := FinalRecord(EvReleased);
      } else if phase.Unresolved? || phase.HeldPhase? {
        work := FinalRead(closure);
      }
    }

    predicate IsPublicationOpen(now: int)
      reads this
      ensures IsPublicationOpen(now) <==> PublicationAllowed(View(), now)
    {
      phase.HeldPhase? && phase.state.health == CONFIRMED && now - phase.state.lastConfirmedNs < STALE_BOUNDARY_NS
    }

    method Record(event: LeaseEvent)
      modifies this`events
      ensures events == old(events) + [event]
    {
      events := events + [event];
    }

    method SettleAcquired(issuedNs: int, at: int)
      modifies this`phase, this`work, this`events
      ensures View() == Acquired(old(View()), issuedNs, at)
    {
      phase := HeldPhase(HealthState(CONFIRMED, 1, issuedNs, at));
      work := NoWork;
      Record(EvAcquired);
    }

    method SettleNotAcquired(next: Phase)
      modifies this`phase, this`work, this`events
      ensures View() == NotAcquired(old(View()), next)
    {
      phase := next;
      work := NoWork;
      Record(EvAcquisitionFailed);
    }

    method SettleBeat(observation: Observation)
      requires phase.HeldPhase?
      modifies this`phase, this`work, this`events, this`loss
      ensures View() == LeaseSteps.SettleBeat(old(View()), observation)
    {
      var previous := phase.state;
      var next := NextHealth(previous, observation);
      phase := HeldPhase(next);
      work := NoWork;
      if next.health == LOST_STALE || observation.ObservedMismatch? {
        loss := Some(next.health);
      }
      Record(BeatEvent(previous.health, next.health));
    }

    method SettleFinalEvent(event: LeaseEvent)
      modifies this`work, this`events
      ensures View() == RecordFinal(old(View()), event)
    {
      Record(event);
      work := FinalRecord(event);
    }

    // The store answered the write the session was waiting for.
    method ReceiveWriteAnswer(outcome: WriteOutcome, now: int, wall: int)
      modifies this`phase, this`work, this`events, this`loss
      ensures View() == Advance(old(View()), WriteAnswer(outcome), now, wall)
    {
      match work {
        case AcquirePut(issuedNs, at) =>
          var released := ReleasedHolder(outcome);
          if released.Some? {
            work := AcquireReplace(issuedNs, at, released.value);
          } else {
            ReceivePutAnswer(issuedNs, at, outcome);
          }
        case AcquireReplace(issuedNs, at, _) =>
          ReceivePutAnswer(issuedNs, at, outcome);
        case BeatWrite(issuedNs, at) =>
          if phase.HeldPhase? {
            ReceiveBeatAnswer(issuedNs, at, outcome, now);
          }
        case FinalWrite(closure, _, _) =>
          if outcome.Applied? {
            SettleFinalEvent(FinalEvent(closure));
          } else if outcome.Ambiguous? {
            work := FinalResolve(closure);
          } else {
            SettleFinalEvent(if closure == Clean then EvReleaseFailed else EvStateUnverified);
          }
        case _ =>
      }
    }

    method ReceivePutAnswer(issuedNs: int, at: int, outcome: WriteOutcome)
      modifies this`phase, this`work, this`events
      ensures View() == AfterPut(old(View()), issuedNs, at, outcome)
    {
      if outcome.Applied? {
        SettleAcquired(issuedNs, at);
      } else if outcome.Ambiguous? {
        work := AcquireRead(issuedNs, at);
      } else {
        SettleNotAcquired(RefusedPhase);
      }
    }

    method ReceiveBeatAnswer(issuedNs: int, at: int, outcome: WriteOutcome, now: int)
      requires phase.HeldPhase?
      modifies this`phase, this`work, this`events, this`loss
      ensures View() == AfterBeatWrite(old(View()), issuedNs, at, outcome, now)
    {
      match outcome {
        case Applied =>
          SettleBeat(ObservedConfirmed(issuedNs, now, at, phase.state.version + 1));
        case DefinitiveFailure =>
          SettleBeat(ObservedFailed(now, None));
        case Ambiguous =>
          work := BeatRead(issuedNs, at, true);
        case ConditionFailed(existing) =>
          if existing.Omitted? {
            work := BeatRead(issuedNs, at, false);
          } else if existing.Undecodable? {
            SettleBeat(ObservedMismatch(now));
          } else {
            SettleBeat(JudgeItem(existing.item, owner, now));
          }
      }
    }

    // The store answered the consistent read the session was waiting for.
    method ReceiveReadAnswer(read: ReadResult, now: int, wall: int)
      modifies this`phase, this`work, this`events, this`loss
      ensures View() == Advance(old(View()), ReadAnswer(read), now, wall)
    {
      match work {
        case AcquireRead(issuedNs, at) =>
          if !read.ReadOk? {
            SettleNotAcquired(Unresolved);
          } else if read.item.Some? && AcquisitionLanded(read.item.value, owner, at) {
            SettleAcquired(issuedNs, at);
          } else {
            SettleNotAcquired(RefusedPhase);
          }
        case BeatRead(issuedNs, at, ambiguous) =>
          if phase.HeldPhase? {
            var expected := phase.state.version;
            if ambiguous && read.ReadOk? && read.item.Some? && HeartbeatLanded(read.item.value, owner, expected, at) {
              SettleBeat(ObservedConfirmed(issuedNs, now, at, expected + 1));
            } else {
              SettleBeat(JudgeRead(read, owner, now));
            }
          }
        case FinalRead(closure) =>
          ReceiveFinalRead(closure, read, wall);
        case FinalResolve(closure) =>
          if read.ReadOk? && read.item.Some? && IsOwnedBy(read.item.value, owner)
             && read.item.value.status == FinalTarget(closure) {
            SettleFinalEvent(FinalEvent(closure));
          } else {
            SettleFinalEvent(EvStateUnverified);
          }
        case _ =>
      }
    }

    method ReceiveFinalRead(closure: Closure, read: ReadResult, wall: int)
      modifies this`work, this`events
      ensures View() == AfterFinalRead(old(View()), closure, read, wall)
    {
      if !read.ReadOk? {
        work := FinalWrite(closure, KnownVersion(phase), wall);
        return;
      }
      if read.item.None? || !IsOwnedBy(read.item.value, owner) {
        SettleFinalEvent(if phase.HeldPhase? then EvStateUnverified else EvReleased);
        return;
      }
      var item := read.item.value;
      if item.status == RELEASED {
        SettleFinalEvent(EvReleased);
      } else if item.status == RECOVERY_REQUIRED && closure == Unclean {
        SettleFinalEvent(EvRecoveryRequired);
      } else {
        work := FinalWrite(closure, item.version, wall);
      }
    }

    // The journal took the final event: only now does the phase leave `held`.
    method ReceiveJournalAnswer()
      modifies this`phase, this`work
      ensures forall now, wall :: View() == Advance(old(View()), JournalAnswer, now, wall)
    {
      if work.FinalRecord? {
        phase := Finalized(FinalStatus(events));
        work := NoWork;
      }
    }
  }
}
