// study-1/src/coordination-lease/lease-health.ts: health of one held lease on a monotonic clock.
module LeaseHealths {
  import opened Wrappers
  import LeaseItems

  const HEARTBEAT_INTERVAL_MS: int := 30_000
  const NS_PER_MS: int := 1_000_000
  const STALE_BOUNDARY_NS: int := LeaseItems.STALE_BOUNDARY_MS * NS_PER_MS

  datatype Health = CONFIRMED | UNCERTAIN | LOST_OWNERSHIP_MISMATCH | LOST_STALE

  datatype HealthState = HealthState(health: Health, version: nat, lastConfirmedNs: int, lastConfirmedAt: int)

  datatype Observation =
    | ObservedConfirmed(issuedNs: int, observedNs: int, at: int, version: nat)
    | ObservedFailed(observedNs: int, adopted: Option<nat>)
    | ObservedMismatch(observedNs: int)
    | ObservedClock(observedNs: int)

  predicate IsLost(health: Health) {
    health == LOST_OWNERSHIP_MISMATCH || health == LOST_STALE
  }

  function NextHealth(state: HealthState, observation: Observation): HealthState {
    if IsLost(state.health) then state
    else if observation.observedNs - state.lastConfirmedNs >= STALE_BOUNDARY_NS then state.(health := LOST_STALE)
    else match observation
      case ObservedConfirmed(issuedNs, _, at, version) => HealthState(CONFIRMED, version, issuedNs, at)
      case ObservedFailed(_, adopted) =>
        state.(health := UNCERTAIN, version := if adopted.Some? then adopted.value else state.version)
      case ObservedMismatch(_) => state.(health := LOST_OWNERSHIP_MISMATCH)
      case ObservedClock(_) => state
  }

  predicate IsPublicationAllowed(state: HealthState, nowNs: int) {
    state.health == CONFIRMED && nowNs - state.lastConfirmedNs < STALE_BOUNDARY_NS
  }

  // BigInt division truncates toward zero.
  function TruncatedDiv(a: int, b: int): int
    requires b > 0
  {
    if a >= 0 then a / b else -((-a) / b)
  }

  function HeartbeatDelayMs(state: HealthState, nowNs: int): int {
    if state.health != UNCERTAIN then HEARTBEAT_INTERVAL_MS
    else
      var remainingNs := state.lastConfirmedNs + STALE_BOUNDARY_NS - nowNs;
      var remainingMs := TruncatedDiv(remainingNs + NS_PER_MS - 1, NS_PER_MS);
      var capped := if remainingMs < HEARTBEAT_INTERVAL_MS then remainingMs else HEARTBEAT_INTERVAL_MS;
      if capped < 0 then 0 else capped
  }

  datatype LeaseEvent =
    | EvAcquired | EvAcquisitionFailed | EvHeartbeatConfirmed | EvHeartbeatFailed | EvRecovered
    | EvLostOwnershipMismatch | EvLostStale
    | EvReleased | EvReleaseFailed | EvRecoveryRequired | EvStateUnverified

  datatype LeaseStatus = StatusReleased | StatusRecoveryRequired | StatusUnverified

  function StatusOfEvent(event: LeaseEvent): Option<LeaseStatus> {
    match event
    case EvReleased => Some(StatusReleased)
    case EvRecoveryRequired => Some(StatusRecoveryRequired)
    case EvReleaseFailed => Some(StatusUnverified)
    case EvStateUnverified => Some(StatusUnverified)
    case _ => None
  }

  // The last event that settles a status decides; a history without one is unverified.
  function FinalStatus(events: seq<LeaseEvent>): LeaseStatus {
    if events == [] then StatusUnverified
    else
      var last := StatusOfEvent(events[|events| - 1]);
      if last.Some? then last.value else FinalStatus(events[..|events| - 1])
  }
}
