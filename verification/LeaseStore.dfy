// The one coordination item and the conditional writes the lease makes to it.

// study-1/src/coordination-lease/lease-item.ts
module LeaseItems {
  import opened Wrappers

  const STALE_BOUNDARY_MS: int := 300_000

  datatype ExecutionKind = RunKind | TransportProbeKind | VariantValidationKind

  // Who holds or asks for the lease. Two owners are the same only if all three members agree.
  datatype Owner = Owner(kind: ExecutionKind, id: string, manifest: string)

  datatype ItemStatus = HELD | RELEASED | RECOVERY_REQUIRED

  // A decoded lease item; instants are milliseconds.
  datatype Item = Item(
    owner: Owner,
    status: ItemStatus,
    version: nat,
    acquiredAt: int,
    heartbeatAt: int,
    expiresAt: int,
    updatedAt: int)

  predicate IsOwnedBy(item: Item, owner: Owner) {
    item.owner.kind == owner.kind && item.owner.id == owner.id && item.owner.manifest == owner.manifest
  }

  // An expiry in the past never makes a held item available.
  predicate IsAvailable(item: Option<Item>) {
    item.None? || item.value.status == RELEASED
  }

  function AcquiredItem(owner: Owner, at: int): Item {
    Item(owner, HELD, 1, at, at, at + STALE_BOUNDARY_MS, at)
  }
}

// study-1/src/coordination-lease/durable-lease-store.ts over one item of the item store port.
module LeaseStore {
  import opened Wrappers
  import opened LeaseItems

  datatype Condition =
    | ItemAbsent
    | SameReleased(version: nat, ownerId: string)
    | OwnedAt(owner: Owner, version: nat, statuses: set<ItemStatus>)

  predicate Holds(condition: Condition, item: Option<Item>) {
    match condition
    case ItemAbsent => item.None?
    case SameReleased(version, ownerId) =>
      item.Some? && item.value.status == RELEASED && item.value.version == version && item.value.owner.id == ownerId
    case OwnedAt(owner, version, statuses) =>
      && item.Some?
      && item.value.owner.kind == owner.kind
      && item.value.owner.id == owner.id
      && item.value.owner.manifest == owner.manifest
      && item.value.version == version
      && item.value.status in statuses
  }

  // What a write stores once its condition holds: a fresh item, a heartbeat, or a new status.
  datatype Write =
    | PutWrite(put: Item, condition: Condition)
    | HeartbeatWrite(owner: Owner, expected: nat, at: int)
    | StatusWrite(owner: Owner, expected: nat, target: ItemStatus, at: int)

  function ConditionOf(write: Write): Condition {
    match write
    case PutWrite(_, condition) => condition
    case HeartbeatWrite(owner, expected, _) => OwnedAt(owner, expected, {HELD})
    case StatusWrite(owner, expected, target, _) =>
      OwnedAt(owner, expected, if target == RELEASED then {HELD, RECOVERY_REQUIRED} else {HELD})
  }

  function Stored(write: Write, item: Option<Item>): Item
    requires Holds(ConditionOf(write), item)
  {
    match write
    case PutWrite(put, _) => put
    case HeartbeatWrite(_, expected, at) =>
      item.value.(heartbeatAt := at, expiresAt := at + STALE_BOUNDARY_MS, updatedAt := at, version := expected + 1)
    case StatusWrite(_, expected, target, at) =>
      item.value.(status := target, updatedAt := at, version := expected + 1)
  }

  // The item a failed condition returns. It may be omitted although an item exists, and an item
  // some other tool wrote may not decode.
  datatype Existing = Omitted | Undecodable | Shown(item: Item)

  datatype WriteOutcome = Applied | ConditionFailed(existing: Existing) | DefinitiveFailure | Ambiguous

  datatype ReadResult = ReadFailed | ReadUndecodable | ReadOk(item: Option<Item>)

  // What the network and the service do with one write: answer it (showing the old item of a failed
  // condition or not), refuse it, or lose the answer of a write that landed or did not.
  datatype Fate = Answered(show: bool) | Refused | AnswerLost(landed: bool)

  function WriteEffect(item: Option<Item>, write: Write, fate: Fate): (Option<Item>, WriteOutcome) {
    var holds := Holds(ConditionOf(write), item);
    match fate
    case Refused => (item, DefinitiveFailure)
    case AnswerLost(landed) => (if landed && holds then Some(Stored(write, item)) else item, Ambiguous)
    case Answered(show) =>
      if holds then (Some(Stored(write, item)), Applied)
      else (item, ConditionFailed(if item.Some? && show then Shown(item.value) else Omitted))
  }

  // A final status is stored exactly on the owner's own item at the expected version, HELD, or for a
  // release also in recovery; and the answer tells so exactly when it arrives.
  lemma StatusWriteExactly(item: Option<Item>, owner: Owner, expected: nat, target: ItemStatus, at: int, fate: Fate)
    ensures var (after, outcome) := WriteEffect(item, StatusWrite(owner, expected, target, at), fate);
      var lands := && item.Some? && item.value.owner == owner && item.value.version == expected
                   && (item.value.status == HELD || (target == RELEASED && item.value.status == RECOVERY_REQUIRED));
      && after == (if lands && (fate.Answered? || fate == AnswerLost(true))
                   then Some(item.value.(status := target, updatedAt := at, version := expected + 1)) else item)
      && (outcome == Applied <==> lands && fate.Answered?)
      && (outcome.ConditionFailed? <==> !lands && fate.Answered?)
      && (outcome == DefinitiveFailure <==> fate == Refused)
  {
  }

  // The released item a failed `item_absent` put returned.
  function ReleasedHolder(outcome: WriteOutcome): Option<Item> {
    match outcome
    case ConditionFailed(Shown(item)) => if IsAvailable(Some(item)) then Some(item) else None
    case _ => None
  }

  // The coordination table as the sessions share it.
  class CoordinationTable {
    var item: Option<Item>

    constructor ()
      ensures item == None
    {
      item := None;
    }

    method Perform(write: Write, fate: Fate) returns (outcome: WriteOutcome)
      modifies this
      ensures (item, outcome) == WriteEffect(old(item), write, fate)
    {
      var holds := Holds(ConditionOf(write), item);
      if fate.Refused? {
        return DefinitiveFailure;
      }
      if !holds {
        if fate.AnswerLost? {
          return Ambiguous;
        }
        return ConditionFailed(if item.Some? && fate.show then Shown(item.value) else Omitted);
      }
      if fate.Answered? {
        item := Some(Stored(write, item));
        return Applied;
      }
      if fate.landed {
        item := Some(Stored(write, item));
      }
      return Ambiguous;
    }
  }
}
