// Any number of lease sessions, each with its own owner, over one shared item. A step lets one
// session call an operation, lets the store answer the call it waits for (with any fate), or lets the
// journal answer. Every sequence of steps is a run, so the steps are the adversary: they choose the
// interleaving, every write and read outcome and every clock reading (monotonic ones never go back).
module LeaseProtocol {
  import opened Wrappers
  import opened LeaseItems
  import opened LeaseStore
  import opened LeaseHealths
  import opened LeaseSteps

  datatype Config = Config(item: Option<Item>, sessions: map<Owner, Session>)

  datatype Step =
    | CallStep(owner: Owner, call: Input, now: int, wall: int)
    | WriteStep(owner: Owner, fate: Fate, now: int, wall: int)
    | ReadStep(owner: Owner, answered: bool, now: int, wall: int)

  predicate IsCall(input: Input) {
    input.CallAcquire? || input.CallHeartbeat? || input.CallFinalize? || input.JournalAnswer?
  }

  function Later(clock: int, now: int): int {
    if now < clock then clock else now
  }

  // What a session and the item look like after the store dealt with the session's write.
  function AfterWrite(s: Session, item: Option<Item>, fate: Fate, now: int, wall: int): (Option<Item>, Session)
    requires PendingWrite(s).Some?
  {
    var (item', outcome) := WriteEffect(item, PendingWrite(s).value, fate);
    (item', Advance(s, WriteAnswer(outcome), now, wall))
  }

  function ReadOf(item: Option<Item>, answered: bool): ReadResult {
    if answered then ReadOk(item) else ReadFailed
  }

  function Perform(c: Config, step: Step): Config {
    if step.owner !in c.sessions then c
    else
      var now := Later(c.sessions[step.owner].clock, step.now);
      var s := c.sessions[step.owner].(clock := now);
      match step
      case CallStep(owner, call, _, wall) =>
        if IsCall(call) then c.(sessions := c.sessions[owner := Advance(s, call, now, wall)]) else c
      case WriteStep(owner, fate, _, wall) =>
        if PendingWrite(s).None? then c
        else
          var (item, s') := AfterWrite(s, c.item, fate, now, wall);
          Config(item, c.sessions[owner := s'])
      case ReadStep(owner, answered, _, wall) =>
        if !PendingRead(s) then c
        else
          c.(sessions := c.sessions[owner := Advance(s, ReadAnswer(ReadOf(c.item, answered)), now, wall)])
  }

  function Execute(c: Config, steps: seq<Step>): Config
    decreases |steps|
  {
    if steps == [] then c else Perform(Execute(c, steps[..|steps| - 1]), steps[|steps| - 1])
  }

  function Start(owners: set<Owner>): Config {
    Config(None, map o | o in owners :: NewSession(o, 0))
  }

  // ---------- what every reachable configuration keeps ----------

  predicate Names(item: Option<Item>, owner: Owner) {
    item.Some? && item.value.owner == owner
  }

  predicate HeldBy(item: Option<Item>, owner: Owner) {
    Names(item, owner) && item.value.status == HELD
  }

  predicate RecoveryBy(item: Option<Item>, owner: Owner) {
    Names(item, owner) && item.value.status == RECOVERY_REQUIRED
  }

  // The item names the owner, held, at the version it knows or exactly one more.
  predicate HeldNear(item: Option<Item>, owner: Owner, version: nat) {
    HeldBy(item, owner) && version <= item.value.version <= version + 1
  }

  predicate NothingLeft(item: Option<Item>, owner: Owner) {
    !HeldBy(item, owner) && !RecoveryBy(item, owner)
  }

  predicate EventFits(event: LeaseEvent, item: Option<Item>, owner: Owner) {
    && (event == EvReleased ==> NothingLeft(item, owner))
    && (event == EvRecoveryRequired ==> RecoveryBy(item, owner))
  }

  predicate StatusFits(status: LeaseStatus, item: Option<Item>, owner: Owner) {
    && (status == StatusReleased ==> NothingLeft(item, owner))
    && (status == StatusRecoveryRequired ==> RecoveryBy(item, owner))
  }

  predicate TargetLanded(closure: Closure, item: Option<Item>, owner: Owner) {
    if closure == Clean then NothingLeft(item, owner) else RecoveryBy(item, owner)
  }

  predicate RecordFits(s: Session, item: Option<Item>) {
    && s.work.FinalRecord?
    && s.events != []
    && s.events[|s.events| - 1] == s.work.event
    && StatusOfEvent(s.work.event).Some?
    && EventFits(s.work.event, item, s.owner)
  }

  predicate IdleFits(s: Session, item: Option<Item>) {
    match s.work
    case NoWork => !Names(item, s.owner)
    case AcquirePut(_, _) => !Names(item, s.owner)
    case AcquireReplace(_, _, _) => !Names(item, s.owner)
    case AcquireRead(_, at) => !Names(item, s.owner) || item == Some(AcquiredItem(s.owner, at))
    case _ => false
  }

  predicate UnresolvedFits(s: Session, item: Option<Item>) {
    var maybe := !Names(item, s.owner) || (HeldBy(item, s.owner) && item.value.version == 1);
    match s.work
    case NoWork => maybe
    case FinalRead(_) => maybe
    case FinalWrite(_, version, _) => maybe && version == 1
    case FinalResolve(closure) => maybe || TargetLanded(closure, item, s.owner)
    case FinalRecord(_) => RecordFits(s, item)
    case _ => false
  }

  predicate HeldFits(s: Session, version: nat, item: Option<Item>) {
    match s.work
    case NoWork => HeldNear(item, s.owner, version)
    case BeatWrite(_, _) => HeldNear(item, s.owner, version)
    case BeatRead(_, _, _) => HeldNear(item, s.owner, version)
    case FinalRead(_) => HeldNear(item, s.owner, version)
    case FinalWrite(_, _, _) => HeldNear(item, s.owner, version)
    case FinalResolve(closure) => HeldNear(item, s.owner, version) || TargetLanded(closure, item, s.owner)
    case FinalRecord(_) => RecordFits(s, item)
    case _ => false
  }

  // A loss is kept exactly while the health shows it, and it is never a mismatch.
  predicate LossFits(s: Session) {
    && (s.loss == None || s.loss == Some(LOST_STALE))
    && EvLostOwnershipMismatch !in s.events
    && (s.loss.Some? ==> s.phase.HeldPhase? || s.phase.Finalized?)
    && (s.phase.HeldPhase? ==> (s.loss.Some? <==> IsLost(s.phase.state.health)))
    && (s.work.BeatWrite? || s.work.BeatRead? ==> s.loss.None?)
  }

  predicate Fits(s: Session, item: Option<Item>) {
    && LossFits(s)
    && match s.phase
       case Idle => IdleFits(s, item)
       case RefusedPhase =>
         !Names(item, s.owner) && (s.work.NoWork? || (RecordFits(s, item) && s.work.event == EvReleased))
       case Unresolved => UnresolvedFits(s, item)
       case HeldPhase(state) => state.health != LOST_OWNERSHIP_MISMATCH && HeldFits(s, state.version, item)
       case Finalized(status) => s.work.NoWork? && StatusFits(status, item, s.owner)
  }

  ghost predicate Invariant(c: Config) {
    forall o :: o in c.sessions ==> c.sessions[o].owner == o && Fits(c.sessions[o], c.item)
  }

  // ---------- one step keeps the invariant ----------

  // A write changes the item only from absent, from released or from naming the writer.
  lemma WriteTouchesOnlyOwn(s: Session, item: Option<Item>, fate: Fate)
    requires PendingWrite(s).Some?
    ensures var item' := WriteEffect(item, PendingWrite(s).value, fate).0;
            || item' == item
            || (Names(item', s.owner) && (item.None? || item.value.status == RELEASED || Names(item, s.owner)))
  {
  }

  // Whatever another session writes, a session's own relation to the item survives.
  lemma OtherSessionsUndisturbed(s: Session, t: Session, item: Option<Item>, fate: Fate)
    requires PendingWrite(s).Some? && s.owner != t.owner && Fits(t, item)
    ensures Fits(t, WriteEffect(item, PendingWrite(s).value, fate).0)
  {
    WriteTouchesOnlyOwn(s, item, fate);
  }

  predicate FitsPair(pair: (Option<Item>, Session), owner: Owner) {
    pair.1.owner == owner && Fits(pair.1, pair.0)
  }

  lemma CallKeepsFit(s: Session, item: Option<Item>, call: Input, now: int, wall: int)
    requires Fits(s, item) && IsCall(call)
    ensures Advance(s, call, now, wall).owner == s.owner
    ensures Fits(Advance(s, call, now, wall), item)
  {
  }

  lemma OwnReadKeepsFit(s: Session, item: Option<Item>, answered: bool, now: int, wall: int)
    requires Fits(s, item) && (s.work.AcquireRead? || s.work.BeatRead?)
    ensures FitsPair((item, Advance(s, ReadAnswer(ReadOf(item, answered)), now, wall)), s.owner)
  {
  }

  lemma FinalReadKeepsFit(s: Session, item: Option<Item>, answered: bool, now: int, wall: int)
    requires Fits(s, item) && (s.work.FinalRead? || s.work.FinalResolve?)
    ensures FitsPair((item, Advance(s, ReadAnswer(ReadOf(item, answered)), now, wall)), s.owner)
  {
    hide AfterFirstPut, AfterPut, AfterAcquireRead, AfterBeatWrite, AfterBeatRead, StartBeat, StartFinalize,
         AfterFinalWrite, IsLost;
  }

  lemma PutKeepsFit(s: Session, item: Option<Item>, fate: Fate, now: int, wall: int)
    requires Fits(s, item) && PendingWrite(s).Some? && (s.work.AcquirePut? || s.work.AcquireReplace?)
    ensures FitsPair(AfterWrite(s, item, fate, now, wall), s.owner)
  {
  }

  lemma BeatKeepsFit(s: Session, item: Option<Item>, fate: Fate, now: int, wall: int)
    requires Fits(s, item) && PendingWrite(s).Some? && s.work.BeatWrite?
    ensures FitsPair(AfterWrite(s, item, fate, now, wall), s.owner)
  {
  }

  lemma FinalKeepsFit(s: Session, item: Option<Item>, fate: Fate, now: int, wall: int)
    requires Fits(s, item) && PendingWrite(s).Some? && s.work.FinalWrite?
    ensures FitsPair(AfterWrite(s, item, fate, now, wall), s.owner)
  {
    hide AfterFirstPut, AfterPut, AfterAcquireRead, AfterBeatWrite, AfterBeatRead, StartBeat, StartFinalize,
         AfterFinalRead, AfterFinalResolve, IsLost;
  }

  // The stepping session's own part of the invariant, whatever it waits for.
  lemma StepKeepsOwnFit(c: Config, step: Step)
    requires Invariant(c) && step.owner in c.sessions
    ensures FitsPair((Perform(c, step).item, Perform(c, step).sessions[step.owner]), step.owner)
  {
    var now := Later(c.sessions[step.owner].clock, step.now);
    var s := c.sessions[step.owner].(clock := now);
    assert Fits(s, c.item);
    match step {
      case CallStep(_, call, _, wall) =>
        if IsCall(call) {
          CallKeepsFit(s, c.item, call, now, wall);
        }
      case ReadStep(_, answered, _, wall) =>
        if s.work.AcquireRead? || s.work.BeatRead? {
          OwnReadKeepsFit(s, c.item, answered, now, wall);
        } else if PendingRead(s) {
          FinalReadKeepsFit(s, c.item, answered, now, wall);
        }
      case WriteStep(_, fate, _, wall) =>
        if PendingWrite(s).Some? {
          if s.work.BeatWrite? {
            BeatKeepsFit(s, c.item, fate, now, wall);
          } else if s.work.FinalWrite? {
            FinalKeepsFit(s, c.item, fate, now, wall);
          } else {
            PutKeepsFit(s, c.item, fate, now, wall);
          }
        }
    }
  }

  lemma StepKeepsOtherFit(c: Config, step: Step, o: Owner)
    requires Invariant(c) && o in c.sessions && o != step.owner
    ensures o in Perform(c, step).sessions && Perform(c, step).sessions[o] == c.sessions[o]
    ensures Fits(c.sessions[o], Perform(c, step).item)
  {
    if step.owner in c.sessions && step.WriteStep? {
      var s := c.sessions[step.owner].(clock := Later(c.sessions[step.owner].clock, step.now));
      if PendingWrite(s).Some? {
        OtherSessionsUndisturbed(s, c.sessions[o], c.item, step.fate);
      }
    }
  }

  lemma PerformKeepsInvariant(c: Config, step: Step)
    requires Invariant(c)
    ensures Invariant(Perform(c, step))
    ensures Perform(c, step).sessions.Keys == c.sessions.Keys
  {
    var d := Perform(c, step);
    assert d.sessions.Keys == c.sessions.Keys;
    forall o | o in d.sessions
      ensures d.sessions[o].owner == o && Fits(d.sessions[o], d.item)
    {
      if o == step.owner {
        StepKeepsOwnFit(c, step);
      } else {
        StepKeepsOtherFit(c, step, o);
      }
    }
  }

  // How a step moves the session it is about: not at all, or by one input.
  lemma MovedByInput(c: Config, step: Step, o: Owner) returns (moved: bool, input: Input, now: int, wall: int)
    requires o in c.sessions
    ensures o in Perform(c, step).sessions
    ensures !moved ==> Perform(c, step).sessions[o] == c.sessions[o]
    ensures moved ==> Perform(c, step).sessions[o] == Advance(c.sessions[o].(clock := now), input, now, wall)
    ensures moved ==> step.owner == o && (step.CallStep? <==> IsCall(input)) && (step.CallStep? ==> step.call == input)
  {
    moved, input, now, wall := false, JournalAnswer, Later(c.sessions[o].clock, step.now), step.wall;
    if o == step.owner {
      var s := c.sessions[o].(clock := now);
      match step {
        case CallStep(_, call, _, _) =>
          moved, input := IsCall(call), call;
        case WriteStep(_, fate, _, _) =>
          moved := PendingWrite(s).Some?;
          if moved {
            input := WriteAnswer(WriteEffect(c.item, PendingWrite(s).value, fate).1);
          }
        case ReadStep(_, answered, _, _) =>
          moved, input := PendingRead(s), ReadAnswer(ReadOf(c.item, answered));
      }
    }
  }
}
