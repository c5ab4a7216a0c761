// What each answer of the store does to the session that waited for it, told by the item and the
// session alone: an operation that landed and was told so is reported as such, and no other.
module LeaseAnswers {
  import opened Wrappers
  import opened LeaseItems
  import opened LeaseStore
  import opened LeaseHealths
  import opened LeaseSteps
  import opened LeaseProtocol

  // The clock of the stepping session.
  function ClockAt(c: Config, o: Owner, now: int): int
    requires o in c.sessions
  {
    if now < c.sessions[o].clock then c.sessions[o].clock else now
  }

  // ---------- heartbeats ----------

  // A beat issued at t, with the wall clock at `at`, on a lease that is neither lost nor stale.
  predicate IsLiveBeat(c: Config, o: Owner, t: int, at: int, now: int) {
    && o in c.sessions && c.sessions[o].phase.HeldPhase?
    && (|| c.sessions[o].work == BeatWrite(t, at)
        || c.sessions[o].work == BeatRead(t, at, true)
        || c.sessions[o].work == BeatRead(t, at, false))
    && ClockAt(c, o, now) - c.sessions[o].phase.state.lastConfirmedNs < 300_000_000_000
  }

  // Confirmed as of t: the session knows the item's version and may publish for 300 s from then.
  ghost predicate IsConfirmedAt(s: Session, item: Option<Item>, t: int, at: int, before: Session) {
    && item.Some? && s.work.NoWork? && s.loss.None? && before.phase.HeldPhase?
    && s.phase == HeldPhase(HealthState(CONFIRMED, item.value.version, t, at))
    && s.events == before.events +
         [if before.phase.state.health == UNCERTAIN then EvRecovered else EvHeartbeatConfirmed]
    && forall moment :: PublicationAllowed(s, moment) <==> moment - t < 300_000_000_000
  }

  // Unsure: the last confirmation stands, publication is closed, and the version is the one told.
  ghost predicate IsUnsureAt(s: Session, version: nat, before: Session) {
    && s.work.NoWork? && s.loss.None? && before.phase.HeldPhase?
    && s.phase == HeldPhase(before.phase.state.(health := UNCERTAIN, version := version))
    && s.events == before.events + [EvHeartbeatFailed]
    && forall moment :: !PublicationAllowed(s, moment)
  }

  // The write lands exactly when the item still has the version the session knows.
  lemma BeatWriteAnswered(c: Config, o: Owner, fate: Fate, t: int, at: int, now: int, wall: int)
    requires Invariant(c) && IsLiveBeat(c, o, t, at, now) && c.sessions[o].work.BeatWrite?
    ensures var d, s := Perform(c, WriteStep(o, fate, now, wall)), c.sessions[o];
      var matches := c.item.value.version == s.phase.state.version;
      && c.item.Some? && o in d.sessions
      && d.item == (if matches && (fate.Answered? || fate == AnswerLost(true))
                    then Some(c.item.value.(heartbeatAt := at, expiresAt := at + 300_000, updatedAt := at,
                                            version := c.item.value.version + 1))
                    else c.item)
      && match fate
         case Refused => IsUnsureAt(d.sessions[o], s.phase.state.version, s)
         case AnswerLost(_) => d.sessions[o].phase == s.phase && d.sessions[o].work == BeatRead(t, at, true)
         case Answered(show) =>
           if matches then IsConfirmedAt(d.sessions[o], d.item, t, at, s)
           else if show then IsUnsureAt(d.sessions[o], c.item.value.version, s)
           else d.sessions[o].phase == s.phase && d.sessions[o].work == BeatRead(t, at, false)
  {
  }

  // After a lost answer the read confirms exactly when it finds the write itself.
  lemma BeatReadAnswered(c: Config, o: Owner, answered: bool, t: int, at: int, now: int, wall: int)
    requires Invariant(c) && IsLiveBeat(c, o, t, at, now) && c.sessions[o].work.BeatRead?
    ensures var d, s := Perform(c, ReadStep(o, answered, now, wall)), c.sessions[o];
      && c.item.Some? && d.item == c.item && o in d.sessions
      && var landed := c.item.value.version == s.phase.state.version + 1 && c.item.value.heartbeatAt == at;
         if answered && s.work.ambiguous && landed then IsConfirmedAt(d.sessions[o], d.item, t, at, s)
         else IsUnsureAt(d.sessions[o], if answered then c.item.value.version else s.phase.state.version, s)
  {
  }

  // Past the boundary a beat establishes the loss, whatever its calls came to.
  lemma LateAnswerLoses(c: Config, o: Owner, step: Step)
    requires Invariant(c) && o in c.sessions && c.sessions[o].phase.HeldPhase? && step.owner == o
    requires || (step.WriteStep? && c.sessions[o].work.BeatWrite? && step.fate == Refused)
             || (step.WriteStep? && c.sessions[o].work.BeatWrite? && step.fate == Answered(true))
             || (step.ReadStep? && c.sessions[o].work.BeatRead?)
             || (step.CallStep? && step.call.CallHeartbeat? && c.sessions[o].work.NoWork? && c.sessions[o].loss.None?)
    requires ClockAt(c, o, step.now) - c.sessions[o].phase.state.lastConfirmedNs >= 300_000_000_000
    ensures var d, s := Perform(c, step), c.sessions[o];
      && o in d.sessions && d.sessions[o].work.NoWork? && d.sessions[o].loss == Some(LOST_STALE)
      && d.sessions[o].phase == HeldPhase(s.phase.state.(health := LOST_STALE))
      && d.sessions[o].events == s.events + [EvLostStale]
  {
  }

  // A call on a live lease issues the write now, and on a lost one nothing.
  lemma BeatCalled(c: Config, o: Owner, now: int, wall: int)
    requires Invariant(c) && o in c.sessions && c.sessions[o].phase.HeldPhase? && c.sessions[o].work.NoWork?
    requires || c.sessions[o].loss.Some?
             || ClockAt(c, o, now) - c.sessions[o].phase.state.lastConfirmedNs < 300_000_000_000
    ensures var d, s := Perform(c, CallStep(o, CallHeartbeat, now, wall)), c.sessions[o];
      && d.item == c.item && o in d.sessions
      && d.sessions[o] == s.(clock := ClockAt(c, o, now),
                             work := if s.loss.Some? then NoWork else BeatWrite(ClockAt(c, o, now), wall))
  {
  }

  // ---------- acquisition ----------

  // Held as of t, the item the session's own from its first version on.
  ghost predicate IsAcquiredAt(s: Session, item: Option<Item>, t: int, at: int, before: Session) {
    && item == Some(Item(s.owner, HELD, 1, at, at, at + 300_000, at))
    && s.phase == HeldPhase(HealthState(CONFIRMED, 1, t, at)) && s.work.NoWork?
    && s.events == before.events + [EvAcquired]
    && forall moment :: PublicationAllowed(s, moment) <==> moment - t < 300_000_000_000
  }

  ghost predicate IsNotAcquired(s: Session, phase: Phase, before: Session) {
    s.phase == phase && s.work.NoWork? && s.events == before.events + [EvAcquisitionFailed]
  }

  // A call on an idle session issues the put now.
  lemma AcquireCalled(c: Config, o: Owner, now: int, wall: int)
    requires Invariant(c) && o in c.sessions && c.sessions[o].phase.Idle? && c.sessions[o].work.NoWork?
    ensures var d := Perform(c, CallStep(o, CallAcquire, now, wall));
      && d.item == c.item && o in d.sessions
      && d.sessions[o] == c.sessions[o].(clock := ClockAt(c, o, now), work := AcquirePut(ClockAt(c, o, now), wall))
  {
  }

  // The first put takes an absent item, goes on from a released one it is shown, and refuses any other.
  lemma PutAnswered(c: Config, o: Owner, fate: Fate, t: int, at: int, now: int, wall: int)
    requires Invariant(c) && o in c.sessions && c.sessions[o].work == AcquirePut(t, at)
    ensures var d, s := Perform(c, WriteStep(o, fate, now, wall)), c.sessions[o];
      && o in d.sessions
      && match fate
         case Refused => d.item == c.item && IsNotAcquired(d.sessions[o], RefusedPhase, s)
         case AnswerLost(landed) =>
           && d.sessions[o].phase == s.phase && d.sessions[o].work == AcquireRead(t, at)
           && d.item == (if landed && c.item.None? then Some(AcquiredItem(o, at)) else c.item)
         case Answered(show) =>
           if c.item.None? then IsAcquiredAt(d.sessions[o], d.item, t, at, s)
           else
             && d.item == c.item
             && if show && c.item.value.status == RELEASED
                then d.sessions[o].phase == s.phase && d.sessions[o].work == AcquireReplace(t, at, c.item.value)
                else IsNotAcquired(d.sessions[o], RefusedPhase, s)
  {
  }

  // The second put takes exactly the released item the first one was shown.
  lemma ReplaceAnswered(c: Config, o: Owner, fate: Fate, t: int, at: int, now: int, wall: int)
    requires Invariant(c) && o in c.sessions && c.sessions[o].work.AcquireReplace?
    requires c.sessions[o].work.issuedNs == t && c.sessions[o].work.at == at
    ensures var d, s := Perform(c, WriteStep(o, fate, now, wall)), c.sessions[o];
      var same := && c.item.Some? && c.item.value.status == RELEASED
                  && c.item.value.version == s.work.released.version
                  && c.item.value.owner.id == s.work.released.owner.id;
      && o in d.sessions
      && match fate
         case Refused => d.item == c.item && IsNotAcquired(d.sessions[o], RefusedPhase, s)
         case AnswerLost(landed) =>
           && d.sessions[o].phase == s.phase && d.sessions[o].work == AcquireRead(t, at)
           && d.item == (if landed && same then Some(AcquiredItem(o, at)) else c.item)
         case Answered(_) =>
           if same then IsAcquiredAt(d.sessions[o], d.item, t, at, s)
           else d.item == c.item && IsNotAcquired(d.sessions[o], RefusedPhase, s)
  {
  }

  // After a lost answer the read acquires exactly when it finds the put itself.
  lemma AcquireReadAnswered(c: Config, o: Owner, answered: bool, t: int, at: int, now: int, wall: int)
    requires Invariant(c) && o in c.sessions && c.sessions[o].work == AcquireRead(t, at)
    ensures var d, s := Perform(c, ReadStep(o, answered, now, wall)), c.sessions[o];
      && o in d.sessions && d.item == c.item
      && if !answered then IsNotAcquired(d.sessions[o], Unresolved, s)
         else if Names(c.item, o) then IsAcquiredAt(d.sessions[o], d.item, t, at, s)
         else IsNotAcquired(d.sessions[o], RefusedPhase, s)
  {
  }

  // ---------- finalization ----------

  // The final event is pushed and waits for the journal.
  ghost predicate IsRecording(s: Session, event: LeaseEvent, before: Session) {
    s.phase == before.phase && s.work == FinalRecord(event) && s.events == before.events + [event]
  }

  lemma FinalizeCalled(c: Config, o: Owner, closure: Closure, now: int, wall: int)
    requires Invariant(c) && o in c.sessions && c.sessions[o].work.NoWork?
    ensures var d, s := Perform(c, CallStep(o, CallFinalize(closure), now, wall)), c.sessions[o];
      && d.item == c.item && o in d.sessions
      && match s.phase
         case HeldPhase(_) => d.sessions[o].phase == s.phase && d.sessions[o].work == FinalRead(closure)
         case Unresolved => d.sessions[o].phase == s.phase && d.sessions[o].work == FinalRead(closure)
         case RefusedPhase => IsRecording(d.sessions[o], EvReleased, s)
         case _ => d.sessions[o] == s.(clock := d.sessions[o].clock)
  {
  }

  // A held session goes on to write at the version it read; an unresolved one that finds nothing of its
  // own has nothing to release.
  lemma FinalReadAnswered(c: Config, o: Owner, answered: bool, closure: Closure, now: int, wall: int)
    requires Invariant(c) && o in c.sessions && c.sessions[o].work == FinalRead(closure)
    ensures var d, s := Perform(c, ReadStep(o, answered, now, wall)), c.sessions[o];
      && o in d.sessions && d.item == c.item
      && if answered && !Names(c.item, o) then s.phase.Unresolved? && IsRecording(d.sessions[o], EvReleased, s)
         else
           var known := if s.phase.HeldPhase? then s.phase.state.version else 1;
           var version := if answered then c.item.value.version else known;
           d.sessions[o].phase == s.phase && d.sessions[o].work == FinalWrite(closure, version, wall)
  {
  }

  // The final write lands exactly at the item's version, and is told as the event it stands for.
  lemma FinalWriteAnswered(c: Config, o: Owner, fate: Fate, now: int, wall: int)
    requires Invariant(c) && o in c.sessions && c.sessions[o].work.FinalWrite?
    ensures var d, s := Perform(c, WriteStep(o, fate, now, wall)), c.sessions[o];
      var clean, lands := s.work.closure == Clean, HeldBy(c.item, o) && c.item.value.version == s.work.version;
      && o in d.sessions
      && d.item == (if lands && (fate.Answered? || fate == AnswerLost(true))
                    then Some(c.item.value.(status := if clean then RELEASED else RECOVERY_REQUIRED,
                                            updatedAt := s.work.at, version := c.item.value.version + 1))
                    else c.item)
      && if fate.AnswerLost? then
           d.sessions[o].phase == s.phase && d.sessions[o].work == FinalResolve(s.work.closure)
         else if fate.Answered? && lands then
           IsRecording(d.sessions[o], if clean then EvReleased else EvRecoveryRequired, s)
         else IsRecording(d.sessions[o], if clean then EvReleaseFailed else EvStateUnverified, s)
  {
  }

  // After a lost answer the read tells success exactly when it shows the status that was written.
  lemma FinalResolveAnswered(c: Config, o: Owner, answered: bool, now: int, wall: int)
    requires Invariant(c) && o in c.sessions && c.sessions[o].work.FinalResolve?
    ensures var d, s := Perform(c, ReadStep(o, answered, now, wall)), c.sessions[o];
      var clean := s.work.closure == Clean;
      && o in d.sessions && d.item == c.item
      && if answered && Names(c.item, o) && c.item.value.status == (if clean then RELEASED else RECOVERY_REQUIRED)
         then IsRecording(d.sessions[o], if clean then EvReleased else EvRecoveryRequired, s)
         else IsRecording(d.sessions[o], EvStateUnverified, s)
  {
  }

  // The journal's answer turns the event that waited for it into the status.
  lemma JournalAnswered(c: Config, o: Owner, now: int, wall: int)
    requires Invariant(c) && o in c.sessions && c.sessions[o].work.FinalRecord?
    ensures var d, event := Perform(c, CallStep(o, JournalAnswer, now, wall)), c.sessions[o].work.event;
      && o in d.sessions && d.item == c.item && d.sessions[o].work.NoWork?
      && d.sessions[o].phase == Finalized(if event == EvReleased then StatusReleased
                                          else if event == EvRecoveryRequired then StatusRecoveryRequired
                                          else StatusUnverified)
  {
  }

  // ---------- a service that answers ----------

  function AnsweredBeat(c: Config, o: Owner, now: int, wall: int): Config {
    Perform(Perform(c, CallStep(o, CallHeartbeat, now, wall)), WriteStep(o, Answered(true), now, wall))
  }

  // A held session that is not lost, with nothing in flight, before its boundary.
  predicate IsLive(c: Config, o: Owner, now: int) {
    && o in c.sessions && c.sessions[o].phase.HeldPhase? && c.sessions[o].work.NoWork? && c.sessions[o].loss.None?
    && c.sessions[o].clock <= now && now - c.sessions[o].phase.state.lastConfirmedNs < 300_000_000_000
  }

  // One answered beat confirms, or tells the session the version it had missed.
  lemma AnsweredBeatTells(c: Config, o: Owner, now: int, wall: int)
    requires Invariant(c) && IsLive(c, o, now)
    ensures var d := AnsweredBeat(c, o, now, wall);
      && Invariant(d) && o in d.sessions && d.sessions[o].phase.HeldPhase? && d.sessions[o].work.NoWork?
      && d.sessions[o].loss.None? && d.sessions[o].clock == now && d.item.Some?
      && d.item.value.version == d.sessions[o].phase.state.version
      && (if c.item.Some? && c.item.value.version == c.sessions[o].phase.state.version
          then IsConfirmedAt(d.sessions[o], d.item, now, wall, c.sessions[o])
          else d.sessions[o].phase.state.lastConfirmedNs == c.sessions[o].phase.state.lastConfirmedNs)
  {
    hide Perform, Invariant;
    var call := CallStep(o, CallHeartbeat, now, wall);
    var called := Perform(c, call);
    PerformKeepsInvariant(c, call);
    BeatCalled(c, o, now, wall);
    PerformKeepsInvariant(called, WriteStep(o, Answered(true), now, wall));
    BeatWriteAnswered(called, o, Answered(true), now, wall, now, wall);
    ClockMoves(called, o, now, wall);
  }

  lemma ClockMoves(c: Config, o: Owner, now: int, wall: int)
    requires o in c.sessions && c.sessions[o].clock == now
    ensures var d := Perform(c, WriteStep(o, Answered(true), now, wall)); o in d.sessions && d.sessions[o].clock == now
  {
  }

  // Two answered beats before the boundary always confirm, whatever was lost before them.
  lemma TwoAnsweredBeatsConfirm(c: Config, o: Owner, now: int, wall: int, now': int, wall': int)
    requires Invariant(c) && IsLive(c, o, now) && now <= now' < now + 300_000_000_000
    requires now' - c.sessions[o].phase.state.lastConfirmedNs < 300_000_000_000
    ensures var d := AnsweredBeat(AnsweredBeat(c, o, now, wall), o, now', wall');
      && o in d.sessions && HeldBy(d.item, o)
      && d.sessions[o].phase == HeldPhase(HealthState(CONFIRMED, d.item.value.version, now', wall'))
      && (forall moment :: PublicationAllowed(d.sessions[o], moment) <==> moment - now' < 300_000_000_000)
  {
    hide AnsweredBeat;
    AnsweredBeatTells(c, o, now, wall);
    AnsweredBeatTells(AnsweredBeat(c, o, now, wall), o, now', wall');
  }

  function AnsweredFinalization(c: Config, o: Owner, closure: Closure, now: int, wall: int): Config {
    var called := Perform(c, CallStep(o, CallFinalize(closure), now, wall));
    var written := Perform(Perform(called, ReadStep(o, true, now, wall)), WriteStep(o, Answered(true), now, wall));
    Perform(written, CallStep(o, JournalAnswer, now, wall))
  }

  // An answered finalization of a held session ends `released` after a clean closure and
  // `recovery_required` after an unclean one, and the item shows it at the next version.
  lemma AnsweredFinalizationSettles(c: Config, o: Owner, closure: Closure, now: int, wall: int)
    requires Invariant(c) && o in c.sessions && c.sessions[o].phase.HeldPhase? && c.sessions[o].work.NoWork?
    ensures var d, clean := AnsweredFinalization(c, o, closure, now, wall), closure == Clean;
      && o in d.sessions && c.item.Some?
      && d.sessions[o].phase == Finalized(if clean then StatusReleased else StatusRecoveryRequired)
      && d.item == Some(c.item.value.(status := if clean then RELEASED else RECOVERY_REQUIRED, updatedAt := wall,
                                      version := c.item.value.version + 1))
  {
    hide Perform, Invariant;
    var read, write := ReadStep(o, true, now, wall), WriteStep(o, Answered(true), now, wall);
    var call := CallStep(o, CallFinalize(closure), now, wall);
    HeldIsNamed(c, o);
    PerformKeepsInvariant(c, call);
    FinalizeCalled(c, o, closure, now, wall);
    var called := Perform(c, call);
    PerformKeepsInvariant(called, read);
    FinalReadAnswered(called, o, true, closure, now, wall);
    var seen := Perform(called, read);
    PerformKeepsInvariant(seen, write);
    FinalWriteAnswered(seen, o, Answered(true), now, wall);
    JournalAnswered(Perform(seen, write), o, now, wall);
  }

  lemma HeldIsNamed(c: Config, o: Owner)
    requires Invariant(c) && o in c.sessions && c.sessions[o].phase.HeldPhase? && c.sessions[o].work.NoWork?
    ensures HeldBy(c.item, o)
  {
  }

  // ---------- an outside writer ----------

  // What no run of the sessions alone shows, but the judgements provide for: an item that does not
  // decode, is gone, or is not the session's own as it should be.
  predicate IsForeign(existing: Existing, owner: Owner) {
    existing.Undecodable? || (existing.Shown? && (existing.item.owner != owner || existing.item.status != HELD))
  }

  predicate ReadsForeign(read: ReadResult, owner: Owner) {
    || read.ReadUndecodable? || read == ReadOk(None)
    || (read.ReadOk? && (read.item.value.owner != owner || read.item.value.status != HELD))
  }

  // A beat that meets it loses the lease to a mismatch at once.
  lemma OutsiderEndsTheLease(s: Session, input: Input, now: int, wall: int)
    requires s.phase.HeldPhase? && !IsLost(s.phase.state.health)
    requires now - s.phase.state.lastConfirmedNs < 300_000_000_000
    requires || (&& s.work.BeatWrite? && input.WriteAnswer? && input.outcome.ConditionFailed?
                 && IsForeign(input.outcome.existing, s.owner))
             || (s.work.BeatRead? && input.ReadAnswer? && ReadsForeign(input.read, s.owner))
    ensures Advance(s, input, now, wall) ==
              s.(phase := HeldPhase(s.phase.state.(health := LOST_OWNERSHIP_MISMATCH)), work := NoWork,
                 events := s.events + [EvLostOwnershipMismatch], loss := Some(LOST_OWNERSHIP_MISMATCH))
  {
  }

  // An acquisition that cannot tell stays unresolved after a read, and is refused after a write.
  lemma OutsiderBlocksAcquisition(s: Session, now: int, wall: int)
    requires s.phase.Idle?
    ensures s.work.AcquireRead? ==> IsNotAcquired(Advance(s, ReadAnswer(ReadUndecodable), now, wall), Unresolved, s)
    ensures s.work.AcquirePut? ==>
      IsNotAcquired(Advance(s, WriteAnswer(ConditionFailed(Undecodable)), now, wall), RefusedPhase, s)
  {
  }

  // A finalization writes at the version it knows when the item does not decode; it takes its own final
  // status for settled, and another's item for no proof of its own.
  lemma OutsiderAtFinalization(s: Session, read: ReadResult, now: int, wall: int)
    requires s.work.FinalRead? && s.phase.HeldPhase? && !read.ReadFailed?
    ensures var s', closure := Advance(s, ReadAnswer(read), now, wall), s.work.closure;
      match read
      case ReadUndecodable => s' == s.(work := FinalWrite(closure, s.phase.state.version, wall))
      case ReadOk(None) => IsRecording(s', EvStateUnverified, s)
      case ReadOk(Some(item)) =>
        if item.owner != s.owner then IsRecording(s', EvStateUnverified, s)
        else if item.status == RELEASED then IsRecording(s', EvReleased, s)
        else if item.status == RECOVERY_REQUIRED && closure == Unclean then IsRecording(s', EvRecoveryRequired, s)
        else s' == s.(work := FinalWrite(closure, item.version, wall))
  {
  }
}
