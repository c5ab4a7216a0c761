// What holds of every run of the lease protocol.
module LeaseTheorems {
  import opened Wrappers
  import opened LeaseItems
  import opened LeaseStore
  import opened LeaseHealths
  import opened LeaseSteps
  import opened LeaseProtocol

  // ---------- safety over whole runs ----------

  lemma {:induction false} ExecuteKeepsInvariant(c: Config, steps: seq<Step>)
    requires Invariant(c)
    ensures Invariant(Execute(c, steps))
    ensures Execute(c, steps).sessions.Keys == c.sessions.Keys
    decreases |steps|
  {
    if steps != [] {
      ExecuteKeepsInvariant(c, steps[..|steps| - 1]);
      PerformKeepsInvariant(Execute(c, steps[..|steps| - 1]), steps[|steps| - 1]);
    }
  }

  // The final write has been sent and answered, or its answer lost; the phase still shows `held`.
  predicate IsPastFinalWrite(s: Session) {
    s.work.FinalResolve? || s.work.FinalRecord?
  }

  // Every session that shows `held` is the one the item names, held, at the version it knows or
  // exactly one more, until its final write is behind it.
  lemma HolderIsNamed(owners: set<Owner>, steps: seq<Step>, o: Owner)
    requires o in owners
    ensures var c := Execute(Start(owners), steps);
            && o in c.sessions
            && (c.sessions[o].phase.HeldPhase? && !IsPastFinalWrite(c.sessions[o])
                ==> HeldNear(c.item, o, c.sessions[o].phase.state.version))
  {
    ExecuteKeepsInvariant(Start(owners), steps);
  }

  lemma MutualExclusion(owners: set<Owner>, steps: seq<Step>, o: Owner, p: Owner)
    requires o in owners && p in owners && o != p
    ensures var c := Execute(Start(owners), steps);
            && {o, p} <= c.sessions.Keys
            && !(&& c.sessions[o].phase.HeldPhase? && !IsPastFinalWrite(c.sessions[o])
                 && c.sessions[p].phase.HeldPhase? && !IsPastFinalWrite(c.sessions[p]))
  {
    HolderIsNamed(owners, steps, o);
    HolderIsNamed(owners, steps, p);
  }

  lemma MismatchUnreachable(owners: set<Owner>, steps: seq<Step>, o: Owner)
    requires o in owners
    ensures var c := Execute(Start(owners), steps);
            && o in c.sessions
            && c.sessions[o].loss != Some(LOST_OWNERSHIP_MISMATCH)
            && EvLostOwnershipMismatch !in c.sessions[o].events
            && (c.sessions[o].phase.HeldPhase? ==> c.sessions[o].phase.state.health != LOST_OWNERSHIP_MISMATCH)
  {
    ExecuteKeepsInvariant(Start(owners), steps);
  }

  lemma {:induction false} FinalizedStays(c: Config, steps: seq<Step>, o: Owner)
    requires Invariant(c) && o in c.sessions && c.sessions[o].phase.Finalized?
    ensures o in Execute(c, steps).sessions && Execute(c, steps).sessions[o].phase == c.sessions[o].phase
    decreases |steps|
  {
    if steps != [] {
      var d := Execute(c, steps[..|steps| - 1]);
      FinalizedStays(c, steps[..|steps| - 1], o);
      ExecuteKeepsInvariant(c, steps[..|steps| - 1]);
      var moved, input, now, wall := MovedByInput(d, steps[|steps| - 1], o);
    }
  }

  // A reported final status is true when it is reported and at every later moment of the run.
  lemma FinalStatusIsSound(owners: set<Owner>, before: seq<Step>, after: seq<Step>, o: Owner)
    requires o in Execute(Start(owners), before).sessions
    requires Execute(Start(owners), before).sessions[o].phase.Finalized?
    ensures var item := Execute(Execute(Start(owners), before), after).item;
            var status := Execute(Start(owners), before).sessions[o].phase.status;
            && (status == StatusReleased ==> !HeldBy(item, o) && !RecoveryBy(item, o))
            && (status == StatusRecoveryRequired ==> RecoveryBy(item, o))
  {
    hide Execute, Start;
    var c := Execute(Start(owners), before);
    StartFits(owners);
    ExecuteKeepsInvariant(Start(owners), before);
    ExecuteKeepsInvariant(c, after);
    FinalizedStays(c, after, o);
  }

  // ---------- how the item may change ----------

  predicate RaisedByOne(item: Option<Item>, item': Option<Item>) {
    && item.Some? && item'.Some?
    && item.value.status != RELEASED
    && item'.value.owner == item.value.owner
    && item'.value.acquiredAt == item.value.acquiredAt
    && item'.value.version == item.value.version + 1
  }

  predicate FreshlyAcquired(item: Option<Item>, item': Option<Item>) {
    IsAvailable(item) && item'.Some? && item'.value == AcquiredItem(item'.value.owner, item'.value.acquiredAt)
  }

  // The version is a fencing counter: a step leaves the item alone, raises its version by one under
  // the same owner and tenure, or starts a new tenure at version 1 on an available item.
  lemma VersionFences(c: Config, step: Step)
    requires Invariant(c)
    ensures var item' := Perform(c, step).item;
            item' == c.item || RaisedByOne(c.item, item') || FreshlyAcquired(c.item, item')
  {
  }

  // The step by which an owner that still holds the item, or left it in recovery, lets it go.
  predicate OwnRelease(c: Config, step: Step, o: Owner) {
    && step.WriteStep? && step.owner == o && o in c.sessions
    && c.sessions[o].work.FinalWrite? && c.sessions[o].work.closure == Clean
    && !NothingLeft(c.item, o)
    && Names(Perform(c, step).item, o) && Perform(c, step).item.value.status == RELEASED
  }

  lemma OnlyOwnerReleases(c: Config, step: Step, o: Owner)
    requires Invariant(c) && !NothingLeft(c.item, o) && NothingLeft(Perform(c, step).item, o)
    ensures OwnRelease(c, step, o)
  {
  }

  // A tenure ends only by the owner's own clean finalization, whatever happens in between: no
  // expiry, no other session and no lost answer can end it.
  lemma {:induction false} TenureEndsByOwnRelease(c: Config, steps: seq<Step>, o: Owner)
    requires Invariant(c) && !NothingLeft(c.item, o) && NothingLeft(Execute(c, steps).item, o)
    ensures exists k | 0 <= k < |steps| :: OwnRelease(Execute(c, steps[..k]), steps[k], o)
    decreases |steps|
  {
    var n := |steps| - 1;
    var prefix := steps[..n];
    ExecuteKeepsInvariant(c, prefix);
    if NothingLeft(Execute(c, prefix).item, o) {
      TenureEndsByOwnRelease(c, prefix, o);
      var k :| 0 <= k < |prefix| && OwnRelease(Execute(c, prefix[..k]), prefix[k], o);
      assert steps[..k] == prefix[..k];
    } else {
      OnlyOwnerReleases(Execute(c, prefix), steps[n], o);
    }
  }

  // ---------- publication ----------

  predicate IssuedAt(work: Work, t: int) {
    (work.AcquirePut? || work.AcquireReplace? || work.AcquireRead? || work.BeatWrite? || work.BeatRead?)
    && work.issuedNs == t
  }

  // The step answers the write o issued at t, or the read that resolves it, and confirms it: o is held
  // and CONFIRMED as of t with nothing in flight, and the item is o's, held, at exactly the version o
  // knows, as that write left it.
  predicate Confirms(c: Config, step: Step, o: Owner, t: int) {
    && step.owner == o && (step.WriteStep? || step.ReadStep?)
    && o in c.sessions && IssuedAt(c.sessions[o].work, t)
    && var d := Perform(c, step);
       && o in d.sessions && d.sessions[o].phase.HeldPhase? && d.sessions[o].work.NoWork?
       && d.sessions[o].phase.state.health == CONFIRMED && d.sessions[o].phase.state.lastConfirmedNs == t
       && HeldBy(d.item, o) && d.item.value.version == d.sessions[o].phase.state.version
       && d.item.value.heartbeatAt == c.sessions[o].work.at
  }

  predicate Answers(step: Step, work: Work) {
    || (step.WriteStep? && (work.AcquirePut? || work.AcquireReplace? || work.BeatWrite?))
    || (step.ReadStep? && (work.AcquireRead? || work.BeatRead?))
  }

  predicate ConfirmedBy(c: Config, steps: seq<Step>, o: Owner, t: int, k: nat) {
    k < |steps| && Confirms(Execute(c, steps[..k]), steps[k], o, t)
  }

  lemma PutConfirms(c: Config, step: Step, o: Owner)
    requires Invariant(c) && o in c.sessions && step.owner == o && step.WriteStep?
    requires c.sessions[o].work.AcquirePut? || c.sessions[o].work.AcquireReplace?
    requires Perform(c, step).sessions[o].phase.HeldPhase?
    ensures Confirms(c, step, o, Perform(c, step).sessions[o].phase.state.lastConfirmedNs)
  {
  }

  lemma BeatConfirms(c: Config, step: Step, o: Owner)
    requires Invariant(c) && o in c.sessions && step.owner == o && step.WriteStep? && c.sessions[o].work.BeatWrite?
    requires Perform(c, step).sessions[o].phase.HeldPhase?
    ensures var t := Perform(c, step).sessions[o].phase.state.lastConfirmedNs;
            Confirms(c, step, o, t) || c.sessions[o].phase.state.lastConfirmedNs == t
  {
  }

  lemma ReadConfirms(c: Config, step: Step, o: Owner)
    requires Invariant(c) && o in c.sessions && step.owner == o && step.ReadStep?
    requires c.sessions[o].work.AcquireRead? || c.sessions[o].work.BeatRead?
    requires Perform(c, step).sessions[o].phase.HeldPhase?
    ensures var t := Perform(c, step).sessions[o].phase.state.lastConfirmedNs;
            || Confirms(c, step, o, t)
            || (c.sessions[o].phase.HeldPhase? && c.sessions[o].phase.state.lastConfirmedNs == t)
  {
  }

  // A step keeps the instant of the last confirmation, or confirms a write issued then.
  lemma ConfirmationStep(c: Config, step: Step, o: Owner)
    requires Invariant(c) && o in c.sessions && o in Perform(c, step).sessions
    requires Perform(c, step).sessions[o].phase.HeldPhase?
    ensures var t := Perform(c, step).sessions[o].phase.state.lastConfirmedNs;
            || (c.sessions[o].phase.HeldPhase? && c.sessions[o].phase.state.lastConfirmedNs == t)
            || Confirms(c, step, o, t)
  {
    hide Confirms;
    if step.owner != o || !Answers(step, c.sessions[o].work) {
      OtherStepConfirmsNothing(c, step, o);
    } else if step.ReadStep? {
      ReadConfirms(c, step, o);
    } else if c.sessions[o].work.BeatWrite? {
      BeatConfirms(c, step, o);
    } else {
      PutConfirms(c, step, o);
    }
  }

  lemma OtherStepConfirmsNothing(c: Config, step: Step, o: Owner)
    requires Invariant(c) && o in c.sessions && o in Perform(c, step).sessions
    requires Perform(c, step).sessions[o].phase.HeldPhase?
    requires step.owner != o || !Answers(step, c.sessions[o].work)
    ensures c.sessions[o].phase.HeldPhase?
    ensures c.sessions[o].phase.state.lastConfirmedNs == Perform(c, step).sessions[o].phase.state.lastConfirmedNs
  {
  }

  lemma StartFits(owners: set<Owner>)
    ensures Invariant(Start(owners))
  {
  }

  // The last confirmation a held session knows of happened: some step of the run confirmed it.
  lemma {:induction false} LastConfirmationHappened(owners: set<Owner>, steps: seq<Step>, o: Owner)
    requires o in Execute(Start(owners), steps).sessions
    requires Execute(Start(owners), steps).sessions[o].phase.HeldPhase?
    ensures exists k: nat ::
      ConfirmedBy(Start(owners), steps, o, Execute(Start(owners), steps).sessions[o].phase.state.lastConfirmedNs, k)
    decreases |steps|
  {
    hide Confirms, Perform, Invariant;
    var c := Start(owners);
    StartFits(owners);
    if steps != [] {
      var n := |steps| - 1;
      var prefix := steps[..n];
      var t := Execute(c, steps).sessions[o].phase.state.lastConfirmedNs;
      ExecuteKeepsInvariant(c, prefix);
      PerformKeepsInvariant(Execute(c, prefix), steps[n]);
      ConfirmationStep(Execute(c, prefix), steps[n], o);
      if Confirms(Execute(c, prefix), steps[n], o, t) {
        assert ConfirmedBy(c, steps, o, t, n);
      } else {
        LastConfirmationHappened(owners, prefix, o);
        var k: nat :| ConfirmedBy(c, prefix, o, t, k);
        assert prefix[..k] == steps[..k];
        assert ConfirmedBy(c, steps, o, t, k);
      }
    }
  }

  // Publication is allowed only within 300 s of the issue of a write that a step of the run confirmed.
  lemma PublicationNeedsFreshConfirmation(owners: set<Owner>, steps: seq<Step>, o: Owner, now: int)
    requires o in Execute(Start(owners), steps).sessions
    requires PublicationAllowed(Execute(Start(owners), steps).sessions[o], now)
    ensures exists t: int, k: nat :: now - t < 300_000_000_000 && ConfirmedBy(Start(owners), steps, o, t, k)
  {
    LastConfirmationHappened(owners, steps, o);
  }

  lemma InputKeepsLoss(s: Session, input: Input, now: int, wall: int)
    requires LossFits(s) && s.loss.Some?
    ensures Advance(s, input, now, wall).loss == s.loss
  {
  }

  lemma {:induction false} LossIsKept(c: Config, steps: seq<Step>, o: Owner)
    requires Invariant(c) && o in c.sessions && c.sessions[o].loss.Some?
    ensures o in Execute(c, steps).sessions && Execute(c, steps).sessions[o].loss == c.sessions[o].loss
    decreases |steps|
  {
    if steps != [] {
      var d := Execute(c, steps[..|steps| - 1]);
      LossIsKept(c, steps[..|steps| - 1], o);
      ExecuteKeepsInvariant(c, steps[..|steps| - 1]);
      var moved, input, now, wall := MovedByInput(d, steps[|steps| - 1], o);
      if moved {
        InputKeepsLoss(d.sessions[o].(clock := now), input, now, wall);
      }
    }
  }

  // Once a loss is established publication never opens again, at any clock reading.
  lemma LossEndsPublication(owners: set<Owner>, before: seq<Step>, after: seq<Step>, o: Owner, now: int)
    requires o in Execute(Start(owners), before).sessions
    requires Execute(Start(owners), before).sessions[o].loss.Some?
    ensures var c := Execute(Execute(Start(owners), before), after);
            o in c.sessions && !PublicationAllowed(c.sessions[o], now)
  {
    hide Execute, Start;
    StartFits(owners);
    ExecuteKeepsInvariant(Start(owners), before);
    ExecuteKeepsInvariant(Execute(Start(owners), before), after);
    LossIsKept(Execute(Start(owners), before), after, o);
  }

  // ---------- the finalization window ----------

  // Two sessions show `held` only if the final write of one of them is behind it and the item is no
  // longer its own: the phase stays `held` until the journal has taken the final event.
  lemma OverlapNeedsRelease(owners: set<Owner>, steps: seq<Step>, o: Owner, p: Owner)
    requires o in owners && p in owners && o != p
    requires o in Execute(Start(owners), steps).sessions && p in Execute(Start(owners), steps).sessions
    requires Execute(Start(owners), steps).sessions[o].phase.HeldPhase?
    requires Execute(Start(owners), steps).sessions[p].phase.HeldPhase?
    ensures var c := Execute(Start(owners), steps);
            || (IsPastFinalWrite(c.sessions[o]) && NothingLeft(c.item, o))
            || (IsPastFinalWrite(c.sessions[p]) && NothingLeft(c.item, p))
  {
    MutualExclusion(owners, steps, o, p);
    HolderIsNamed(owners, steps, o);
    HolderIsNamed(owners, steps, p);
  }

  function OverlapSteps(o: Owner, p: Owner, now: int, now': int): seq<Step> {
    [CallStep(o, CallFinalize(Clean), now, 0),
     ReadStep(o, true, now, 0),
     WriteStep(o, Answered(true), now, 0),
     CallStep(p, CallAcquire, now', 0),
     WriteStep(p, Answered(true), now', 0),
     WriteStep(p, Answered(true), now', 0)]
  }

  lemma ExecuteSix(c: Config, steps: seq<Step>)
    requires |steps| == 6
    ensures var half := Perform(Perform(Perform(c, steps[0]), steps[1]), steps[2]);
            Execute(c, steps) == Perform(Perform(Perform(half, steps[3]), steps[4]), steps[5])
  {
    assert steps[..5][..4] == steps[..4] && steps[..4][..3] == steps[..3];
    assert steps[..3][..2] == steps[..2] && steps[..2][..1] == steps[..1] && steps[..1][..0] == [];
    assert Execute(c, steps[..1]) == Perform(c, steps[0]);
    assert Execute(c, steps[..2]) == Perform(Execute(c, steps[..1]), steps[1]);
    assert Execute(c, steps[..3]) == Perform(Execute(c, steps[..2]), steps[2]);
    assert Execute(c, steps[..4]) == Perform(Execute(c, steps[..3]), steps[3]);
    assert Execute(c, steps[..5]) == Perform(Execute(c, steps[..4]), steps[4]);
  }

  lemma FinalizeReads(c: Config, o: Owner, p: Owner, now: int)
    requires Invariant(c) && o in c.sessions && p in c.sessions && o != p
    requires c.sessions[o].work.NoWork? && c.sessions[o].phase.HeldPhase? && c.sessions[o].clock <= now
    ensures var d := Perform(Perform(c, CallStep(o, CallFinalize(Clean), now, 0)), ReadStep(o, true, now, 0));
            && o in d.sessions && p in d.sessions && d.sessions[p] == c.sessions[p]
            && d.item == c.item && HeldBy(c.item, o)
            && d.sessions[o] == c.sessions[o].(clock := now, work := FinalWrite(Clean, c.item.value.version, 0))
  {
    hide AfterFirstPut, AfterPut, AfterAcquireRead, AfterBeatWrite, AfterBeatRead, StartBeat, AfterFinalResolve;
    var c1 := Perform(c, CallStep(o, CallFinalize(Clean), now, 0));
    assert c1.sessions[o] == c.sessions[o].(clock := now, work := FinalRead(Clean)) && c1.item == c.item;
  }

  // The first three steps release the item; the releasing session still shows `held`.
  lemma ReleaseBeforeRecord(c: Config, o: Owner, p: Owner, now: int)
    requires Invariant(c) && o in c.sessions && p in c.sessions && o != p
    requires c.sessions[o].work.NoWork? && PublicationAllowed(c.sessions[o], now) && c.sessions[o].clock <= now
    ensures var d := Perform(Perform(Perform(c, CallStep(o, CallFinalize(Clean), now, 0)), ReadStep(o, true, now, 0)),
                             WriteStep(o, Answered(true), now, 0));
            && o in d.sessions && p in d.sessions && d.sessions[p] == c.sessions[p]
            && d.sessions[o].phase == c.sessions[o].phase
            && d.item.Some? && d.item.value.status == RELEASED && d.item.value.owner == o
  {
    hide Perform, PublicationAllowed, Fits;
    assert c.sessions[o].phase.HeldPhase? by {
      PublishingIsHeld(c.sessions[o], now);
    }
    var reading := Perform(Perform(c, CallStep(o, CallFinalize(Clean), now, 0)), ReadStep(o, true, now, 0));
    FinalizeReads(c, o, p, now);
    FinalWriteReleases(reading, o, now);
  }

  lemma PublishingIsHeld(s: Session, now: int)
    requires PublicationAllowed(s, now)
    ensures s.phase.HeldPhase?
  {
  }

  lemma FinalWriteReleases(c: Config, o: Owner, now: int)
    requires o in c.sessions && c.sessions[o].owner == o && HeldBy(c.item, o)
    requires c.sessions[o].work == FinalWrite(Clean, c.item.value.version, 0)
    ensures var d := Perform(c, WriteStep(o, Answered(true), now, 0));
            && d.sessions == c.sessions[o := d.sessions[o]] && d.sessions[o].phase == c.sessions[o].phase
            && d.item.Some? && d.item.value.status == RELEASED && d.item.value.owner == o
  {
  }

  // The last three let an idle session replace the released item.
  lemma ReplaceReleased(c: Config, p: Owner, now: int)
    requires p in c.sessions && c.sessions[p].owner == p && c.sessions[p].clock <= now
    requires c.sessions[p].work.NoWork? && c.sessions[p].phase.Idle?
    requires c.item.Some? && c.item.value.status == RELEASED
    ensures var write := WriteStep(p, Answered(true), now, 0);
            var d := Perform(Perform(Perform(c, CallStep(p, CallAcquire, now, 0)), write), write);
            && p in d.sessions && PublicationAllowed(d.sessions[p], now) && HeldBy(d.item, p)
            && (forall o :: o in c.sessions && o != p ==> o in d.sessions && d.sessions[o] == c.sessions[o])
  {
    var c1 := Perform(c, CallStep(p, CallAcquire, now, 0));
    assert c1.sessions[p] == c.sessions[p].(clock := now, work := AcquirePut(now, 0)) && c1.item == c.item;
    var c2 := Perform(c1, WriteStep(p, Answered(true), now, 0));
    assert c2.sessions[p] == c1.sessions[p].(work := AcquireReplace(now, 0, c.item.value)) && c2.item == c.item;
  }

  // And every clean finalization of a publishing session can open that window: from any
  // configuration, the six steps above leave both sessions allowed to publish, the item naming p.
  lemma FinalizationOpensOverlap(c: Config, o: Owner, p: Owner, now: int, now': int)
    requires Invariant(c) && o in c.sessions && p in c.sessions && o != p
    requires c.sessions[o].work.NoWork? && PublicationAllowed(c.sessions[o], now) && c.sessions[o].clock <= now
    requires c.sessions[p].work.NoWork? && c.sessions[p].phase.Idle? && c.sessions[p].clock <= now'
    ensures var d := Execute(c, OverlapSteps(o, p, now, now'));
            && o in d.sessions && p in d.sessions
            && PublicationAllowed(d.sessions[o], now) && PublicationAllowed(d.sessions[p], now')
            && HeldBy(d.item, p)
  {
    var steps := OverlapSteps(o, p, now, now');
    ExecuteSix(c, steps);
    var released := Perform(Perform(Perform(c, steps[0]), steps[1]), steps[2]);
    ReleaseBeforeRecord(c, o, p, now);
    ReplaceReleased(released, p, now');
  }

  ghost predicate AreAllOf(steps: seq<Step>, p: Owner) {
    forall i | 0 <= i < |steps| :: steps[i].owner == p
  }

  // Both may publish, and the item is p's.
  predicate Overlaps(c: Config, o: Owner, p: Owner, now: int, now': int) {
    && o in c.sessions && p in c.sessions && HeldBy(c.item, p)
    && PublicationAllowed(c.sessions[o], now) && PublicationAllowed(c.sessions[p], now')
  }

  function AcquireSteps(p: Owner, now: int): seq<Step> {
    [CallStep(p, CallAcquire, now, 0), WriteStep(p, Answered(true), now, 0), WriteStep(p, Answered(true), now, 0)]
  }

  lemma ExecuteThree(c: Config, steps: seq<Step>)
    requires |steps| == 3
    ensures Execute(c, steps) == Perform(Perform(Perform(c, steps[0]), steps[1]), steps[2])
  {
    assert steps[..2][..1] == steps[..1] && steps[..1][..0] == [];
    assert Execute(c, steps[..1]) == Perform(c, steps[0]);
    assert Execute(c, steps[..2]) == Perform(Execute(c, steps[..1]), steps[1]);
  }

  lemma PutAbsent(c: Config, p: Owner, now: int)
    requires p in c.sessions && c.sessions[p].owner == p && c.sessions[p].clock <= now
    requires c.sessions[p].work.NoWork? && c.sessions[p].phase.Idle? && c.item.None?
    ensures var write := WriteStep(p, Answered(true), now, 0);
            var d := Perform(Perform(Perform(c, CallStep(p, CallAcquire, now, 0)), write), write);
            && p in d.sessions && PublicationAllowed(d.sessions[p], now) && HeldBy(d.item, p)
            && (forall o :: o in c.sessions && o != p ==> o in d.sessions && d.sessions[o] == c.sessions[o])
  {
    var c1 := Perform(c, CallStep(p, CallAcquire, now, 0));
    assert c1.sessions[p] == c.sessions[p].(clock := now, work := AcquirePut(now, 0)) && c1.item == c.item;
    var c2 := Perform(c1, WriteStep(p, Answered(true), now, 0));
    assert c2.sessions[p].work.NoWork? && c2.item == Some(AcquiredItem(p, 0));
  }

  lemma AcquireAvailable(c: Config, o: Owner, p: Owner, now: int, now': int)
    requires Invariant(c) && o in c.sessions && p in c.sessions && o != p && IsAvailable(c.item)
    requires PublicationAllowed(c.sessions[o], now)
    requires c.sessions[p].work.NoWork? && c.sessions[p].phase.Idle? && c.sessions[p].clock <= now'
    ensures Overlaps(Execute(c, AcquireSteps(p, now')), o, p, now, now')
  {
    var steps := AcquireSteps(p, now');
    ExecuteThree(c, steps);
    hide Perform, Execute;
    if c.item.Some? {
      ReplaceReleased(c, p, now');
    } else {
      PutAbsent(c, p, now');
    }
  }

  // An idle session can come to publish beside a publishing one, by steps of its own alone, exactly
  // when the item is absent or released.
  lemma OverlapOpensExactly(c: Config, o: Owner, p: Owner, now: int, now': int)
    requires Invariant(c) && o in c.sessions && p in c.sessions && o != p
    requires PublicationAllowed(c.sessions[o], now)
    requires c.sessions[p].work.NoWork? && c.sessions[p].phase.Idle? && c.sessions[p].clock <= now'
    ensures (exists steps :: AreAllOf(steps, p) && Overlaps(Execute(c, steps), o, p, now, now'))
            <==> IsAvailable(c.item)
  {
    hide Perform, Execute;
    if IsAvailable(c.item) {
      AcquireAvailable(c, o, p, now, now');
      assert AreAllOf(AcquireSteps(p, now'), p);
    } else {
      forall steps | AreAllOf(steps, p) && Overlaps(Execute(c, steps), o, p, now, now')
        ensures false
      {
        HolderOutlasts(c, steps, p);
      }
    }
  }

  // Steps of one session alone never end another owner's tenure.
  lemma HolderOutlasts(c: Config, steps: seq<Step>, p: Owner)
    requires Invariant(c) && AreAllOf(steps, p) && !IsAvailable(c.item) && c.item.value.owner != p
    ensures !HeldBy(Execute(c, steps).item, p)
  {
    hide Perform, Execute;
    var q := c.item.value.owner;
    if NothingLeft(Execute(c, steps).item, q) {
      TenureEndsByOwnRelease(c, steps, q);
    }
  }
}
