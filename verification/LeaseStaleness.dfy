// Sessions that beat on a timer: the loop and the protocol together. Who hears of a loss, and how soon
// a lease that no beat confirms becomes stale.

module LeaseLoopedSessions {
  import opened Wrappers
  import opened LeaseItems
  import opened LeaseHealths
  import opened LeaseSteps
  import opened LeaseProtocol
  import opened LeaseHeartbeatLoops

  // All sessions, and the loop of one of them. A beat the timer called for waits until the session is
  // free, has begun, and ends when the session has settled it; `held` is how it found the session.
  datatype Joint = Joint(config: Config, loop: Loop, begun: bool, held: bool)

  datatype Happening =
    | LoopStarts(now: int)
    | LoopStops
    | TimerFires
    | BeatBegins(now: int, wall: int)
    | BeatEnds(now: int)
    | Stepping(step: Step)

  predicate IsBeating(s: Session) {
    s.work.BeatWrite? || s.work.BeatRead?
  }

  // The delay the session asks for: none once it holds no lease.
  function NextDelay(s: Session, now: int): int {
    if s.phase.HeldPhase? then HeartbeatDelayMs(s.phase.state, Later(s.clock, now)) else 0
  }

  // Only the loop calls the heartbeats of its session.
  function Happens(j: Joint, o: Owner, h: Happening): Joint {
    if o !in j.config.sessions then j
    else
      var s := j.config.sessions[o];
      match h
      case LoopStarts(now) => j.(loop := LoopStep(j.loop, StartCall(NextDelay(s, now))))
      case LoopStops => j.(loop := LoopStep(j.loop, StopCall))
      case TimerFires => j.(loop := LoopStep(j.loop, TimerFired))
      case BeatBegins(now, wall) =>
        if !j.loop.beating || j.begun || !s.work.NoWork? then j
        else
          var called := Perform(j.config, CallStep(o, CallHeartbeat, now, wall));
          j.(config := called, begun := true, held := s.phase.HeldPhase?)
      case BeatEnds(now) =>
        if !j.loop.beating || !j.begun || IsBeating(s) then j
        else j.(loop := LoopStep(j.loop, BeatSettled(j.held, s.loss, NextDelay(s, now))), begun := false)
      case Stepping(step) =>
        if step.CallStep? && step.owner == o && step.call.CallHeartbeat? then j
        else j.(config := Perform(j.config, step))
  }

  function Run(j: Joint, o: Owner, hs: seq<Happening>): Joint
    decreases |hs|
  {
    if hs == [] then j else Happens(Run(j, o, hs[..|hs| - 1]), o, hs[|hs| - 1])
  }

  function Together(owners: set<Owner>): Joint {
    Joint(Start(owners), NEW_LOOP, false, false)
  }

  // ---------- the listener hears the session's own loss, once ----------

  // A loss has been heard, or the beat that established it has not ended yet.
  ghost predicate IsHeard(j: Joint, s: Session) {
    && LoopValid(j.loop)
    && (j.begun ==> j.loop.beating)
    && (IsBeating(s) ==> j.begun && j.held)
    && (s.loss.Some? ==> j.loop.reports == [s.loss.value] || (j.begun && j.held))
    && (j.loop.reports != [] ==> s.loss.Some? && j.loop.reports == [s.loss.value])
  }

  ghost predicate JointInvariant(j: Joint, o: Owner) {
    Invariant(j.config) && o in j.config.sessions && IsHeard(j, j.config.sessions[o])
  }

  // Outside a beat no step makes a loss, and only a call begins a beat.
  lemma StepMakesNoLoss(c: Config, step: Step, o: Owner)
    requires Invariant(c) && o in c.sessions
    requires !(step.CallStep? && step.owner == o && step.call.CallHeartbeat?)
    ensures o in Perform(c, step).sessions
    ensures var s, s' := c.sessions[o], Perform(c, step).sessions[o];
            (IsBeating(s') ==> IsBeating(s)) && (s'.loss == s.loss || IsBeating(s))
  {
    hide Perform, NextHealth;
    var moved, input, now, wall := MovedByInput(c, step, o);
  }

  lemma BeatIsCalled(c: Config, o: Owner, now: int, wall: int)
    requires Invariant(c) && o in c.sessions && c.sessions[o].work.NoWork?
    ensures var s, s' := c.sessions[o], Perform(c, CallStep(o, CallHeartbeat, now, wall)).sessions[o];
            && (!s.phase.HeldPhase? ==> s' == s.(clock := s'.clock))
            && (s.loss.Some? ==> s'.loss == s.loss && !IsBeating(s'))
  {
  }

  lemma HappeningKeeps(j: Joint, o: Owner, h: Happening)
    requires JointInvariant(j, o)
    ensures JointInvariant(Happens(j, o, h), o)
  {
    hide Invariant, Perform;
    match h {
      case BeatBegins(now, wall) =>
        var call := CallStep(o, CallHeartbeat, now, wall);
        PerformKeepsInvariant(j.config, call);
        if j.config.sessions[o].work.NoWork? {
          BeatIsCalled(j.config, o, now, wall);
        }
      case Stepping(step) =>
        PerformKeepsInvariant(j.config, step);
        if !(step.CallStep? && step.owner == o && step.call.CallHeartbeat?) {
          StepMakesNoLoss(j.config, step, o);
        }
      case _ =>
    }
  }

  lemma {:induction false} RunKeeps(j: Joint, o: Owner, hs: seq<Happening>)
    requires JointInvariant(j, o)
    ensures JointInvariant(Run(j, o, hs), o)
    decreases |hs|
  {
    hide JointInvariant, Happens;
    if hs != [] {
      RunKeeps(j, o, hs[..|hs| - 1]);
      HappeningKeeps(Run(j, o, hs[..|hs| - 1]), o, hs[|hs| - 1]);
    }
  }

  // In every run of the sessions and the loop together the listener has heard nothing, or exactly the
  // session's own loss, which is staleness, exactly once; it has heard it as soon as the beat that
  // established the loss is over; and then the loop is silent for good.
  lemma LossHeardExactlyOnce(owners: set<Owner>, o: Owner, hs: seq<Happening>)
    requires o in owners
    ensures var j := Run(Together(owners), o, hs);
            && o in j.config.sessions
            && (|| j.loop.reports == []
                || (j.loop.reports == [LOST_STALE] && j.config.sessions[o].loss == Some(LOST_STALE)))
            && (j.config.sessions[o].loss.Some? && !j.begun ==> j.loop.reports == [LOST_STALE])
            && (j.loop.reports != [] ==> j.loop.stopped && j.loop.timer.None? && !j.loop.beating)
  {
    RunKeeps(Together(owners), o, hs);
  }
}

module LeaseStaleness {
  import opened Wrappers
  import opened LeaseItems
  import opened LeaseStore
  import opened LeaseHealths
  import opened LeaseSteps
  import opened LeaseProtocol
  import opened LeaseLoopedSessions

  // ---------- the delay ----------

  // While unsure the delay is a full interval that ends before the boundary's last millisecond, or
  // it ends at the boundary rounded up to a millisecond.
  lemma DelayReachesBoundary(state: HealthState, now: int)
    requires state.health == UNCERTAIN && now < state.lastConfirmedNs + STALE_BOUNDARY_NS
    ensures var delayNs := NS_PER_MS * HeartbeatDelayMs(state, now);
            var remainingNs := state.lastConfirmedNs + STALE_BOUNDARY_NS - now;
            && 0 <= delayNs < remainingNs + NS_PER_MS
            && (remainingNs <= delayNs || delayNs == NS_PER_MS * HEARTBEAT_INTERVAL_MS)
  {
  }

  // The delay is 30 s, or while unsure the fewest whole milliseconds up to the boundary where these are
  // fewer, and none past it.
  lemma DelayExactly(state: HealthState, now: int)
    ensures var delay, remainingNs := HeartbeatDelayMs(state, now), state.lastConfirmedNs + 300_000_000_000 - now;
      if state.health != UNCERTAIN || remainingNs > 30_000_000_000 then delay == 30_000
      else if remainingNs <= 0 then delay == 0
      else 1_000_000 * (delay - 1) < remainingNs <= 1_000_000 * delay
  {
  }

  // ---------- one beat of one session ----------

  // A session in a beat called at `at`, before the boundary, that has confirmed nothing yet.
  predicate IsUndecided(s: Session, at: int, lastNs: int) {
    && s.phase.HeldPhase? && s.phase.state.health == UNCERTAIN && s.phase.state.lastConfirmedNs == lastNs
    && s.loss.None? && s.clock == at && at - lastNs < STALE_BOUNDARY_NS
  }

  // The beat is over: confirmed, or as unsure as before, or the lease found elsewhere.
  predicate IsSettled(s: Session, at: int, lastNs: int) {
    && s.phase.HeldPhase? && s.work.NoWork? && s.clock == at
    && s.phase.state.health != LOST_STALE
    && (s.phase.state.health == UNCERTAIN ==> s.phase.state.lastConfirmedNs == lastNs)
  }

  predicate IsStale(s: Session, at: int, lastNs: int) {
    && s.phase.HeldPhase? && s.work.NoWork? && s.clock == at
    && s.phase.state.health == LOST_STALE && s.phase.state.lastConfirmedNs == lastNs && s.loss == Some(LOST_STALE)
  }

  // Where a beat may be after each of its store calls.
  predicate IsOnItsWay(s: Session, at: int, lastNs: int) {
    if at - lastNs >= STALE_BOUNDARY_NS then IsStale(s, at, lastNs)
    else IsSettled(s, at, lastNs) || (IsUndecided(s, at, lastNs) && IsBeating(s))
  }

  lemma CallMoves(c: Config, o: Owner, at: int, wall: int)
    requires Invariant(c) && o in c.sessions && c.sessions[o].clock <= at
    requires c.sessions[o].phase.HeldPhase? && c.sessions[o].work.NoWork?
    requires c.sessions[o].phase.state.health == UNCERTAIN
    ensures var d := Perform(c, CallStep(o, CallHeartbeat, at, wall));
            o in d.sessions && IsOnItsWay(d.sessions[o], at, c.sessions[o].phase.state.lastConfirmedNs)
  {
  }

  // The answer to the write leaves the beat settled or waiting for a read, and the read settles it.
  lemma WriteMoves(c: Config, o: Owner, fate: Fate, at: int, wall: int, lastNs: int)
    requires Invariant(c) && o in c.sessions && IsOnItsWay(c.sessions[o], at, lastNs)
    ensures var d := Perform(c, WriteStep(o, fate, at, wall));
            o in d.sessions && IsOnItsWay(d.sessions[o], at, lastNs) && !d.sessions[o].work.BeatWrite?
  {
    var s := c.sessions[o];
    if s.work.BeatWrite? {
      var outcome := WriteEffect(c.item, PendingWrite(s).value, fate).1;
      AnswerSettles(s, outcome, at, wall, lastNs);
    }
  }

  lemma AnswerSettles(s: Session, outcome: WriteOutcome, at: int, wall: int, lastNs: int)
    requires IsUndecided(s, at, lastNs) && s.work.BeatWrite?
    ensures var s' := Advance(s, WriteAnswer(outcome), at, wall);
            IsSettled(s', at, lastNs) || (IsUndecided(s', at, lastNs) && s'.work.BeatRead?)
  {
  }

  lemma ReadMoves(c: Config, o: Owner, answered: bool, at: int, wall: int, lastNs: int)
    requires Invariant(c) && o in c.sessions && IsOnItsWay(c.sessions[o], at, lastNs) && !c.sessions[o].work.BeatWrite?
    ensures var d := Perform(c, ReadStep(o, answered, at, wall));
            o in d.sessions && IsOnItsWay(d.sessions[o], at, lastNs) && d.sessions[o].work.NoWork?
  {
    var s := c.sessions[o];
    if s.work.BeatRead? {
      ReadSettles(s, ReadOf(c.item, answered), at, wall, lastNs);
    }
  }

  lemma ReadSettles(s: Session, read: ReadResult, at: int, wall: int, lastNs: int)
    requires IsUndecided(s, at, lastNs) && s.work.BeatRead?
    ensures IsSettled(Advance(s, ReadAnswer(read), at, wall), at, lastNs)
  {
  }

  // ---------- one beat among all sessions ----------

  // When the timer fires, what happens to the beat's store calls, which take no time, and what other
  // sessions do before the beat, between its call and its write, and between its write and its read.
  datatype Beat = Beat(
    at: int,
    wall: int,
    fate: Fate,
    answered: bool,
    before: seq<Step>,
    between: seq<Step>,
    meanwhile: seq<Step>)

  ghost predicate AreForeign(steps: seq<Step>, o: Owner) {
    forall i | 0 <= i < |steps| :: steps[i].owner != o
  }

  ghost predicate IsBeatOf(beat: Beat, o: Owner) {
    AreForeign(beat.before, o) && AreForeign(beat.between, o) && AreForeign(beat.meanwhile, o)
  }

  function Steppings(steps: seq<Step>): (hs: seq<Happening>)
    ensures |hs| == |steps| && forall i | 0 <= i < |hs| :: hs[i] == Stepping(steps[i])
  {
    seq(|steps|, i requires 0 <= i < |steps| => Stepping(steps[i]))
  }

  function AfterFiring(j: Joint, o: Owner, beat: Beat): Joint {
    Happens(Happens(Run(j, o, Steppings(beat.before)), o, TimerFires), o, BeatBegins(beat.at, beat.wall))
  }

  function AfterWriting(j: Joint, o: Owner, beat: Beat): Joint {
    Happens(Run(AfterFiring(j, o, beat), o, Steppings(beat.between)), o,
            Stepping(WriteStep(o, beat.fate, beat.at, beat.wall)))
  }

  function AfterReading(j: Joint, o: Owner, beat: Beat): Joint {
    Happens(Run(AfterWriting(j, o, beat), o, Steppings(beat.meanwhile)), o,
            Stepping(ReadStep(o, beat.answered, beat.at, beat.wall)))
  }

  function AfterBeat(j: Joint, o: Owner, beat: Beat): Joint {
    Happens(AfterReading(j, o, beat), o, BeatEnds(beat.at))
  }

  lemma {:induction false} ForeignersPass(j: Joint, o: Owner, steps: seq<Step>)
    requires JointInvariant(j, o) && AreForeign(steps, o)
    ensures var k := Run(j, o, Steppings(steps));
            && JointInvariant(k, o) && k == j.(config := k.config) && k.config.sessions[o] == j.config.sessions[o]
    decreases |steps|
  {
    hide Perform, IsHeard, Invariant;
    if steps != [] {
      var n := |steps| - 1;
      ForeignersPass(j, o, steps[..n]);
      assert Steppings(steps)[..n] == Steppings(steps[..n]);
      var k := Run(j, o, Steppings(steps[..n]));
      StepKeepsOtherFit(k.config, steps[n], o);
      HappeningKeeps(k, o, Stepping(steps[n]));
    }
  }

  // Waiting for the next beat, unsure, before the boundary; `now` is when the timer was set.
  ghost predicate IsWaiting(j: Joint, o: Owner, now: int) {
    && JointInvariant(j, o)
    && var s := j.config.sessions[o];
       && s.phase.HeldPhase? && s.work.NoWork? && s.phase.state.health == UNCERTAIN && s.clock <= now
       && now < s.phase.state.lastConfirmedNs + STALE_BOUNDARY_NS
       && j.loop.timer == Some(HeartbeatDelayMs(s.phase.state, now)) && !j.loop.stopped && !j.begun
  }

  // The session is stale, on time, and the listener has heard exactly that.
  ghost predicate IsLostOnTime(j: Joint, o: Owner, lastNs: int, at: int, late: nat) {
    && o in j.config.sessions && IsStale(j.config.sessions[o], at, lastNs)
    && j.loop.reports == [LOST_STALE] && j.loop.timer.None?
    && 0 <= at - (lastNs + STALE_BOUNDARY_NS) < NS_PER_MS + late
  }

  ghost predicate IsOnTime(j: Joint, now: int, beat: Beat, late: nat) {
    j.loop.timer.Some? &&
    now + NS_PER_MS * j.loop.timer.value <= beat.at <= now + NS_PER_MS * j.loop.timer.value + late
  }

  lemma Firing(j: Joint, o: Owner, now: int, beat: Beat, late: nat)
    requires IsWaiting(j, o, now) && IsBeatOf(beat, o) && IsOnTime(j, now, beat, late)
    ensures var k := AfterFiring(j, o, beat);
            && JointInvariant(k, o) && k.loop.beating && k.begun && k.held && !k.loop.stopped
            && IsOnItsWay(k.config.sessions[o], beat.at, j.config.sessions[o].phase.state.lastConfirmedNs)
  {
    hide Invariant, Perform, IsOnItsWay, HeartbeatDelayMs;
    DelayReachesBoundary(j.config.sessions[o].phase.state, now);
    ForeignersPass(j, o, beat.before);
    var k := Run(j, o, Steppings(beat.before));
    HappeningKeeps(k, o, TimerFires);
    HappeningKeeps(Happens(k, o, TimerFires), o, BeatBegins(beat.at, beat.wall));
    CallMoves(k.config, o, beat.at, beat.wall);
  }

  lemma Answering(j: Joint, o: Owner, beat: Beat, lastNs: int)
    requires var k := AfterFiring(j, o, beat);
      && JointInvariant(k, o) && k.loop.beating && k.begun && k.held && !k.loop.stopped
      && IsOnItsWay(k.config.sessions[o], beat.at, lastNs)
    requires IsBeatOf(beat, o)
    ensures var k := AfterReading(j, o, beat);
            && JointInvariant(k, o) && k.loop.beating && k.begun && k.held && !k.loop.stopped
            && IsOnItsWay(k.config.sessions[o], beat.at, lastNs) && k.config.sessions[o].work.NoWork?
  {
    hide Invariant, Perform, IsOnItsWay, AfterFiring, IsHeard, Run;
    var fired := AfterFiring(j, o, beat);
    ForeignersPass(fired, o, beat.between);
    var k := Run(fired, o, Steppings(beat.between));
    HappeningKeeps(k, o, Stepping(WriteStep(o, beat.fate, beat.at, beat.wall)));
    WriteMoves(k.config, o, beat.fate, beat.at, beat.wall, lastNs);
    var written := AfterWriting(j, o, beat);
    ForeignersPass(written, o, beat.meanwhile);
    var l := Run(written, o, Steppings(beat.meanwhile));
    HappeningKeeps(l, o, Stepping(ReadStep(o, beat.answered, beat.at, beat.wall)));
    ReadMoves(l.config, o, beat.answered, beat.at, beat.wall, lastNs);
  }

  // A beat that does not confirm either establishes the staleness on time, and the listener hears it,
  // or leaves a full interval behind.
  lemma UnconfirmedBeat(j: Joint, o: Owner, now: int, beat: Beat, late: nat)
    requires IsWaiting(j, o, now) && IsBeatOf(beat, o) && IsOnTime(j, now, beat, late)
    requires var k := AfterBeat(j, o, beat);
      o in k.config.sessions && k.config.sessions[o].phase.HeldPhase? &&
      k.config.sessions[o].phase.state.health != CONFIRMED
    ensures var k, lastNs := AfterBeat(j, o, beat), j.config.sessions[o].phase.state.lastConfirmedNs;
            || IsLostOnTime(k, o, lastNs, beat.at, late)
            || (&& IsWaiting(k, o, beat.at) && k.config.sessions[o].phase.state.lastConfirmedNs == lastNs
                && beat.at >= now + NS_PER_MS * HEARTBEAT_INTERVAL_MS)
  {
    hide Perform, AfterReading, HeartbeatDelayMs;
    var lastNs := j.config.sessions[o].phase.state.lastConfirmedNs;
    DelayReachesBoundary(j.config.sessions[o].phase.state, now);
    Firing(j, o, now, beat, late);
    Answering(j, o, beat, lastNs);
    HappeningKeeps(AfterReading(j, o, beat), o, BeatEnds(beat.at));
  }

  // A beat that confirms goes on: the next one is due in 30 s.
  lemma ConfirmedBeat(j: Joint, o: Owner, now: int, beat: Beat, late: nat)
    requires IsWaiting(j, o, now) && IsBeatOf(beat, o) && IsOnTime(j, now, beat, late)
    requires var k := AfterBeat(j, o, beat);
      o in k.config.sessions && k.config.sessions[o].phase.HeldPhase? &&
      k.config.sessions[o].phase.state.health == CONFIRMED
    ensures var k := AfterBeat(j, o, beat);
            k.loop.timer == Some(30_000) && !k.loop.stopped && k.loop.reports == [] && JointInvariant(k, o)
  {
    hide Perform, AfterReading;
    var lastNs := j.config.sessions[o].phase.state.lastConfirmedNs;
    Firing(j, o, now, beat, late);
    Answering(j, o, beat, lastNs);
    HappeningKeeps(AfterReading(j, o, beat), o, BeatEnds(beat.at));
  }

  // ---------- many beats ----------

  function AfterBeats(j: Joint, o: Owner, beats: seq<Beat>): Joint
    decreases |beats|
  {
    if beats == [] then j else AfterBeats(AfterBeat(j, o, beats[0]), o, beats[1..])
  }

  // Each beat fires no earlier than the loop's timer says and at most `late` after it, among steps of
  // other sessions only, and none confirms.
  ghost predicate NeverConfirmed(j: Joint, o: Owner, now: int, beats: seq<Beat>, late: nat)
    decreases |beats|
  {
    if beats == [] then true
    else
      var k := AfterBeat(j, o, beats[0]);
      && IsBeatOf(beats[0], o) && IsOnTime(j, now, beats[0], late)
      && o in k.config.sessions && k.config.sessions[o].phase.HeldPhase?
      && k.config.sessions[o].phase.state.health != CONFIRMED
      && (k.loop.timer.Some? ==> NeverConfirmed(k, o, beats[0].at, beats[1..], late))
  }

  // From UNCERTAIN, beats that never confirm reach LOST_STALE within the intervals left, less than one
  // millisecond plus the timers' lateness after the boundary, whatever other sessions do; and by then
  // the listener has heard exactly that loss.
  lemma {:induction false} StaleAtTheBoundary(j: Joint, o: Owner, now: int, beats: seq<Beat>, late: nat, rounds: nat)
    requires IsWaiting(j, o, now) && rounds <= |beats| && NeverConfirmed(j, o, now, beats, late)
    requires j.config.sessions[o].phase.state.lastConfirmedNs + STALE_BOUNDARY_NS - now
          <= rounds * NS_PER_MS * HEARTBEAT_INTERVAL_MS
    ensures exists k :: 0 <= k < rounds && IsLostOnTime(AfterBeats(j, o, beats[..k + 1]), o,
              j.config.sessions[o].phase.state.lastConfirmedNs, beats[k].at, late)
    decreases rounds
  {
    hide AfterBeat, IsWaiting, IsLostOnTime, IsOnTime;
    BoundaryIsAhead(j, o, now);
    var lastNs := j.config.sessions[o].phase.state.lastConfirmedNs;
    var next := AfterBeat(j, o, beats[0]);
    UnconfirmedBeat(j, o, now, beats[0], late);
    if IsLostOnTime(next, o, lastNs, beats[0].at, late) {
      assert beats[..1][1..] == [];
      assert AfterBeats(j, o, beats[..0 + 1]) == next;
    } else {
      TimerIsSet(next, o, beats[0].at);
      StaleAtTheBoundary(next, o, beats[0].at, beats[1..], late, rounds - 1);
      var k :| 0 <= k < rounds - 1 &&
        IsLostOnTime(AfterBeats(next, o, beats[1..][..k + 1]), o, lastNs, beats[1..][k].at, late);
      assert beats[..k + 2][1..] == beats[1..][..k + 1];
      assert AfterBeats(j, o, beats[..(k + 1) + 1]) == AfterBeats(next, o, beats[1..][..k + 1]);
    }
  }

  lemma BoundaryIsAhead(j: Joint, o: Owner, now: int)
    requires IsWaiting(j, o, now)
    ensures o in j.config.sessions && j.config.sessions[o].phase.HeldPhase?
    ensures now < j.config.sessions[o].phase.state.lastConfirmedNs + STALE_BOUNDARY_NS
  {
  }

  lemma TimerIsSet(j: Joint, o: Owner, now: int)
    requires IsWaiting(j, o, now)
    ensures j.loop.timer.Some?
  {
  }

  lemma TenBeatsSuffice(j: Joint, o: Owner, now: int, beats: seq<Beat>, late: nat)
    requires IsWaiting(j, o, now) && |beats| >= 10 && NeverConfirmed(j, o, now, beats, late)
    requires j.config.sessions[o].phase.state.lastConfirmedNs <= now
    ensures exists k :: 0 <= k < 10 && IsLostOnTime(AfterBeats(j, o, beats[..k + 1]), o,
              j.config.sessions[o].phase.state.lastConfirmedNs, beats[k].at, late)
  {
    StaleAtTheBoundary(j, o, now, beats, late, 10);
  }
}
