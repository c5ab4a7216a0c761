// Where the reason for a stopped journal ends up. The journal's refusal is meant to become a reason
// on the step it happened in; it does exactly when the refused line is not a step's last one.
module CleanupJournalStop {
  import opened Wrappers
  import opened CleanupRecords
  import opened CleanupActionFold
  import opened CleanupJournals
  import opened CleanupRuns
  import opened CleanupRunTheorems
  import opened CleanupHealing
  import opened CleanupCampaigns

  ghost predicate IsFirstRefused(appends: Appends, q: nat) {
    !appends.accepts(q) && forall r: nat | r < q :: appends.accepts(r)
  }

  predicate Tells(line: Line, run: nat) {
    JournalStopped(run) in line.body.reasons
  }

  ghost predicate NoneTells(lines: seq<Line>, run: nat) {
    forall i | 0 <= i < |lines| :: !Tells(lines[i], run)
  }

  ghost predicate OnlyItems(lines: seq<Line>, from: nat, to: nat)
    requires to <= |lines|
  {
    forall i | from <= i < to :: lines[i].body.action.OnItem?
  }

  // Line `t` is the first step line after `q`, and the only one to tell of the stop.
  ghost predicate IsTeller(lines: seq<Line>, run: nat, q: nat, t: nat) {
    && q < t < |lines| && lines[t].body.action.StepAction? && OnlyItems(lines, q + 1, t)
    && forall i | 0 <= i < |lines| :: Tells(lines[i], run) <==> i == t
  }

  ghost predicate Tracks(account: Account, run: nat, q: nat) {
    if |account.lines| <= q then
      !account.stopReported && account.pending.None? && NoneTells(account.lines, run)
    else
      && account.stopReported
      && match account.pending
         case Some(reason) =>
           && reason == JournalStopped(run) && NoneTells(account.lines, run)
           && OnlyItems(account.lines, q + 1, |account.lines|)
         case None => exists t :: IsTeller(account.lines, run, q, t)
  }

  ghost predicate TellsNothing(reasons: seq<Reason>) {
    forall i | 0 <= i < |reasons| :: !reasons[i].JournalStopped?
  }

  lemma TellerStays(lines: seq<Line>, line: Line, run: nat, q: nat, t: nat)
    requires IsTeller(lines, run, q, t) && !Tells(line, run)
    ensures IsTeller(lines + [line], run, q, t)
  {
    hide Tells;
  }

  lemma NewTeller(lines: seq<Line>, line: Line, run: nat, q: nat)
    requires q < |lines| && NoneTells(lines, run) && OnlyItems(lines, q + 1, |lines|)
    requires Tells(line, run) && line.body.action.StepAction?
    ensures IsTeller(lines + [line], run, q, |lines|)
  {
    hide Tells;
  }

  lemma ItemKeepsTrack(account: Account, frame: Frame, item: Item, appends: Appends, q: nat)
    requires IsFirstRefused(appends, q) && Tracks(account, frame.run, q)
    ensures Tracks(Recorded(account, frame.run, ItemBody(frame, item), appends), frame.run, q)
  {
    hide Wrapped, IsTeller;
    var next := Recorded(account, frame.run, ItemBody(frame, item), appends);
    var line := next.lines[|account.lines|];
    assert next.lines == account.lines + [line] && !Tells(line, frame.run);
    if |account.lines| > q && account.pending.None? {
      var t :| IsTeller(account.lines, frame.run, q, t);
      TellerStays(account.lines, line, frame.run, q, t);
    }
  }

  lemma {:induction false} ItemsKeepTrack(account: Account, frame: Frame, items: seq<Item>, appends: Appends, q: nat)
    requires IsFirstRefused(appends, q) && Tracks(account, frame.run, q)
    ensures Tracks(RecordedItems(account, frame, items, appends), frame.run, q)
  {
    hide Tracks, Recorded, IsFirstRefused;
    if items != [] {
      var n := |items| - 1;
      ItemsKeepTrack(account, frame, items[..n], appends, q);
      ItemKeepsTrack(RecordedItems(account, frame, items[..n], appends), frame, items[n], appends, q);
    }
  }

  lemma StepLineKeepsTrack(input: RunInput, st: RunState, step: nat, status: StepStatus, reasons: seq<Reason>, q: nat)
    requires IsFirstRefused(input.appends, q) && Tracks(st.account, input.run, q)
    requires TellsNothing(reasons) && TellsNothing(st.carried)
    ensures var next := StepRecorded(input, st, step, status, reasons);
      Tracks(next.account, input.run, q) && TellsNothing(next.carried)
  {
    hide IsTeller;
    var next := StepRecorded(input, st, step, status, reasons);
    var lines, line := st.account.lines, next.account.lines[|st.account.lines|];
    assert next.account.lines == lines + [line];
    StepLineTells(input, st, step, status, reasons);
    if |lines| > q {
      if st.account.pending.Some? {
        NewTeller(lines, line, input.run, q);
      } else {
        var t :| IsTeller(lines, input.run, q, t);
        TellerStays(lines, line, input.run, q, t);
      }
    }
  }

  lemma StepLineTells(input: RunInput, st: RunState, step: nat, status: StepStatus, reasons: seq<Reason>)
    requires TellsNothing(reasons) && TellsNothing(st.carried)
    ensures var line := StepRecorded(input, st, step, status, reasons).account.lines[|st.account.lines|];
      && line.body.action == StepAction(step)
      && (Tells(line, input.run) <==> st.account.pending == Some(JournalStopped(input.run)))
  {
  }

  lemma StepKeepsTrack(input: RunInput, st: RunState, step: nat, q: nat)
    requires IsFirstRefused(input.appends, q) && Tracks(st.account, input.run, q) && TellsNothing(st.carried)
    ensures var next := StepRan(input, st, step); Tracks(next.account, input.run, q) && TellsNothing(next.carried)
  {
    hide Tracks, IsFirstRefused, WorkOf, RecordedItems, StepRecorded;
    var started := StepStarted(input, st, step);
    StepLineKeepsTrack(input, st, step, Started, [], q);
    var work := WorkOf(input, started, step);
    ItemsKeepTrack(started.account, FrameOf(input, step), work.items, input.appends, q);
    var worked := StepWorked(input, started, step);
    StepLineKeepsTrack(input, worked, step, EndStatus(work.end), EndReasons(work.end), q);
  }

  lemma {:induction false} WalkKeepsTrack(input: RunInput, n: nat, q: nat)
    requires n <= 12 && IsFirstRefused(input.appends, q)
    ensures Tracks(Walked(input, n).account, input.run, q) && TellsNothing(Walked(input, n).carried)
  {
    hide StepRan, IsDue, IsFirstRefused;
    if n > 0 {
      hide Tracks;
      WalkKeepsTrack(input, n - 1, q);
      StepKeepsTrack(input, Walked(input, n - 1), StepOrder(input.mode)[n - 1], q);
    }
  }

  lemma RunKeepsTrack(input: RunInput, q: nat)
    requires IsFirstRefused(input.appends, q)
    ensures Tracks(Finished(input).account, input.run, q)
  {
    hide Walked, StepRecorded, Tracks, IsFirstRefused;
    WalkKeepsTrack(input, 12, q);
    var end := input.works(LAST_STEP).end;
    StepLineKeepsTrack(input, Walked(input, 12), LAST_STEP, Started, [], q);
    StepLineKeepsTrack(input, Freezing(input), LAST_STEP, EndStatus(end), EndReasons(end), q);
  }

  // ---------- who tells ----------

  // The last position of the record of an executed step.
  ghost function RecordEnd(input: RunInput, step: nat): (e: nat)
    requires 1 <= step <= 11 && Executes(input, step)
    ensures e < |RunLines(input)|
  {
    AroundRun(input, step);
    var a := RunAround(input, step);
    |a.before| + |a.added| - 1
  }

  ghost function RecordStart(input: RunInput, step: nat): nat
    requires 1 <= step <= 11
  {
    |RunAround(input, step).before|
  }

  lemma RecordShape(input: RunInput, step: nat)
    requires 1 <= step <= 11 && Executes(input, step)
    ensures var lines, s, e := RunLines(input), RecordStart(input, step), RecordEnd(input, step);
      && s < e < |lines| && lines[s].body.action.StepAction? && OnlyItems(lines, s + 1, e)
      && IsTerminal(lines[e].body) && lines[e].body.action.StepAction?
      && (forall i | s <= i < e :: !IsTerminal(lines[i].body))
      && (forall i | s <= i <= e :: lines[i].body.step == step)
      && lines[e] == AroundStep(input, step).added[|AroundStep(input, step).added| - 1]
  {
    hide Executes, RunLines, AroundStep, Walked;
    AroundRun(input, step);
    var a, lines := RunAround(input, step), RunLines(input);
    forall i | 0 <= i < |a.added|
      ensures lines[|a.before| + i] == a.added[i]
    {
    }
    assert forall i | |a.before| <= i < |a.before| + |a.added| :: lines[i] == a.added[i - |a.before|];
  }

  // The line that tells of the stop ends a step's record exactly when the refused line lies inside it.
  lemma TellerEndsRecord(input: RunInput, q: nat, step: nat)
    requires IsFirstRefused(input.appends, q) && q < |RunLines(input)|
    requires 1 <= step <= 11 && Executes(input, step)
    ensures Tells(RunLines(input)[RecordEnd(input, step)], input.run) <==>
              RecordStart(input, step) <= q < RecordEnd(input, step)
  {
    hide Executes, Finished, AroundStep, Walked, RecordStart, RecordEnd, IsFirstRefused, Tells;
    RunKeepsTrack(input, q);
    RecordShape(input, step);
    var lines, s, e := RunLines(input), RecordStart(input, step), RecordEnd(input, step);
    if Finished(input).account.pending.None? {
      var t :| IsTeller(lines, input.run, q, t);
      if s <= q < e {
        assert t == e;
      }
    }
  }

  ghost predicate ShowsStop(input: RunInput, step: nat) {
    1 <= step <= |FrozenResult(input).steps| && JournalStopped(input.run) in FrozenResult(input).steps[step - 1].reasons
  }

  // The stop shows on a step of the frozen result exactly when the first refused line belongs to that
  // step, is one of steps 1 to 11 and is not its terminal line. Refused at a terminal line, the reason
  // goes to the next step's `started` line, whose reasons no result shows.
  lemma StopShowsExactly(input: RunInput, q: nat, step: nat)
    requires IsFirstRefused(input.appends, q) && q < |RunLines(input)|
    requires forall i | 0 <= i < |input.history| :: !Tells(input.history[i], input.run)
    requires 1 <= step <= 12
    ensures ShowsStop(input, step) <==>
              step <= 11 && RunLines(input)[q].body.step == step && !IsTerminal(RunLines(input)[q].body)
  {
    hide Executes, RunLines, FrozenResult, IsFirstRefused, RecordEnd, RecordStart, AroundStep;
    FrozenResultIsComplete(input);
    if step <= 11 {
      if RunLines(input)[q].body.step == step {
        OfStepOnlyInRecord(input, q, step);
      }
      if Executes(input, step) {
        TellerEndsRecord(input, q, step);
        RecordShape(input, step);
        assert ShowsThisRun(input, step, FrozenResult(input).steps);
      } else {
        SkippedShowsHistory(input, step);
      }
    }
  }

  lemma OfStepOnlyInRecord(input: RunInput, q: nat, step: nat)
    requires 1 <= step <= 11 && q < |RunLines(input)| && RunLines(input)[q].body.step == step
    ensures Executes(input, step) && RecordStart(input, step) <= q <= RecordEnd(input, step)
  {
    hide Executes, RunLines, AddedBy, Walked;
    AroundRun(input, step);
    OfStepOnlyInAdded(RunLines(input), RunAround(input, step), step, q);
  }

  lemma SkippedShowsHistory(input: RunInput, step: nat)
    requires 1 <= step <= 11 && !Executes(input, step)
    requires forall i | 0 <= i < |input.history| :: !Tells(input.history[i], input.run)
    ensures !ShowsStop(input, step)
  {
    hide Executes, FrozenResult, LatestOwn, ShowsThisRun, IsComplete, Tells;
    FrozenResultIsComplete(input);
    assert ShowsHistory(input, step, FrozenResult(input).steps);
    LatestTellsNothing(input.history, step, input.run);
  }

  lemma LatestTellsNothing(history: seq<Line>, step: nat, run: nat)
    requires forall i | 0 <= i < |history| :: !Tells(history[i], run)
    requires LatestOwn(history, step).Some?
    ensures JournalStopped(run) !in LatestOwn(history, step).value.body.reasons
  {
    hide LatestOwn;
    var i := LatestIsSomewhere(history, step);
  }

  // A first run whose journal refuses only the second line, the end of step 1: no step shows the stop.
  lemma StopCanBeLost() returns (input: RunInput)
    ensures IsFirstRefused(input.appends, 1) && 1 < |RunLines(input)|
    ensures forall step :: !ShowsStop(input, step)
  {
    hide RunLines, FrozenResult, StepRan, RecordEnd, RecordStart, AddedBy, IsDue;
    input := QuietRun(0, [], true).(appends := Appends(n => n != 1, _ => 0));
    RecordShape(input, 1);
    EndOfFirstStep(input);
    FrozenResultIsComplete(input);
    forall step | 1 <= step <= 12
      ensures !ShowsStop(input, step)
    {
      StopShowsExactly(input, 1, step);
    }
  }

  lemma EndOfFirstStep(input: RunInput)
    requires input.mode == Normal && input.history == [] && input.works(1).items == []
    ensures Executes(input, 1) && RecordEnd(input, 1) == 1
  {
    hide AddedBy, RunLines;
    var start := TurnState(input, 1);
    assert start == Start(input);
    StepSize(input, start, 1);
    assert WorkOf(input, StepStarted(input, start, 1), 1).items == [];
  }
}
