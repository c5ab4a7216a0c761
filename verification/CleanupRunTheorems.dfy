// What one run records and freezes, for every history, mode, port answer and journal failure.
module CleanupRunTheorems {
  import opened Wrappers
  import opened CleanupRecords
  import opened CleanupActionFold
  import opened CleanupJournals
  import opened CleanupRuns

  // ---------- what one step adds ----------

  // A step adds its own start, then item lines, then its own terminal line.
  ghost predicate IsStepRecord(added: seq<Line>, run: nat, step: nat) {
    && |added| >= 2
    && (forall i | 0 <= i < |added| :: added[i].run == run && added[i].body.step == step)
    && IsOwn(added[0], step) && added[0].body.status == Started
    && IsOwn(added[|added| - 1], step) && added[|added| - 1].body.status != Started
    && forall i | 0 < i < |added| - 1 :: added[i].body.action.OnItem?
  }

  ghost function AddedBy(input: RunInput, st: RunState, step: nat): seq<Line> {
    StepRan(input, st, step).account.lines[|st.account.lines|..]
  }

  lemma StepAdds(input: RunInput, st: RunState, step: nat)
    ensures st.account.lines <= StepRan(input, st, step).account.lines
    ensures IsStepRecord(AddedBy(input, st, step), input.run, step)
    ensures StepRan(input, st, step).account.lines == st.account.lines + AddedBy(input, st, step)
  {
    hide WorkOf, RecordedItems;
    var started := StepStarted(input, st, step);
    var items := WorkOf(input, started, step).items;
    var worked := StepWorked(input, started, step);
    var base, added := |started.account.lines|, AddedBy(input, st, step);
    assert worked.account == RecordedItems(started.account, FrameOf(input, step), items, input.appends);
    assert |added| == |items| + 2;
    assert added[0] == started.account.lines[base - 1];
    forall i | 0 < i < |added| - 1
      ensures added[i].run == input.run && added[i].body.step == step && added[i].body.action.OnItem?
    {
      ItemLine(started.account, FrameOf(input, step), items, input.appends, i - 1);
      assert added[i] == worked.account.lines[base + (i - 1)];
    }
  }

  lemma RecordIsOwn(added: seq<Line>, run: nat, step: nat, other: nat)
    requires IsStepRecord(added, run, step)
    ensures other != step ==> NoOwn(added, other)
    ensures LatestOwn(added, step) == Some(added[|added| - 1])
  {
  }

  // ---------- where a step's lines are ----------

  ghost predicate OutsideOrder(mode: Mode, m: nat, n: nat, step: nat)
    requires n <= 12
  {
    forall q | m <= q < n :: StepOrder(mode)[q] != step
  }

  // The walk only appends, and appends nothing of a step whose turn does not come.
  lemma {:induction false} WalkAppends(input: RunInput, m: nat, n: nat)
    requires m <= n <= 12
    ensures Walked(input, m).account.lines <= Walked(input, n).account.lines
    decreases n
  {
    hide StepRan, StepOrder, IsDue;
    if m < n {
      WalkAppends(input, m, n - 1);
      StepAdds(input, Walked(input, n - 1), StepOrder(input.mode)[n - 1]);
    }
  }

  ghost function WalkedBetween(input: RunInput, m: nat, n: nat): seq<Line>
    requires m <= n <= 12
  {
    WalkAppends(input, m, n);
    Walked(input, n).account.lines[|Walked(input, m).account.lines|..]
  }

  lemma {:induction false} NotItsTurn(input: RunInput, m: nat, n: nat, step: nat)
    requires m <= n <= 12 && OutsideOrder(input.mode, m, n, step)
    ensures Walked(input, n).account.lines == Walked(input, m).account.lines + WalkedBetween(input, m, n)
    ensures NoOwn(WalkedBetween(input, m, n), step)
    ensures forall i | 0 <= i < |WalkedBetween(input, m, n)| :: WalkedBetween(input, m, n)[i].body.step != step
    decreases n
  {
    hide StepRan, StepOrder, IsDue, AddedBy;
    WalkAppends(input, m, n);
    if m < n {
      NotItsTurn(input, m, n - 1, step);
      WalkAppends(input, m, n - 1);
      var st, other := Walked(input, n - 1), StepOrder(input.mode)[n - 1];
      StepAdds(input, st, other);
      if IsDue(input, st, other) {
        assert WalkedBetween(input, m, n) == WalkedBetween(input, m, n - 1) + AddedBy(input, st, other);
      } else {
        assert WalkedBetween(input, m, n) == WalkedBetween(input, m, n - 1);
      }
    }
  }

  // The state in which a step's turn comes.
  ghost function TurnState(input: RunInput, step: nat): RunState
    requires 1 <= step <= 11
  {
    Walked(input, TurnOf(input.mode, step))
  }

  ghost function TurnOf(mode: Mode, step: nat): (p: nat)
    requires 1 <= step <= 11
    ensures p < 11 && StepOrder(mode)[p] == step
    ensures OutsideOrder(mode, 0, p, step) && OutsideOrder(mode, p + 1, 12, step)
  {
    if mode == Normal then step - 1
    else if step == 3 then 0 else if step == 1 then 1 else if step == 2 then 2 else step - 1
  }

  // A run executes a step exactly when the step always reruns or the history does not show it succeeded.
  ghost predicate Executes(input: RunInput, step: nat) {
    MustRun(step, HasSucceeded(input.history, step))
  }

  lemma DueExactly(input: RunInput, step: nat)
    requires 1 <= step <= 11
    ensures IsDue(input, TurnState(input, step), step) <==> Executes(input, step)
    ensures NoOwn(TurnState(input, step).account.lines, step)
  {
    hide Walked, LatestOwn, StepOrder, TurnOf;
    var p := TurnOf(input.mode, step);
    NotItsTurn(input, 0, p, step);
    WalkStart(input);
    var lines := TurnState(input, step).account.lines;
    assert lines == WalkedBetween(input, 0, p);
    NoOwnHasNoLatest(lines, step);
    LatestAfter(input.history, lines, step);
  }

  lemma WalkStart(input: RunInput)
    ensures Walked(input, 0).account.lines == []
  {
  }

  // The run's lines around one step: `before` and `after` hold no line of the step itself.
  datatype Around = Around(before: seq<Line>, added: seq<Line>, after: seq<Line>)

  ghost predicate IsAround(a: Around, lines: seq<Line>, step: nat) {
    && lines == a.before + a.added + a.after
    && (forall i | 0 <= i < |a.before| :: a.before[i].body.step != step)
    && (forall i | 0 <= i < |a.after| :: a.after[i].body.step != step)
  }

  ghost function AroundStep(input: RunInput, step: nat): Around
    requires 1 <= step <= 11
  {
    var p, st := TurnOf(input.mode, step), TurnState(input, step);
    Around(st.account.lines,
           if Executes(input, step) then AddedBy(input, st, step) else [],
           WalkedBetween(input, p + 1, 12))
  }

  lemma AroundWalked(input: RunInput, step: nat)
    requires 1 <= step <= 11
    ensures IsAround(AroundStep(input, step), Walked(input, 12).account.lines, step)
    ensures Executes(input, step) ==> IsStepRecord(AroundStep(input, step).added, input.run, step)
  {
    hide StepRan, AddedBy, IsDue, Executes, StepOrder, TurnOf;
    var p, st := TurnOf(input.mode, step), TurnState(input, step);
    DueExactly(input, step);
    NotItsTurn(input, 0, p, step);
    NotItsTurn(input, p + 1, 12, step);
    WalkStart(input);
    StepAdds(input, st, step);
  }

  // The same around the frozen account and around the finished run.
  ghost function FrozenAround(input: RunInput, step: nat): Around
    requires 1 <= step <= 11
  {
    var a := AroundStep(input, step);
    a.(after := a.after + Freezing(input).account.lines[|Walked(input, 12).account.lines|..])
  }

  ghost function RunAround(input: RunInput, step: nat): Around
    requires 1 <= step <= 11
  {
    var a := AroundStep(input, step);
    a.(after := a.after + RunLines(input)[|Walked(input, 12).account.lines|..])
  }

  lemma FreezeAppends(input: RunInput)
    ensures var walked, frozen, all := Walked(input, 12).account.lines, Freezing(input).account.lines, RunLines(input);
      && |frozen| == |walked| + 1 && |all| == |walked| + 2 && walked <= frozen <= all
      && IsOwn(frozen[|walked|], 12) && frozen[|walked|].body.status == Started
      && IsOwn(all[|walked| + 1], 12) && all[|walked| + 1].body.status != Started
      && all[|walked|].run == input.run && all[|walked| + 1].run == input.run
  {
    hide Walked;
  }

  lemma AroundRun(input: RunInput, step: nat)
    requires 1 <= step <= 11
    ensures IsAround(FrozenAround(input, step), Freezing(input).account.lines, step)
    ensures IsAround(RunAround(input, step), RunLines(input), step)
    ensures Executes(input, step) ==> IsStepRecord(AroundStep(input, step).added, input.run, step)
  {
    hide AroundStep, Walked, Freezing, RunLines, Executes;
    AroundWalked(input, step);
    FreezeAppends(input);
    var walked, a := Walked(input, 12).account.lines, AroundStep(input, step);
    AroundMore(a, walked, Freezing(input).account.lines, step);
    AroundMore(a, walked, RunLines(input), step);
  }

  lemma AroundMore(a: Around, lines: seq<Line>, all: seq<Line>, step: nat)
    requires IsAround(a, lines, step) && lines <= all
    requires forall i | |lines| <= i < |all| :: all[i].body.step != step
    ensures IsAround(a.(after := a.after + all[|lines|..]), all, step)
  {
  }

  // ---------- when a step started ----------

  ghost predicate NoStart(lines: seq<Line>, step: nat) {
    forall i | 0 <= i < |lines| :: !(IsOwn(lines[i], step) && lines[i].body.status == Started)
  }

  lemma {:induction false} NoStartHasNone(lines: seq<Line>, step: nat)
    requires NoStart(lines, step)
    ensures LatestStart(lines, step) == None
  {
    if lines != [] {
      NoStartHasNone(lines[..|lines| - 1], step);
    }
  }

  lemma {:induction false} StartAfter(lines: seq<Line>, added: seq<Line>, step: nat)
    ensures LatestStart(lines + added, step) ==
              if LatestStart(added, step).Some? then LatestStart(added, step) else LatestStart(lines, step)
    decreases |added|
  {
    if added == [] {
      assert lines + added == lines;
    } else {
      var n := |added| - 1;
      assert (lines + added)[..|lines + added| - 1] == lines + added[..n];
      StartAfter(lines, added[..n], step);
    }
  }

  lemma RecordStartsOnce(added: seq<Line>, run: nat, step: nat)
    requires IsStepRecord(added, run, step)
    ensures LatestStart(added, step) == Some(added[0])
  {
    hide LatestStart;
    var rest := added[1..];
    assert added == [added[0]] + rest;
    NoStartHasNone(rest, step);
    StartAfter([added[0]], rest, step);
    OneStart(added[0], step);
  }

  lemma OneStart(line: Line, step: nat)
    requires IsOwn(line, step) && line.body.status == Started
    ensures LatestStart([line], step) == Some(line)
  {
  }

  function StartTime(lines: seq<Line>, step: nat): Option<int> {
    var start := LatestStart(lines, step);
    if start.Some? then Some(start.value.at) else None
  }

  lemma StartAround(history: seq<Line>, lines: seq<Line>, a: Around, run: nat, step: nat)
    requires IsAround(a, lines, step)
    requires a.added == [] || IsStepRecord(a.added, run, step)
    ensures LatestStart(history + lines, step) ==
              if a.added == [] then LatestStart(history, step) else Some(a.added[0])
  {
    hide LatestStart;
    NoStartHasNone(a.before, step);
    NoStartHasNone(a.after, step);
    StartAfter(history, lines, step);
    StartAfter(a.before + a.added, a.after, step);
    StartAfter(a.before, a.added, step);
    if a.added == [] {
      NoStartHasNone(a.added, step);
    } else {
      RecordStartsOnce(a.added, run, step);
    }
  }

  // The latest own line after the history: the run's terminal line, or the history's when it skipped.
  lemma LatestAround(history: seq<Line>, lines: seq<Line>, a: Around, run: nat, step: nat)
    requires IsAround(a, lines, step)
    requires a.added == [] || IsStepRecord(a.added, run, step)
    ensures LatestOwn(history + lines, step) ==
              if a.added == [] then LatestOwn(history, step) else Some(a.added[|a.added| - 1])
  {
    hide LatestOwn;
    NoOwnHasNoLatest(a.before, step);
    NoOwnHasNoLatest(a.after, step);
    LatestAfter(history, lines, step);
    LatestAfter(a.before + a.added, a.after, step);
    LatestAfter(a.before, a.added, step);
    if a.added == [] {
      NoOwnHasNoLatest(a.added, step);
    } else {
      RecordIsOwn(a.added, run, step, step);
    }
  }

  // ---------- the frozen result is complete ----------

  ghost predicate IsComplete(steps: seq<FoldedStep>) {
    && |steps| == 12
    && (forall i | 0 <= i < 12 :: steps[i].step == i + 1)
    && (forall i | 0 <= i < 11 :: steps[i].status != Started && steps[i].completedAt.Some?)
    && steps[11].status == Started && steps[11].reasons == []
  }

  // The step's entry in the result is the terminal line this run recorded for it.
  ghost predicate ShowsThisRun(input: RunInput, step: nat, steps: seq<FoldedStep>)
    requires 1 <= step <= 11
  {
    var added := AroundStep(input, step).added;
    && step <= |steps| && added != []
    && steps[step - 1] == FoldedStep(step, added[|added| - 1].body.status, Some(added[0].at),
                                     Some(added[|added| - 1].at), added[|added| - 1].body.reasons)
  }

  // The step's entry in the result is the latest line the history holds of it.
  ghost predicate ShowsHistory(input: RunInput, step: nat, steps: seq<FoldedStep>)
    requires 1 <= step <= 11
  {
    var latest := LatestOwn(input.history, step);
    && step <= |steps| && latest.Some?
    && steps[step - 1].status == Succeeded == latest.value.body.status
    && steps[step - 1].reasons == latest.value.body.reasons && steps[step - 1].completedAt == Some(latest.value.at)
    && steps[step - 1].startedAt == StartTime(input.history, step)
  }

  // Whatever the history, the mode, the ports and the journal do, the frozen result lists steps 1 to
  // 12 once each in order, 1 to 11 terminal; a step this run executed shows this run's terminal line,
  // and a skipped one what the history last said of it.
  lemma FrozenResultIsComplete(input: RunInput)
    ensures IsComplete(FrozenResult(input).steps)
    ensures forall step | 1 <= step <= 11 ::
              if Executes(input, step) then ShowsThisRun(input, step, FrozenResult(input).steps)
              else ShowsHistory(input, step, FrozenResult(input).steps)
    ensures Executes(input, 10) && Executes(input, 11)
  {
    hide AroundStep, Freezing, LatestOwn, LatestStart, Resources, FoldSteps, FoldStep, HasSucceeded;
    var steps := FrozenResult(input).steps;
    EntryOf(input, 12);
    forall i | 0 <= i < 11
      ensures steps[i].step == i + 1 && steps[i].status != Started && steps[i].completedAt.Some?
    {
      EntryOf(input, i + 1);
    }
    forall step | 1 <= step <= 11
      ensures if Executes(input, step) then ShowsThisRun(input, step, steps) else ShowsHistory(input, step, steps)
    {
      EntryOf(input, step);
    }
  }

  lemma EntryOf(input: RunInput, step: nat)
    requires 1 <= step <= 12
    ensures var steps := FrozenResult(input).steps;
      && |steps| == 12 && steps[step - 1].step == step
      && (step <= 11 ==> steps[step - 1].status != Started && steps[step - 1].completedAt.Some?)
      && (step <= 11 && Executes(input, step) ==> ShowsThisRun(input, step, steps))
      && (step <= 11 && !Executes(input, step) ==> ShowsHistory(input, step, steps))
      && (step == 12 ==> steps[11].status == Started && steps[11].reasons == [])
  {
    hide Executes, AroundStep, Freezing, LatestOwn, LatestStart, Resources, FoldSteps, FoldStep;
    var lines, steps := input.history + Freezing(input).account.lines, FrozenResult(input).steps;
    forall other | 1 <= other <= 11
      ensures LatestOwn(lines, other).Some?
    {
      TerminalBeforeFreeze(input, other);
    }
    FreezeIsLatest(input);
    FoldsToEach(lines, 12);
    if step <= 11 {
      TerminalBeforeFreeze(input, step);
    }
    FoldOf(step, lines);
    var i := step - 1;
    assert [steps[i]] == FoldStep(i + 1, lines);
  }

  lemma FoldOf(step: nat, lines: seq<Line>)
    requires LatestOwn(lines, step).Some?
    ensures var latest := LatestOwn(lines, step).value;
      FoldStep(step, lines) ==
        if latest.body.status == Started then [FoldedStep(step, Started, Some(latest.at), None, [])]
        else [FoldedStep(step, latest.body.status, StartTime(lines, step), Some(latest.at), latest.body.reasons)]
  {
  }

  lemma TerminalBeforeFreeze(input: RunInput, step: nat)
    requires 1 <= step <= 11
    ensures var lines := input.history + Freezing(input).account.lines;
      && LatestOwn(lines, step).Some? && LatestOwn(lines, step).value.body.status != Started
      && (Executes(input, step) ==>
            AroundStep(input, step).added != [] &&
            LatestOwn(lines, step) == Some(AroundStep(input, step).added[|AroundStep(input, step).added| - 1]))
      && (!Executes(input, step) ==>
            LatestOwn(lines, step) == LatestOwn(input.history, step) &&
            LatestOwn(lines, step).value.body.status == Succeeded)
      && LatestStart(lines, step) ==
           (if Executes(input, step) then Some(AroundStep(input, step).added[0]) else LatestStart(input.history, step))
  {
    hide Freezing, LatestOwn, LatestStart, Walked, AddedBy;
    AroundRun(input, step);
    var a := FrozenAround(input, step);
    LatestAround(input.history, Freezing(input).account.lines, a, input.run, step);
    StartAround(input.history, Freezing(input).account.lines, a, input.run, step);
  }

  lemma FreezeIsLatest(input: RunInput)
    ensures var lines := input.history + Freezing(input).account.lines;
      LatestOwn(lines, 12).Some? && LatestOwn(lines, 12).value.body.status == Started
  {
    hide Walked, Freezing;
    FreezeAppends(input);
    var lines := input.history + Freezing(input).account.lines;
    LatestOfOwnEnd(lines, 12);
  }

  lemma {:induction false} FoldsToEach(lines: seq<Line>, upTo: nat)
    requires forall step | 1 <= step <= upTo :: LatestOwn(lines, step).Some?
    ensures |FoldSteps(lines, upTo)| == upTo
    ensures forall i | 0 <= i < upTo :: [FoldSteps(lines, upTo)[i]] == FoldStep(i + 1, lines)
  {
    hide FoldStep, LatestOwn;
    if upTo > 0 {
      FoldsToEach(lines, upTo - 1);
      FoldOf(upTo, lines);
    }
  }

  // ---------- the steps keep their order ----------

  lemma OfStepOnlyInAdded(lines: seq<Line>, a: Around, step: nat, q: nat)
    requires IsAround(a, lines, step) && q < |lines| && lines[q].body.step == step
    ensures |a.before| <= q < |a.before| + |a.added|
  {
  }

  // A step that comes first in the mode's order is over before the other one starts. In both modes
  // the executions are stopped (5) before anything is deleted (9), captured messages are deleted (8)
  // after their capture (7), and an emergency disables the consumers (3) before all else.
  lemma StepsKeepOrder(input: RunInput, first: nat, second: nat, i: nat, j: nat)
    requires 1 <= first <= 11 && 1 <= second <= 11
    requires i < |RunLines(input)| && RunLines(input)[i].body.step == first
    requires j < |RunLines(input)| && RunLines(input)[j].body.step == second
    requires || (4 <= second && first < second)
             || (input.mode == Emergency && first == 3 && second != 3)
             || (first == 1 && second == 2)
             || (input.mode == Normal && first < second)
    ensures i < j
  {
    hide Executes, RunLines, Walked, AddedBy;
    AroundRun(input, first);
    AroundRun(input, second);
    OfStepOnlyInAdded(RunLines(input), RunAround(input, first), first, i);
    OfStepOnlyInAdded(RunLines(input), RunAround(input, second), second, j);
    WalkAppends(input, TurnOf(input.mode, first) + 1, TurnOf(input.mode, second));
    TurnEnds(input, first);
  }

  lemma TurnEnds(input: RunInput, step: nat)
    requires 1 <= step <= 11
    ensures |AroundStep(input, step).before| + |AroundStep(input, step).added|
         <= |Walked(input, TurnOf(input.mode, step) + 1).account.lines|
  {
    hide StepRan, AddedBy, IsDue, Executes, StepOrder, TurnOf;
    DueExactly(input, step);
    StepAdds(input, TurnState(input, step), step);
  }

  // ---------- every history finding is reported once ----------

  ghost function Reports(lines: seq<Line>, reason: Reason): nat {
    if lines == [] then 0
    else Reports(lines[..|lines| - 1], reason) + multiset(lines[|lines| - 1].body.reasons)[reason]
  }

  ghost function ReportedOrCarried(st: RunState, reason: Reason): nat {
    Reports(st.account.lines, reason) + multiset(st.carried)[reason]
  }

  ghost predicate PendsOnlyStop(account: Account) {
    account.pending.Some? ==> account.pending.value.JournalStopped?
  }

  lemma ReportsOneMore(lines: seq<Line>, line: Line, reason: Reason)
    ensures Reports(lines + [line], reason) == Reports(lines, reason) + multiset(line.body.reasons)[reason]
  {
    assert (lines + [line])[..|lines|] == lines;
  }

  lemma StepLineConserves(input: RunInput, st: RunState, step: nat, status: StepStatus, reasons: seq<Reason>,
                          finding: Reason)
    requires finding.FromHistory? && PendsOnlyStop(st.account)
    requires forall i | 0 <= i < |reasons| :: reasons[i].FromStep?
    ensures var next := StepRecorded(input, st, step, status, reasons);
      && ReportedOrCarried(next, finding) == ReportedOrCarried(st, finding) && PendsOnlyStop(next.account)
      && (status != Started ==> next.carried == [])
      && (status == Started ==> multiset(next.account.lines[|next.account.lines| - 1].body.reasons)[finding] == 0)
  {
    hide Reports;
    var next := StepRecorded(input, st, step, status, reasons);
    var n := |st.account.lines|;
    var carried := if status == Started then [] else st.carried;
    var line := next.account.lines[n];
    assert next.account.lines == st.account.lines + [line];
    ReportsOneMore(st.account.lines, line, finding);
    assert line.body.reasons == reasons + carried + Pending(st.account);
    assert finding !in reasons && finding !in Pending(st.account);
  }

  lemma {:induction false} ItemLinesConserve(account: Account, frame: Frame, items: seq<Item>, appends: Appends,
                                             finding: Reason)
    requires finding.FromHistory? && PendsOnlyStop(account)
    ensures Reports(RecordedItems(account, frame, items, appends).lines, finding) == Reports(account.lines, finding)
    ensures PendsOnlyStop(RecordedItems(account, frame, items, appends))
  {
    hide Reports;
    if items != [] {
      var n := |items| - 1;
      ItemLinesConserve(account, frame, items[..n], appends, finding);
      var before := RecordedItems(account, frame, items[..n], appends);
      var after := RecordedItems(account, frame, items, appends);
      var line := after.lines[|before.lines|];
      assert after.lines == before.lines + [line];
      ReportsOneMore(before.lines, line, finding);
      assert finding !in Wrapped(items[n].reasons);
    }
  }

  lemma StepConserves(input: RunInput, st: RunState, step: nat, finding: Reason)
    requires finding.FromHistory? && PendsOnlyStop(st.account)
    ensures var next := StepRan(input, st, step);
      && ReportedOrCarried(next, finding) == ReportedOrCarried(st, finding)
      && PendsOnlyStop(next.account) && next.carried == []
  {
    hide Reports, WorkOf, RecordedItems, StepRecorded;
    var started := StepStarted(input, st, step);
    StepLineConserves(input, st, step, Started, [], finding);
    var work := WorkOf(input, started, step);
    ItemLinesConserve(started.account, FrameOf(input, step), work.items, input.appends, finding);
    var worked := StepWorked(input, started, step);
    assert ReportedOrCarried(worked, finding) == ReportedOrCarried(started, finding);
    StepLineConserves(input, worked, step, EndStatus(work.end), EndReasons(work.end), finding);
  }

  lemma {:induction false} WalkConserves(input: RunInput, n: nat, finding: Reason)
    requires n <= 12 && finding.FromHistory?
    ensures ReportedOrCarried(Walked(input, n), finding) == multiset(Findings(input.run, input.findings))[finding]
    ensures PendsOnlyStop(Walked(input, n).account)
  {
    hide StepRan, IsDue, Findings;
    if n > 0 {
      WalkConserves(input, n - 1, finding);
      StepConserves(input, Walked(input, n - 1), StepOrder(input.mode)[n - 1], finding);
    }
  }

  // Steps 10 and 11 always run, so nothing is carried into the freeze.
  lemma NothingCarriedToFreeze(input: RunInput)
    ensures Walked(input, 12).carried == []
  {
    hide StepRan, HasSucceeded;
    assert StepOrder(input.mode)[11] == 12 && StepOrder(input.mode)[10] == 11;
    assert Walked(input, 12) == Walked(input, 11);
    assert Walked(input, 11) == StepRan(input, Walked(input, 10), 11);
    RanCarriesNothing(input, Walked(input, 10), 11);
  }

  lemma RanCarriesNothing(input: RunInput, st: RunState, step: nat)
    ensures StepRan(input, st, step).carried == []
  {
    hide WorkOf, StepWorked;
  }

  lemma CountsOf(findings: seq<Reason>, run: nat, codes: seq<string>, p: nat)
    requires findings == Findings(run, codes) && p < |codes|
    ensures multiset(findings)[findings[p]] == 1
  {
    hide Findings;
    CountsOnce(findings, p);
  }

  lemma CountsOnce<T>(s: seq<T>, p: nat)
    requires p < |s| && forall i | 0 <= i < |s| && i != p :: s[i] != s[p]
    ensures multiset(s)[s[p]] == 1
  {
    var before, after := s[..p], s[p + 1..];
    assert s == before + [s[p]] + after;
    assert s[p] !in before && s[p] !in after;
    assert multiset(before)[s[p]] == 0 && multiset(after)[s[p]] == 0;
  }

  lemma {:induction false} CountedOnce(lines: seq<Line>, reason: Reason) returns (i: nat)
    requires Reports(lines, reason) == 1
    ensures i < |lines| && reason in lines[i].body.reasons
    ensures forall j | 0 <= j < |lines| && j != i :: reason !in lines[j].body.reasons
  {
    var n := |lines| - 1;
    if reason in lines[n].body.reasons {
      i := n;
      CountedNever(lines[..n], reason);
    } else {
      i := CountedOnce(lines[..n], reason);
    }
  }

  lemma {:induction false} CountedNever(lines: seq<Line>, reason: Reason)
    ensures Reports(lines, reason) == 0 <==> forall j | 0 <= j < |lines| :: reason !in lines[j].body.reasons
  {
    if lines != [] {
      CountedNever(lines[..|lines| - 1], reason);
      assert forall j | 0 <= j < |lines| - 1 :: lines[..|lines| - 1][j] == lines[j];
    }
  }

  ghost predicate HoldsFinding(line: Line) {
    exists i | 0 <= i < |line.body.reasons| :: line.body.reasons[i].FromHistory?
  }

  // Only a step's terminal line carries findings.
  lemma OnlyTerminalReports(input: RunInput, st: RunState, step: nat, k: nat)
    requires PendsOnlyStop(st.account) && k < |AddedBy(input, st, step)| - 1
    ensures !HoldsFinding(AddedBy(input, st, step)[k])
  {
    hide WorkOf, RecordedItems;
    var started := StepStarted(input, st, step);
    var items := WorkOf(input, started, step).items;
    var worked := StepWorked(input, started, step);
    var base, added := |started.account.lines|, AddedBy(input, st, step);
    if k == 0 {
      assert added[0] == started.account.lines[base - 1];
    } else {
      ItemLine(started.account, FrameOf(input, step), items, input.appends, k - 1);
      assert added[k] == worked.account.lines[base + (k - 1)];
    }
  }

  // Every line before the freeze belongs to the record of one executed step.
  lemma {:induction false} LineIsOfStep(input: RunInput, n: nat, i: nat) returns (step: nat)
    requires n <= 12 && i < |Walked(input, n).account.lines|
    ensures 1 <= step <= 11 && Executes(input, step)
    ensures |TurnState(input, step).account.lines| <= i
      < |TurnState(input, step).account.lines| + |AddedBy(input, TurnState(input, step), step)|
    decreases n
  {
    hide StepRan, IsDue, AddedBy, StepOrder, Executes;
    var st, last := Walked(input, n - 1), StepOrder(input.mode)[n - 1];
    if i < |st.account.lines| {
      step := LineIsOfStep(input, n - 1, i);
    } else {
      StepAdds(input, st, last);
      step := last;
      DueIsEarlier(input, n - 1);
      DueExactly(input, step);
    }
  }

  lemma DueIsEarlier(input: RunInput, q: nat)
    requires q < 12 && IsDue(input, Walked(input, q), StepOrder(input.mode)[q])
    ensures 1 <= StepOrder(input.mode)[q] <= 11 && TurnOf(input.mode, StepOrder(input.mode)[q]) == q
  {
    hide Walked, HasSucceeded;
  }

  // Every history finding appears in exactly one line of the run, the terminal line of one of steps
  // 1 to 11, and the frozen result shows it on that step.
  lemma FindingIsReportedOnce(input: RunInput, p: nat) returns (i: nat)
    requires p < |input.findings|
    ensures var finding, lines := FromHistory(input.run, p, input.findings[p]), RunLines(input);
      && i < |lines| && finding in lines[i].body.reasons && IsTerminal(lines[i].body)
      && (forall j | 0 <= j < |lines| && j != i :: finding !in lines[j].body.reasons)
      && 1 <= lines[i].body.step <= 11 && |FrozenResult(input).steps| == 12
      && finding in FrozenResult(input).steps[lines[i].body.step - 1].reasons
  {
    hide Reports, Walked, AddedBy, FrozenResult, Executes, StepRecorded, WorkOf;
    var findings := Findings(input.run, input.findings);
    var finding, walked := findings[p], Walked(input, 12);
    CountsOf(findings, input.run, input.findings, p);
    WalkConserves(input, 12, finding);
    NothingCarriedToFreeze(input);
    i := CountedOnce(walked.account.lines, finding);
    var step := LineIsOfStep(input, 12, i);
    FindingsLine(input, step, i, finding);
    FrozenResultIsComplete(input);
    FreezeConserves(input, finding);
    FreezeAppends(input);
    var once := CountedOnce(RunLines(input), finding);
    assert RunLines(input)[i] == walked.account.lines[i];
  }

  lemma FindingsLine(input: RunInput, step: nat, i: nat, finding: Reason)
    requires 1 <= step <= 11 && Executes(input, step) && finding.FromHistory?
    requires var turn := TurnState(input, step);
      |turn.account.lines| <= i < |turn.account.lines| + |AddedBy(input, turn, step)|
    requires i < |Walked(input, 12).account.lines| && finding in Walked(input, 12).account.lines[i].body.reasons
    ensures Walked(input, 12).account.lines[i].body.step == step && IsTerminal(Walked(input, 12).account.lines[i].body)
    ensures ShowsThisRun(input, step, FrozenResult(input).steps)
    ensures finding in FrozenResult(input).steps[step - 1].reasons
  {
    hide Walked, AddedBy, FrozenResult, Executes;
    var turn := TurnState(input, step);
    WalkConserves(input, TurnOf(input.mode, step), finding);
    AroundWalked(input, step);
    FrozenResultIsComplete(input);
    var a, k := AroundStep(input, step), i - |turn.account.lines|;
    assert Walked(input, 12).account.lines[i] == a.added[k];
    if k < |a.added| - 1 {
      OnlyTerminalReports(input, turn, step, k);
    }
  }

  lemma FreezeConserves(input: RunInput, finding: Reason)
    requires finding.FromHistory?
    ensures Reports(RunLines(input), finding) == Reports(Walked(input, 12).account.lines, finding)
  {
    hide Walked, Reports, StepRecorded;
    WalkConserves(input, 12, finding);
    NothingCarriedToFreeze(input);
    var walked, frozen, end := Walked(input, 12), Freezing(input), input.works(LAST_STEP).end;
    StepLineConserves(input, walked, LAST_STEP, Started, [], finding);
    StepLineConserves(input, frozen, LAST_STEP, EndStatus(end), EndReasons(end), finding);
    assert frozen.carried == [] by {
      CarriedThroughStart(input, walked, LAST_STEP);
    }
  }

  lemma CarriedThroughStart(input: RunInput, st: RunState, step: nat)
    ensures StepStarted(input, st, step).carried == st.carried
  {
  }
}
