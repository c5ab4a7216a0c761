// Cleanup is run again and again on a journal that may lose lines for good. What one run's deletion
// step heals, what its result says, and what later runs skip.
module CleanupHealing {
  import opened OrderedMaps
  import opened CleanupRecords
  import opened CleanupActionFold
  import opened CleanupJournals
  import opened OwnedResourceDeletion
  import opened DeletionTheorems
  import opened CleanupRuns
  import opened CleanupRunTheorems

  // ---------- healed accounts ----------

  ghost predicate NamesNoResource(lines: seq<Line>) {
    forall i | 0 <= i < |lines| :: ResourceOf(lines[i]).None?
  }

  lemma HealedByItself(lines: seq<Line>, more: seq<Line>)
    requires NamesNoResource(more)
    ensures IsHealed(lines + more) <==> IsHealed(lines)
  {
    hide ResourceOf, FoldedKey;
    var all := lines + more;
    if IsHealed(lines) {
      forall i | 0 <= i < |all| && IsFailure(all[i])
        ensures exists j | i < j < |all| :: IsAbout(all[j], FoldedKey(ResourceOf(all[i]).value))
      {
        assert i < |lines| && all[i] == lines[i];
        var j :| i < j < |lines| && IsAbout(lines[j], FoldedKey(ResourceOf(lines[i]).value));
        assert all[j] == lines[j];
      }
    }
    if IsHealed(all) {
      forall i | 0 <= i < |lines| && IsFailure(lines[i])
        ensures exists j | i < j < |lines| :: IsAbout(lines[j], FoldedKey(ResourceOf(lines[i]).value))
      {
        assert all[i] == lines[i];
        var j :| i < j < |all| && IsAbout(all[j], FoldedKey(ResourceOf(all[i]).value));
        assert j < |lines| && all[j] == lines[j];
      }
    }
  }

  ghost predicate IsMentioned(added: seq<Line>, key: string) {
    exists i | 0 <= i < |added| :: IsAbout(added[i], key)
  }

  ghost predicate FailsNothing(lines: seq<Line>) {
    forall i | 0 <= i < |lines| :: !IsFailure(lines[i])
  }

  // Lines that fail nothing and name every resource the fold shows as failed heal the account.
  lemma NamingEveryFailureHeals(lines: seq<Line>, added: seq<Line>)
    requires FailsNothing(added)
    requires forall e | 0 <= e < |Resources(lines)| && IsFailed(Resources(lines)[e].1) ::
               IsMentioned(added, FoldedKey(Resources(lines)[e].1))
    ensures IsHealed(lines + added)
  {
    hide ResourceOf, FoldedKey, ResourcesUpTo, Put, Get;
    var all := lines + added;
    forall i | 0 <= i < |all| && IsFailure(all[i])
      ensures exists j | i < j < |all| :: IsAbout(all[j], FoldedKey(ResourceOf(all[i]).value))
    {
      assert i < |lines| && all[i] == lines[i];
      var key := FoldedKey(ResourceOf(lines[i]).value);
      if j :| i < j < |lines| && IsAbout(lines[j], key) {
        assert all[j] == lines[j];
      } else {
        var e := LastFailureShows(lines, i);
        var k :| 0 <= k < |added| && IsAbout(added[k], key);
        assert all[|lines| + k] == added[k];
      }
    }
  }

  lemma LastFailureShows(lines: seq<Line>, i: nat) returns (e: nat)
    requires i < |lines| && IsFailure(lines[i])
    requires forall j | i < j < |lines| :: !IsAbout(lines[j], FoldedKey(ResourceOf(lines[i]).value))
    ensures e < |Resources(lines)| && IsFailed(Resources(lines)[e].1)
    ensures FoldedKey(Resources(lines)[e].1) == FoldedKey(ResourceOf(lines[i]).value)
  {
    hide ResourceOf, FoldedKey, ResourcesUpTo, Put;
    var resources, n, key := Resources(lines), |lines|, FoldedKey(ResourceOf(lines[i]).value);
    LatestLineWins(lines, n, key);
    assert IsAbout(lines[i], key);
    var k :| 0 <= k < n && IsLatestAbout(lines, n, key, k) && ResourceOf(lines[k]) == Get(resources, key);
    assert k == i;
    e := Position(resources, key);
  }

  // ---------- the deletion step inside a run ----------

  ghost function DeletionStarted(input: RunInput): RunState {
    StepStarted(input, TurnState(input, DELETION_STEP), DELETION_STEP)
  }

  ghost predicate DeletionSucceeds(input: RunInput) {
    && Executes(input, DELETION_STEP)
    && WorkOf(input, DeletionStarted(input), DELETION_STEP).end == Reported(Succeeded, [])
  }

  // The lines step 9 adds, item by item.
  lemma DeletionLines(input: RunInput, k: nat)
    requires k < |WorkOf(input, DeletionStarted(input), DELETION_STEP).items|
    ensures var added := AddedBy(input, TurnState(input, DELETION_STEP), DELETION_STEP);
      var items := WorkOf(input, DeletionStarted(input), DELETION_STEP).items;
      && |added| == |items| + 2
      && added[k + 1].run == input.run && added[k + 1].body == ItemBody(FrameOf(input, DELETION_STEP), items[k])
  {
    StepItemLine(input, TurnState(input, DELETION_STEP), DELETION_STEP, k);
  }

  lemma StepItemLine(input: RunInput, st: RunState, step: nat, k: nat)
    requires k < |WorkOf(input, StepStarted(input, st, step), step).items|
    ensures var added, items := AddedBy(input, st, step), WorkOf(input, StepStarted(input, st, step), step).items;
      && |added| == |items| + 2
      && added[k + 1].run == input.run && added[k + 1].body == ItemBody(FrameOf(input, step), items[k])
  {
    hide WorkOf, RecordedItems, Wrapped;
    var started := StepStarted(input, st, step);
    var items := WorkOf(input, started, step).items;
    var worked := StepWorked(input, started, step);
    var base, added := |started.account.lines|, AddedBy(input, st, step);
    ItemLine(started.account, FrameOf(input, step), items, input.appends, k);
    assert added[k + 1] == worked.account.lines[base + k];
  }

  lemma StepSize(input: RunInput, st: RunState, step: nat)
    ensures var added, work := AddedBy(input, st, step), WorkOf(input, StepStarted(input, st, step), step);
      && |added| == |work.items| + 2 && added[|added| - 1].body.status == EndStatus(work.end)
      && StepStarted(input, st, step).account.lines == st.account.lines + [added[0]]
  {
    hide WorkOf, RecordedItems;
  }

  lemma ItemNames(line: Line, frame: Frame, item: Item)
    requires line.body == ItemBody(frame, item) && frame.step == DELETION_STEP && SettlesWell(item)
    ensures IsAbout(line, ItemKey(item)) && !IsFailure(line)
  {
  }

  lemma OwnNamesNothing(line: Line, step: nat)
    requires IsOwn(line, step) || line.body.step != DELETION_STEP
    ensures ResourceOf(line).None?
  {
  }

  // The account with the deletion step's item lines, when the step succeeds.
  lemma SuccessHealsAccount(input: RunInput)
    requires DeletionSucceeds(input)
    ensures var turn := TurnState(input, DELETION_STEP).account.lines;
      var added := AddedBy(input, TurnState(input, DELETION_STEP), DELETION_STEP);
      IsHealed(input.history + (turn + added))
  {
    hide AddedBy, TurnState, ResourceOf, FoldedKey, IsHealed, Resources, DeletionWork, Mentions, ItemBody, SettlesWell,
         StepStarted, EarlierDeleteFailures;
    var turn := TurnState(input, DELETION_STEP).account.lines;
    var added := AddedBy(input, TurnState(input, DELETION_STEP), DELETION_STEP);
    var started := DeletionStarted(input);
    var items := WorkOf(input, started, DELETION_STEP).items;
    StepAdds(input, TurnState(input, DELETION_STEP), DELETION_STEP);
    StepSize(input, TurnState(input, DELETION_STEP), DELETION_STEP);
    var n := |added| - 1;
    var before, named := input.history + started.account.lines, added[1..n];
    NamedLines(input);
    NamingEveryFailureHeals(before, named);
    assert ResourceOf(added[n]).None? by { OwnNamesNothing(added[n], DELETION_STEP); }
    HealedByItself(before + named, [added[n]]);
    assert added == [added[0]] + named + [added[n]];
    assert input.history + (turn + added) == before + named + [added[n]];
  }

  lemma NamedLines(input: RunInput)
    requires DeletionSucceeds(input)
    ensures var added := AddedBy(input, TurnState(input, DELETION_STEP), DELETION_STEP);
      var before := input.history + DeletionStarted(input).account.lines;
      && |added| >= 2
      && FailsNothing(added[1..|added| - 1])
      && (forall e | 0 <= e < |Resources(before)| && IsFailed(Resources(before)[e].1) ::
            IsMentioned(added[1..|added| - 1], FoldedKey(Resources(before)[e].1)))
  {
    hide AddedBy, TurnState, IsFailure, FoldedKey, Resources, DeletionWork, Mentions, ItemBody, SettlesWell,
         StepStarted, EarlierDeleteFailures, IsAbout, ItemKey;
    var turn := TurnState(input, DELETION_STEP);
    var added := AddedBy(input, turn, DELETION_STEP);
    var started := DeletionStarted(input);
    var items := WorkOf(input, started, DELETION_STEP).items;
    StepSize(input, turn, DELETION_STEP);
    var before, named := input.history + started.account.lines, added[1..|added| - 1];
    var earlier := FailuresSoFar(input, started);
    SuccessSettlesWell(input.context, input.deletion, earlier);
    forall i | 0 <= i < |items|
      ensures IsAbout(named[i], ItemKey(items[i])) && !IsFailure(named[i])
    {
      DeletionLines(input, i);
      ItemNames(added[i + 1], FrameOf(input, DELETION_STEP), items[i]);
    }
    forall e | 0 <= e < |Resources(before)| && IsFailed(Resources(before)[e].1)
      ensures IsMentioned(named, FoldedKey(Resources(before)[e].1))
    {
      var failed := Resources(before)[e].1;
      FailuresAreListed(Resources(before), e);
      var at :| 0 <= at < |earlier| && earlier[at] == failed;
      SuccessMentionsEveryFailure(input.context, input.deletion, earlier, at);
      var i := MentionedAt(items, FoldedKey(failed));
      assert IsAbout(named[i], FoldedKey(failed));
    }
  }

  lemma MentionedAt(items: seq<Item>, key: string) returns (i: nat)
    requires Mentions(items, key)
    ensures i < |items| && ItemKey(items[i]) == key
  {
    i :| 0 <= i < |items| && ItemKey(items[i]) == key;
  }

  // ---------- the status a run freezes ----------

  lemma AroundNamesNothing(lines: seq<Line>)
    requires forall i | 0 <= i < |lines| :: lines[i].body.step != DELETION_STEP
    ensures NamesNoResource(lines)
  {
  }

  lemma OthersNameNothing(history: seq<Line>, lines: seq<Line>, a: Around)
    requires IsAround(a, lines, DELETION_STEP)
    ensures IsHealed(history + lines) <==> IsHealed(history + (a.before + a.added))
    ensures a.added == [] ==> (IsHealed(history + lines) <==> IsHealed(history))
  {
    hide IsHealed;
    AroundNamesNothing(a.before);
    AroundNamesNothing(a.after);
    assert history + lines == history + (a.before + a.added) + a.after;
    HealedByItself(history + (a.before + a.added), a.after);
    if a.added == [] {
      assert a.before + a.added == a.before;
      HealedByItself(history, a.before);
    }
  }

  // A run freezes `succeeded` exactly when its deletion step succeeds or, where it skips the step,
  // when every failed deletion in the history is followed by another line about the same resource.
  lemma StatusExactly(input: RunInput)
    ensures FrozenResult(input).status == StatusSucceeded <==>
              if Executes(input, DELETION_STEP) then DeletionSucceeds(input) else IsHealed(input.history)
    ensures !Executes(input, DELETION_STEP) && !IsHealed(input.history) ==> FrozenResult(input).status == StatusPartial
  {
    hide AroundStep, Freezing, LatestOwn, Resources, IsHealed, FoldSteps, StepStarted, WorkOf, AnyFailed,
         AddedBy, TurnState;
    var lines := Freezing(input).account.lines;
    var a := FrozenAround(input, DELETION_STEP);
    AroundRun(input, DELETION_STEP);
    FrozenStartsAtTurn(input);
    OthersNameNothing(input.history, lines, a);
    if DeletionSucceeds(input) {
      SuccessHealsAccount(input);
    }
    HealedShowsNoFailure(input.history + lines);
    LatestAround(input.history, lines, a, input.run, DELETION_STEP);
    if Executes(input, DELETION_STEP) {
      StepSize(input, TurnState(input, DELETION_STEP), DELETION_STEP);
      SucceededHasNoReasons(input);
    }
  }

  lemma FrozenStartsAtTurn(input: RunInput)
    ensures var a := FrozenAround(input, DELETION_STEP);
      && a.before == TurnState(input, DELETION_STEP).account.lines && a.added == AroundStep(input, DELETION_STEP).added
      && (!Executes(input, DELETION_STEP) ==> a.added == [])
      && (Executes(input, DELETION_STEP) ==> a.added == AddedBy(input, TurnState(input, DELETION_STEP), DELETION_STEP))
  {
    hide Freezing, Walked, AddedBy, Executes;
  }

  lemma SucceededHasNoReasons(input: RunInput)
    requires Executes(input, DELETION_STEP)
    ensures DeletionSucceeds(input) <==>
              EndStatus(WorkOf(input, DeletionStarted(input), DELETION_STEP).end) == Succeeded
  {
    hide DeletionWork, StepStarted;
    SucceedsWithoutReasons(input.context, input.deletion, FailuresSoFar(input, DeletionStarted(input)));
  }
}

module CleanupCampaigns {
  import opened Wrappers
  import opened Ownership
  import opened CleanupRecords
  import opened CleanupActionFold
  import opened CleanupJournals
  import opened SurfaceSweep
  import opened OwnedResourceDeletion
  import opened CleanupRuns
  import opened CleanupRunTheorems
  import opened CleanupHealing

  // The positions of `from` whose lines are still there in `to`.
  ghost predicate IsSelection(kept: seq<nat>, from: seq<Line>, to: seq<Line>) {
    && |kept| == |to|
    && (forall i | 0 <= i < |kept| :: kept[i] < |from| && to[i] == from[kept[i]])
    && (forall i, j | 0 <= i < j < |kept| :: kept[i] < kept[j])
  }

  ghost predicate Survives(to: seq<Line>, from: seq<Line>) {
    exists kept :: IsSelection(kept, from, to)
  }

  ghost function AccountOf(input: RunInput): seq<Line> {
    input.history + RunLines(input)
  }

  ghost function AccountBefore(runs: seq<RunInput>, k: nat): seq<Line>
    requires k < |runs|
  {
    if k == 0 then [] else AccountOf(runs[k - 1])
  }

  // Runs in any modes, each reading what is left of what the run before it read and recorded.
  ghost predicate IsCampaign(runs: seq<RunInput>) {
    forall k | 0 <= k < |runs| :: runs[k].run == k && Survives(runs[k].history, AccountBefore(runs, k))
  }

  // ---------- skipping is sound ----------

  ghost function TerminalLine(input: RunInput, step: nat): Line
    requires 1 <= step <= 11 && Executes(input, step)
  {
    AroundWalked(input, step);
    var added := AroundStep(input, step).added;
    added[|added| - 1]
  }

  ghost predicate EndsSucceeded(input: RunInput, step: nat)
    requires 1 <= step <= 11
  {
    Executes(input, step) && TerminalLine(input, step).body.status == Succeeded
  }

  // The run, if any, that executed the step to success with no execution since.
  ghost function StandingSuccess(runs: seq<RunInput>, k: nat, step: nat): Option<nat>
    requires k <= |runs| && 1 <= step <= 11
  {
    if k == 0 then None
    else if Executes(runs[k - 1], step) then (if EndsSucceeded(runs[k - 1], step) then Some(k - 1) else None)
    else StandingSuccess(runs, k - 1, step)
  }

  lemma {:induction false} StandingMeans(runs: seq<RunInput>, k: nat, step: nat)
    requires k <= |runs| && 1 <= step <= 11
    ensures var j := StandingSuccess(runs, k, step);
      j.Some? ==> j.value < k && EndsSucceeded(runs[j.value], step) &&
                  forall i | j.value < i < k :: !Executes(runs[i], step)
  {
    hide Executes, EndsSucceeded;
    if k > 0 && !Executes(runs[k - 1], step) {
      StandingMeans(runs, k - 1, step);
    }
  }

  // Among the lines of a step, a `succeeded` one can only be the last, and its run's success stands.
  ghost predicate IsSound(lines: seq<Line>, step: nat, standing: Option<nat>) {
    forall i | 0 <= i < |lines| && IsOwn(lines[i], step) && lines[i].body.status == Succeeded ::
      Some(lines[i].run) == standing && forall j | i < j < |lines| :: !IsOwn(lines[j], step)
  }

  lemma LossKeepsSound(from: seq<Line>, to: seq<Line>, step: nat, standing: Option<nat>)
    requires IsSound(from, step, standing) && Survives(to, from)
    ensures IsSound(to, step, standing)
  {
  }

  // A sound history shows a step as succeeded exactly when a `succeeded` line of it is left.
  lemma SoundShowsSuccess(lines: seq<Line>, step: nat, standing: Option<nat>)
    requires IsSound(lines, step, standing)
    ensures HasSucceeded(lines, step) <==>
              exists i | 0 <= i < |lines| :: IsOwn(lines[i], step) && lines[i].body.status == Succeeded
    ensures HasSucceeded(lines, step) ==> standing.Some?
  {
    hide LatestOwn, IsOwn;
    if HasSucceeded(lines, step) {
      var i := LatestIsSomewhere(lines, step);
    }
    if i :| 0 <= i < |lines| && IsOwn(lines[i], step) && lines[i].body.status == Succeeded {
      LastOwnIsLatest(lines, step, i);
    }
  }

  lemma RunKeepsSound(input: RunInput, step: nat, standing: Option<nat>)
    requires 1 <= step <= 9 && IsSound(input.history, step, standing)
    ensures IsSound(AccountOf(input), step,
              if !Executes(input, step) then standing else if EndsSucceeded(input, step) then Some(input.run) else None)
  {
    hide HasSucceeded, RunLines, Walked, AddedBy;
    AroundRun(input, step);
    SoundShowsSuccess(input.history, step, standing);
    var a := RunAround(input, step);
    if Executes(input, step) {
      NewRecordIsSound(input.history, RunLines(input), a, input.run, step);
    } else {
      OldRecordIsSound(input.history, RunLines(input), a, step, standing);
    }
  }

  lemma NewRecordIsSound(history: seq<Line>, lines: seq<Line>, a: Around, run: nat, step: nat)
    requires IsAround(a, lines, step) && IsStepRecord(a.added, run, step)
    requires forall i | 0 <= i < |history| :: !(IsOwn(history[i], step) && history[i].body.status == Succeeded)
    ensures IsSound(history + lines, step, if a.added[|a.added| - 1].body.status == Succeeded then Some(run) else None)
  {
  }

  lemma OldRecordIsSound(history: seq<Line>, lines: seq<Line>, a: Around, step: nat, standing: Option<nat>)
    requires IsAround(a, lines, step) && a.added == [] && IsSound(history, step, standing)
    ensures IsSound(history + lines, step, standing)
  {
  }

  lemma {:induction false} HistoryIsSound(runs: seq<RunInput>, k: nat, step: nat)
    requires IsCampaign(runs) && k < |runs| && 1 <= step <= 9
    ensures IsSound(runs[k].history, step, StandingSuccess(runs, k, step))
  {
    hide IsSound, Executes, EndsSucceeded, Survives, AccountOf;
    assert Survives(runs[k].history, AccountBefore(runs, k));
    if k > 0 {
      HistoryIsSound(runs, k - 1, step);
      RunKeepsSound(runs[k - 1], step, StandingSuccess(runs, k - 1, step));
    } else {
      NothingIsSound(step);
    }
    LossKeepsSound(AccountBefore(runs, k), runs[k].history, step, StandingSuccess(runs, k, step));
  }

  lemma NothingIsSound(step: nat)
    ensures IsSound([], step, None)
  {
  }

  // In any campaign, a run skips one of steps 1 to 9 exactly when a `succeeded` line of the step is
  // left to it, and then an earlier run executed the step to success and none has executed it since.
  lemma SkipIsSound(runs: seq<RunInput>, k: nat, step: nat)
    requires IsCampaign(runs) && k < |runs| && 1 <= step <= 9
    ensures !Executes(runs[k], step) <==>
              exists i | 0 <= i < |runs[k].history| ::
                IsOwn(runs[k].history[i], step) && runs[k].history[i].body.status == Succeeded
    ensures !Executes(runs[k], step) ==>
              exists j | 0 <= j < k :: EndsSucceeded(runs[j], step) && forall i | j < i < k :: !Executes(runs[i], step)
  {
    hide IsSound, EndsSucceeded, HasSucceeded, IsCampaign, StandingSuccess, IsOwn;
    HistoryIsSound(runs, k, step);
    SoundShowsSuccess(runs[k].history, step, StandingSuccess(runs, k, step));
    StandingMeans(runs, k, step);
  }

  // Executing a step is what leaves its lines in the run.
  lemma ExecutionLeavesLines(input: RunInput, step: nat)
    requires 1 <= step <= 11
    ensures Executes(input, step) <==> !NoOwn(RunLines(input), step)
  {
    hide Executes, RunLines, Walked, AddedBy, AroundStep;
    AroundRun(input, step);
    var a, lines := RunAround(input, step), RunLines(input);
    if Executes(input, step) {
      assert lines[|a.before|] == a.added[0];
    } else {
      NoAddedNoOwn(input, step);
      assert lines == a.before + a.after;
    }
  }

  lemma NoAddedNoOwn(input: RunInput, step: nat)
    requires 1 <= step <= 11 && !Executes(input, step)
    ensures RunAround(input, step).added == []
  {
  }

  // ---------- healing lasts while the healing lines do ----------

  // A loss that spares every step-9 line except failed deletions.
  ghost predicate SparesDeletionLines(kept: seq<nat>, from: seq<Line>) {
    forall p | 0 <= p < |from| && from[p].body.step == DELETION_STEP && !IsFailure(from[p]) :: p in kept
  }

  ghost predicate IsSpared(to: seq<Line>, from: seq<Line>) {
    exists kept :: IsSelection(kept, from, to) && SparesDeletionLines(kept, from)
  }

  ghost predicate ShowsDeletionDone(lines: seq<Line>) {
    HasSucceeded(lines, DELETION_STEP) && IsHealed(lines)
  }

  lemma SparedStaysDone(from: seq<Line>, to: seq<Line>)
    requires ShowsDeletionDone(from) && IsSpared(to, from)
    ensures ShowsDeletionDone(to)
  {
    hide HasSucceeded, IsHealed;
    var kept :| IsSelection(kept, from, to) && SparesDeletionLines(kept, from);
    SparedStaysSucceeded(kept, from, to);
    SparedStaysHealed(kept, from, to);
  }

  lemma SparedStaysSucceeded(kept: seq<nat>, from: seq<Line>, to: seq<Line>)
    requires IsSelection(kept, from, to) && HasSucceeded(from, DELETION_STEP)
    requires forall p | 0 <= p < |from| && IsOwn(from[p], DELETION_STEP) :: p in kept
    ensures HasSucceeded(to, DELETION_STEP)
  {
    hide LatestOwn;
    var p := LatestIsSomewhere(from, DELETION_STEP);
    var i :| 0 <= i < |kept| && kept[i] == p;
    assert NoOwnAfter(to, i, DELETION_STEP);
    LastOwnIsLatest(to, DELETION_STEP, i);
  }

  lemma SparedStaysHealed(kept: seq<nat>, from: seq<Line>, to: seq<Line>)
    requires IsSelection(kept, from, to) && SparesDeletionLines(kept, from) && IsHealed(from)
    ensures IsHealed(to)
  {
    hide ResourceOf, FoldedKey, IsHealed;
    forall i | 0 <= i < |to| && IsFailure(to[i])
      ensures exists j | i < j < |to| :: IsAbout(to[j], FoldedKey(ResourceOf(to[i]).value))
    {
      var key := FoldedKey(ResourceOf(to[i]).value);
      var p := HealingLine(from, kept[i], key);
      AboutIsDeletion(from[p], key);
      var j :| 0 <= j < |kept| && kept[j] == p;
      assert j > i && to[j] == from[p];
    }
    assert IsHealed(to) by {
      HealedByParts(to);
    }
  }

  lemma HealedByParts(lines: seq<Line>)
    requires forall i | 0 <= i < |lines| && IsFailure(lines[i]) ::
      exists j | i < j < |lines| :: IsAbout(lines[j], FoldedKey(ResourceOf(lines[i]).value))
    ensures IsHealed(lines)
  {
  }

  lemma AboutIsDeletion(line: Line, key: string)
    requires IsAbout(line, key)
    ensures line.body.step == DELETION_STEP
  {
  }

  // The last word on a failed resource of a healed account is no failure.
  lemma {:induction false} HealingLine(lines: seq<Line>, i: nat, key: string) returns (p: nat)
    requires IsHealed(lines) && i < |lines| && IsFailure(lines[i]) && IsAbout(lines[i], key)
    ensures i < p < |lines| && IsAbout(lines[p], key) && !IsFailure(lines[p])
    decreases |lines| - i
  {
    hide ResourceOf, FoldedKey;
    p :| i < p < |lines| && IsAbout(lines[p], key);
    if IsFailure(lines[p]) {
      p := HealingLine(lines, p, key);
    }
  }

  lemma DoneAfterSuccess(input: RunInput)
    requires DeletionSucceeds(input) || (!Executes(input, DELETION_STEP) && IsHealed(input.history))
    ensures ShowsDeletionDone(AccountOf(input))
  {
    hide AddedBy, TurnState, IsHealed, DeletionSucceeds, Executes, RunLines, LatestOwn, Walked, WorkOf;
    AroundRun(input, DELETION_STEP);
    var lines, a := RunLines(input), RunAround(input, DELETION_STEP);
    OthersNameNothing(input.history, lines, a);
    LatestAround(input.history, lines, a, input.run, DELETION_STEP);
    if DeletionSucceeds(input) {
      SuccessHealsAccount(input);
      SucceedingExecutes(input);
      SucceededHasNoReasons(input);
      StepSize(input, TurnState(input, DELETION_STEP), DELETION_STEP);
    } else {
      SkippingShows(input);
    }
  }

  lemma SucceedingExecutes(input: RunInput)
    requires DeletionSucceeds(input)
    ensures Executes(input, DELETION_STEP)
  {
  }

  lemma SkippingShows(input: RunInput)
    ensures !Executes(input, DELETION_STEP) <==> HasSucceeded(input.history, DELETION_STEP)
  {
  }

  // Once step 9 succeeds, every later run skips it and freezes `succeeded`, as long as no step-9 line
  // other than a failed deletion is lost.
  lemma {:induction false} SuccessLasts(runs: seq<RunInput>, h: nat, k: nat)
    requires h <= k < |runs| && DeletionSucceeds(runs[h])
    requires forall i | h < i <= k :: IsSpared(runs[i].history, AccountBefore(runs, i))
    ensures FrozenResult(runs[k]).status == StatusSucceeded
    ensures h < k ==> !Executes(runs[k], DELETION_STEP)
    ensures ShowsDeletionDone(AccountOf(runs[k]))
    decreases k
  {
    hide DeletionSucceeds, FrozenResult, AccountOf, IsSpared, Executes, HasSucceeded, IsHealed;
    StatusExactly(runs[k]);
    if h < k {
      SuccessLasts(runs, h, k - 1);
      assert IsSpared(runs[k].history, AccountBefore(runs, k));
      SparedStaysDone(AccountOf(runs[k - 1]), runs[k].history);
      SkippingShows(runs[k]);
    } else {
      SucceedingExecutes(runs[k]);
    }
    DoneAfterSuccess(runs[k]);
  }

  // ---------- and no longer ----------

  // The positions kept when every resource line but one is lost.
  ghost function AllButResources(lines: seq<Line>, spared: nat, n: nat): seq<nat>
    requires n <= |lines|
  {
    if n == 0 then []
    else
      var before := AllButResources(lines, spared, n - 1);
      if n - 1 == spared || ResourceOf(lines[n - 1]).None? then before + [n - 1] else before
  }

  lemma {:induction false} AllButResourcesIsSelection(lines: seq<Line>, spared: nat, n: nat)
    requires n <= |lines|
    ensures var kept := AllButResources(lines, spared, n);
      && (forall i | 0 <= i < |kept| :: kept[i] < n && (kept[i] == spared || ResourceOf(lines[kept[i]]).None?))
      && (forall i, j | 0 <= i < j < |kept| :: kept[i] < kept[j])
      && (forall p | 0 <= p < n && (p == spared || ResourceOf(lines[p]).None?) :: p in kept)
  {
    hide ResourceOf;
    if n > 0 {
      AllButResourcesIsSelection(lines, spared, n - 1);
    }
  }

  // Losing every resource line but one failed deletion leaves the success standing and the failure unhealed.
  lemma LossUnheals(lines: seq<Line>, p: nat) returns (left: seq<Line>)
    requires HasSucceeded(lines, DELETION_STEP) && p < |lines| && IsFailure(lines[p])
    ensures Survives(left, lines) && HasSucceeded(left, DELETION_STEP) && !IsHealed(left)
  {
    hide HasSucceeded, FoldedKey, ResourceOf;
    var kept := AllButResources(lines, p, |lines|);
    AllButResourcesIsSelection(lines, p, |lines|);
    left := seq(|kept|, i requires 0 <= i < |kept| => lines[kept[i]]);
    assert IsSelection(kept, lines, left);
    forall q | 0 <= q < |lines| && IsOwn(lines[q], DELETION_STEP)
      ensures q in kept
    {
      OwnNamesNothing(lines[q], DELETION_STEP);
    }
    SparedStaysSucceeded(kept, lines, left);
    var i :| 0 <= i < |kept| && kept[i] == p;
    assert left[i] == lines[p];
    forall j | i < j < |left|
      ensures ResourceOf(left[j]).None?
    {
      assert left[j] == lines[kept[j]];
    }
  }

  lemma {:induction false} QuietSweep(answers: SurfaceAnswers, n: nat)
    requires n <= |SURFACES| && forall surface :: answers.query(surface) == Listed([])
    ensures Sighted(SweepUpTo(answers, n)) == [] && Troubles(SweepUpTo(answers, n)) == []
  {
    if n > 0 {
      QuietSweep(answers, n - 1);
      var before, last := SweepUpTo(answers, n - 1), SightingOf(answers, SURFACES[n - 1]);
      assert SweepUpTo(answers, n)[..n - 1] == before && last == Sighting(true, [], []);
    }
  }

  // With nothing left on any surface, only the recorded stack decides the step.
  lemma QuietWork(context: Context, answers: DeletionAnswers, earlier: seq<FoldedResource>)
    requires context.stackId.Some? && (forall surface :: answers.surfaces.query(surface) == Listed([]))
    requires !DeleteStackAndWait(answers).StackCallThrew?
    ensures var work, end := DeletionWork(context, answers, earlier), DeleteStackAndWait(answers);
      && |work.items| > 0 && work.items[0] == StackItem(context.stackId.value, end)
      && work.end == OutcomeOf(if end.StackNotDeleted? then [end.code] else [])
  {
    hide DeleteStackAndWait, VanishedUpTo, EverySurfaceAnswered, StackItem;
    QuietSweep(answers.surfaces, |SURFACES|);
    var stack := StackWork(context.stackId, answers);
    assert stack.failures + [] + [] == stack.failures;
  }

  // A run whose stack is still there and may not be deleted, or is already gone.
  ghost function QuietRun(run: nat, history: seq<Line>, gone: bool): RunInput {
    RunInput(
      run, Normal, history, [],
      Context("run", "study", [], Some("stack"), ProvisioningPartial, {}, 0, {}, [], [], [], []),
      _ => PortWork([], Reported(Succeeded, [])),
      DeletionAnswers(
        Answered(if gone then StackAbsent else StackPresent("CREATE_COMPLETE")),
        Answered(Some("ACCESS_DENIED")),
        _ => Answered(StackAbsent),
        SurfaceAnswers(_ => Listed([]), _ => Absent),
        _ => Answered(ResourceAbsent)),
      Answered(Audit([], Clean)),
      Appends(_ => true, _ => 0))
  }

  lemma QuietRunEnds(input: RunInput, gone: bool)
    requires input == QuietRun(input.run, input.history, gone)
    ensures var work := WorkOf(input, DeletionStarted(input), DELETION_STEP);
      && work.end == OutcomeOf(if gone then [] else ["ACCESS_DENIED"])
      && |work.items| > 0
      && work.items[0] == StackItem("stack", if gone then StackAlreadyAbsent else StackNotDeleted("ACCESS_DENIED"))
  {
    hide StepStarted, TurnState, Resources;
    assert "CREATE_COMPLETE"[0] != "DELETE_COMPLETE"[0];
    QuietWork(input.context, input.deletion, FailuresSoFar(input, DeletionStarted(input)));
  }

  // The stack's failed deletion is on record after the first run, which does not succeed.
  lemma FirstRunFails(input: RunInput) returns (p: nat)
    requires input == QuietRun(0, [], false)
    ensures p < |RunLines(input)| && IsFailure(RunLines(input)[p]) && !HasSucceeded(AccountOf(input), DELETION_STEP)
  {
    hide AddedBy, TurnState, LatestOwn, RunLines, WorkOf, IsFailure, QuietRun, DeletionStarted, AroundStep, Walked,
         IsStepRecord, ItemBody, StepStarted, StackItem;
    assert input.history == [] && input.run == 0 by {
      QuietHistory(0, [], false);
    }
    QuietRunEnds(input, false);
    SkippingShows(input);
    NothingSucceeded();
    AroundRun(input, DELETION_STEP);
    var a, added := RunAround(input, DELETION_STEP), AddedBy(input, TurnState(input, DELETION_STEP), DELETION_STEP);
    ExecutedAdds(input);
    StepSize(input, TurnState(input, DELETION_STEP), DELETION_STEP);
    assert added[|added| - 1].body.status == Failed by {
      DeletionStartedIs(input);
    }
    LatestAround(input.history, RunLines(input), a, input.run, DELETION_STEP);
    DeletionLines(input, 0);
    FailedItemFails(added[1], FrameOf(input, DELETION_STEP), "stack", "ACCESS_DENIED");
    p := |a.before| + 1;
    assert RunLines(input)[p] == a.added[1];
  }

  lemma QuietHistory(run: nat, history: seq<Line>, gone: bool)
    ensures QuietRun(run, history, gone).history == history && QuietRun(run, history, gone).run == run
  {
  }

  lemma DeletionStartedIs(input: RunInput)
    ensures DeletionStarted(input) == StepStarted(input, TurnState(input, DELETION_STEP), DELETION_STEP)
  {
  }

  lemma ExecutedAdds(input: RunInput)
    requires Executes(input, DELETION_STEP)
    ensures AroundStep(input, DELETION_STEP).added == AddedBy(input, TurnState(input, DELETION_STEP), DELETION_STEP)
  {
  }

  lemma FailedItemFails(line: Line, frame: Frame, stackId: string, code: string)
    requires line.body == ItemBody(frame, StackItem(stackId, StackNotDeleted(code))) && frame.step == DELETION_STEP
    ensures IsFailure(line)
  {
  }

  lemma NothingSucceeded()
    ensures !HasSucceeded([], DELETION_STEP)
  {
  }

  lemma WholeSurvives(lines: seq<Line>)
    ensures Survives(lines, lines)
  {
    var kept := seq(|lines|, i requires 0 <= i < |lines| => i);
    assert IsSelection(kept, lines, lines);
  }

  // Success is forgotten: the first run fails to delete the stack, the second finds it gone and
  // succeeds, the line that says so is lost, and the third run skips step 9 and freezes `partial`.
  lemma SuccessCanBeForgotten() returns (runs: seq<RunInput>)
    ensures IsCampaign(runs) && |runs| == 3
    ensures DeletionSucceeds(runs[1]) && FrozenResult(runs[1]).status == StatusSucceeded
    ensures !Executes(runs[2], DELETION_STEP) && FrozenResult(runs[2]).status == StatusPartial
  {
    hide RunLines, HasSucceeded, IsFailure, FrozenResult, WorkOf, IsHealed, Survives;
    var first := QuietRun(0, [], false);
    var p := FirstRunFails(first);
    var second := QuietRun(1, AccountOf(first), true);
    SkippingShows(second);
    QuietRunEnds(second, true);
    StatusExactly(second);
    DoneAfterSuccess(second);
    assert AccountOf(second)[p] == RunLines(first)[p];
    var left := LossUnheals(AccountOf(second), p);
    var third := QuietRun(2, left, true);
    SkippingShows(third);
    StatusExactly(third);
    WholeSurvives([]);
    WholeSurvives(AccountOf(first));
    runs := [first, second, third];
  }
}
