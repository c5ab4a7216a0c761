// What a run's frozen result says about how each step ended, the audit, the deletions and the whole.
module CleanupResults {
  import opened Wrappers
  import opened OrderedMaps
  import opened CleanupRecords
  import opened CleanupActionFold
  import opened CleanupJournals
  import opened OwnedResourceDeletion
  import opened CleanupRuns
  import opened CleanupRunTheorems
  import opened CleanupHealing
  import opened DeletionTheorems

  // ---------- how each step ended ----------

  predicate IsStepsOwn(reason: Reason) {
    reason.FromStep?
  }

  ghost predicate HoldsNoStepReason(reasons: seq<Reason>) {
    forall i | 0 <= i < |reasons| :: !IsStepsOwn(reasons[i])
  }

  // The status the step ended with and, among the reasons, exactly its codes; a step that threw failed.
  ghost predicate TellsEnd(status: StepStatus, reasons: seq<Reason>, end: StepEnd) {
    match end
    case Reported(reported, codes) =>
      status == reported && forall code :: FromStep(code) in reasons <==> code in codes
    case StepThrew =>
      status == Failed && forall code :: FromStep(code) in reasons <==> code == "STEP_FAILED_UNEXPECTEDLY"
  }

  lemma TerminalLineTells(input: RunInput, st: RunState, step: nat)
    requires PendsOnlyStop(st.account) && HoldsNoStepReason(st.carried)
    ensures var added, end := AddedBy(input, st, step), WorkOf(input, StepStarted(input, st, step), step).end;
      && |added| >= 2 && TellsEnd(added[|added| - 1].body.status, added[|added| - 1].body.reasons, end)
  {
    hide WorkOf, RecordedItems, StepRecorded, StepWorked, AddedBy, TellsEnd, EndReasons, EndStatus;
    var started := StepStarted(input, st, step);
    var work := WorkOf(input, started, step);
    var worked := StepWorked(input, started, step);
    TerminalBody(input, st, step);
    OthersAreNotTheSteps(input, st, step);
    EndIsTold(work.end, worked.carried + Pending(worked.account));
  }

  lemma TerminalBody(input: RunInput, st: RunState, step: nat)
    ensures var started, added := StepStarted(input, st, step), AddedBy(input, st, step);
      var worked, end := StepWorked(input, started, step), WorkOf(input, started, step).end;
      && |added| >= 2 && added[|added| - 1].body.status == EndStatus(end)
      && added[|added| - 1].body.reasons == EndReasons(end) + (worked.carried + Pending(worked.account))
  {
    hide WorkOf, RecordedItems, EndReasons;
    StepSize(input, st, step);
  }

  lemma OthersAreNotTheSteps(input: RunInput, st: RunState, step: nat)
    requires PendsOnlyStop(st.account) && HoldsNoStepReason(st.carried)
    ensures var worked := StepWorked(input, StepStarted(input, st, step), step);
      HoldsNoStepReason(worked.carried + Pending(worked.account))
  {
    hide WorkOf, RecordedItems;
    var started := StepStarted(input, st, step);
    var items := WorkOf(input, started, step).items;
    ItemLinesConserve(started.account, FrameOf(input, step), items, input.appends, FromHistory(0, 0, ""));
  }

  lemma EndIsTold(end: StepEnd, others: seq<Reason>)
    requires HoldsNoStepReason(others)
    ensures TellsEnd(EndStatus(end), EndReasons(end) + others, end)
  {
    var reasons := EndReasons(end) + others;
    forall code
      ensures FromStep(code) in reasons <==> FromStep(code) in EndReasons(end)
    {
    }
    if end.Reported? {
      WrappedExactly(end.reasons);
    }
  }

  lemma WrappedExactly(codes: seq<string>)
    ensures forall code :: FromStep(code) in Wrapped(codes) <==> code in codes
  {
    forall code
      ensures FromStep(code) in Wrapped(codes) <==> code in codes
    {
      if code in codes {
        var i :| 0 <= i < |codes| && codes[i] == code;
        assert Wrapped(codes)[i] == FromStep(code);
      }
    }
  }

  lemma {:induction false} WalkCarriesNoStepReason(input: RunInput, n: nat)
    requires n <= 12
    ensures HoldsNoStepReason(Walked(input, n).carried)
  {
    hide StepRan, IsDue;
    if n > 0 {
      WalkCarriesNoStepReason(input, n - 1);
      RanCarriesNothing(input, Walked(input, n - 1), StepOrder(input.mode)[n - 1]);
    }
  }

  // How the step ends in this run, in the state its turn finds.
  ghost function EndOf(input: RunInput, step: nat): StepEnd
    requires 1 <= step <= 11
  {
    WorkOf(input, StepStarted(input, TurnState(input, step), step), step).end
  }

  // A step this run executed shows in the frozen result the status it ended with and, of its own
  // reasons, exactly its codes.
  lemma StepShowsItsEnd(input: RunInput, step: nat)
    requires 1 <= step <= 11 && Executes(input, step)
    ensures var steps := FrozenResult(input).steps;
      |steps| == 12 && TellsEnd(steps[step - 1].status, steps[step - 1].reasons, EndOf(input, step))
  {
    hide Executes, FrozenResult, AddedBy, Walked, WorkOf, StepStarted, TellsEnd;
    var turn := TurnOf(input.mode, step);
    WalkConserves(input, turn, FromHistory(0, 0, ""));
    WalkCarriesNoStepReason(input, turn);
    TerminalLineTells(input, TurnState(input, step), step);
    ExecutedStepAdds(input, step);
    FrozenResultIsComplete(input);
    assert ShowsThisRun(input, step, FrozenResult(input).steps);
  }

  lemma ExecutedStepAdds(input: RunInput, step: nat)
    requires 1 <= step <= 11 && Executes(input, step)
    ensures AroundStep(input, step).added == AddedBy(input, TurnState(input, step), step)
  {
  }

  // Steps 1 to 8 end as their ports say.
  lemma PortStepShowsItsEnd(input: RunInput, step: nat)
    requires 1 <= step <= 8 && Executes(input, step)
    ensures var steps := FrozenResult(input).steps;
      |steps| == 12 && TellsEnd(steps[step - 1].status, steps[step - 1].reasons, input.works(step).end)
  {
    hide Executes, FrozenResult, TurnState, StepStarted, TellsEnd;
    StepShowsItsEnd(input, step);
  }

  // ---------- the audit ----------

  // Every surface answered in every pass, and there was a pass.
  ghost predicate IsFullyAnswered(audit: Answer<Audit>) {
    && audit.Answered? && audit.value.passes != []
    && forall p, i | 0 <= p < |audit.value.passes| && 0 <= i < |audit.value.passes[p]| :: audit.value.passes[p][i]
  }

  ghost predicate IsClean(audit: Answer<Audit>) {
    audit.Answered? && audit.value.status == Clean
  }

  ghost predicate ShowsCode(entry: FoldedStep, code: string) {
    FromStep(code) in entry.reasons
  }

  lemma AuditTakesItsTurn(input: RunInput)
    ensures TurnState(input, 11).audit == (if input.audit.Answered? then input.audit.value else NOT_AUDITED)
  {
    hide HasSucceeded, WorkOf, RecordedItems, Recorded;
    var before := Walked(input, 9);
    assert StepOrder(input.mode)[9] == 10;
    assert Walked(input, 10) == StepRan(input, before, 10);
    assert TurnOf(input.mode, 11) == 10;
  }

  // The frozen result shows step 10 succeeded exactly when the audit answered with at least one pass and
  // every surface in every pass, and step 11 exactly when the audit is clean; otherwise each shows its
  // reason. An audit that threw is a reason too.
  lemma AuditShowsExactly(input: RunInput)
    ensures var steps := FrozenResult(input).steps;
      && |steps| == 12
      && steps[9].status == (if IsFullyAnswered(input.audit) then Succeeded else Failed)
      && (ShowsCode(steps[9], "LEAK_AUDIT_QUERY_FAILED") <==> !IsFullyAnswered(input.audit))
      && steps[10].status == (if IsClean(input.audit) then Succeeded else Failed)
      && (ShowsCode(steps[10], "STABLE_ABSENCE_NOT_PROVEN") <==> !IsClean(input.audit))
  {
    hide FrozenResult, EndOf, Executes, IsFullyAnswered, IsClean, TellsEnd, OutcomeOf, AuditOutcome,
         StableAbsenceOutcome;
    AuditAlwaysRuns(input);
    StepShowsItsEnd(input, 10);
    StepShowsItsEnd(input, 11);
    AuditEnds(input);
    AuditAnsweredExactly(input.audit);
    var steps := FrozenResult(input).steps;
    OneCodeTold(steps[9], IsFullyAnswered(input.audit), "LEAK_AUDIT_QUERY_FAILED");
    OneCodeTold(steps[10], IsClean(input.audit), "STABLE_ABSENCE_NOT_PROVEN");
  }

  lemma OneCodeTold(entry: FoldedStep, well: bool, code: string)
    requires TellsEnd(entry.status, entry.reasons, OutcomeOf(if well then [] else [code]))
    ensures entry.status == (if well then Succeeded else Failed) && (ShowsCode(entry, code) <==> !well)
  {
  }

  lemma AuditAlwaysRuns(input: RunInput)
    ensures Executes(input, 10) && Executes(input, 11)
  {
  }

  lemma AuditEnds(input: RunInput)
    ensures var taken := if input.audit.Answered? then input.audit.value else NOT_AUDITED;
      EndOf(input, 10) == AuditOutcome(taken) && EndOf(input, 11) == StableAbsenceOutcome(taken)
  {
    hide TurnState, Recorded, AuditOutcome, StableAbsenceOutcome;
    AuditTakesItsTurn(input);
  }

  lemma AuditAnsweredExactly(audit: Answer<Audit>)
    ensures var taken := if audit.Answered? then audit.value else NOT_AUDITED;
      && AuditOutcome(taken) == OutcomeOf(if IsFullyAnswered(audit) then [] else ["LEAK_AUDIT_QUERY_FAILED"])
      && StableAbsenceOutcome(taken) == OutcomeOf(if IsClean(audit) then [] else ["STABLE_ABSENCE_NOT_PROVEN"])
  {
  }

  // An audit that threw leaves its reason on step 10.
  lemma ThrownAuditShows(input: RunInput)
    requires input.audit.Threw?
    ensures var steps := FrozenResult(input).steps; |steps| == 12 && AuditThrew in steps[9].reasons
  {
    hide FrozenResult, TurnState, RecordedItems, WorkOf;
    var st := TurnState(input, 10);
    var started := StepStarted(input, st, 10);
    StepSize(input, st, 10);
    var added, worked := AddedBy(input, st, 10), StepWorked(input, started, 10);
    var end := WorkOf(input, started, 10).end;
    assert AuditThrew in worked.carried;
    assert added[|added| - 1].body.reasons == EndReasons(end) + worked.carried + Pending(worked.account);
    ExecutedStepAdds(input, 10);
    FrozenResultIsComplete(input);
    assert ShowsThisRun(input, 10, FrozenResult(input).steps);
  }

  // ---------- the whole ----------

  // The status is `partial` exactly when some failed deletion in the account is the last word on its
  // resource, `succeeded` exactly when none is and step 9 stands as succeeded, and `failed` otherwise.
  lemma StatusOfEachKind(input: RunInput)
    ensures var result, account := FrozenResult(input), input.history + Freezing(input).account.lines;
      && |result.steps| == 12
      && result.status == (if !IsHealed(account) then StatusPartial
                           else if result.steps[8].status == Succeeded then StatusSucceeded
                           else StatusFailed)
  {
    hide Freezing, Resources, IsHealed, FoldSteps, AnyFailed, LatestOwn, LatestStart;
    var lines := input.history + Freezing(input).account.lines;
    HealedShowsNoFailure(lines);
    EntryOf(input, 9);
    TerminalBeforeFreeze(input, 9);
    StatusIsEntrys(input);
  }

  lemma StatusIsEntrys(input: RunInput)
    ensures var result, lines := FrozenResult(input), input.history + Freezing(input).account.lines;
      |result.steps| == 12 && StatusOf(lines, 9) == Some(result.steps[8].status)
  {
    hide Freezing, Resources, FoldSteps, LatestOwn, LatestStart, FrozenResult, Executes, AroundStep;
    FrozenResultIsComplete(input);
    TerminalBeforeFreeze(input, 9);
    if Executes(input, 9) {
      assert ShowsThisRun(input, 9, FrozenResult(input).steps);
    } else {
      assert ShowsHistory(input, 9, FrozenResult(input).steps);
    }
  }

  // ---------- every line's stamp ----------

  // Every line carries the run, its mode and the time the journal gave its position.
  ghost predicate IsStamped(lines: seq<Line>, input: RunInput) {
    forall i | 0 <= i < |lines| ::
      lines[i].run == input.run && lines[i].body.mode == input.mode && lines[i].at == input.appends.at(i)
  }

  lemma {:induction false} ItemsAreStamped(account: Account, input: RunInput, step: nat, items: seq<Item>)
    requires IsStamped(account.lines, input)
    ensures IsStamped(RecordedItems(account, FrameOf(input, step), items, input.appends).lines, input)
  {
    hide Wrapped;
    if items != [] {
      ItemsAreStamped(account, input, step, items[..|items| - 1]);
    }
  }

  lemma StepIsStamped(input: RunInput, st: RunState, step: nat)
    requires IsStamped(st.account.lines, input)
    ensures IsStamped(StepRan(input, st, step).account.lines, input)
  {
    hide WorkOf, RecordedItems, EndReasons, Pending;
    var started := StepStarted(input, st, step);
    assert IsStamped(started.account.lines, input);
    ItemsAreStamped(started.account, input, step, WorkOf(input, started, step).items);
  }

  lemma {:induction false} WalkIsStamped(input: RunInput, n: nat)
    requires n <= 12
    ensures IsStamped(Walked(input, n).account.lines, input)
  {
    hide StepRan, IsDue;
    if n > 0 {
      hide IsStamped;
      WalkIsStamped(input, n - 1);
      StepIsStamped(input, Walked(input, n - 1), StepOrder(input.mode)[n - 1]);
    }
  }

  lemma LinesAreStamped(input: RunInput)
    ensures IsStamped(RunLines(input), input)
  {
    hide Walked, Pending, EndReasons;
    WalkIsStamped(input, 12);
  }

  // The run's last line tells how the freeze went.
  lemma FreezeIsTold(input: RunInput)
    ensures var lines := RunLines(input);
      && |lines| >= 2 && IsOwn(lines[|lines| - 1], 12)
      && TellsEnd(lines[|lines| - 1].body.status, lines[|lines| - 1].body.reasons, input.works(12).end)
  {
    hide Walked, EndReasons, EndStatus, TellsEnd;
    WalkConserves(input, 12, FromHistory(0, 0, ""));
    NothingCarriedToFreeze(input);
    var lines, end, frozen := RunLines(input), input.works(12).end, Freezing(input);
    assert lines[|lines| - 1].body.reasons == EndReasons(end) + (frozen.carried + Pending(frozen.account));
    EndIsTold(end, frozen.carried + Pending(frozen.account));
  }

  // ---------- what the result shows of a resource ----------

  function ShownAs(item: Item): FoldedResource
    requires item.action.OnResource? && item.basis.Some?
  {
    FoldedResource(item.resourceType, item.identifier, item.basis.value, item.action.what, Wrapped(item.reasons))
  }

  ghost function DeletionItems(input: RunInput): seq<Item> {
    WorkOf(input, DeletionStarted(input), DELETION_STEP).items
  }

  // The last item step 9 recorded about a resource in this run is what the frozen result shows of it.
  lemma ResultShowsItem(input: RunInput, k: nat)
    requires Executes(input, DELETION_STEP) && k < |DeletionItems(input)|
    requires DeletionItems(input)[k].action.OnResource? && DeletionItems(input)[k].basis.Some?
    requires forall j | k < j < |DeletionItems(input)| ::
               ItemKey(DeletionItems(input)[j]) != ItemKey(DeletionItems(input)[k])
    ensures Get(FrozenResult(input).resources, ItemKey(DeletionItems(input)[k]))
        == Some(ShownAs(DeletionItems(input)[k]))
  {
    hide Freezing, Executes, AddedBy, TurnState, WorkOf, Wrapped, ItemKey, Get, ResourcesUpTo, FoldSteps, DeriveStatus,
         ResourceOf, IsAbout, AroundStep, ItemBody;
    var items, key := DeletionItems(input), ItemKey(DeletionItems(input)[k]);
    var frozen, a := Freezing(input).account.lines, FrozenAround(input, DELETION_STEP);
    var account := input.history + frozen;
    AroundRun(input, DELETION_STEP);
    FrozenStartsAtTurn(input);
    var at := |input.history| + |a.before| + 1 + k;
    DeletionLines(input, k);
    assert account[at] == a.added[k + 1];
    ItemIsAbout(account[at], FrameOf(input, DELETION_STEP), items[k]);
    forall i | at < i < |account|
      ensures !IsAbout(account[i], key)
    {
      LaterIsAboutOthers(input, account, a, k, i);
    }
    LatestLineWins(account, |account|, key);
    LatestIsThis(account, key, at, Get(Resources(account), key));
  }

  lemma ItemIsAbout(line: Line, frame: Frame, item: Item)
    requires line.body == ItemBody(frame, item) && frame.step == DELETION_STEP
    requires item.action.OnResource? && item.basis.Some?
    ensures ResourceOf(line) == Some(ShownAs(item)) && IsAbout(line, ItemKey(item))
  {
  }

  lemma ItemIsAboutItsOwn(line: Line, frame: Frame, item: Item, key: string)
    requires line.body == ItemBody(frame, item) && ItemKey(item) != key
    ensures !IsAbout(line, key)
  {
  }

  lemma LaterIsAboutOthers(input: RunInput, account: seq<Line>, a: Around, k: nat, i: nat)
    requires Executes(input, DELETION_STEP) && k < |DeletionItems(input)|
    requires forall j | k < j < |DeletionItems(input)| ::
               ItemKey(DeletionItems(input)[j]) != ItemKey(DeletionItems(input)[k])
    requires account == input.history + (a.before + a.added + a.after) && i < |account|
    requires a.added == AddedBy(input, TurnState(input, DELETION_STEP), DELETION_STEP)
    requires |input.history| + |a.before| + 1 + k < i
    requires forall j | 0 <= j < |a.after| :: a.after[j].body.step != DELETION_STEP
    ensures !IsAbout(account[i], ItemKey(DeletionItems(input)[k]))
  {
    hide Executes, AddedBy, TurnState, WorkOf, ItemKey, ItemBody, ResourceOf, IsAbout;
    var key, base := ItemKey(DeletionItems(input)[k]), |input.history| + |a.before|;
    StepAdds(input, TurnState(input, DELETION_STEP), DELETION_STEP);
    StepSize(input, TurnState(input, DELETION_STEP), DELETION_STEP);
    var j := i - base;
    if j < |a.added| - 1 {
      DeletionLines(input, j - 1);
      assert account[i] == a.added[j];
      ItemIsAboutItsOwn(account[i], FrameOf(input, DELETION_STEP), DeletionItems(input)[j - 1], key);
    } else {
      assert account[i] == (if j < |a.added| then a.added[j] else a.after[j - |a.added|]);
      OwnNamesNothing(account[i], DELETION_STEP);
      AboutNeedsName(account[i], key);
    }
  }

  lemma AboutNeedsName(line: Line, key: string)
    requires ResourceOf(line).None?
    ensures !IsAbout(line, key)
  {
  }

  lemma LatestIsThis(lines: seq<Line>, key: string, at: nat, entry: Option<FoldedResource>)
    requires at < |lines| && IsAbout(lines[at], key) && forall i | at < i < |lines| :: !IsAbout(lines[i], key)
    requires ShowsLatest(lines, |lines|, key, entry)
    ensures entry == ResourceOf(lines[at])
  {
    hide ResourceOf, IsAbout;
    if entry.Some? {
      var n := |lines|;
      var i :| 0 <= i < n && IsLatestAbout(lines, n, key, i) && ResourceOf(lines[i]) == entry;
      assert i == at;
    }
  }
}
