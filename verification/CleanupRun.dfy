// One cleanup run: study-1/src/cleanup/cleanup-orchestrator.ts, with the step outcomes of
// cleanup-step-dispatch.ts and the result of cleanup-result.ts. Everything the ports and the
// journal writer answer is part of the input, so a statement about every input covers every run.
module CleanupRuns {
  import opened Wrappers
  import opened OrderedMaps
  import opened Ownership
  import opened CleanupRecords
  import opened CleanupActionFold
  import opened CleanupJournals
  import opened OwnedResourceDeletion

  datatype AuditStatus = Clean | LeaksDetected | Inconclusive

  // Each pass lists which surfaces answered.
  datatype Audit = Audit(passes: seq<seq<bool>>, status: AuditStatus)

  const NOT_AUDITED := Audit([], Inconclusive)

  // What the ports do in a step other than 9, 10 and 11.
  datatype PortWork = PortWork(items: seq<Item>, end: StepEnd)

  datatype RunInput = RunInput(
    run: nat,
    mode: Mode,
    history: seq<Line>,
    findings: seq<string>,
    context: Context,
    works: nat -> PortWork,
    deletion: DeletionAnswers,
    audit: Answer<Audit>,
    appends: Appends)

  datatype RunState = RunState(account: Account, carried: seq<Reason>, audit: Audit)

  datatype CleanupResult = CleanupResult(
    status: CleanupStatus,
    steps: seq<FoldedStep>,
    resources: Entries<string, FoldedResource>)

  function Findings(run: nat, codes: seq<string>): (f: seq<Reason>)
    ensures |f| == |codes|
    ensures forall i | 0 <= i < |codes| :: f[i] == FromHistory(run, i, codes[i])
  {
    if codes == [] then []
    else Findings(run, codes[..|codes| - 1]) + [FromHistory(run, |codes| - 1, codes[|codes| - 1])]
  }

  function Start(input: RunInput): RunState {
    RunState(Account([], None, false), Findings(input.run, input.findings), NOT_AUDITED)
  }

  function FrameOf(input: RunInput, step: nat): Frame {
    Frame(input.run, input.mode, step)
  }

  // A step line takes the waiting journal refusal, and a terminal one all carried reasons.
  function StepRecorded(input: RunInput, st: RunState, step: nat, status: StepStatus, reasons: seq<Reason>): RunState {
    var carried := if status == Started then [] else st.carried;
    var body := StepBody(FrameOf(input, step), status, reasons + carried + Pending(st.account));
    RunState(Recorded(st.account.(pending := None), input.run, body, input.appends),
             if status == Started then st.carried else [], st.audit)
  }

  predicate AllAnswered(pass: seq<bool>) {
    forall i | 0 <= i < |pass| :: pass[i]
  }

  function AuditOutcome(audit: Audit): StepEnd {
    if audit.passes != [] && forall p | 0 <= p < |audit.passes| :: AllAnswered(audit.passes[p])
    then OutcomeOf([]) else OutcomeOf(["LEAK_AUDIT_QUERY_FAILED"])
  }

  function StableAbsenceOutcome(audit: Audit): StepEnd {
    if audit.status == Clean then OutcomeOf([]) else OutcomeOf(["STABLE_ABSENCE_NOT_PROVEN"])
  }

  function AuditTotally(input: RunInput, st: RunState): RunState {
    match input.audit
    case Answered(audit) => st.(audit := audit)
    case Threw => st.(audit := NOT_AUDITED, carried := st.carried + [AuditThrew])
  }

  ghost function FailuresSoFar(input: RunInput, st: RunState): seq<FoldedResource> {
    EarlierDeleteFailures(Resources(input.history + st.account.lines))
  }

  ghost function WorkOf(input: RunInput, st: RunState, step: nat): PortWork {
    if step == 9 then
      var work := DeletionWork(input.context, input.deletion, FailuresSoFar(input, st));
      PortWork(work.items, work.end)
    else if step == 10 then PortWork([], AuditOutcome(AuditTotally(input, st).audit))
    else if step == 11 then PortWork([], StableAbsenceOutcome(st.audit))
    else input.works(step)
  }

  function EndStatus(end: StepEnd): TerminalStatus {
    if end.StepThrew? then Failed else end.status
  }

  function EndReasons(end: StepEnd): seq<Reason> {
    if end.StepThrew? then [FromStep("STEP_FAILED_UNEXPECTEDLY")] else Wrapped(end.reasons)
  }

  ghost function StepStarted(input: RunInput, st: RunState, step: nat): RunState {
    StepRecorded(input, st, step, Started, [])
  }

  ghost function StepWorked(input: RunInput, started: RunState, step: nat): RunState {
    var worked := started.(account :=
      RecordedItems(started.account, FrameOf(input, step), WorkOf(input, started, step).items, input.appends));
    if step == 10 then AuditTotally(input, worked) else worked
  }

  ghost function StepRan(input: RunInput, st: RunState, step: nat): RunState {
    var started := StepStarted(input, st, step);
    var end := WorkOf(input, started, step).end;
    StepRecorded(input, StepWorked(input, started, step), step, EndStatus(end), EndReasons(end))
  }

  ghost predicate IsDue(input: RunInput, st: RunState, step: nat) {
    step != LAST_STEP && MustRun(step, HasSucceeded(input.history + st.account.lines, step))
  }

  ghost function Walked(input: RunInput, n: nat): RunState
    requires n <= 12
  {
    if n == 0 then Start(input)
    else
      var st, step := Walked(input, n - 1), StepOrder(input.mode)[n - 1];
      if IsDue(input, st, step) then StepRan(input, st, step) else st
  }

  ghost function Freezing(input: RunInput): RunState {
    StepStarted(input, Walked(input, 12), LAST_STEP)
  }

  ghost function ResultOf(lines: seq<Line>): CleanupResult {
    CleanupResult(DeriveStatus(StatusOf(lines, DELETION_STEP), Resources(lines)),
                  FoldSteps(lines, LAST_STEP), Resources(lines))
  }

  ghost function FrozenResult(input: RunInput): CleanupResult {
    ResultOf(input.history + Freezing(input).account.lines)
  }

  ghost function Finished(input: RunInput): RunState {
    var end := input.works(LAST_STEP).end;
    StepRecorded(input, Freezing(input), LAST_STEP, EndStatus(end), EndReasons(end))
  }

  ghost function RunLines(input: RunInput): seq<Line> {
    Finished(input).account.lines
  }

  // ---------- the run itself ----------

  class CleanupRun {
    const input: RunInput
    const journal: CleanupJournal
    var carried: seq<Reason>
    var leakAudit: Audit

    ghost predicate Valid()
      reads this, journal
    {
      journal.run == input.run && journal.appends == input.appends
    }

    function View(): RunState
      reads this, journal
    {
      RunState(journal.View(), carried, leakAudit)
    }

    constructor (input: RunInput)
      ensures Valid() && fresh(journal) && this.input == input
      ensures View() == Start(input)
    {
      this.input := input;
      journal := new CleanupJournal(input.run, input.appends);
      carried := Findings(input.run, input.findings);
      leakAudit := NOT_AUDITED;
    }

    method RecordStep(step: nat, status: StepStatus, reasons: seq<Reason>)
      requires Valid()
      modifies this, journal
      ensures Valid() && View() == StepRecorded(input, old(View()), step, status, reasons)
    {
      var attached: seq<Reason> := [];
      if status != Started {
        attached := carried;
        carried := [];
      }
      var failure := journal.TakeFailure();
      journal.Record(StepBody(FrameOf(input, step), status, reasons + attached + failure));
    }

    method RecordItems(step: nat, items: seq<Item>)
      requires Valid()
      modifies journal
      ensures Valid() && carried == old(carried) && leakAudit == old(leakAudit)
      ensures journal.View() == RecordedItems(old(journal.View()), FrameOf(input, step), items, input.appends)
    {
      for n := 0 to |items|
        invariant Valid()
        invariant journal.View() == RecordedItems(old(journal.View()), FrameOf(input, step), items[..n], input.appends)
      {
        assert items[..n + 1][..n] == items[..n];
        journal.Record(ItemBody(FrameOf(input, step), items[n]));
      }
      assert items[..|items|] == items;
    }

    method RunWork(step: nat) returns (end: StepEnd)
      requires Valid()
      modifies this, journal
      ensures Valid() && View() == StepWorked(input, old(View()), step)
      ensures end == WorkOf(input, old(View()), step).end
    {
      if step == 9 {
        var resources := FoldResources(input.history + journal.lines);
        var asked;
        end, asked := DeleteOwnedResources(input.context, input.deletion, EarlierDeleteFailures(resources),
                                       journal, FrameOf(input, step));
      } else if step == 10 {
        match input.audit {
          case Answered(audit) => leakAudit := audit;
          case Threw =>
            carried := carried + [AuditThrew];
            leakAudit := NOT_AUDITED;
        }
        end := AuditOutcome(leakAudit);
      } else if step == 11 {
        end := StableAbsenceOutcome(leakAudit);
      } else {
        RecordItems(step, input.works(step).items);
        end := input.works(step).end;
      }
    }

    method RunStep(step: nat)
      requires Valid()
      modifies this, journal
      ensures Valid() && View() == StepRan(input, old(View()), step)
    {
      RecordStep(step, Started, []);
      var end := RunWork(step);
      RecordStep(step, EndStatus(end), EndReasons(end));
    }

    method Freeze() returns (result: CleanupResult)
      requires Valid() && View() == Walked(input, 12)
      modifies this, journal
      ensures Valid() && View() == Finished(input) && result == FrozenResult(input)
    {
      RecordStep(LAST_STEP, Started, []);
      var lines := input.history + journal.lines;
      var resources := FoldResources(lines);
      result := CleanupResult(DeriveStatus(StatusOf(lines, DELETION_STEP), resources),
                              FoldSteps(lines, LAST_STEP), resources);
      var end := input.works(LAST_STEP).end;
      RecordStep(LAST_STEP, EndStatus(end), EndReasons(end));
    }

    // The whole run records exactly `RunLines` and returns exactly `FrozenResult`.
    method Run() returns (result: CleanupResult)
      requires Valid() && View() == Start(input)
      modifies this, journal
      ensures Valid() && View() == Finished(input) && result == FrozenResult(input)
    {
      hide StepRan, StepOrder, HasSucceeded;
      var order := StepOrder(input.mode);
      for n := 0 to 12
        invariant Valid() && View() == Walked(input, n)
      {
        var step := order[n];
        if step != LAST_STEP && MustRun(step, HasSucceeded(input.history + journal.lines, step)) {
          RunStep(step);
        }
      }
      result := Freeze();
    }
  }
}
