// The cleanup journal's lines and the fold over the lines of every run:
// study-1/src/cleanup/cleanup-steps.ts and cleanup-action-fold.ts.

module CleanupRecords {
  import opened Wrappers
  import opened Ownership

  datatype Mode = Normal | Emergency

  datatype StepStatus = Started | Succeeded | Failed | Skipped

  type TerminalStatus = s: StepStatus | s != Started witness Failed

  datatype ResourceAction = Deleted | AlreadyAbsent | DeleteFailed | SkippedAmbiguous | LeftBaseline

  datatype ItemAction = OnResource(what: ResourceAction) | OtherItem(name: string)

  datatype Action = StepAction(step: nat) | OnItem(item: ItemAction)

  // A reason and where it came from; its wording is not modelled.
  datatype Reason =
    | FromStep(code: string)
    | FromHistory(run: nat, position: nat, code: string)
    | JournalStopped(run: nat)
    | AuditThrew

  datatype Body = Body(
    step: nat,
    status: StepStatus,
    mode: Mode,
    action: Action,
    resourceType: Option<string>,
    identifier: Option<string>,
    basis: Option<Basis>,
    reasons: seq<Reason>)

  // One recorded action. `run` names the run that recorded it (its source instance in the journal).
  datatype Line = Line(run: nat, at: int, body: Body)

  datatype FoldedStep = FoldedStep(
    step: nat,
    status: StepStatus,
    startedAt: Option<int>,
    completedAt: Option<int>,
    reasons: seq<Reason>)

  datatype FoldedResource = FoldedResource(
    resourceType: string,
    identifier: string,
    basis: Basis,
    action: ResourceAction,
    reasons: seq<Reason>)

  const LAST_STEP: nat := 12
  const DELETION_STEP: nat := 9

  const NORMAL_ORDER: seq<nat> := [1, 2, 3, 4, 5, 6, 7, 8, 9, 10, 11, 12]
  const EMERGENCY_ORDER: seq<nat> := [3, 1, 2, 4, 5, 6, 7, 8, 9, 10, 11, 12]

  function StepOrder(mode: Mode): (order: seq<nat>)
    ensures |order| == 12
  {
    if mode == Normal then NORMAL_ORDER else EMERGENCY_ORDER
  }

  predicate AlwaysReruns(step: nat) {
    step == 10 || step == 11 || step == 12
  }

  predicate MustRun(step: nat, succeeded: bool) {
    AlwaysReruns(step) || !succeeded
  }

  // A step's own terminal line.
  predicate IsTerminal(body: Body) {
    body.action == StepAction(body.step) && body.status != Started
  }
}

module CleanupActionFold {
  import opened Wrappers
  import opened OrderedMaps
  import opened ResourceNames
  import opened CleanupRecords

  // ---------- steps ----------

  predicate IsOwn(line: Line, step: nat) {
    line.body.step == step && line.body.action == StepAction(step)
  }

  // The latest own line of a step, and its latest `started` one.
  function LatestOwn(lines: seq<Line>, step: nat): (r: Option<Line>)
    ensures r.Some? ==> r.value in lines && IsOwn(r.value, step)
  {
    if lines == [] then None
    else if IsOwn(lines[|lines| - 1], step) then Some(lines[|lines| - 1])
    else LatestOwn(lines[..|lines| - 1], step)
  }

  function LatestStart(lines: seq<Line>, step: nat): Option<Line> {
    if lines == [] then None
    else if IsOwn(lines[|lines| - 1], step) && lines[|lines| - 1].body.status == Started then Some(lines[|lines| - 1])
    else LatestStart(lines[..|lines| - 1], step)
  }

  function StatusOf(lines: seq<Line>, step: nat): Option<StepStatus> {
    match LatestOwn(lines, step)
    case None => None
    case Some(line) => Some(line.body.status)
  }

  function FoldStep(step: nat, lines: seq<Line>): seq<FoldedStep> {
    match LatestOwn(lines, step)
    case None => []
    case Some(latest) =>
      if latest.body.status == Started then [FoldedStep(step, Started, Some(latest.at), None, [])]
      else
        var start := LatestStart(lines, step);
        [FoldedStep(step, latest.body.status, if start.Some? then Some(start.value.at) else None,
                    Some(latest.at), latest.body.reasons)]
  }

  function FoldSteps(lines: seq<Line>, upTo: nat): seq<FoldedStep> {
    if upTo == 0 then [] else FoldSteps(lines, upTo - 1) + FoldStep(upTo, lines)
  }

  predicate HasSucceeded(lines: seq<Line>, step: nat) {
    StatusOf(lines, step) == Some(Succeeded)
  }

  ghost predicate NoOwn(lines: seq<Line>, step: nat) {
    forall i | 0 <= i < |lines| :: !IsOwn(lines[i], step)
  }

  ghost predicate NoOwnAfter(lines: seq<Line>, i: nat, step: nat) {
    forall j | i < j < |lines| :: !IsOwn(lines[j], step)
  }

  // Appended lines decide when they hold an own line, and change nothing otherwise.
  lemma {:induction false} LatestAfter(lines: seq<Line>, added: seq<Line>, step: nat)
    ensures LatestOwn(lines + added, step) ==
              if LatestOwn(added, step).Some? then LatestOwn(added, step) else LatestOwn(lines, step)
    decreases |added|
  {
    if added == [] {
      assert lines + added == lines;
    } else {
      var n := |added| - 1;
      assert (lines + added)[..|lines + added| - 1] == lines + added[..n];
      LatestAfter(lines, added[..n], step);
    }
  }

  lemma {:induction false} NoOwnHasNoLatest(lines: seq<Line>, step: nat)
    requires NoOwn(lines, step)
    ensures LatestOwn(lines, step) == None
  {
  }

  // An own line with none after it is the latest.
  lemma LastOwnIsLatest(lines: seq<Line>, step: nat, i: nat)
    requires i < |lines| && IsOwn(lines[i], step) && NoOwnAfter(lines, i, step)
    ensures LatestOwn(lines, step) == Some(lines[i])
  {
  }

  lemma LatestOfOwnEnd(lines: seq<Line>, step: nat)
    requires lines != [] && IsOwn(lines[|lines| - 1], step)
    ensures LatestOwn(lines, step) == Some(lines[|lines| - 1])
  {
  }

  lemma {:induction false} LatestIsSomewhere(lines: seq<Line>, step: nat) returns (i: nat)
    requires LatestOwn(lines, step).Some?
    ensures i < |lines| && LatestOwn(lines, step) == Some(lines[i]) && IsOwn(lines[i], step)
    ensures NoOwnAfter(lines, i, step)
  {
    var n := |lines| - 1;
    if IsOwn(lines[n], step) {
      i := n;
    } else {
      i := LatestIsSomewhere(lines[..n], step);
      assert forall j | 0 <= j < n :: lines[j] == lines[..n][j];
    }
  }

  // ---------- resources ----------

  function ResourceOf(line: Line): Option<FoldedResource> {
    if line.body.step != DELETION_STEP then None
    else match line.body.action
      case OnItem(OnResource(what)) =>
        if line.body.resourceType.None? || line.body.identifier.None? || line.body.basis.None? then None
        else Some(FoldedResource(line.body.resourceType.value, line.body.identifier.value, line.body.basis.value, what,
            line.body.reasons))
      case _ => None
  }

  function FoldedKey(resource: FoldedResource): string {
    ResourceKey(resource.resourceType, resource.identifier)
  }

  predicate IsAbout(line: Line, key: string) {
    ResourceOf(line).Some? && FoldedKey(ResourceOf(line).value) == key
  }

  ghost function ResourcesUpTo(lines: seq<Line>, n: nat): Entries<string, FoldedResource>
    requires n <= |lines|
  {
    if n == 0 then []
    else
      var before, resource := ResourcesUpTo(lines, n - 1), ResourceOf(lines[n - 1]);
      if resource.Some? then Put(before, FoldedKey(resource.value), resource.value) else before
  }

  ghost function Resources(lines: seq<Line>): Entries<string, FoldedResource> {
    ResourcesUpTo(lines, |lines|)
  }

  method FoldResources(lines: seq<Line>) returns (latest: Entries<string, FoldedResource>)
    ensures latest == Resources(lines)
  {
    latest := [];
    for n := 0 to |lines|
      invariant latest == ResourcesUpTo(lines, n)
    {
      var resource := ResourceOf(lines[n]);
      if resource.Some? {
        latest := Put(latest, FoldedKey(resource.value), resource.value);
      }
    }
  }

  // A resource's entry is its latest line.
  ghost predicate IsLatestAbout(lines: seq<Line>, n: nat, key: string, i: nat)
    requires n <= |lines|
  {
    && i < n && IsAbout(lines[i], key)
    && forall k | i < k < n :: !IsAbout(lines[k], key)
  }

  ghost predicate ShowsLatest(lines: seq<Line>, n: nat, key: string, entry: Option<FoldedResource>)
    requires n <= |lines|
  {
    match entry
    case None => forall k | 0 <= k < n :: !IsAbout(lines[k], key)
    case Some(r) => exists i | 0 <= i < n :: IsLatestAbout(lines, n, key, i) && ResourceOf(lines[i]) == Some(r)
  }

  lemma {:induction false} LatestLineWins(lines: seq<Line>, n: nat, key: string)
    requires n <= |lines|
    ensures Distinct(ResourcesUpTo(lines, n))
    ensures ShowsLatest(lines, n, key, Get(ResourcesUpTo(lines, n), key))
  {
    hide Position, Put, Get, ResourceOf, FoldedKey, Distinct, ResourceKey;
    if n == 0 {
      NothingFolded(key);
    } else {
      var m := n - 1;
      LatestLineWins(lines, m, key);
      var before, resource := ResourcesUpTo(lines, m), ResourceOf(lines[m]);
      if resource.Some? {
        PutThenGet(before, FoldedKey(resource.value), resource.value, key);
      }
      if IsAbout(lines[m], key) {
        assert IsLatestAbout(lines, n, key, m);
      } else if Get(before, key).Some? {
        var i :| 0 <= i < m && IsLatestAbout(lines, m, key, i) && ResourceOf(lines[i]) == Get(before, key);
        assert IsLatestAbout(lines, n, key, i);
      }
    }
  }

  lemma NothingFolded(key: string)
    ensures Distinct<string, FoldedResource>([]) && Get<string, FoldedResource>([], key) == None
  {
  }

  lemma {:induction false} KeyedByItself(lines: seq<Line>, n: nat, e: nat)
    requires n <= |lines| && e < |ResourcesUpTo(lines, n)|
    ensures ResourcesUpTo(lines, n)[e].0 == FoldedKey(ResourcesUpTo(lines, n)[e].1)
  {
    hide ResourceOf, FoldedKey, ResourceKey;
    var before, resource := ResourcesUpTo(lines, n - 1), ResourceOf(lines[n - 1]);
    if resource.None? || (e < |before| && e != Position(before, FoldedKey(resource.value))) {
      KeyedByItself(lines, n - 1, e);
    }
  }

  // ---------- which deletions still stand as failed ----------

  predicate IsFailure(line: Line) {
    ResourceOf(line).Some? && ResourceOf(line).value.action == DeleteFailed
  }

  predicate IsFailed(resource: FoldedResource) {
    resource.action == DeleteFailed
  }

  function EarlierDeleteFailures(resources: Entries<string, FoldedResource>): seq<FoldedResource> {
    if resources == [] then []
    else
      var rest, last := EarlierDeleteFailures(resources[..|resources| - 1]), resources[|resources| - 1].1;
      if IsFailed(last) then rest + [last] else rest
  }

  lemma {:induction false} FailuresAreListed(resources: Entries<string, FoldedResource>, e: nat)
    requires e < |resources| && IsFailed(resources[e].1)
    ensures resources[e].1 in EarlierDeleteFailures(resources)
  {
    if e < |resources| - 1 {
      FailuresAreListed(resources[..|resources| - 1], e);
    }
  }

  datatype CleanupStatus = StatusSucceeded | StatusPartial | StatusFailed

  predicate AnyFailed(resources: Entries<string, FoldedResource>) {
    exists e | 0 <= e < |resources| :: IsFailed(resources[e].1)
  }

  function DeriveStatus(step9: Option<StepStatus>, resources: Entries<string, FoldedResource>): CleanupStatus {
    if AnyFailed(resources) then StatusPartial
    else if step9 == Some(Succeeded) then StatusSucceeded
    else StatusFailed
  }

  // Every failed deletion is followed by another line about the same resource.
  ghost predicate IsHealed(lines: seq<Line>) {
    forall i | 0 <= i < |lines| && IsFailure(lines[i]) ::
      exists j | i < j < |lines| :: IsAbout(lines[j], FoldedKey(ResourceOf(lines[i]).value))
  }

  // The fold shows a failed deletion exactly when some failed deletion is the last word on its resource.
  lemma HealedShowsNoFailure(lines: seq<Line>)
    ensures AnyFailed(Resources(lines)) <==> !IsHealed(lines)
  {
    if AnyFailed(Resources(lines)) {
      FailedEntryIsUnhealed(lines);
    }
    if !IsHealed(lines) {
      UnhealedShows(lines);
    }
  }

  lemma FailedEntryIsUnhealed(lines: seq<Line>)
    requires AnyFailed(Resources(lines))
    ensures !IsHealed(lines)
  {
    hide Position, Put, Get, ResourceOf, ResourceKey, ResourcesUpTo;
    var resources, n := Resources(lines), |lines|;
    var e :| 0 <= e < |resources| && IsFailed(resources[e].1);
    KeyedByItself(lines, n, e);
    LatestLineWins(lines, n, resources[e].0);
    GetAt(resources, e);
    var i :| 0 <= i < n && IsLatestAbout(lines, n, resources[e].0, i) && ResourceOf(lines[i]) == Some(resources[e].1);
    assert IsFailure(lines[i]);
  }

  lemma UnhealedShows(lines: seq<Line>)
    requires !IsHealed(lines)
    ensures AnyFailed(Resources(lines))
  {
    hide Put, ResourceOf, FoldedKey, ResourceKey, ResourcesUpTo;
    var resources, n := Resources(lines), |lines|;
    var i :| 0 <= i < n && IsFailure(lines[i])
      && forall j | i < j < n :: !IsAbout(lines[j], FoldedKey(ResourceOf(lines[i]).value));
    var key := FoldedKey(ResourceOf(lines[i]).value);
    LatestLineWins(lines, n, key);
    assert IsAbout(lines[i], key);
    var k :| 0 <= k < n && IsLatestAbout(lines, n, key, k) && ResourceOf(lines[k]) == Get(resources, key);
    assert k == i;
    assert IsFailed(resources[Position(resources, key)].1);
  }
}
