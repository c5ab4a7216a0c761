// Step 9: the recorded stack is deleted and awaited, every surface is swept, and each remaining
// resource is settled. Models study-1/src/cleanup/surface-sweep.ts and owned-resource-deletion.ts.

module SurfaceSweep {
  import opened Ownership

  datatype SurfaceAnswer = Listed(resources: seq<Resource>) | QueryFailed(code: string)

  datatype Presence = Present | Absent | PresenceFailed(code: string)

  datatype Sighting = Sighting(queryOk: bool, resources: seq<Resource>, reasons: seq<string>)

  // What the surfaces answer; a call that throws is a failed query. The tag index's resources are
  // confirmed one by one, in listing order.
  datatype SurfaceAnswers = SurfaceAnswers(query: Surface -> SurfaceAnswer, confirm: nat -> Presence)

  const SURFACES: seq<Surface> :=
    [TagIndex, Stack, StackResources, Functions, EventSourceMappings,
     DurableExecutions, Queues, Tables, LogGroups, Roles]

  function ConfirmedUpTo(listed: seq<Resource>, confirm: nat -> Presence, n: nat): seq<Resource>
    requires n <= |listed|
  {
    if n == 0 then []
    else ConfirmedUpTo(listed, confirm, n - 1) + if confirm(n - 1).Present? then [listed[n - 1]] else []
  }

  function UnconfirmedUpTo(confirm: nat -> Presence, n: nat): seq<string> {
    if n == 0 then []
    else UnconfirmedUpTo(confirm, n - 1) + if confirm(n - 1).PresenceFailed? then [confirm(n - 1).code] else []
  }

  function SightingOf(answers: SurfaceAnswers, surface: Surface): (s: Sighting)
    ensures s.queryOk <==> s.reasons == []
  {
    match answers.query(surface)
    case QueryFailed(code) => Sighting(false, [], [code])
    case Listed(resources) =>
      if surface != TagIndex then Sighting(true, resources, [])
      else
        var reasons := UnconfirmedUpTo(answers.confirm, |resources|);
        Sighting(reasons == [], ConfirmedUpTo(resources, answers.confirm, |resources|), reasons)
  }

  function SweepUpTo(answers: SurfaceAnswers, n: nat): (s: seq<Sighting>)
    requires n <= |SURFACES|
    ensures |s| == n && forall i | 0 <= i < n :: s[i] == SightingOf(answers, SURFACES[i])
  {
    if n == 0 then [] else SweepUpTo(answers, n - 1) + [SightingOf(answers, SURFACES[n - 1])]
  }

  function Sweep(answers: SurfaceAnswers): seq<Sighting> {
    SweepUpTo(answers, |SURFACES|)
  }

  method SightSurface(answers: SurfaceAnswers, surface: Surface) returns (s: Sighting)
    ensures s == SightingOf(answers, surface)
  {
    var answer := answers.query(surface);
    if answer.QueryFailed? {
      return Sighting(false, [], [answer.code]);
    }
    if surface != TagIndex {
      return Sighting(true, answer.resources, []);
    }
    var present: seq<Resource>, reasons: seq<string> := [], [];
    for n := 0 to |answer.resources|
      invariant present == ConfirmedUpTo(answer.resources, answers.confirm, n)
      invariant reasons == UnconfirmedUpTo(answers.confirm, n)
    {
      var presence := answers.confirm(n);
      if presence.PresenceFailed? {
        reasons := reasons + [presence.code];
      }
      if presence.Present? {
        present := present + [answer.resources[n]];
      }
    }
    return Sighting(reasons == [], present, reasons);
  }

  method SweepSurfaces(answers: SurfaceAnswers) returns (sightings: seq<Sighting>)
    ensures sightings == Sweep(answers)
  {
    sightings := [];
    for n := 0 to |SURFACES|
      invariant sightings == SweepUpTo(answers, n)
    {
      var sighting := SightSurface(answers, SURFACES[n]);
      sightings := sightings + [sighting];
    }
  }

  function Sighted(sightings: seq<Sighting>): seq<Resource> {
    if sightings == [] then []
    else Sighted(sightings[..|sightings| - 1]) + sightings[|sightings| - 1].resources
  }

  function Troubles(sightings: seq<Sighting>): seq<string> {
    if sightings == [] then []
    else Troubles(sightings[..|sightings| - 1]) + sightings[|sightings| - 1].reasons
  }

  predicate EverySurfaceAnswered(sightings: seq<Sighting>) {
    forall i | 0 <= i < |sightings| :: sightings[i].queryOk
  }

  // A sighting keeps exactly the listed resources, those of the tag index only where confirmed present,
  // and answers exactly when neither the query nor a confirmation failed.
  lemma SightingExactly(answers: SurfaceAnswers, surface: Surface, resource: Resource)
    ensures var s, answer := SightingOf(answers, surface), answers.query(surface);
      && (resource in s.resources <==>
            answer.Listed? && exists i | 0 <= i < |answer.resources| ::
              answer.resources[i] == resource && (surface == TagIndex ==> answers.confirm(i) == Present))
      && (s.queryOk <==>
            answer.Listed? &&
            (surface == TagIndex ==>
               forall i | 0 <= i < |answer.resources| :: !answers.confirm(i).PresenceFailed?))
  {
    var answer := answers.query(surface);
    if answer.Listed? && surface == TagIndex {
      ConfirmedExactly(answer.resources, answers.confirm, |answer.resources|, resource);
    }
  }

  lemma {:induction false} ConfirmedExactly(listed: seq<Resource>, confirm: nat -> Presence, n: nat, resource: Resource)
    requires n <= |listed|
    ensures resource in ConfirmedUpTo(listed, confirm, n) <==>
              exists i | 0 <= i < n :: listed[i] == resource && confirm(i) == Present
    ensures UnconfirmedUpTo(confirm, n) == [] <==> forall i | 0 <= i < n :: !confirm(i).PresenceFailed?
  {
    if n > 0 {
      ConfirmedExactly(listed, confirm, n - 1, resource);
    }
  }

  ghost predicate SomeSights(sightings: seq<Sighting>, resource: Resource) {
    exists i | 0 <= i < |sightings| :: resource in sightings[i].resources
  }

  ghost predicate SomeTells(sightings: seq<Sighting>, code: string) {
    exists i | 0 <= i < |sightings| :: code in sightings[i].reasons
  }

  // The resources a sweep sights are those of its surfaces.
  lemma {:induction false} SweepSightsExactly(sightings: seq<Sighting>, resource: Resource)
    ensures resource in Sighted(sightings) <==> SomeSights(sightings, resource)
    decreases |sightings|
  {
    if sightings != [] {
      var n := |sightings| - 1;
      SweepSightsExactly(sightings[..n], resource);
      assert sightings == sightings[..n] + [sightings[n]];
      if SomeSights(sightings[..n], resource) {
        var i :| 0 <= i < n && resource in sightings[..n][i].resources;
        assert resource in sightings[i].resources;
      }
    }
  }

  // And its troubles are their reasons.
  lemma {:induction false} SweepTellsExactly(sightings: seq<Sighting>, code: string)
    ensures code in Troubles(sightings) <==> SomeTells(sightings, code)
    decreases |sightings|
  {
    if sightings != [] {
      var n := |sightings| - 1;
      SweepTellsExactly(sightings[..n], code);
      assert sightings == sightings[..n] + [sightings[n]];
      if SomeTells(sightings[..n], code) {
        var i :| 0 <= i < n && code in sightings[..n][i].reasons;
        assert code in sightings[i].reasons;
      }
    }
  }

  // A sweep reports no trouble exactly when every surface answered.
  lemma TroubleExactly(answers: SurfaceAnswers)
    ensures Troubles(Sweep(answers)) == [] <==> EverySurfaceAnswered(Sweep(answers))
  {
    hide SightingOf, Troubles;
    TroubleOf(Sweep(answers));
  }

  lemma {:induction false} TroubleOf(sightings: seq<Sighting>)
    requires forall i | 0 <= i < |sightings| :: sightings[i].queryOk <==> sightings[i].reasons == []
    ensures Troubles(sightings) == [] <==> EverySurfaceAnswered(sightings)
    decreases |sightings|
  {
    if sightings != [] {
      var n := |sightings| - 1;
      TroubleOf(sightings[..n]);
      assert forall i | 0 <= i < n :: sightings[..n][i] == sightings[i];
    }
  }
}

module OwnedResourceDeletion {
  import opened Wrappers
  import opened OrderedMaps
  import opened ResourceNames
  import opened Ownership
  import opened OwnershipJudgement
  import opened SurfaceSweep
  import opened CleanupRecords
  import opened CleanupActionFold
  import opened CleanupJournals

  const MAX_POLLS: nat := 240

  datatype StackRead = StackPresent(status: string) | StackAbsent | StackUnreadable(code: string)

  datatype ResourceDeletion = ResourceDeleted | ResourceAbsent | ResourceNotDeleted(code: string)

  datatype Answer<T> = Answered(value: T) | Threw

  // What the ports answer during the step. A refused delete request carries its code. `polls(n)` is
  // the n-th read after the request.
  datatype DeletionAnswers = DeletionAnswers(
    firstRead: Answer<StackRead>,
    request: Answer<Option<string>>,
    polls: nat -> Answer<StackRead>,
    surfaces: SurfaceAnswers,
    deleter: Resource -> Answer<ResourceDeletion>)

  datatype StepEnd = Reported(status: TerminalStatus, reasons: seq<string>) | StepThrew

  datatype StepWork = StepWork(items: seq<Item>, end: StepEnd, asked: seq<Resource>)

  function OutcomeOf(failures: seq<string>): StepEnd {
    Reported(if failures == [] then Succeeded else Failed, failures)
  }

  // ---------- the recorded stack ----------

  datatype StackEnd = StackDeleted | StackAlreadyAbsent | StackNotDeleted(code: string) | StackCallThrew

  predicate IsGone(read: StackRead) {
    read.StackAbsent? || (read.StackPresent? && read.status == "DELETE_COMPLETE")
  }

  predicate HasFailed(read: StackRead) {
    read.StackPresent? && read.status == "DELETE_FAILED"
  }

  // What one read shows, or nothing while reads remain and the stack is still deleting or unreadable.
  function PollOutcome(read: StackRead, poll: nat): Option<StackEnd> {
    if IsGone(read) then Some(StackDeleted)
    else if HasFailed(read) then Some(StackNotDeleted("STACK_DELETE_FAILED"))
    else if poll < MAX_POLLS then None
    else Some(StackNotDeleted("STACK_DELETE_TIMED_OUT"))
  }

  function AwaitStackDeletion(polls: nat -> Answer<StackRead>, poll: nat): StackEnd
    requires 1 <= poll <= MAX_POLLS
    decreases MAX_POLLS - poll
  {
    match polls(poll)
    case Threw => StackCallThrew
    case Answered(read) =>
      match PollOutcome(read, poll)
      case Some(end) => end
      case None => AwaitStackDeletion(polls, poll + 1)
  }

  function DeleteStackAndWait(answers: DeletionAnswers): StackEnd {
    match answers.firstRead
    case Threw => StackCallThrew
    case Answered(read) =>
      if IsGone(read) then StackAlreadyAbsent
      else match answers.request
        case Threw => StackCallThrew
        case Answered(Some(code)) => StackNotDeleted(code)
        case Answered(None) => AwaitStackDeletion(answers.polls, 1)
  }

  predicate IsUndecided(answer: Answer<StackRead>) {
    answer.Answered? && !IsGone(answer.value) && !HasFailed(answer.value)
  }

  // Waiting from read `poll` ends with the stack deleted exactly when one of the reads left shows it
  // gone and every read before that is undecided, and times out exactly when all of them are.
  lemma {:induction false} StackDeletedExactly(polls: nat -> Answer<StackRead>, poll: nat)
    requires 1 <= poll <= MAX_POLLS
    ensures AwaitStackDeletion(polls, poll).StackDeleted? <==>
              exists p | poll <= p <= MAX_POLLS ::
                && polls(p).Answered? && IsGone(polls(p).value)
                && forall q | poll <= q < p :: IsUndecided(polls(q))
    ensures AwaitStackDeletion(polls, poll) == StackNotDeleted("STACK_DELETE_TIMED_OUT") <==>
              forall q | poll <= q <= MAX_POLLS :: IsUndecided(polls(q))
    decreases MAX_POLLS - poll
  {
    if IsUndecided(polls(poll)) && poll < MAX_POLLS {
      StackDeletedExactly(polls, poll + 1);
      if AwaitStackDeletion(polls, poll + 1).StackDeleted? {
        var p :| poll + 1 <= p <= MAX_POLLS && polls(p).Answered? && IsGone(polls(p).value)
          && forall q | poll + 1 <= q < p :: IsUndecided(polls(q));
        assert forall q | poll <= q < p :: IsUndecided(polls(q));
      }
    } else {
      assert "STACK_DELETE_FAILED"[13] != "STACK_DELETE_TIMED_OUT"[13];
      assert !IsUndecided(polls(poll)) || poll == MAX_POLLS;
    }
  }

  function StackItem(stackId: string, end: StackEnd): Item {
    match end
    case StackNotDeleted(code) =>
      Item(OnResource(DeleteFailed), STACK_RESOURCE_TYPE, stackId, Some(RecordedStack), [code])
    case StackDeleted => Item(OnResource(Deleted), STACK_RESOURCE_TYPE, stackId, Some(RecordedStack), [])
    case _ => Item(OnResource(AlreadyAbsent), STACK_RESOURCE_TYPE, stackId, Some(RecordedStack), [])
  }

  // ---------- the remaining resources ----------

  datatype Settlement = Settlement(items: seq<Item>, failures: seq<string>, asked: seq<Resource>, threw: bool)

  const NOTHING_SETTLED := Settlement([], [], [], false)

  function Joined(a: Settlement, b: Settlement): Settlement {
    Settlement(a.items + b.items, a.failures + b.failures, a.asked + b.asked, b.threw)
  }

  function StackWork(stackId: Option<string>, answers: DeletionAnswers): Settlement {
    if stackId.None? then NOTHING_SETTLED
    else match DeleteStackAndWait(answers)
      case StackCallThrew => Settlement([], [], [], true)
      case end =>
        var failures := if end.StackNotDeleted? then [end.code] else [];
        Settlement([StackItem(stackId.value, end)], failures, [], false)
  }

  function ItemFor(resource: Resource, action: ResourceAction, basis: Basis, reasons: seq<string>): Item {
    Item(OnResource(action), resource.resourceType, resource.identifier, Some(basis), reasons)
  }

  function SettleOne(entry: Judged, deleter: Resource -> Answer<ResourceDeletion>): Settlement {
    var resource := entry.resource;
    match entry.decision
    case ExcludedBaseline => Settlement([ItemFor(resource, LeftBaseline, BaselineExclusion, [])], [], [], false)
    case Ambiguous(reasons) =>
      Settlement([ItemFor(resource, SkippedAmbiguous, AmbiguousOwnership, reasons)], [], [], false)
    case Owned(basis) =>
      if !IsDirectlyDeletable(basis) then
        var code := "STACK_BOUNDARY_RESOURCE_REMAINS";
        Settlement([ItemFor(resource, DeleteFailed, basis, [code])], [code], [], false)
      else match deleter(resource)
        case Threw => Settlement([], [], [resource], true)
        case Answered(ResourceNotDeleted(code)) =>
          Settlement([ItemFor(resource, DeleteFailed, basis, [code])], [code], [resource], false)
        case Answered(ResourceDeleted) => Settlement([ItemFor(resource, Deleted, basis, [])], [], [resource], false)
        case Answered(ResourceAbsent) =>
          Settlement([ItemFor(resource, AlreadyAbsent, basis, [])], [], [resource], false)
  }

  predicate IsStackEntry(entry: Judged, stackId: Option<string>) {
    IsRecordedStack(entry.resource.resourceType, entry.resource.identifier, stackId)
  }

  function SettleUpTo(judged: Entries<string, Judged>, stackId: Option<string>,
                      deleter: Resource -> Answer<ResourceDeletion>, n: nat): Settlement
    requires n <= |judged|
  {
    if n == 0 then NOTHING_SETTLED
    else
      var before := SettleUpTo(judged, stackId, deleter, n - 1);
      if before.threw || IsStackEntry(judged[n - 1].1, stackId) then before
      else Joined(before, SettleOne(judged[n - 1].1, deleter))
  }

  predicate IsVanished(earlier: FoldedResource, judged: Entries<string, Judged>, stackId: Option<string>) {
    && !IsRecordedStack(earlier.resourceType, earlier.identifier, stackId)
    && Get(judged, FoldedKey(earlier)).None?
  }

  function VanishedItem(earlier: FoldedResource): Item {
    Item(OnResource(AlreadyAbsent), earlier.resourceType, earlier.identifier, Some(earlier.basis), [])
  }

  function VanishedUpTo(earlier: seq<FoldedResource>, judged: Entries<string, Judged>, stackId: Option<string>,
                        n: nat): seq<Item>
    requires n <= |earlier|
  {
    if n == 0 then []
    else
      var before := VanishedUpTo(earlier, judged, stackId, n - 1);
      if IsVanished(earlier[n - 1], judged, stackId) then before + [VanishedItem(earlier[n - 1])] else before
  }

  ghost function JudgedIn(context: Context, answers: DeletionAnswers): Entries<string, Judged> {
    var sighted := Sighted(Sweep(answers.surfaces));
    JudgeUpTo(sighted, context, |sighted|)
  }

  // Everything the step records, asks and reports.
  ghost function DeletionWork(context: Context, answers: DeletionAnswers, earlier: seq<FoldedResource>): StepWork {
    var stack := StackWork(context.stackId, answers);
    if stack.threw then StepWork([], StepThrew, [])
    else
      var sightings := Sweep(answers.surfaces);
      var judged := JudgedIn(context, answers);
      var settled := SettleUpTo(judged, context.stackId, answers.deleter, |judged|);
      if settled.threw then StepWork(stack.items + settled.items, StepThrew, settled.asked)
      else
        var vanished := if EverySurfaceAnswered(sightings)
          then VanishedUpTo(earlier, judged, context.stackId, |earlier|) else [];
        StepWork(stack.items + settled.items + vanished,
                 OutcomeOf(stack.failures + Troubles(sightings) + settled.failures), settled.asked)
  }

  method DeleteRecordedStack(stackId: string, answers: DeletionAnswers, journal: CleanupJournal, frame: Frame)
    returns (failures: seq<string>, threw: bool)
    requires frame.run == journal.run
    modifies journal
    ensures var work := StackWork(Some(stackId), answers);
      failures == work.failures && threw == work.threw &&
      journal.View() == RecordedItems(old(journal.View()), frame, work.items, journal.appends)
  {
    var end := DeleteStackAndWait(answers);
    if end.StackCallThrew? {
      return [], true;
    }
    journal.RecordItem(frame, StackItem(stackId, end));
    return if end.StackNotDeleted? then [end.code] else [], false;
  }

  method SettleRemaining(judged: Entries<string, Judged>, stackId: Option<string>, answers: DeletionAnswers,
                         journal: CleanupJournal, frame: Frame)
    returns (failures: seq<string>, asked: seq<Resource>, threw: bool)
    requires frame.run == journal.run
    modifies journal
    ensures var work := SettleUpTo(judged, stackId, answers.deleter, |judged|);
      failures == work.failures && asked == work.asked && threw == work.threw &&
      journal.View() == RecordedItems(old(journal.View()), frame, work.items, journal.appends)
  {
    hide RecordedItems, IsDirectlyDeletable, IsRecordedStack;
    NothingRecorded(journal.View(), frame, journal.appends);
    failures, asked, threw := [], [], false;
    ghost var work := NOTHING_SETTLED;
    for n := 0 to |judged|
      invariant work == SettleUpTo(judged, stackId, answers.deleter, n)
      invariant failures == work.failures && asked == work.asked && !work.threw && !threw
      invariant journal.View() == RecordedItems(old(journal.View()), frame, work.items, journal.appends)
    {
      var entry := judged[n].1;
      if !IsStackEntry(entry, stackId) {
        var one := SettleOne(entry, answers.deleter);
        ghost var before := work;
        work := Joined(work, one);
        failures, asked := failures + one.failures, asked + one.asked;
        RecordedInTurn(old(journal.View()), frame, before.items, one.items, journal.appends);
        if one.items == [] {
          NothingRecorded(journal.View(), frame, journal.appends);
        } else {
          assert one.items == [one.items[0]];
          journal.RecordItem(frame, one.items[0]);
        }
        if one.threw {
          threw := true;
          ThrowEndsSettling(judged, stackId, answers.deleter, n + 1, |judged|);
          return;
        }
      }
    }
  }

  lemma {:induction false} ThrowEndsSettling(judged: Entries<string, Judged>, stackId: Option<string>,
                                             deleter: Resource -> Answer<ResourceDeletion>, n: nat, m: nat)
    requires n <= m <= |judged| && SettleUpTo(judged, stackId, deleter, n).threw
    ensures SettleUpTo(judged, stackId, deleter, m) == SettleUpTo(judged, stackId, deleter, n)
    decreases m
  {
    if n < m {
      ThrowEndsSettling(judged, stackId, deleter, n, m - 1);
    }
  }

  method RecordVanished(earlier: seq<FoldedResource>, judged: Entries<string, Judged>, stackId: Option<string>,
                        journal: CleanupJournal, frame: Frame)
    requires frame.run == journal.run
    modifies journal
    ensures journal.View() ==
              RecordedItems(old(journal.View()), frame, VanishedUpTo(earlier, judged, stackId, |earlier|),
                  journal.appends)
  {
    hide RecordedItems, IsVanished;
    NothingRecorded(journal.View(), frame, journal.appends);
    for n := 0 to |earlier|
      invariant journal.View() ==
                  RecordedItems(old(journal.View()), frame, VanishedUpTo(earlier, judged, stackId, n), journal.appends)
    {
      if IsVanished(earlier[n], judged, stackId) {
        RecordedInTurn(old(journal.View()), frame, VanishedUpTo(earlier, judged, stackId, n),
                       [VanishedItem(earlier[n])], journal.appends);
        journal.RecordItem(frame, VanishedItem(earlier[n]));
      }
    }
  }

  method DeleteOwnedResources(context: Context, answers: DeletionAnswers, earlier: seq<FoldedResource>,
                              journal: CleanupJournal, frame: Frame)
    returns (end: StepEnd, asked: seq<Resource>)
    requires frame.run == journal.run
    modifies journal
    ensures var work := DeletionWork(context, answers, earlier);
      end == work.end && asked == work.asked &&
      journal.View() == RecordedItems(old(journal.View()), frame, work.items, journal.appends)
  {
    hide RecordedItems, SettleUpTo, Get;
    ghost var start, stack := journal.View(), StackWork(context.stackId, answers);
    var failures: seq<string>, threw := [], false;
    if context.stackId.Some? {
      failures, threw := DeleteRecordedStack(context.stackId.value, answers, journal, frame);
    } else {
      NothingRecorded(start, frame, journal.appends);
    }
    if threw {
      return StepThrew, [];
    }
    var sightings := SweepSurfaces(answers.surfaces);
    failures := failures + Troubles(sightings);
    var judged := JudgeOwnership(Sighted(sightings), context);
    ghost var settled := SettleUpTo(judged, context.stackId, answers.deleter, |judged|);
    RecordedInTurn(start, frame, stack.items, settled.items, journal.appends);
    var more;
    more, asked, threw := SettleRemaining(judged, context.stackId, answers, journal, frame);
    if threw {
      return StepThrew, asked;
    }
    failures := failures + more;
    ghost var vanished: seq<Item> := [];
    if EverySurfaceAnswered(sightings) {
      vanished := VanishedUpTo(earlier, judged, context.stackId, |earlier|);
      RecordedInTurn(start, frame, stack.items + settled.items, vanished, journal.appends);
      RecordVanished(earlier, judged, context.stackId, journal, frame);
    }
    assert stack.items + settled.items + vanished == DeletionWork(context, answers, earlier).items;
    assert EverySurfaceAnswered(sightings) || stack.items + settled.items + [] == stack.items + settled.items;
    return OutcomeOf(failures), asked;
  }

  lemma NothingRecorded(account: Account, frame: Frame, appends: Appends)
    ensures RecordedItems(account, frame, [], appends) == account
  {
  }
}
