// What step 9 records about each resource and how it ends, told by the sightings and the ports' answers.
module DeletionRecords {
  import opened Wrappers
  import opened OrderedMaps
  import opened ResourceNames
  import opened Ownership
  import opened OwnershipJudgement
  import opened SurfaceSweep
  import opened CleanupRecords
  import opened CleanupActionFold
  import opened CleanupJournals
  import opened OwnedResourceDeletion

  ghost predicate Says(item: Item, action: ResourceAction, basis: Basis, reasons: seq<string>) {
    item.action == OnResource(action) && item.basis == Some(basis) && item.reasons == reasons
  }

  // ---------- the recorded stack ----------

  predicate ShowsGone(read: StackRead) {
    read == StackAbsent || read == StackPresent("DELETE_COMPLETE")
  }

  predicate ShowsFailed(read: StackRead) {
    read == StackPresent("DELETE_FAILED")
  }

  predicate ShowsNothing(answer: Answer<StackRead>) {
    answer.Answered? && !ShowsGone(answer.value) && !ShowsFailed(answer.value)
  }

  // Read `p` is the one that ends the wait begun at `from`: the first that shows an end, or the 240th.
  ghost predicate EndsWait(polls: nat -> Answer<StackRead>, from: nat, p: nat) {
    && from <= p <= 240 && polls(p).Answered? && (!ShowsNothing(polls(p)) || p == 240)
    && forall q | from <= q < p :: ShowsNothing(polls(q))
  }

  ghost predicate SaysEnd(item: Item, read: StackRead) {
    if ShowsGone(read) then Says(item, Deleted, RecordedStack, [])
    else Says(item, DeleteFailed, RecordedStack,
              [if ShowsFailed(read) then "STACK_DELETE_FAILED" else "STACK_DELETE_TIMED_OUT"])
  }

  // The line owed to the recorded stack.
  ghost predicate StackOwes(stackId: Option<string>, answers: DeletionAnswers, item: Item) {
    && stackId.Some? && item.resourceType == STACK_RESOURCE_TYPE && item.identifier == stackId.value
    && answers.firstRead.Answered?
    && if ShowsGone(answers.firstRead.value) then Says(item, AlreadyAbsent, RecordedStack, [])
       else
         && answers.request.Answered?
         && if answers.request.value.Some?
            then Says(item, DeleteFailed, RecordedStack, [answers.request.value.value])
            else exists p :: EndsWait(answers.polls, 1, p) && SaysEnd(item, answers.polls(p).value)
  }

  lemma {:induction false} WaitEnds(polls: nat -> Answer<StackRead>, from: nat) returns (p: nat)
    requires 1 <= from <= MAX_POLLS && !AwaitStackDeletion(polls, from).StackCallThrew?
    ensures EndsWait(polls, from, p)
    ensures AwaitStackDeletion(polls, from) ==
              if ShowsGone(polls(p).value) then StackDeleted
              else StackNotDeleted(if ShowsFailed(polls(p).value)
                  then "STACK_DELETE_FAILED" else "STACK_DELETE_TIMED_OUT")
    decreases MAX_POLLS - from
  {
    if ShowsNothing(polls(from)) && from < MAX_POLLS {
      p := WaitEnds(polls, from + 1);
    } else {
      p := from;
    }
  }

  lemma {:induction false} ThrownWaitNeverEnds(polls: nat -> Answer<StackRead>, from: nat, p: nat)
    requires 1 <= from <= MAX_POLLS && AwaitStackDeletion(polls, from).StackCallThrew?
    ensures !EndsWait(polls, from, p)
    decreases MAX_POLLS - from
  {
    if polls(from).Answered? {
      if p == from {
        assert ShowsNothing(polls(from));
      } else {
        ThrownWaitNeverEnds(polls, from + 1, p);
      }
    }
  }

  lemma OneEnd(polls: nat -> Answer<StackRead>, from: nat, p: nat, q: nat)
    requires EndsWait(polls, from, p) && EndsWait(polls, from, q)
    ensures p == q
  {
  }

  lemma StackItemIs(stackId: string, answers: DeletionAnswers)
    requires !DeleteStackAndWait(answers).StackCallThrew?
    ensures StackOwes(Some(stackId), answers, StackItem(stackId, DeleteStackAndWait(answers)))
  {
    hide AwaitStackDeletion;
    if answers.request == Answered(None) && !ShowsGone(answers.firstRead.value) {
      var p := WaitEnds(answers.polls, 1);
    }
  }

  lemma StackOwesOne(stackId: Option<string>, answers: DeletionAnswers, item: Item, other: Item)
    requires StackOwes(stackId, answers, item) && StackOwes(stackId, answers, other)
    ensures item == other
  {
    if answers.request == Answered(None) && !ShowsGone(answers.firstRead.value) {
      var p :| EndsWait(answers.polls, 1, p) && SaysEnd(item, answers.polls(p).value);
      var q :| EndsWait(answers.polls, 1, q) && SaysEnd(other, answers.polls(q).value);
      OneEnd(answers.polls, 1, p, q);
    }
  }

  lemma StackRecordsExactly(stackId: Option<string>, answers: DeletionAnswers, item: Item)
    requires !StackWork(stackId, answers).threw
    ensures item in StackWork(stackId, answers).items <==> StackOwes(stackId, answers, item)
  {
    hide DeleteStackAndWait, StackOwes, StackItem;
    if stackId.Some? {
      var own := StackItem(stackId.value, DeleteStackAndWait(answers));
      StackItemIs(stackId.value, answers);
      if StackOwes(stackId, answers, item) {
        StackOwesOne(stackId, answers, item, own);
      }
    } else {
      NoStackOwesNothing(answers, item);
    }
  }

  lemma NoStackOwesNothing(answers: DeletionAnswers, item: Item)
    ensures !StackOwes(None, answers, item)
  {
  }

  // ---------- the sighted resources ----------

  // The line owed to a judged resource: left alone, skipped with its reasons, left to the stack, or what
  // the deleter answered.
  ghost predicate SettlesAs(resource: Resource, decision: Decision, deleter: Resource -> Answer<ResourceDeletion>,
                            item: Item) {
    && item.resourceType == resource.resourceType && item.identifier == resource.identifier
    && match decision
       case ExcludedBaseline => Says(item, LeftBaseline, BaselineExclusion, [])
       case Ambiguous(reasons) => Says(item, SkippedAmbiguous, AmbiguousOwnership, reasons)
       case Owned(basis) =>
         if basis != ManifestAndTags && basis != RunTagsAfterFreeze
         then Says(item, DeleteFailed, basis, ["STACK_BOUNDARY_RESOURCE_REMAINS"])
         else match deleter(resource)
           case Threw => false
           case Answered(ResourceDeleted) => Says(item, Deleted, basis, [])
           case Answered(ResourceAbsent) => Says(item, AlreadyAbsent, basis, [])
           case Answered(ResourceNotDeleted(code)) => Says(item, DeleteFailed, basis, [code])
  }

  lemma SettledOneExactly(entry: Judged, deleter: Resource -> Answer<ResourceDeletion>, item: Item)
    ensures item in SettleOne(entry, deleter).items <==> SettlesAs(entry.resource, entry.decision, deleter, item)
  {
  }

  ghost predicate EntrySettlesAs(judged: Entries<string, Judged>, stackId: Option<string>,
                                 deleter: Resource -> Answer<ResourceDeletion>, n: nat, item: Item)
    requires n <= |judged|
  {
    exists e | 0 <= e < n ::
      !IsStackEntry(judged[e].1, stackId) && SettlesAs(judged[e].1.resource, judged[e].1.decision, deleter, item)
  }

  lemma {:induction false} SettledExactly(judged: Entries<string, Judged>, stackId: Option<string>,
                                          deleter: Resource -> Answer<ResourceDeletion>, n: nat, item: Item)
    requires n <= |judged|
    ensures var settled := SettleUpTo(judged, stackId, deleter, n);
      && (item in settled.items ==> EntrySettlesAs(judged, stackId, deleter, n, item))
      && (!settled.threw && EntrySettlesAs(judged, stackId, deleter, n, item) ==> item in settled.items)
  {
    hide SettlesAs, SettleOne, IsStackEntry;
    if n > 0 {
      SettledExactly(judged, stackId, deleter, n - 1, item);
      SettledOneExactly(judged[n - 1].1, deleter, item);
      EntriesOneMore(judged, stackId, deleter, n, item);
    }
  }

  lemma EntriesOneMore(judged: Entries<string, Judged>, stackId: Option<string>,
                       deleter: Resource -> Answer<ResourceDeletion>, n: nat, item: Item)
    requires 0 < n <= |judged|
    ensures EntrySettlesAs(judged, stackId, deleter, n, item) <==>
              || EntrySettlesAs(judged, stackId, deleter, n - 1, item)
              || (&& !IsStackEntry(judged[n - 1].1, stackId)
                  && SettlesAs(judged[n - 1].1.resource, judged[n - 1].1.decision, deleter, item))
  {
    hide SettlesAs, IsStackEntry;
    if EntrySettlesAs(judged, stackId, deleter, n - 1, item) {
      var e :| 0 <= e < n - 1 && !IsStackEntry(judged[e].1, stackId)
        && SettlesAs(judged[e].1.resource, judged[e].1.decision, deleter, item);
    }
  }

  // The line owed to a sighted resource, by its strongest sighting unless that is the recorded stack.
  ghost predicate SightingOwes(sighted: seq<Resource>, context: Context, answers: DeletionAnswers, item: Item) {
    exists i | 0 <= i < |sighted| :: IsStrongest(sighted, context, |sighted|, i) &&
        OwesFor(sighted[i], context, answers, item)
  }

  ghost predicate OwesFor(resource: Resource, context: Context, answers: DeletionAnswers, item: Item) {
    && !(resource.resourceType == STACK_RESOURCE_TYPE && Some(resource.identifier) == context.stackId)
    && SettlesAs(resource, ProveOwnership(resource, context), answers.deleter, item)
  }

  lemma EntriesAreSightings(context: Context, answers: DeletionAnswers, item: Item)
    ensures var judged := JudgedIn(context, answers);
      EntrySettlesAs(judged, context.stackId, answers.deleter, |judged|, item) <==>
      SightingOwes(Sighted(Sweep(answers.surfaces)), context, answers, item)
  {
    hide Sweep, Sighted, JudgeUpTo, SettlesAs, IsStrongest, Key, ProveOwnership;
    var sighted, judged := Sighted(Sweep(answers.surfaces)), JudgedIn(context, answers);
    if EntrySettlesAs(judged, context.stackId, answers.deleter, |judged|, item) {
      var e :| 0 <= e < |judged| && !IsStackEntry(judged[e].1, context.stackId)
        && SettlesAs(judged[e].1.resource, judged[e].1.decision, answers.deleter, item);
      var i := EntryIsStrongest(sighted, context, e);
      assert OwesFor(sighted[i], context, answers, item);
    }
    if SightingOwes(sighted, context, answers, item) {
      var i :| 0 <= i < |sighted| && IsStrongest(sighted, context, |sighted|, i)
        && OwesFor(sighted[i], context, answers, item);
      var e := StrongestIsJudged(context, answers, i);
      assert !IsStackEntry(judged[e].1, context.stackId);
    }
  }

  lemma StrongestIsJudged(context: Context, answers: DeletionAnswers, i: nat) returns (e: nat)
    requires i < |Sighted(Sweep(answers.surfaces))|
    requires IsStrongest(Sighted(Sweep(answers.surfaces)), context, |Sighted(Sweep(answers.surfaces))|, i)
    ensures e < |JudgedIn(context, answers)|
    ensures JudgedIn(context, answers)[e].1 == Sight(Sighted(Sweep(answers.surfaces))[i], context)
  {
    hide Sweep, Sighted, JudgeUpTo, Key, ProveOwnership;
    var sighted, judged := Sighted(Sweep(answers.surfaces)), JudgedIn(context, answers);
    JudgedWhenSighted(sighted, context, Key(sighted[i]));
    e := Position(judged, Key(sighted[i]));
    var j := EntryIsStrongest(sighted, context, e);
    OneStrongest(sighted, context, i, j);
  }

  lemma OneStrongest(sighted: seq<Resource>, context: Context, i: nat, j: nat)
    requires IsStrongest(sighted, context, |sighted|, i) && IsStrongest(sighted, context, |sighted|, j)
    requires Key(sighted[i]) == Key(sighted[j])
    ensures i == j
  {
    hide Key, ProveOwnership;
  }

  // ---------- the earlier failures ----------

  // The line owed to a resource an earlier run failed to delete and no surface shows any more.
  ghost predicate EarlierOwes(earlier: seq<FoldedResource>, sighted: seq<Resource>, stackId: Option<string>,
                              item: Item) {
    exists e | 0 <= e < |earlier| :: IsUnseen(earlier[e], sighted, stackId) && NamesEarlier(earlier[e], item)
  }

  ghost predicate IsUnseen(earlier: FoldedResource, sighted: seq<Resource>, stackId: Option<string>) {
    && !(earlier.resourceType == STACK_RESOURCE_TYPE && Some(earlier.identifier) == stackId)
    && forall k | 0 <= k < |sighted| :: Key(sighted[k]) != ResourceKey(earlier.resourceType, earlier.identifier)
  }

  ghost predicate NamesEarlier(earlier: FoldedResource, item: Item) {
    && item.resourceType == earlier.resourceType && item.identifier == earlier.identifier
    && Says(item, AlreadyAbsent, earlier.basis, [])
  }

  ghost predicate VanishedBefore(earlier: seq<FoldedResource>, judged: Entries<string, Judged>, stackId: Option<string>,
                                 n: nat, item: Item)
    requires n <= |earlier|
  {
    exists e | 0 <= e < n :: IsVanished(earlier[e], judged, stackId) && NamesEarlier(earlier[e], item)
  }

  lemma {:induction false} VanishedExactly(earlier: seq<FoldedResource>, judged: Entries<string, Judged>,
                                           stackId: Option<string>, n: nat, item: Item)
    requires n <= |earlier|
    ensures item in VanishedUpTo(earlier, judged, stackId, n) <==> VanishedBefore(earlier, judged, stackId, n, item)
  {
    hide IsVanished;
    if n > 0 {
      VanishedExactly(earlier, judged, stackId, n - 1, item);
      if VanishedBefore(earlier, judged, stackId, n - 1, item) {
        var e :| 0 <= e < n - 1 && IsVanished(earlier[e], judged, stackId) && NamesEarlier(earlier[e], item);
      }
    }
  }

  lemma VanishedIsUnseen(context: Context, answers: DeletionAnswers, earlier: FoldedResource)
    ensures IsVanished(earlier, JudgedIn(context, answers), context.stackId) <==>
            IsUnseen(earlier, Sighted(Sweep(answers.surfaces)), context.stackId)
  {
    hide Sweep, Sighted, JudgeUpTo, Key, ResourceKey, Get;
    JudgedWhenSighted(Sighted(Sweep(answers.surfaces)), context, FoldedKey(earlier));
  }

  // ---------- everything the step records ----------

  ghost predicate IsOwed(context: Context, answers: DeletionAnswers, earlier: seq<FoldedResource>, item: Item) {
    var sightings := Sweep(answers.surfaces);
    || StackOwes(context.stackId, answers, item)
    || SightingOwes(Sighted(sightings), context, answers, item)
    || (EverySurfaceAnswered(sightings) && EarlierOwes(earlier, Sighted(sightings), context.stackId, item))
  }

  // The step records only what it owes to the recorded stack, to the strongest sighting of each resource
  // and to the earlier failures no surface shows; and unless a port throws it records all of it.
  lemma RecordsExactly(context: Context, answers: DeletionAnswers, earlier: seq<FoldedResource>, item: Item)
    ensures var work := DeletionWork(context, answers, earlier);
      && (item in work.items ==> IsOwed(context, answers, earlier, item))
      && (!work.end.StepThrew? && IsOwed(context, answers, earlier, item) ==> item in work.items)
  {
    hide Sweep, Sighted, JudgeUpTo, SettleUpTo, VanishedUpTo, Troubles, StackWork, StackOwes, SightingOwes,
         EarlierOwes, EntrySettlesAs, VanishedBefore, EverySurfaceAnswered;
    var judged := JudgedIn(context, answers);
    if !StackWork(context.stackId, answers).threw {
      StackRecordsExactly(context.stackId, answers, item);
      SettledExactly(judged, context.stackId, answers.deleter, |judged|, item);
      EntriesAreSightings(context, answers, item);
      VanishedExactly(earlier, judged, context.stackId, |earlier|, item);
      EarlierAreUnseen(context, answers, earlier, item);
    }
  }

  lemma EarlierAreUnseen(context: Context, answers: DeletionAnswers, earlier: seq<FoldedResource>, item: Item)
    ensures VanishedBefore(earlier, JudgedIn(context, answers), context.stackId, |earlier|, item) <==>
            EarlierOwes(earlier, Sighted(Sweep(answers.surfaces)), context.stackId, item)
  {
    hide JudgedIn, IsVanished, IsUnseen, Sweep, Sighted, NamesEarlier;
    forall e | 0 <= e < |earlier|
      ensures IsVanished(earlier[e], JudgedIn(context, answers), context.stackId) <==>
              IsUnseen(earlier[e], Sighted(Sweep(answers.surfaces)), context.stackId)
    {
      VanishedIsUnseen(context, answers, earlier[e]);
    }
  }

  // ---------- how the step ends ----------

  predicate IsFailedItem(item: Item) {
    item.action == OnResource(DeleteFailed)
  }

  // The codes of the failed deletions among the items.
  ghost predicate FailsWith(items: seq<Item>, code: string) {
    exists i | 0 <= i < |items| :: IsFailedItem(items[i]) && code in items[i].reasons
  }

  lemma FailsInTurn(a: seq<Item>, b: seq<Item>, code: string)
    ensures FailsWith(a + b, code) <==> FailsWith(a, code) || FailsWith(b, code)
  {
    if FailsWith(a, code) {
      var i :| 0 <= i < |a| && IsFailedItem(a[i]) && code in a[i].reasons;
      assert (a + b)[i] == a[i];
    }
    if FailsWith(b, code) {
      var i :| 0 <= i < |b| && IsFailedItem(b[i]) && code in b[i].reasons;
      assert (a + b)[|a| + i] == b[i];
    }
  }

  lemma FailsAtOne(entry: Judged, deleter: Resource -> Answer<ResourceDeletion>, code: string)
    ensures code in SettleOne(entry, deleter).failures <==> FailsWith(SettleOne(entry, deleter).items, code)
  {
    var one := SettleOne(entry, deleter);
    if one.items != [] {
      assert one.items == [one.items[0]];
    }
  }

  lemma {:induction false} FailuresAreItems(judged: Entries<string, Judged>, stackId: Option<string>,
                                            deleter: Resource -> Answer<ResourceDeletion>, n: nat, code: string)
    requires n <= |judged|
    ensures code in SettleUpTo(judged, stackId, deleter, n).failures <==>
            FailsWith(SettleUpTo(judged, stackId, deleter, n).items, code)
  {
    hide SettleOne, IsStackEntry, FailsWith;
    if n == 0 {
      NothingFails(code);
    } else {
      FailuresAreItems(judged, stackId, deleter, n - 1, code);
      FailsAtOne(judged[n - 1].1, deleter, code);
      FailsInTurn(SettleUpTo(judged, stackId, deleter, n - 1).items, SettleOne(judged[n - 1].1, deleter).items, code);
    }
  }

  lemma NothingFails(code: string)
    ensures !FailsWith([], code)
  {
  }

  lemma StackFailureIsItem(stackId: Option<string>, answers: DeletionAnswers, code: string)
    ensures code in StackWork(stackId, answers).failures <==> FailsWith(StackWork(stackId, answers).items, code)
  {
    hide DeleteStackAndWait;
    var stack := StackWork(stackId, answers);
    if stack.items != [] {
      assert stack.items == [stack.items[0]];
    }
  }

  lemma {:induction false} VanishedNeverFail(earlier: seq<FoldedResource>, judged: Entries<string, Judged>,
                                             stackId: Option<string>, n: nat, code: string)
    requires n <= |earlier|
    ensures !FailsWith(VanishedUpTo(earlier, judged, stackId, n), code)
  {
    hide IsVanished;
    if n > 0 {
      VanishedNeverFail(earlier, judged, stackId, n - 1, code);
    }
  }

  // Unless a port throws, the step's reasons are exactly the codes of its failed deletions and of the
  // surfaces that did not answer, and it succeeds exactly when there are none.
  lemma EndsExactly(context: Context, answers: DeletionAnswers, earlier: seq<FoldedResource>, code: string)
    requires !DeletionWork(context, answers, earlier).end.StepThrew?
    ensures var work := DeletionWork(context, answers, earlier);
      && (code in work.end.reasons <==> FailsWith(work.items, code) || code in Troubles(Sweep(answers.surfaces)))
      && work.end.status == (if work.end.reasons == [] then Succeeded else Failed)
  {
    hide Sweep, Sighted, JudgeUpTo, SettleUpTo, VanishedUpTo, Troubles, StackWork, EverySurfaceAnswered, FailsWith;
    var judged, stackId := JudgedIn(context, answers), context.stackId;
    var stack, settled := StackWork(stackId, answers), SettleUpTo(judged, stackId, answers.deleter, |judged|);
    var vanished := VanishedUpTo(earlier, judged, stackId, |earlier|);
    StackFailureIsItem(stackId, answers, code);
    FailuresAreItems(judged, stackId, answers.deleter, |judged|, code);
    VanishedNeverFail(earlier, judged, stackId, |earlier|, code);
    NothingFails(code);
    FailsInTurn(stack.items, settled.items, code);
    FailsInTurn(stack.items + settled.items, vanished, code);
    FailsInTurn(stack.items + settled.items, [], code);
  }

  // The step throws exactly when a stack call does, or the deleter about a resource it is asked about.
  lemma ThrowsExactly(context: Context, answers: DeletionAnswers, earlier: seq<FoldedResource>)
    ensures DeletionWork(context, answers, earlier).end.StepThrew? <==>
              || (context.stackId.Some? && DeleteStackAndWait(answers).StackCallThrew?)
              || exists i | 0 <= i < |Sighted(Sweep(answers.surfaces))| ::
                   && IsStrongest(Sighted(Sweep(answers.surfaces)), context, |Sighted(Sweep(answers.surfaces))|, i)
                   && ThrowsFor(Sighted(Sweep(answers.surfaces))[i], context, answers)
  {
    hide Sweep, Sighted, JudgeUpTo, SettleUpTo, VanishedUpTo, Troubles, EverySurfaceAnswered, DeleteStackAndWait,
         ThrowsFor, IsStrongest;
    var sighted, judged := Sighted(Sweep(answers.surfaces)), JudgedIn(context, answers);
    SettlingThrows(judged, context.stackId, answers.deleter, |judged|);
    if e :| 0 <= e < |judged| && EntryThrows(judged[e].1, context.stackId, answers.deleter) {
      var i := EntryIsStrongest(sighted, context, e);
      EntryThrowsFor(sighted[i], context, answers);
    }
    if i :|
         && 0 <= i < |sighted| && IsStrongest(sighted, context, |sighted|, i)
         && ThrowsFor(sighted[i], context, answers) {
      var e := StrongestIsJudged(context, answers, i);
      EntryThrowsFor(sighted[i], context, answers);
      assert EntryThrows(judged[e].1, context.stackId, answers.deleter);
    }
  }

  predicate ThrowsFor(resource: Resource, context: Context, answers: DeletionAnswers) {
    && !(resource.resourceType == STACK_RESOURCE_TYPE && Some(resource.identifier) == context.stackId)
    && ProvesDirectDeletion(ProveOwnership(resource, context)) && answers.deleter(resource).Threw?
  }

  predicate EntryThrows(entry: Judged, stackId: Option<string>, deleter: Resource -> Answer<ResourceDeletion>) {
    !IsStackEntry(entry, stackId) && SettleOne(entry, deleter).threw
  }

  lemma EntryThrowsFor(resource: Resource, context: Context, answers: DeletionAnswers)
    ensures EntryThrows(Sight(resource, context), context.stackId, answers.deleter) <==>
        ThrowsFor(resource, context, answers)
  {
    hide ProveOwnership;
  }

  lemma {:induction false} SettlingThrows(judged: Entries<string, Judged>, stackId: Option<string>,
                                          deleter: Resource -> Answer<ResourceDeletion>, n: nat)
    requires n <= |judged|
    ensures SettleUpTo(judged, stackId, deleter, n).threw <==>
            exists e | 0 <= e < n :: EntryThrows(judged[e].1, stackId, deleter)
  {
    hide SettleOne, IsStackEntry;
    if n > 0 {
      SettlingThrows(judged, stackId, deleter, n - 1);
    }
  }
}
