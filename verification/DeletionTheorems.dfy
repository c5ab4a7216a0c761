// What step 9 may delete, and what its success says about earlier failed deletions.
module DeletionTheorems {
  import opened Wrappers
  import opened OrderedMaps
  import opened ResourceNames
  import opened Ownership
  import opened OwnershipJudgement
  import opened SurfaceSweep
  import opened CleanupRecords
  import opened CleanupActionFold
  import opened CleanupJournals
  import opened OwnedResourceDeletion

  // ---------- deletion safety ----------

  ghost predicate IsKeyed(judged: Entries<string, Judged>) {
    forall e | 0 <= e < |judged| :: judged[e].0 == Key(judged[e].1.resource)
  }

  // The deleter is asked about this entry, if its turn comes.
  predicate IsDeletable(entry: Judged, stackId: Option<string>) {
    ProvesDirectDeletion(entry.decision) && !IsStackEntry(entry, stackId)
  }

  ghost predicate AsksOnlyDeletable(asked: seq<Resource>, judged: Entries<string, Judged>, stackId: Option<string>,
                                    n: nat)
    requires n <= |judged|
  {
    forall a | 0 <= a < |asked| :: IsDeletableOf(asked[a], judged, stackId, n)
  }

  ghost predicate IsDeletableOf(resource: Resource, judged: Entries<string, Judged>, stackId: Option<string>, n: nat)
    requires n <= |judged|
  {
    exists e | 0 <= e < n :: resource == judged[e].1.resource && IsDeletable(judged[e].1, stackId)
  }

  ghost predicate AsksEveryDeletable(asked: seq<Resource>, judged: Entries<string, Judged>, stackId: Option<string>,
                                     n: nat)
    requires n <= |judged|
  {
    forall e | 0 <= e < n && IsDeletable(judged[e].1, stackId) :: judged[e].1.resource in asked
  }

  ghost predicate AsksOnce(asked: seq<Resource>) {
    forall a, b | 0 <= a < b < |asked| :: Key(asked[a]) != Key(asked[b])
  }

  lemma {:induction false} AskedExactly(judged: Entries<string, Judged>, stackId: Option<string>,
                                        deleter: Resource -> Answer<ResourceDeletion>, n: nat)
    requires Distinct(judged) && IsKeyed(judged) && n <= |judged|
    ensures AsksOnlyDeletable(SettleUpTo(judged, stackId, deleter, n).asked, judged, stackId, n)
    ensures AsksOnce(SettleUpTo(judged, stackId, deleter, n).asked)
    ensures !SettleUpTo(judged, stackId, deleter, n).threw ==>
              AsksEveryDeletable(SettleUpTo(judged, stackId, deleter, n).asked, judged, stackId, n)
  {
    hide Key, IsDirectlyDeletable, IsRecordedStack;
    if n > 0 {
      AskedExactly(judged, stackId, deleter, n - 1);
      var before, entry := SettleUpTo(judged, stackId, deleter, n - 1), judged[n - 1].1;
      var asked := before.asked;
      StillDeletable(asked, judged, stackId, n);
      if !before.threw && IsDeletable(entry, stackId) {
        assert SettleUpTo(judged, stackId, deleter, n).asked == asked + [entry.resource];
        OneMoreAsked(asked, judged, stackId, n);
      } else {
        assert SettleUpTo(judged, stackId, deleter, n).asked == asked;
      }
    }
  }

  lemma StillDeletable(asked: seq<Resource>, judged: Entries<string, Judged>, stackId: Option<string>, n: nat)
    requires 0 < n <= |judged| && AsksOnlyDeletable(asked, judged, stackId, n - 1)
    ensures AsksOnlyDeletable(asked, judged, stackId, n)
  {
  }

  lemma OneMoreAsked(asked: seq<Resource>, judged: Entries<string, Judged>, stackId: Option<string>, n: nat)
    requires Distinct(judged) && IsKeyed(judged) && 0 < n <= |judged| && IsDeletable(judged[n - 1].1, stackId)
    requires AsksOnlyDeletable(asked, judged, stackId, n - 1) && AsksOnce(asked)
    ensures AsksOnlyDeletable(asked + [judged[n - 1].1.resource], judged, stackId, n)
    ensures AsksOnce(asked + [judged[n - 1].1.resource])
  {
    hide Key, IsDeletable;
    var more := asked + [judged[n - 1].1.resource];
    forall a | 0 <= a < |asked|
      ensures Key(asked[a]) != Key(judged[n - 1].1.resource)
      ensures IsDeletableOf(asked[a], judged, stackId, n)
    {
      var e :| 0 <= e < n - 1 && asked[a] == judged[e].1.resource && IsDeletable(judged[e].1, stackId);
    }
    assert more[|asked|] == judged[n - 1].1.resource;
  }

  lemma JudgedIsKeyed(context: Context, answers: DeletionAnswers)
    ensures Distinct(JudgedIn(context, answers)) && IsKeyed(JudgedIn(context, answers))
  {
    hide JudgeUpTo, Key, Sweep, Sighted, Sight;
    var sighted := Sighted(Sweep(answers.surfaces));
    var judged := JudgedIn(context, answers);
    StrongestIsKept(sighted, context, |sighted|, "");
    forall e | 0 <= e < |judged|
      ensures judged[e].0 == Key(judged[e].1.resource)
    {
      var i := EntryIsStrongest(sighted, context, e);
      assert Sight(sighted[i], context).resource == sighted[i] by {
        SightNames(sighted[i], context);
      }
    }
  }

  lemma SightNames(resource: Resource, context: Context)
    ensures Sight(resource, context) == Judged(resource, ProveOwnership(resource, context))
  {
  }

  // Some sighting of the resource proves a directly deletable basis and no sighting is baseline.
  ghost predicate MayBeDeleted(sighted: seq<Resource>, context: Context, key: string) {
    && (exists i | 0 <= i < |sighted| ::
          Key(sighted[i]) == key && ProvesDirectDeletion(ProveOwnership(sighted[i], context)))
    && (forall k | 0 <= k < |sighted| &&
        Key(sighted[k]) == key :: !ProveOwnership(sighted[k], context).ExcludedBaseline?)
  }

  // The strongest sighting proves direct deletion exactly when the resource may be deleted.
  lemma StrongestDecides(sighted: seq<Resource>, context: Context, i: nat)
    requires i < |sighted| && IsStrongest(sighted, context, |sighted|, i)
    ensures ProvesDirectDeletion(ProveOwnership(sighted[i], context)) <==>
              MayBeDeleted(sighted, context, Key(sighted[i]))
  {
    hide Key, ProveOwnership;
    if MayBeDeleted(sighted, context, Key(sighted[i])) {
      var k :| 0 <= k < |sighted| && Key(sighted[k]) == Key(sighted[i])
        && ProvesDirectDeletion(ProveOwnership(sighted[k], context));
      assert Rank(sighted[i], context) <= Rank(sighted[k], context);
    }
  }

  // The deleter is asked at most once per resource and only where deletion is proved and nothing
  // observed is baseline; unless a port throws, it is asked about every such resource. It is given
  // a sighting that itself proves the right to delete.
  lemma DeletionIsSafe(context: Context, answers: DeletionAnswers, earlier: seq<FoldedResource>, key: string)
    ensures var sighted, work := Sighted(Sweep(answers.surfaces)), DeletionWork(context, answers, earlier);
      && AsksOnce(work.asked)
      && (forall a | 0 <= a < |work.asked| ::
            work.asked[a] in sighted && ProvesDirectDeletion(ProveOwnership(work.asked[a], context)))
      && ((exists a | 0 <= a < |work.asked| :: Key(work.asked[a]) == key) ==> MayBeDeleted(sighted, context, key))
      && (!work.end.StepThrew? && MayBeDeleted(sighted, context, key) ==>
            exists a | 0 <= a < |work.asked| :: Key(work.asked[a]) == key)
  {
    hide Key, ProveOwnership, Sweep, Sighted, JudgeUpTo, SettleUpTo, VanishedUpTo, Troubles, StackWork, Get,
         ProvesDirectDeletion, IsDeletable, MayBeDeleted;
    var sighted, work := Sighted(Sweep(answers.surfaces)), DeletionWork(context, answers, earlier);
    var judged := JudgedIn(context, answers);
    JudgedIsKeyed(context, answers);
    AskedExactly(judged, context.stackId, answers.deleter, |judged|);
    if !StackWork(context.stackId, answers).threw {
      forall a | 0 <= a < |work.asked|
        ensures work.asked[a] in sighted && ProvesDirectDeletion(ProveOwnership(work.asked[a], context))
        ensures MayBeDeleted(sighted, context, Key(work.asked[a]))
      {
        assert IsDeletableOf(work.asked[a], judged, context.stackId, |judged|);
        var e :| 0 <= e < |judged|
          && work.asked[a] == judged[e].1.resource && IsDeletable(judged[e].1, context.stackId);
        EntryMayBeDeleted(context, answers, e);
      }
      if !work.end.StepThrew? && MayBeDeleted(sighted, context, key) {
        var e := DeletableIsJudged(context, answers, key);
        var a :| 0 <= a < |work.asked| && work.asked[a] == judged[e].1.resource;
      }
    }
  }

  lemma EntryMayBeDeleted(context: Context, answers: DeletionAnswers, e: nat)
    requires e < |JudgedIn(context, answers)| && IsDeletable(JudgedIn(context, answers)[e].1, context.stackId)
    ensures var resource, sighted := JudgedIn(context, answers)[e].1.resource, Sighted(Sweep(answers.surfaces));
      && resource in sighted && ProvesDirectDeletion(ProveOwnership(resource, context))
      && MayBeDeleted(sighted, context, Key(resource))
  {
    hide Key, ProveOwnership, Sweep, Sighted, JudgeUpTo, MayBeDeleted;
    var sighted := Sighted(Sweep(answers.surfaces));
    var i := EntryIsStrongest(sighted, context, e);
    StrongestDecides(sighted, context, i);
  }

  lemma DeletableIsJudged(context: Context, answers: DeletionAnswers, key: string) returns (e: nat)
    requires MayBeDeleted(Sighted(Sweep(answers.surfaces)), context, key)
    ensures e < |JudgedIn(context, answers)| && IsDeletable(JudgedIn(context, answers)[e].1, context.stackId)
    ensures Key(JudgedIn(context, answers)[e].1.resource) == key
  {
    hide Key, ProveOwnership, Sweep, Sighted, JudgeUpTo;
    var sighted, judged := Sighted(Sweep(answers.surfaces)), JudgedIn(context, answers);
    JudgedWhenSighted(sighted, context, key);
    e := Position(judged, key);
    var i := EntryIsStrongest(sighted, context, e);
    StrongestDecides(sighted, context, i);
    StackIsNeverDeletable(sighted[i], context);
  }

  lemma StackIsNeverDeletable(resource: Resource, context: Context)
    ensures IsStackEntry(Sight(resource, context), context.stackId) ==>
              !ProvesDirectDeletion(ProveOwnership(resource, context))
  {
    hide IsBaseline, Key, UnrecordedFailures, DecideMember;
  }

  // ---------- success heals ----------

  predicate SettlesWell(item: Item) {
    item.action.OnResource? && item.action.what != DeleteFailed && item.basis.Some?
  }

  function ItemKey(item: Item): string {
    ResourceKey(item.resourceType, item.identifier)
  }

  ghost predicate AllSettleWell(items: seq<Item>) {
    forall i | 0 <= i < |items| :: SettlesWell(items[i])
  }

  ghost predicate Mentions(items: seq<Item>, key: string) {
    exists i | 0 <= i < |items| :: ItemKey(items[i]) == key
  }

  lemma MentionsInTurn(a: seq<Item>, b: seq<Item>, key: string)
    requires Mentions(a, key) || Mentions(b, key)
    ensures Mentions(a + b, key)
  {
    hide ItemKey;
    if Mentions(a, key) {
      var i :| 0 <= i < |a| && ItemKey(a[i]) == key;
      assert ItemKey((a + b)[i]) == key;
    } else {
      var i :| 0 <= i < |b| && ItemKey(b[i]) == key;
      assert ItemKey((a + b)[|a| + i]) == key;
    }
  }

  // A sweep of the judged entries without a failure settles each of them.
  lemma {:induction false} SettledWell(judged: Entries<string, Judged>, stackId: Option<string>,
                                       deleter: Resource -> Answer<ResourceDeletion>, n: nat)
    requires n <= |judged|
    requires !SettleUpTo(judged, stackId, deleter, n).threw && SettleUpTo(judged, stackId, deleter, n).failures == []
    ensures AllSettleWell(SettleUpTo(judged, stackId, deleter, n).items)
    ensures forall e | 0 <= e < n && !IsStackEntry(judged[e].1, stackId) ::
              Mentions(SettleUpTo(judged, stackId, deleter, n).items, Key(judged[e].1.resource))
  {
    hide IsDirectlyDeletable, IsRecordedStack, ResourceKey, Mentions;
    if n > 0 {
      var before, entry := SettleUpTo(judged, stackId, deleter, n - 1), judged[n - 1].1;
      assert before.failures <= SettleUpTo(judged, stackId, deleter, n).failures;
      SettledWell(judged, stackId, deleter, n - 1);
      if !IsStackEntry(entry, stackId) {
        var one := SettleOne(entry, deleter);
        SettledOne(entry, deleter);
        forall key | Mentions(before.items, key) || key == Key(entry.resource)
          ensures Mentions(before.items + one.items, key)
        {
          MentionsInTurn(before.items, one.items, key);
        }
      }
    }
  }

  lemma SettledOne(entry: Judged, deleter: Resource -> Answer<ResourceDeletion>)
    requires !SettleOne(entry, deleter).threw && SettleOne(entry, deleter).failures == []
    ensures AllSettleWell(SettleOne(entry, deleter).items)
    ensures Mentions(SettleOne(entry, deleter).items, Key(entry.resource))
  {
    hide ResourceKey, IsDirectlyDeletable;
    var items := SettleOne(entry, deleter).items;
    assert ItemKey(items[0]) == Key(entry.resource);
  }

  lemma {:induction false} VanishedAreMentioned(earlier: seq<FoldedResource>, judged: Entries<string, Judged>,
                                                stackId: Option<string>, n: nat)
    requires n <= |earlier|
    ensures AllSettleWell(VanishedUpTo(earlier, judged, stackId, n))
    ensures forall e | 0 <= e < n && IsVanished(earlier[e], judged, stackId) ::
              Mentions(VanishedUpTo(earlier, judged, stackId, n), FoldedKey(earlier[e]))
  {
    hide IsVanished, ResourceKey, Mentions;
    if n > 0 {
      VanishedAreMentioned(earlier, judged, stackId, n - 1);
      var before := VanishedUpTo(earlier, judged, stackId, n - 1);
      if IsVanished(earlier[n - 1], judged, stackId) {
        var one := [VanishedItem(earlier[n - 1])];
        assert Mentions(one, FoldedKey(earlier[n - 1])) by {
          VanishedMentions(earlier[n - 1]);
        }
        forall key | Mentions(before, key) || Mentions(one, key)
          ensures Mentions(before + one, key)
        {
          MentionsInTurn(before, one, key);
        }
      }
    }
  }

  lemma VanishedMentions(earlier: FoldedResource)
    ensures Mentions([VanishedItem(earlier)], FoldedKey(earlier))
  {
    hide ResourceKey;
    assert ItemKey([VanishedItem(earlier)][0]) == FoldedKey(earlier);
  }

  lemma StackSettledWell(stackId: Option<string>, answers: DeletionAnswers)
    requires !StackWork(stackId, answers).threw && StackWork(stackId, answers).failures == []
    ensures AllSettleWell(StackWork(stackId, answers).items)
    ensures stackId.Some? ==>
              Mentions(StackWork(stackId, answers).items, ResourceKey(STACK_RESOURCE_TYPE, stackId.value))
  {
    hide ResourceKey, DeleteStackAndWait;
    if stackId.Some? {
      assert ItemKey(StackWork(stackId, answers).items[0]) == ResourceKey(STACK_RESOURCE_TYPE, stackId.value);
    }
  }

  // When the step succeeds it records no failed deletion, and something about every resource an
  // earlier run failed to delete.
  lemma SuccessMentionsEveryFailure(context: Context, answers: DeletionAnswers, earlier: seq<FoldedResource>, e: nat)
    requires DeletionWork(context, answers, earlier).end == Reported(Succeeded, []) && e < |earlier|
    ensures Mentions(DeletionWork(context, answers, earlier).items, FoldedKey(earlier[e]))
  {
    hide ResourceKey, Sweep, Sighted, JudgeUpTo, SettleUpTo, VanishedUpTo, Troubles, StackWork, Mentions,
         EverySurfaceAnswered;
    var judged, stackId := JudgedIn(context, answers), context.stackId;
    var stack, settled := StackWork(stackId, answers), SettleUpTo(judged, stackId, answers.deleter, |judged|);
    var vanished, key := VanishedUpTo(earlier, judged, stackId, |earlier|), FoldedKey(earlier[e]);
    SucceededParts(context, answers, earlier);
    StackSettledWell(stackId, answers);
    SettledWell(judged, stackId, answers.deleter, |judged|);
    VanishedAreMentioned(earlier, judged, stackId, |earlier|);
    if IsRecordedStack(earlier[e].resourceType, earlier[e].identifier, stackId) {
      MentionsInTurn(stack.items, settled.items, key);
      MentionsInTurn(stack.items + settled.items, vanished, key);
    } else if Get(judged, key).None? {
      assert IsVanished(earlier[e], judged, stackId);
      MentionsInTurn(stack.items + settled.items, vanished, key);
    } else {
      JudgedIsKeyed(context, answers);
      var p := Position(judged, key);
      assert judged[p].0 == key;
      assert Mentions(stack.items, key) || Mentions(settled.items, key);
      MentionsInTurn(stack.items, settled.items, key);
      MentionsInTurn(stack.items + settled.items, vanished, key);
    }
  }

  lemma SucceededParts(context: Context, answers: DeletionAnswers, earlier: seq<FoldedResource>)
    requires DeletionWork(context, answers, earlier).end == Reported(Succeeded, [])
    ensures var judged, stackId := JudgedIn(context, answers), context.stackId;
      var stack, settled := StackWork(stackId, answers), SettleUpTo(judged, stackId, answers.deleter, |judged|);
      && !stack.threw && stack.failures == [] && !settled.threw && settled.failures == []
      && EverySurfaceAnswered(Sweep(answers.surfaces))
      && DeletionWork(context, answers, earlier).items ==
           stack.items + settled.items + VanishedUpTo(earlier, judged, stackId, |earlier|)
  {
    hide Sighted, JudgeUpTo, SettleUpTo, VanishedUpTo, Troubles, StackWork, EverySurfaceAnswered;
    TroubleExactly(answers.surfaces);
    var judged, stackId := JudgedIn(context, answers), context.stackId;
    var stack, settled := StackWork(stackId, answers), SettleUpTo(judged, stackId, answers.deleter, |judged|);
    assert |stack.failures + Troubles(Sweep(answers.surfaces)) + settled.failures|
        == |stack.failures| + |Troubles(Sweep(answers.surfaces))| + |settled.failures|;
  }

  lemma SuccessSettlesWell(context: Context, answers: DeletionAnswers, earlier: seq<FoldedResource>)
    requires DeletionWork(context, answers, earlier).end == Reported(Succeeded, [])
    ensures AllSettleWell(DeletionWork(context, answers, earlier).items)
  {
    hide ResourceKey, Sweep, Sighted, JudgeUpTo, SettleUpTo, VanishedUpTo, Troubles, StackWork, Mentions;
    var judged, stackId := JudgedIn(context, answers), context.stackId;
    SucceededParts(context, answers, earlier);
    StackSettledWell(stackId, answers);
    SettledWell(judged, stackId, answers.deleter, |judged|);
    VanishedAreMentioned(earlier, judged, stackId, |earlier|);
  }

  // Only the deletion work itself decides how the step ends.
  lemma SucceedsWithoutReasons(context: Context, answers: DeletionAnswers, earlier: seq<FoldedResource>)
    ensures var end := DeletionWork(context, answers, earlier).end;
      end.Reported? ==> (end.status == Succeeded <==> end.reasons == [])
  {
    hide Sweep, Sighted, JudgeUpTo, SettleUpTo, VanishedUpTo, Troubles, StackWork, EverySurfaceAnswered;
  }
}
