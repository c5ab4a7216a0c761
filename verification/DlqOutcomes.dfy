// Why the sweep reports an id deleted or failed, and what it achieves against queues that answer.
module DlqOutcomes {
  import opened Wrappers
  import opened DlqQueueModel
  import opened DlqDeletion
  import opened DlqTheorems

  // ---------- a failure has a failed deletion behind it ----------

  ghost predicate DeleteFailedWith(choices: Choices, code: string) {
    exists n :: choices.delete(n).failure == Some(code)
  }

  ghost predicate HaveCauses(failed: seq<FailedId>, choices: Choices) {
    forall i | 0 <= i < |failed| :: DeleteFailedWith(choices, failed[i].code)
  }

  // ---------- what was received is settled ----------

  ghost predicate IsSettledIn(s: Sweeping, captured: set<string>, m: nat)
    requires m < |s.world.stored|
  {
    s.world.stored[m].id in captured ==> s.world.stored[m].id !in s.state.pending
  }

  // Of what was received, all but the rest of the batch is settled.
  ghost predicate ReceivedAreSettled(s: Sweeping, captured: set<string>, batch: seq<Received>, from: nat) {
    forall m | m in s.world.received && m < |s.world.stored| ::
      IsTaken(batch, from, m) || IsSettledIn(s, captured, m)
  }

  // While no deletion fails, nothing is noted failed, and what is settled is gone.
  ghost predicate ReceivedAreGone(s: Sweeping, captured: set<string>, batch: seq<Received>, from: nat) {
    && s.state.failed == []
    && forall m | m in s.world.received && m < |s.world.stored| && s.world.stored[m].id in captured ::
         IsTaken(batch, from, m) || s.world.stored[m].state == Gone
  }

  ghost predicate NoDeletionFails(choices: Choices) {
    forall n :: choices.delete(n).failure.None?
  }

  // Only messages the sweep received go, unless other consumers delete them.
  ghost predicate OnlyReceivedGo(start: World, w: World) {
    && |start.stored| == |w.stored|
    && forall m | 0 <= m < |w.stored| && w.stored[m].state == Gone ::
         start.stored[m].state == Gone || m in w.received || m in w.elsewhere
  }

  ghost predicate AreReceived(w: World, batch: seq<Received>) {
    forall i | 0 <= i < |batch| :: batch[i].handle in w.received
  }

  // The sweep's dealings so far: every failure noted has its cause, every received message is settled,
  // and gone while no deletion fails; nothing else goes.
  ghost predicate IsAccounted(start: World, s: Sweeping, captured: set<string>, choices: Choices,
                              batch: seq<Received>, from: nat) {
    && OnlyReceivedGo(start, s.world) && AreReceived(s.world, batch)
    && HaveCauses(s.state.failed, choices) && ReceivedAreSettled(s, captured, batch, from)
    && (NoDeletionFails(choices) ==> ReceivedAreGone(s, captured, batch, from))
  }

  lemma SettlingAccountsFor(start: World, s: Sweeping, url: string, held: seq<Received>, captured: set<string>,
                            choices: Choices,
                            batch: seq<Received>, i: nat)
    requires i < |batch| && IsUnsettled(s.world.stored, url, batch, i) &&
        IsAccounted(start, s, captured, choices, batch, i)
    ensures IsAccounted(start, Settled(s, held, captured, choices, batch[i]).0, captured, choices, batch, i + 1)
  {
    hide IsUnsettled;
    NextIsUnsettled(s.world.stored, url, batch, i);
    var after := Settled(s, held, captured, choices, batch[i]).0;
    SettlingOne(s, held, captured, choices, batch[i]);
    forall m | m in after.world.received && m < |after.world.stored| && !IsTaken(batch, i + 1, m)
      ensures IsSettledIn(after, captured, m)
      ensures NoDeletionFails(choices) && after.world.stored[m].id in captured ==> after.world.stored[m].state == Gone
    {
      if IsTaken(batch, i, m) {
        var j :| i <= j < |batch| && batch[j].handle == m;
        assert j == i;
      }
    }
    CausesKept(s, held, captured, choices, batch[i]);
  }

  lemma CausesKept(s: Sweeping, held: seq<Received>, captured: set<string>, choices: Choices, message: Received)
    requires message.handle < |s.world.stored| && HaveCauses(s.state.failed, choices)
    ensures HaveCauses(Settled(s, held, captured, choices, message).0.state.failed, choices)
    ensures NoDeletionFails(choices) ==>
              Settled(s, held, captured, choices, message).0.state.failed == s.state.failed
  {
  }

  lemma {:induction false} BatchAccountsFor(start: World, s: Sweeping, url: string, held: seq<Received>,
                                            captured: set<string>,
                                            choices: Choices, urls: set<string>, batch: seq<Received>, n: nat)
    requires Kept(start, s, captured, urls) && IsUnsettled(s.world.stored, url, batch, 0) && n <= |batch|
    requires Holds(s.world, url, held, batch, 0, s.state.pending)
    requires Fit(batch, |s.world.stored|) && Fit(held, |s.world.stored|)
    requires IsAccounted(start, s, captured, choices, batch, 0)
    ensures IsAccounted(start, SettledUpTo(s, held, captured, choices, batch, n).0, captured, choices, batch, n)
  {
    hide Kept, Holds, IsUnsettled, Settled, IsAccounted;
    if n > 0 {
      BatchAccountsFor(start, s, url, held, captured, choices, urls, batch, n - 1);
      BatchKeeps(start, s, url, held, captured, choices, urls, batch, n - 1);
      var (before, kept) := SettledUpTo(s, held, captured, choices, batch, n - 1);
      SettlingAccountsFor(start, before, url, kept, captured, choices, batch, n - 1);
    }
  }

  lemma ReceiveAccountsFor(start: World, s: Sweeping, url: string, captured: set<string>, choices: Choices)
    requires IsAccounted(start, s, captured, choices, [], 0)
    ensures var (world, r) := AfterReceive(s.world, url, choices);
      IsAccounted(start, s.(world := world), captured, choices, MessagesOf(r), 0)
  {
    hide AfterReceive;
    var (world, r) := AfterReceive(s.world, url, choices);
    ReceiveTakes(s.world, url, choices);
    forall m | m in world.received && m < |world.stored| && !IsTaken(MessagesOf(r), 0, m)
      ensures m in s.world.received
    {
    }
  }

  lemma BatchIsOver(start: World, s: Sweeping, captured: set<string>, choices: Choices, batch: seq<Received>)
    requires IsAccounted(start, s, captured, choices, batch, |batch|)
    ensures IsAccounted(start, s, captured, choices, [], 0)
  {
  }

  lemma {:induction false} ReceivesAccountFor(start: World, s: Sweeping, url: string, held: seq<Received>,
                                              captured: set<string>, choices: Choices, urls: set<string>, left: nat)
    requires Kept(start, s, captured, urls) && url in urls && Fit(held, |s.world.stored|)
    requires Holds(s.world, url, held, [], 0, s.state.pending) && IsAccounted(start, s, captured, choices, [], 0)
    ensures IsAccounted(start, ReceivedFrom(s, held, captured, choices, url, left).sweeping, captured, choices, [], 0)
    decreases left
  {
    hide Kept, Holds, IsUnsettled, AfterReceive, SettledUpTo, IsAccounted;
    if left > 0 {
      var (world, received) := AfterReceive(s.world, url, choices);
      var next, batch := s.(world := world), MessagesOf(received);
      DeliveryFits(s.world, url, choices);
      ReceiveKeeps(start, s, url, held, captured, choices, urls);
      ReceiveAccountsFor(start, s, url, captured, choices);
      if batch != [] {
        BatchKeeps(start, next, url, held, captured, choices, urls, batch, |batch|);
        BatchAccountsFor(start, next, url, held, captured, choices, urls, batch, |batch|);
        var (after, kept) := SettledUpTo(next, held, captured, choices, batch, |batch|);
        BatchIsOver(start, after, captured, choices, batch);
        AllSettled(after.world, url, kept, batch, after.state.pending);
        if after.state.pending != {} {
          ReceivesAccountFor(start, after, url, kept, captured, choices, urls, left - 1);
        }
      }
    }
  }

  lemma {:induction false} ReleasesAccountFor(start: World, s: Sweeping, captured: set<string>, choices: Choices,
                                              held: seq<Received>, n: nat)
    requires Fit(held, |s.world.stored|) && n <= |held| && IsAccounted(start, s, captured, choices, [], 0)
    ensures IsAccounted(start, s.(world := ReleasedUpTo(s.world, choices, held, n)), captured, choices, [], 0)
  {
    if n > 0 {
      ReleasesAccountFor(start, s, captured, choices, held, n - 1);
    }
  }

  lemma {:induction false} SweepsAccountFor(start: World, s: Sweeping, captured: set<string>, choices: Choices,
                                            urls: seq<string>, n: nat)
    requires n <= |urls| && NoRepeats(urls) && s.world == start && Kept(start, s, captured, {})
    requires IsAccounted(start, s, captured, choices, [], 0)
    ensures IsAccounted(start, SweptUpTo(s, captured, choices, urls, n).0, captured, choices, [], 0)
  {
    hide Kept, Holds, IsAccounted, ReceivedFrom, ReleasedUpTo;
    if n > 0 {
      SweepsAccountFor(start, s, captured, choices, urls, n - 1);
      SweepsKeep(start, s, captured, choices, urls, n - 1);
      var before := SweptUpTo(s, captured, choices, urls, n - 1).0;
      NextQueue(start, before, captured, urls, n - 1);
      if before.state.pending != {} {
        var url := urls[n - 1];
        ReceivesAccountFor(start, before, url, [], captured, choices, UrlsUpTo(urls, n), MAX_RECEIVES);
        var r := ReceivedFrom(before, [], captured, choices, url, MAX_RECEIVES);
        ReleasesAccountFor(start, r.sweeping, captured, choices, r.held, |r.held|);
      }
    }
  }

  // For all choices: every id noted failed, as opposed to unproven, has a failed deletion of that code
  // behind it; only received messages go; every captured one received is reported, deleted or failed;
  // and where no deletion fails nothing is noted failed, and every captured message received is gone and
  // its id reported deleted.
  lemma OutcomesHaveCauses(w: World, choices: Choices, urls: seq<string>, ids: seq<string>)
    requires NoRepeats(urls) && IsBeginning(w) && w.received == {}
    ensures var after := Swept(w, choices, urls, ids).0;
      && HaveCauses(after.state.failed, choices) && OnlyReceivedGo(w, after.world)
      && (forall m | m in after.world.received && m < |after.world.stored| && after.world.stored[m].id in ids ::
            after.world.stored[m].id in after.state.deleted || after.world.stored[m].id in IdsOf(after.state.failed))
      && (NoDeletionFails(choices) ==>
            && after.state.failed == []
            && forall m | m in after.world.received && m < |after.world.stored| && after.world.stored[m].id in ids ::
                 after.world.stored[m].state == Gone && after.world.stored[m].id in after.state.deleted)
  {
    hide SweptUpTo, IdsOf, NoRepeats;
    var captured := IdsIn(ids);
    var begun := Sweeping(w, SweepView(captured, [], []));
    BeginningIsKept(w, captured);
    SweepsKeep(w, begun, captured, choices, urls, |urls|);
    SweepsAccountFor(w, begun, captured, choices, urls, |urls|);
    var after := Swept(w, choices, urls, ids).0;
    forall m | m in after.world.received && m < |after.world.stored| && after.world.stored[m].id in ids
      ensures after.world.stored[m].id in after.state.deleted || after.world.stored[m].id in IdsOf(after.state.failed)
    {
      assert IsSettledIn(after, captured, m);
    }
    if NoDeletionFails(choices) {
      assert IdsOf(after.state.failed) == [];
    }
  }

  // ---------- a gap has a cause ----------

  ghost predicate ReceiveFailedWith(choices: Choices, code: string) {
    exists n :: choices.receive(n).failure == Some(code)
  }

  lemma FailedReceive(w: World, url: string, choices: Choices)
    ensures var (after, r) := AfterReceive(w, url, choices);
      after.receives == w.receives + 1 && (r.ReceiveFailed? ==> ReceiveFailedWith(choices, r.code))
  {
    hide Stirred, Batch, Hidden, Delivered;
    StirCounts(w, choices.receive(w.calls));
  }

  lemma {:induction false} BatchReceivesNothing(s: Sweeping, held: seq<Received>, captured: set<string>,
                                                choices: Choices,
                                                batch: seq<Received>, n: nat)
    requires Fit(batch, |s.world.stored|) && Fit(held, |s.world.stored|) && n <= |batch|
    ensures SettledUpTo(s, held, captured, choices, batch, n).0.world.receives == s.world.receives
  {
    if n > 0 {
      BatchReceivesNothing(s, held, captured, choices, batch, n - 1);
    }
  }

  lemma {:induction false} ReceivesGapHasCause(s: Sweeping, held: seq<Received>, captured: set<string>,
                                               choices: Choices,
                                               url: string, left: nat)
    requires Fit(held, |s.world.stored|)
    ensures var r := ReceivedFrom(s, held, captured, choices, url, left);
      && s.world.receives <= r.sweeping.world.receives
      && (r.gap.Some? ==>
            || ReceiveFailedWith(choices, r.gap.value)
            || (r.gap == Some("DLQ_SWEEP_INCOMPLETE") && r.sweeping.world.receives == s.world.receives + left))
    decreases left
  {
    hide AfterReceive, SettledUpTo, ReceiveFailedWith;
    if left > 0 {
      var (world, received) := AfterReceive(s.world, url, choices);
      var next, batch := s.(world := world), MessagesOf(received);
      DeliveryFits(s.world, url, choices);
      FailedReceive(s.world, url, choices);
      if batch != [] {
        BatchReceivesNothing(next, held, captured, choices, batch, |batch|);
        var (after, kept) := SettledUpTo(next, held, captured, choices, batch, |batch|);
        if after.state.pending != {} {
          ReceivesGapHasCause(after, kept, captured, choices, url, left - 1);
        }
      }
    }
  }

  lemma {:induction false} ReleasingReceivesNothing(w: World, choices: Choices, held: seq<Received>, n: nat)
    requires Fit(held, |w.stored|) && n <= |held|
    ensures ReleasedUpTo(w, choices, held, n).receives == w.receives
  {
    if n > 0 {
      ReleasingReceivesNothing(w, choices, held, n - 1);
    }
  }

  // The cause of a gap: a receive that failed, one queue asked 20 times, a FIFO queue with something
  // held, or no queue at all.
  ghost predicate GapHasCause(code: string, choices: Choices, urls: seq<string>, receives: int) {
    || ReceiveFailedWith(choices, code)
    || (code == "DLQ_SWEEP_INCOMPLETE" && receives >= 20)
    || (code == "DLQ_FIFO_GROUP_HIDDEN" && exists url | url in urls :: IsFifo(url))
    || (code == "DLQ_QUEUES_UNBOUND" && urls == [])
  }

  lemma {:induction false} GapsHaveCauses(s: Sweeping, captured: set<string>, choices: Choices, urls: seq<string>,
                                          n: nat)
    requires n <= |urls|
    ensures var (after, gap) := SweptUpTo(s, captured, choices, urls, n);
      && s.world.receives <= after.world.receives
      && (gap.Some? ==> GapHasCause(gap.value, choices, urls, after.world.receives - s.world.receives))
  {
    hide ReceivedFrom, ReleasedUpTo, ReceiveFailedWith, IsFifo;
    if n > 0 {
      GapsHaveCauses(s, captured, choices, urls, n - 1);
      var before := SweptUpTo(s, captured, choices, urls, n - 1).0;
      if before.state.pending != {} {
        var url := urls[n - 1];
        ReceivesGapHasCause(before, [], captured, choices, url, MAX_RECEIVES);
        var r := ReceivedFrom(before, [], captured, choices, url, MAX_RECEIVES);
        ReleasingReceivesNothing(r.sweeping.world, choices, r.held, |r.held|);
        assert url in urls;
      }
    }
  }
}

// A sweep alone with queues that answer finishes its work.
module DlqHealthySweep {
  import opened Wrappers
  import opened DlqQueueModel
  import opened DlqDeletion
  import opened DlqTheorems
  import opened DlqOutcomes

  // Every call answers, no queue vanishes, nothing reappears and nobody else takes anything.
  ghost predicate IsHealthy(choices: Choices) {
    && NoDeletionFails(choices)
    && forall n :: IsQuiet(choices.receive(n))
  }

  predicate IsQuiet(choice: ReceiveChoice) {
    choice.reappearing == {} && choice.taken == {} && !choice.vanishes && choice.failure.None?
  }

  predicate IsVisibleIn(one: Stored, url: string) {
    one.url == url && one.state == Visible
  }

  function VisibleIn(stored: seq<Stored>, url: string, n: nat): nat
    requires n <= |stored|
  {
    if n == 0 then 0 else VisibleIn(stored, url, n - 1) + if IsVisibleIn(stored[n - 1], url) then 1 else 0
  }

  ghost predicate ShowsNoMore(a: seq<Stored>, b: seq<Stored>, url: string) {
    |a| == |b| && forall m | 0 <= m < |a| && IsVisibleIn(b[m], url) :: IsVisibleIn(a[m], url)
  }

  lemma {:induction false} CountsNoMore(a: seq<Stored>, b: seq<Stored>, url: string, n: nat)
    requires ShowsNoMore(a, b, url) && n <= |a|
    ensures VisibleIn(b, url, n) <= VisibleIn(a, url, n)
  {
    if n > 0 {
      CountsNoMore(a, b, url, n - 1);
    }
  }

  lemma {:induction false} CountsFewer(a: seq<Stored>, b: seq<Stored>, url: string, n: nat, m: nat)
    requires ShowsNoMore(a, b, url) && m < n <= |a| && IsVisibleIn(a[m], url) && !IsVisibleIn(b[m], url)
    ensures VisibleIn(b, url, n) < VisibleIn(a, url, n)
  {
    if m == n - 1 {
      CountsNoMore(a, b, url, n - 1);
    } else {
      CountsFewer(a, b, url, n - 1, m);
    }
  }

  ghost predicate SameElsewhere(a: seq<Stored>, b: seq<Stored>, url: string) {
    |a| == |b| && forall m | 0 <= m < |a| && a[m].url != url :: b[m] == a[m]
  }

  // ---------- one receive ----------

  lemma QuietReceive(w: World, url: string, choices: Choices)
    requires IsHealthy(choices) && w.elsewhere == {} && url in w.existing
    ensures var (after, r) := AfterReceive(w, url, choices);
      && r.Messages? && after.existing == w.existing && after.elsewhere == {}
      && ShowsNoMore(w.stored, after.stored, url) && SameElsewhere(w.stored, after.stored, url)
      && SameMessages(w.stored, after.stored)
      && (r.messages != [] ==>
            VisibleIn(after.stored, url, |w.stored|) < VisibleIn(w.stored, url, |w.stored|))
  {
    hide Batch, VisibleIn;
    var choice := choices.receive(w.calls);
    assert IsQuiet(choice);
    var stirred := Stirred(w, choice);
    assert stirred.stored == w.stored;
    var ms := Batch(w.stored, url, choice.favoured);
    var after := Hidden(w.stored, ms);
    if ms != [] {
      assert ms[0] in ms && IsEligible(w.stored, url, ms[0]);
      CountsFewer(w.stored, after, url, |w.stored|, ms[0]);
    }
  }

  // ---------- one batch ----------

  ghost predicate AreOf(stored: seq<Stored>, url: string, batch: seq<Received>) {
    Fit(batch, |stored|) && forall i | 0 <= i < |batch| :: stored[batch[i].handle].url == url
  }

  // A later world of one sweep of the queue: nothing new to see, and nothing touched elsewhere.
  ghost predicate OnlyTouches(a: World, b: World, url: string) {
    && b.existing == a.existing && b.elsewhere == a.elsewhere && SameMessages(a.stored, b.stored)
    && ShowsNoMore(a.stored, b.stored, url) && SameElsewhere(a.stored, b.stored, url)
  }

  lemma TouchesOn(a: World, b: World, c: World, url: string)
    requires OnlyTouches(a, b, url) && OnlyTouches(b, c, url)
    ensures OnlyTouches(a, c, url)
  {
  }

  lemma SettledTouches(s: Sweeping, held: seq<Received>, captured: set<string>, choices: Choices, url: string,
                       message: Received)
    requires message.handle < |s.world.stored| && s.world.stored[message.handle].url == url
    ensures var (after, kept) := Settled(s, held, captured, choices, message);
      OnlyTouches(s.world, after.world, url) && (kept == held || kept == held + [message])
  {
  }

  lemma {:induction false} BatchTouches(s: Sweeping, held: seq<Received>, captured: set<string>, choices: Choices,
                                        url: string, batch: seq<Received>, n: nat)
    requires AreOf(s.world.stored, url, batch) && AreOf(s.world.stored, url, held) && n <= |batch|
    ensures var (after, kept) := SettledUpTo(s, held, captured, choices, batch, n);
      OnlyTouches(s.world, after.world, url) && AreOf(s.world.stored, url, kept)
  {
    hide Settled, ShowsNoMore, SameElsewhere;
    if n == 0 {
      TouchesNothing(s.world, url);
    } else {
      BatchTouches(s, held, captured, choices, url, batch, n - 1);
      var (before, kept) := SettledUpTo(s, held, captured, choices, batch, n - 1);
      SettledTouches(before, kept, captured, choices, url, batch[n - 1]);
      TouchesOn(s.world, before.world, Settled(before, kept, captured, choices, batch[n - 1]).0.world, url);
    }
  }

  lemma TouchesNothing(w: World, url: string)
    ensures OnlyTouches(w, w, url)
  {
  }

  ghost predicate AllCaptured(stored: seq<Stored>, url: string, captured: set<string>) {
    forall m | 0 <= m < |stored| && stored[m].url == url :: stored[m].id in captured
  }

  lemma {:induction false} CapturedAreNotHeld(s: Sweeping, held: seq<Received>, captured: set<string>, choices: Choices,
                                              batch: seq<Received>, n: nat)
    requires Fit(batch, |s.world.stored|) && Fit(held, |s.world.stored|) && n <= |batch| && NoDeletionFails(choices)
    requires forall i | 0 <= i < |batch| :: batch[i].id in captured
    ensures SettledUpTo(s, held, captured, choices, batch, n).1 == held
  {
    if n > 0 {
      CapturedAreNotHeld(s, held, captured, choices, batch, n - 1);
    }
  }

  // ---------- one queue ----------

  // The queue can be swept: it exists, has fewer messages to show than receives are left, and a FIFO
  // queue holds captured messages only.
  ghost predicate IsSweepable(w: World, url: string, captured: set<string>, left: nat) {
    && w.elsewhere == {} && url in w.existing && VisibleIn(w.stored, url, |w.stored|) < left
    && (IsFifo(url) ==> AllCaptured(w.stored, url, captured))
  }

  lemma {:induction false} ReceivesFinish(s: Sweeping, held: seq<Received>, captured: set<string>, choices: Choices,
                                          url: string, left: nat)
    requires IsHealthy(choices) && IsSweepable(s.world, url, captured, left) && AreOf(s.world.stored, url, held)
    requires IsFifo(url) ==> held == []
    ensures var r := ReceivedFrom(s, held, captured, choices, url, left);
      && r.gap.None? && (IsFifo(url) ==> r.held == [])
      && OnlyTouches(s.world, r.sweeping.world, url) && AreOf(r.sweeping.world.stored, url, r.held)
    decreases left
  {
    hide AfterReceive, SettledUpTo, VisibleIn, IsFifo, IsHealthy, ShowsNoMore, SameElsewhere;
    var (world, received) := AfterReceive(s.world, url, choices);
    var next, batch := s.(world := world), MessagesOf(received);
    DeliveryFits(s.world, url, choices);
    QuietReceive(s.world, url, choices);
    BatchIsOfQueue(s.world, url, choices);
    if batch != [] {
      var (after, kept) := SettledUpTo(next, held, captured, choices, batch, |batch|);
      BatchTouches(next, held, captured, choices, url, batch, |batch|);
      TouchesOn(s.world, world, after.world, url);
      CountsNoMore(world.stored, after.world.stored, url, |world.stored|);
      if IsFifo(url) {
        HealthyDeletes(choices);
        CapturedBatch(s.world, world, url, captured, batch);
        CapturedAreNotHeld(next, held, captured, choices, batch, |batch|);
        StillCaptured(s.world.stored, after.world.stored, url, captured);
      }
      if after.state.pending != {} {
        ReceivesFinish(after, kept, captured, choices, url, left - 1);
        TouchesOn(s.world, after.world, ReceivedFrom(after, kept, captured, choices, url, left - 1).sweeping.world,
            url);
      }
    }
  }

  lemma HealthyDeletes(choices: Choices)
    requires IsHealthy(choices)
    ensures NoDeletionFails(choices)
  {
  }

  lemma BatchIsOfQueue(w: World, url: string, choices: Choices)
    ensures var (after, r) := AfterReceive(w, url, choices);
      && AreOf(after.stored, url, MessagesOf(r))
      && forall i | 0 <= i < |MessagesOf(r)| :: after.stored[MessagesOf(r)[i].handle].id == MessagesOf(r)[i].id
  {
    hide AfterReceive;
    ReceiveTakes(w, url, choices);
  }

  lemma CapturedBatch(w: World, after: World, url: string, captured: set<string>, batch: seq<Received>)
    requires AllCaptured(w.stored, url, captured) && SameMessages(w.stored, after.stored)
    requires AreOf(after.stored, url, batch)
    requires forall i | 0 <= i < |batch| :: after.stored[batch[i].handle].id == batch[i].id
    ensures forall i | 0 <= i < |batch| :: batch[i].id in captured
  {
  }

  lemma StillCaptured(a: seq<Stored>, b: seq<Stored>, url: string, captured: set<string>)
    requires AllCaptured(a, url, captured) && |a| == |b|
    requires forall m | 0 <= m < |a| :: b[m].url == a[m].url && b[m].id == a[m].id
    ensures AllCaptured(b, url, captured)
  {
  }

  lemma {:induction false} ReleasingTouches(w: World, choices: Choices, url: string, held: seq<Received>, n: nat)
    requires AreOf(w.stored, url, held) && n <= |held|
    ensures var after := ReleasedUpTo(w, choices, held, n);
      && after.existing == w.existing && after.elsewhere == w.elsewhere
      && SameMessages(w.stored, after.stored) && SameElsewhere(w.stored, after.stored, url)
  {
    if n > 0 {
      ReleasingTouches(w, choices, url, held, n - 1);
    }
  }

  // A queue that can be swept leaves no gap, and no other queue is touched.
  lemma SweepFinishes(s: Sweeping, captured: set<string>, choices: Choices, url: string)
    requires IsHealthy(choices) && IsSweepable(s.world, url, captured, MAX_RECEIVES)
    ensures var (after, gap) := SweptQueue(s, captured, choices, url);
      && gap.None? && after.world.existing == s.world.existing && after.world.elsewhere == {}
      && SameMessages(s.world.stored, after.world.stored) && SameElsewhere(s.world.stored, after.world.stored, url)
  {
    hide ReceivedFrom, ReleasedUpTo, IsFifo, IsHealthy, VisibleIn;
    ReceivesFinish(s, [], captured, choices, url, MAX_RECEIVES);
    var r := ReceivedFrom(s, [], captured, choices, url, MAX_RECEIVES);
    ReleasingTouches(r.sweeping.world, choices, url, r.held, |r.held|);
  }

  // ---------- every queue ----------

  ghost predicate AreSweepable(w: World, urls: seq<string>, from: nat, captured: set<string>) {
    forall j | from <= j < |urls| :: IsSweepable(w, urls[j], captured, MAX_RECEIVES)
  }

  lemma {:induction false} SameCount(a: seq<Stored>, b: seq<Stored>, url: string, n: nat)
    requires |a| == |b| && n <= |a| && forall m | 0 <= m < |a| && a[m].url == url :: b[m] == a[m]
    requires forall m | 0 <= m < |a| :: b[m].url == a[m].url
    ensures VisibleIn(b, url, n) == VisibleIn(a, url, n)
  {
    if n > 0 {
      SameCount(a, b, url, n - 1);
    }
  }

  lemma OthersStaySweepable(a: World, b: World, swept: string, url: string, captured: set<string>)
    requires IsSweepable(a, url, captured, MAX_RECEIVES) && url != swept
    requires b.existing == a.existing && b.elsewhere == {}
    requires SameMessages(a.stored, b.stored) && SameElsewhere(a.stored, b.stored, swept)
    ensures IsSweepable(b, url, captured, MAX_RECEIVES)
  {
    hide VisibleIn, IsFifo;
    SameCount(a.stored, b.stored, url, |a.stored|);
  }

  lemma {:induction false} SweepsFinish(s: Sweeping, captured: set<string>, choices: Choices, urls: seq<string>, n: nat)
    requires IsHealthy(choices) && NoRepeats(urls) && urls != [] && n <= |urls| &&
        AreSweepable(s.world, urls, 0, captured)
    ensures var (after, gap) := SweptUpTo(s, captured, choices, urls, n);
      && gap.None? && after.world.existing == s.world.existing && AreSweepable(after.world, urls, n, captured)
      && SameMessages(s.world.stored, after.world.stored)
      && forall m | 0 <= m < |s.world.stored| && s.world.stored[m].url !in urls ::
           after.world.stored[m] == s.world.stored[m]
  {
    hide SweptQueue, IsHealthy, IsSweepable;
    if n > 0 {
      SweepsFinish(s, captured, choices, urls, n - 1);
      var before := SweptUpTo(s, captured, choices, urls, n - 1).0;
      assert IsSweepable(before.world, urls[n - 1], captured, MAX_RECEIVES);
      if before.state.pending != {} {
        SweepFinishes(before, captured, choices, urls[n - 1]);
        var after := SweptQueue(before, captured, choices, urls[n - 1]).0;
        forall j | n <= j < |urls|
          ensures IsSweepable(after.world, urls[j], captured, MAX_RECEIVES)
        {
          OthersStaySweepable(before.world, after.world, urls[n - 1], urls[j], captured);
        }
      }
    }
  }

  // Some message of the id is in one of the queues.
  ghost predicate IsPresent(w: World, urls: seq<string>, id: string) {
    exists m | 0 <= m < |w.stored| :: w.stored[m].id == id && w.stored[m].url in urls && w.stored[m].state != Gone
  }

  // Alone with queues that answer, each with fewer than 20 messages to show and FIFO ones with captured
  // messages only, the sweep reports no failure, deletes every captured id that is in a bound queue and
  // reports exactly the others absent.
  lemma HealthySweepSettlesEveryId(w: World, choices: Choices, urls: seq<string>, ids: seq<string>, report: Report)
    requires NoRepeats(urls) && urls != [] && IsHealthy(choices) && w.received == {}
    requires forall m | 0 <= m < |w.stored| :: w.stored[m].state != InFlight
    requires AreSweepable(w, urls, 0, IdsIn(ids))
    requires var (after, gap) := Swept(w, choices, urls, ids); IsReport(report, after.state, gap)
    ensures report.failed == []
    ensures forall id | id in ids :: id in report.deleted <==> IsPresent(w, urls, id)
    ensures forall id :: id in report.absent <==> id in ids && !IsPresent(w, urls, id)
  {
    hide SweptUpTo, IsReport, NoRepeats, IdsOf, WereDeleted, IsSweepable;
    var captured := IdsIn(ids);
    var begun := Sweeping(w, SweepView(captured, [], []));
    var (after, gap) := Swept(w, choices, urls, ids);
    HealthyIsAlone(w, choices, urls, captured);
    SweepsFinish(begun, captured, choices, urls, |urls|);
    OutcomesHaveCauses(w, choices, urls, ids);
    SweepIsSound(w, choices, urls, ids, report);
    AbsentMeansAbsentWhenAlone(w, choices, urls, ids, report);
    AloneThroughout(begun, captured, choices, urls, |urls|);
    CleanReport(report, after.state);
    EachOnce(report);
    forall id | id in ids
      ensures id in report.deleted <==> IsPresent(w, urls, id)
    {
      PresentIsDeleted(w, after, urls, ids, report, id);
    }
  }

  // What the theorems say of the report and of the queues decides whether the id was there.
  lemma PresentIsDeleted(w: World, after: Sweeping, urls: seq<string>, ids: seq<string>, report: Report, id: string)
    requires id in ids && report.deleted == after.state.deleted && SameMessages(w.stored, after.world.stored)
    requires id in report.deleted || id in report.absent
    requires after.world.existing == w.existing && forall j | 0 <= j < |urls| :: urls[j] in w.existing
    requires OnlyReceivedGo(w, after.world) && after.world.elsewhere == {}
    requires WereDeleted(w.stored, after.world.stored, report.deleted)
    requires forall m | m in after.world.received && m < |after.world.stored| && after.world.stored[m].id in ids ::
               after.world.stored[m].id in after.state.deleted
    requires forall m | 0 <= m < |after.world.stored| && after.world.stored[m].id in report.absent
                          && after.world.stored[m].url in urls && after.world.stored[m].url in after.world.existing ::
               after.world.stored[m].state == Gone
    requires forall m | 0 <= m < |w.stored| && w.stored[m].url !in urls :: after.world.stored[m] == w.stored[m]
    ensures id in report.deleted <==> IsPresent(w, urls, id)
  {
    if id in report.deleted {
      var i :| 0 <= i < |report.deleted| && report.deleted[i] == id;
      assert WasDeleted(w.stored, after.world.stored, report.deleted[i]);
      var m :| 0 <= m < |w.stored| && after.world.stored[m].id == id && after.world.stored[m].state == Gone
        && w.stored[m].state != Gone;
      assert w.stored[m].url in urls;
    }
  }

  lemma HealthyIsAlone(w: World, choices: Choices, urls: seq<string>, captured: set<string>)
    requires urls != [] && IsHealthy(choices) && AreSweepable(w, urls, 0, captured)
    requires forall m | 0 <= m < |w.stored| :: w.stored[m].state != InFlight
    ensures w.elsewhere == {} && NobodyElseTakes(choices) && IsBeginning(w) && NoDeletionFails(choices)
    ensures forall j | 0 <= j < |urls| :: urls[j] in w.existing
  {
    assert IsSweepable(w, urls[0], captured, MAX_RECEIVES);
    forall n
      ensures choices.receive(n).taken == {}
    {
      assert IsQuiet(choices.receive(n));
    }
    forall j | 0 <= j < |urls|
      ensures urls[j] in w.existing
    {
      assert IsSweepable(w, urls[j], captured, MAX_RECEIVES);
    }
  }

  lemma CleanReport(report: Report, state: SweepView)
    requires IsReport(report, state, None) && state.failed == []
    ensures report.failed == [] && report.deleted == state.deleted && IdsOf(report.failed) == []
  {
  }

  lemma EachOnce(report: Report)
    requires NoRepeats(report.deleted + IdsOf(report.failed) + report.absent) && IdsOf(report.failed) == []
    ensures forall id | id in report.deleted :: id !in report.absent
  {
    hide IdsOf;
    var all := report.deleted + report.absent;
    assert all == report.deleted + [] + report.absent;
    forall i, j | 0 <= i < |report.deleted| && 0 <= j < |report.absent|
      ensures report.deleted[i] != report.absent[j]
    {
      assert all[i] == report.deleted[i] && all[|report.deleted| + j] == report.absent[j];
    }
  }
}
