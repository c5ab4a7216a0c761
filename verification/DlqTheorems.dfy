// What every sweep keeps, whatever the queues and other consumers do.
module DlqTheorems {
  import opened Wrappers
  import opened DlqQueueModel
  import opened DlqDeletion

  // ---------- the captured ids ----------

  // Each captured id is in exactly one of the three, once.
  ghost predicate Partitions(captured: set<string>, deleted: seq<string>, failed: seq<string>, rest: set<string>) {
    && NoRepeats(deleted + failed)
    && (forall id :: id in captured <==> id in deleted || id in failed || id in rest)
    && forall id | id in rest :: id !in deleted && id !in failed
  }

  lemma OneSettled(captured: set<string>, deleted: seq<string>, failed: seq<string>, rest: set<string>, id: string)
    requires Partitions(captured, deleted, failed, rest) && id in rest
    ensures Partitions(captured, deleted + [id], failed, rest - {id})
    ensures Partitions(captured, deleted, failed + [id], rest - {id})
  {
    AddedOnce(deleted, failed, id);
    var more, worse := deleted + [id], failed + [id];
    assert forall x :: x in more <==> x in deleted || x == id;
    assert forall x :: x in worse <==> x in failed || x == id;
  }

  lemma AddedOnce(deleted: seq<string>, failed: seq<string>, id: string)
    requires NoRepeats(deleted + failed) && id !in deleted && id !in failed
    ensures NoRepeats(deleted + [id] + failed) && NoRepeats(deleted + (failed + [id]))
  {
    var all, first, last := deleted + failed, deleted + [id] + failed, deleted + (failed + [id]);
    assert last == all + [id] && id !in all;
    forall i, j | 0 <= i < j < |first|
      ensures first[i] != first[j]
    {
      var n := |deleted|;
      if i != n && j != n {
        assert first[i] == all[if i < n then i else i - 1] && first[j] == all[if j < n then j else j - 1];
      } else if i == n {
        assert first[j] == failed[j - n - 1];
      } else {
        assert first[i] == deleted[i];
      }
    }
  }

  ghost predicate Accounts(state: SweepView, captured: set<string>) {
    Partitions(captured, state.deleted, IdsOf(state.failed), state.pending)
  }

  lemma NotingAccounts(state: SweepView, captured: set<string>, id: string, deletion: Option<Change>)
    requires Accounts(state, captured) && (deletion.Some? <==> id in captured)
    ensures Accounts(Noted(state, id, deletion), captured)
  {
    hide Partitions;
    if id in state.pending {
      PendingIsCaptured(captured, state.deleted, IdsOf(state.failed), state.pending, id);
      OneSettled(captured, state.deleted, IdsOf(state.failed), state.pending, id);
      if deletion.value.ChangeFailed? {
        var more := state.failed + [FailedId(id, deletion.value.code)];
        assert IdsOf(more) == IdsOf(state.failed) + [id];
      }
    } else {
      assert state.pending - {id} == state.pending;
    }
  }

  lemma PendingIsCaptured(captured: set<string>, deleted: seq<string>, failed: seq<string>, rest: set<string>,
                          id: string)
    requires Partitions(captured, deleted, failed, rest) && id in rest
    ensures id in captured
  {
  }

  // ---------- the messages ----------

  // Every id said to be deleted was deleted: a message of that id was there and is gone.
  ghost predicate WereDeleted(start: seq<Stored>, stored: seq<Stored>, deleted: seq<string>)
    requires |start| == |stored|
  {
    forall i | 0 <= i < |deleted| :: WasDeleted(start, stored, deleted[i])
  }

  ghost predicate WasDeleted(start: seq<Stored>, stored: seq<Stored>, id: string)
    requires |start| == |stored|
  {
    exists m | 0 <= m < |stored| :: stored[m].id == id && stored[m].state == Gone && start[m].state != Gone
  }

  // Only captured messages go, unless others delete them, and outside the queues swept so far only
  // other consumers have messages in flight.
  ghost predicate Evolves(start: World, w: World, captured: set<string>, urls: set<string>) {
    && Follows(start, w)
    && (forall m | 0 <= m < |w.stored| && w.stored[m].state == Gone ::
          start.stored[m].state == Gone || w.stored[m].id in captured || m in w.elsewhere)
    && forall m | 0 <= m < |w.stored| && w.stored[m].state == InFlight && w.stored[m].url !in urls :: m in w.elsewhere
  }

  ghost predicate Kept(start: World, s: Sweeping, captured: set<string>, urls: set<string>) {
    && Accounts(s.state, captured) && Evolves(start, s.world, captured, urls)
    && WereDeleted(start.stored, s.world.stored, s.state.deleted)
  }

  // Everything in flight in the queue is held, still to be settled or another consumer's, and nothing
  // held is pending.
  ghost predicate Holds(w: World, url: string, held: seq<Received>, batch: seq<Received>, from: nat,
                        pending: set<string>) {
    && NamesStored(w.stored, url, held)
    && (forall i | 0 <= i < |held| :: held[i].id !in pending)
    && forall m | 0 <= m < |w.stored| && w.stored[m].url == url && w.stored[m].state == InFlight ::
         IsTaken(held, 0, m) || IsTaken(batch, from, m) || m in w.elsewhere
  }

  // Another consumer had the message in flight since the beginning or, in a FIFO queue, one of its group.
  ghost predicate IsElsewhere(w: World, m: nat)
    requires m < |w.stored|
  {
    || m in w.elsewhere
    || (IsFifo(w.stored[m].url) &&
        exists other | 0 <= other < |w.stored| :: other in w.elsewhere && SharesGroup(w.stored, m, other))
  }

  // Nothing of the ids is left in the queue but what other consumers had, or the queue itself is gone.
  ghost predicate IsCleared(w: World, url: string, ids: set<string>) {
    url in w.existing ==>
      forall m | 0 <= m < |w.stored| && w.stored[m].url == url && w.stored[m].id in ids ::
        w.stored[m].state == Gone || IsElsewhere(w, m)
  }

  lemma ClearedStays(w: World, ids: set<string>, w': World, ids': set<string>, url: string)
    requires IsCleared(w, url, ids) && Follows(w, w') && ids' <= ids
    ensures IsCleared(w', url, ids')
  {
    forall m | 0 <= m < |w'.stored| && w'.stored[m].url == url && w'.stored[m].id in ids' && url in w'.existing
      ensures w'.stored[m].state == Gone || IsElsewhere(w', m)
    {
      if w.stored[m].state != Gone && m !in w.elsewhere {
        var other :| 0 <= other < |w.stored| && other in w.elsewhere && SharesGroup(w.stored, m, other);
        assert SharesGroup(w'.stored, m, other);
      }
    }
  }

  // An empty receive proves the pending ids absent when nothing is held, or the queue is not FIFO.
  lemma EmptyReceiveProves(w: World, url: string, pending: set<string>, held: seq<Received>)
    requires forall m | 0 <= m < |w.stored| :: !IsEligible(w.stored, url, m)
    requires Holds(w, url, held, [], 0, pending) && (held == [] || !IsFifo(url))
    ensures IsCleared(w, url, pending)
  {
    forall m | 0 <= m < |w.stored| && w.stored[m].url == url && w.stored[m].id in pending && w.stored[m].state != Gone
      ensures IsElsewhere(w, m)
    {
      assert !IsEligible(w.stored, url, m);
      if w.stored[m].state == Visible {
        var other :| 0 <= other < |w.stored| && SharesGroup(w.stored, m, other) && w.stored[other].state == InFlight;
        assert other in w.elsewhere;
      }
    }
  }

  // ---------- one message, one batch ----------

  ghost predicate IsUnsettled(stored: seq<Stored>, url: string, batch: seq<Received>, from: nat) {
    && NamesStored(stored, url, batch)
    && (forall i | from <= i < |batch| :: stored[batch[i].handle].state == InFlight)
    && forall i, j | 0 <= i < j < |batch| :: batch[i].handle < batch[j].handle
  }

  // A message of the batch is settled: only it changes, and it is gone or held.
  lemma SettlingOne(s: Sweeping, held: seq<Received>, captured: set<string>, choices: Choices, message: Received)
    requires message.handle < |s.world.stored| && s.world.stored[message.handle].id == message.id
    ensures var (after, kept) := Settled(s, held, captured, choices, message);
      && Follows(s.world, after.world) && after.world.elsewhere == s.world.elsewhere
      && after.world.receives == s.world.receives && after.state.pending == s.state.pending - {message.id}
      && (forall m | 0 <= m < |s.world.stored| && m != message.handle :: after.world.stored[m] == s.world.stored[m])
      && (after.world.stored[message.handle].state == Gone ||
          after.world.stored[message.handle] == s.world.stored[message.handle])
      && (after.world.stored[message.handle] != s.world.stored[message.handle] ==> message.id in captured)
      && (kept == held + [message] || (kept == held && after.world.stored[message.handle].state == Gone))
      && (after.state.deleted == s.state.deleted ||
          (after.state.deleted == s.state.deleted + [message.id] && after.world.stored[message.handle].state == Gone))
  {
  }

  lemma SettlingAccounts(s: Sweeping, held: seq<Received>, captured: set<string>, choices: Choices, message: Received)
    requires message.handle < |s.world.stored| && Accounts(s.state, captured)
    ensures Accounts(Settled(s, held, captured, choices, message).0.state, captured)
  {
    hide Accounts, Noted;
    if message.id in captured {
      NotingAccounts(s.state, captured, message.id, Some(AfterDelete(s.world, message.handle, choices).1));
    } else {
      NotingAccounts(s.state, captured, message.id, None);
    }
  }

  lemma SettlingKeeps(start: World, s: Sweeping, held: seq<Received>, captured: set<string>, choices: Choices,
                      urls: set<string>, message: Received)
    requires Kept(start, s, captured, urls) && message.handle < |s.world.stored|
    requires s.world.stored[message.handle].id == message.id && s.world.stored[message.handle].state != Gone
    ensures Kept(start, Settled(s, held, captured, choices, message).0, captured, urls)
  {
    hide Settled, Accounts, WasDeleted;
    var after := Settled(s, held, captured, choices, message).0;
    SettlingOne(s, held, captured, choices, message);
    SettlingAccounts(s, held, captured, choices, message);
    FollowsOn(start, s.world, after.world);
    DeletedStay(start.stored, s.world.stored, after.world.stored, s.state.deleted);
    if after.state.deleted != s.state.deleted {
      IsDeleted(start.stored, after.world.stored, message.handle);
    }
  }

  lemma DeletedStay(start: seq<Stored>, stored: seq<Stored>, after: seq<Stored>, deleted: seq<string>)
    requires |start| == |stored| && WereDeleted(start, stored, deleted) && SameMessages(stored, after)
    requires forall m | 0 <= m < |stored| && stored[m].state == Gone :: after[m].state == Gone
    ensures WereDeleted(start, after, deleted)
  {
  }

  lemma IsDeleted(start: seq<Stored>, stored: seq<Stored>, m: nat)
    requires |start| == |stored| && m < |stored| && stored[m].state == Gone && start[m].state != Gone
    ensures WasDeleted(start, stored, stored[m].id)
  {
  }

  lemma SettlingHolds(s: Sweeping, url: string, held: seq<Received>, captured: set<string>, choices: Choices,
                      batch: seq<Received>, i: nat)
    requires i < |batch| && IsUnsettled(s.world.stored, url, batch, i)
    requires Holds(s.world, url, held, batch, i, s.state.pending)
    ensures var (after, kept) := Settled(s, held, captured, choices, batch[i]);
      && IsUnsettled(after.world.stored, url, batch, i + 1)
      && Holds(after.world, url, kept, batch, i + 1, after.state.pending)
  {
    hide Settled;
    var (after, kept) := Settled(s, held, captured, choices, batch[i]);
    SettlingOne(s, held, captured, choices, batch[i]);
    var stored := after.world.stored;
    forall m | 0 <= m < |stored| && stored[m].url == url && stored[m].state == InFlight
      ensures IsTaken(kept, 0, m) || IsTaken(batch, i + 1, m) || m in after.world.elsewhere
    {
      if m == batch[i].handle {
        assert kept[|held|].handle == m;
      } else if IsTaken(held, 0, m) {
        var k :| 0 <= k < |held| && held[k].handle == m;
        assert kept[k].handle == m;
      } else if IsTaken(batch, i, m) {
        var j :| i <= j < |batch| && batch[j].handle == m;
        assert j != i;
      }
    }
  }

  lemma {:induction false} BatchKeeps(start: World, s: Sweeping, url: string, held: seq<Received>,
                                      captured: set<string>,
                                      choices: Choices, urls: set<string>, batch: seq<Received>, n: nat)
    requires Kept(start, s, captured, urls) && IsUnsettled(s.world.stored, url, batch, 0) && n <= |batch|
    requires Holds(s.world, url, held, batch, 0, s.state.pending)
    requires Fit(batch, |s.world.stored|) && Fit(held, |s.world.stored|)
    ensures var (after, kept) := SettledUpTo(s, held, captured, choices, batch, n);
      && Kept(start, after, captured, urls) && Follows(s.world, after.world)
      && IsUnsettled(after.world.stored, url, batch, n)
      && Holds(after.world, url, kept, batch, n, after.state.pending)
      && after.state.pending <= s.state.pending && after.world.receives == s.world.receives
  {
    hide Kept, Holds, IsUnsettled, Settled, Follows;
    if n == 0 {
      FollowsItself(s.world);
    } else {
      BatchKeeps(start, s, url, held, captured, choices, urls, batch, n - 1);
      var (before, kept) := SettledUpTo(s, held, captured, choices, batch, n - 1);
      NextIsUnsettled(before.world.stored, url, batch, n - 1);
      SettlingKeeps(start, before, kept, captured, choices, urls, batch[n - 1]);
      SettlingHolds(before, url, kept, captured, choices, batch, n - 1);
      SettlingOne(before, kept, captured, choices, batch[n - 1]);
      FollowsOn(s.world, before.world, Settled(before, kept, captured, choices, batch[n - 1]).0.world);
    }
  }

  lemma FollowsItself(w: World)
    ensures Follows(w, w)
  {
  }

  lemma NextIsUnsettled(stored: seq<Stored>, url: string, batch: seq<Received>, i: nat)
    requires IsUnsettled(stored, url, batch, i) && i < |batch|
    ensures batch[i].handle < |stored| && stored[batch[i].handle].id == batch[i].id
    ensures stored[batch[i].handle].state != Gone
  {
  }

  // ---------- one queue ----------

  lemma ReceiveKeeps(start: World, s: Sweeping, url: string, held: seq<Received>, captured: set<string>,
                     choices: Choices, urls: set<string>)
    requires Kept(start, s, captured, urls) && url in urls && Holds(s.world, url, held, [], 0, s.state.pending)
    ensures var (world, r) := AfterReceive(s.world, url, choices);
      && Kept(start, s.(world := world), captured, urls) && Follows(s.world, world)
      && IsUnsettled(world.stored, url, MessagesOf(r), 0)
      && Holds(world, url, held, MessagesOf(r), 0, s.state.pending)
  {
    hide AfterReceive, Accounts;
    var (world, r) := AfterReceive(s.world, url, choices);
    ReceiveTakes(s.world, url, choices);
    FollowsOn(start, s.world, world);
    DeletedStay(start.stored, s.world.stored, world.stored, s.state.deleted);
  }

  lemma {:induction false} ReceivesKeep(start: World, s: Sweeping, url: string, held: seq<Received>,
                                        captured: set<string>,
                                        choices: Choices, urls: set<string>, left: nat)
    requires Kept(start, s, captured, urls) && url in urls && Fit(held, |s.world.stored|)
    requires Holds(s.world, url, held, [], 0, s.state.pending)
    ensures var r := ReceivedFrom(s, held, captured, choices, url, left);
      && Kept(start, r.sweeping, captured, urls) && Follows(s.world, r.sweeping.world)
      && r.sweeping.state.pending <= s.state.pending && r.sweeping.world.receives <= s.world.receives + left
      && Holds(r.sweeping.world, url, r.held, [], 0, r.sweeping.state.pending)
      && (r.gap.None? && (r.held == [] || !IsFifo(url)) ==> IsCleared(r.sweeping.world, url, r.sweeping.state.pending))
    decreases left
  {
    hide Kept, Holds, IsUnsettled, Follows, IsCleared, AfterReceive, SettledUpTo, IsFifo, IsEligible;
    if left == 0 {
      FollowsItself(s.world);
    } else {
      var (world, received) := AfterReceive(s.world, url, choices);
      var next := s.(world := world);
      ReceiveTakes(s.world, url, choices);
      DeliveryFits(s.world, url, choices);
      ReceiveKeeps(start, s, url, held, captured, choices, urls);
      var batch := MessagesOf(received);
      if batch == [] {
        if received.QueueAbsent? {
          GoneIsCleared(world, url, s.state.pending);
        } else if received.Messages? && (held == [] || !IsFifo(url)) {
          EmptyReceiveProves(world, url, s.state.pending, held);
        }
      } else {
        BatchKeeps(start, next, url, held, captured, choices, urls, batch, |batch|);
        var (after, kept) := SettledUpTo(next, held, captured, choices, batch, |batch|);
        FollowsOn(s.world, world, after.world);
        AllSettled(after.world, url, kept, batch, after.state.pending);
        if after.state.pending == {} {
          NothingIsCleared(after.world, url);
        } else {
          ReceivesKeep(start, after, url, kept, captured, choices, urls, left - 1);
          FollowsOn(s.world, after.world, ReceivedFrom(after, kept, captured, choices, url, left - 1).sweeping.world);
        }
      }
    }
  }

  lemma AllSettled(w: World, url: string, held: seq<Received>, batch: seq<Received>, pending: set<string>)
    requires Holds(w, url, held, batch, |batch|, pending)
    ensures Holds(w, url, held, [], 0, pending)
  {
  }

  lemma GoneIsCleared(w: World, url: string, ids: set<string>)
    requires url !in w.existing
    ensures IsCleared(w, url, ids)
  {
  }

  lemma NothingIsCleared(w: World, url: string)
    ensures IsCleared(w, url, {})
  {
  }

  lemma {:induction false} ReleasesKeep(start: World, s: Sweeping, captured: set<string>, choices: Choices,
                                        urls: set<string>,
                                        held: seq<Received>, n: nat)
    requires Kept(start, s, captured, urls) && Fit(held, |s.world.stored|) && n <= |held|
    ensures var world := ReleasedUpTo(s.world, choices, held, n);
      Kept(start, s.(world := world), captured, urls) && Follows(s.world, world) && world.receives == s.world.receives
  {
    hide Accounts, WasDeleted;
    if n == 0 {
      FollowsItself(s.world);
    } else {
      ReleasesKeep(start, s, captured, choices, urls, held, n - 1);
      var before := ReleasedUpTo(s.world, choices, held, n - 1);
      var world := AfterRelease(before, held[n - 1].handle, choices);
      assert Follows(before, world);
      FollowsOn(s.world, before, world);
      FollowsOn(start, before, world);
      DeletedStay(start.stored, before.stored, world.stored, s.state.deleted);
    }
  }

  // One queue swept: what was kept stays, and without a gap no pending id is left in the queue.
  lemma SweepKeeps(start: World, s: Sweeping, captured: set<string>, choices: Choices, urls: set<string>, url: string)
    requires Kept(start, s, captured, urls) && url in urls && Holds(s.world, url, [], [], 0, s.state.pending)
    ensures var (after, gap) := SweptQueue(s, captured, choices, url);
      && Kept(start, after, captured, urls) && Follows(s.world, after.world)
      && after.state.pending <= s.state.pending && after.world.receives <= s.world.receives + MAX_RECEIVES
      && (gap.None? ==> IsCleared(after.world, url, after.state.pending))
  {
    hide Kept, Holds, Follows, IsCleared, ReceivedFrom, ReleasedUpTo, IsFifo;
    ReceivesKeep(start, s, url, [], captured, choices, urls, MAX_RECEIVES);
    var r := ReceivedFrom(s, [], captured, choices, url, MAX_RECEIVES);
    ReleasesKeep(start, r.sweeping, captured, choices, urls, r.held, |r.held|);
    var after := SweptQueue(s, captured, choices, url).0;
    FollowsOn(s.world, r.sweeping.world, after.world);
    if r.gap.None? && (r.held == [] || !IsFifo(url)) {
      ClearedStays(r.sweeping.world, r.sweeping.state.pending, after.world, after.state.pending, url);
    }
  }

  // ---------- every queue ----------

  function UrlsUpTo(urls: seq<string>, n: nat): set<string>
    requires n <= |urls|
  {
    set i | 0 <= i < n :: urls[i]
  }

  // What is in flight at the beginning is on record as another consumer's.
  ghost predicate IsBeginning(w: World) {
    forall m | 0 <= m < |w.stored| && w.stored[m].state == InFlight :: m in w.elsewhere
  }

  lemma NextQueue(start: World, s: Sweeping, captured: set<string>, urls: seq<string>, n: nat)
    requires n < |urls| && NoRepeats(urls) && Kept(start, s, captured, UrlsUpTo(urls, n))
    ensures Kept(start, s, captured, UrlsUpTo(urls, n + 1)) && urls[n] in UrlsUpTo(urls, n + 1)
    ensures Holds(s.world, urls[n], [], [], 0, s.state.pending)
  {
    hide Accounts, WasDeleted;
    assert urls[n] !in UrlsUpTo(urls, n) && UrlsUpTo(urls, n) <= UrlsUpTo(urls, n + 1);
  }

  ghost predicate AllCleared(w: World, urls: seq<string>, n: nat, ids: set<string>)
    requires n <= |urls|
  {
    forall j | 0 <= j < n :: IsCleared(w, urls[j], ids)
  }

  lemma {:induction false} SweepsKeep(start: World, s: Sweeping, captured: set<string>, choices: Choices,
                                      urls: seq<string>, n: nat)
    requires n <= |urls| && NoRepeats(urls) && s.world == start && Kept(start, s, captured, {})
    ensures var (after, gap) := SweptUpTo(s, captured, choices, urls, n);
      && Kept(start, after, captured, UrlsUpTo(urls, n)) && after.world.receives <= start.receives + n * MAX_RECEIVES
      && (gap.None? ==> AllCleared(after.world, urls, n, after.state.pending))
      && (urls == [] ==> gap.Some?)
  {
    hide Kept, IsCleared, SweptQueue, Holds, Follows;
    if n == 0 {
      assert UrlsUpTo(urls, 0) == {};
    } else {
      SweepsKeep(start, s, captured, choices, urls, n - 1);
      var (before, gap) := SweptUpTo(s, captured, choices, urls, n - 1);
      NextQueue(start, before, captured, urls, n - 1);
      if before.state.pending == {} {
        NothingIsCleared(before.world, urls[n - 1]);
      } else {
        SweepKeeps(start, before, captured, choices, UrlsUpTo(urls, n), urls[n - 1]);
        var (after, found) := SweptQueue(before, captured, choices, urls[n - 1]);
        if gap.None? {
          forall j | 0 <= j < n - 1
            ensures IsCleared(after.world, urls[j], after.state.pending)
          {
            ClearedStays(before.world, before.state.pending, after.world, after.state.pending, urls[j]);
          }
        }
      }
    }
  }

  // ---------- what was held is let go ----------

  ghost predicate EveryReleaseWorks(choices: Choices) {
    forall n :: choices.release(n)
  }

  lemma {:induction false} ReleasesFree(w: World, choices: Choices, held: seq<Received>, n: nat)
    requires Fit(held, |w.stored|) && n <= |held| && EveryReleaseWorks(choices)
    ensures var after := ReleasedUpTo(w, choices, held, n);
      forall m | 0 <= m < |w.stored| && after.stored[m].state == InFlight ::
        w.stored[m].state == InFlight && forall i | 0 <= i < n :: held[i].handle != m
  {
    if n > 0 {
      ReleasesFree(w, choices, held, n - 1);
    }
  }

  // Where releases work, a sweep leaves only other consumers' messages in flight.
  lemma SweepFrees(start: World, s: Sweeping, captured: set<string>, choices: Choices, url: string)
    requires Kept(start, s, captured, {}) && EveryReleaseWorks(choices)
    ensures Kept(start, SweptQueue(s, captured, choices, url).0, captured, {})
  {
    hide Accounts, WereDeleted, Follows, ReceivedFrom, ReleasedUpTo, IsCleared;
    assert Kept(start, s, captured, {url}) && Holds(s.world, url, [], [], 0, s.state.pending);
    ReceivesKeep(start, s, url, [], captured, choices, {url}, MAX_RECEIVES);
    SweepKeeps(start, s, captured, choices, {url}, url);
    var r := ReceivedFrom(s, [], captured, choices, url, MAX_RECEIVES);
    ReleasesKeep(start, r.sweeping, captured, choices, {url}, r.held, |r.held|);
    ReleasesFree(r.sweeping.world, choices, r.held, |r.held|);
    FreedOf(r.sweeping.world, ReleasedUpTo(r.sweeping.world, choices, r.held, |r.held|), url, r.held,
            r.sweeping.state.pending);
  }

  lemma FreedOf(w: World, after: World, url: string, held: seq<Received>, pending: set<string>)
    requires Holds(w, url, held, [], 0, pending) && Follows(w, after)
    requires forall m | 0 <= m < |w.stored| && after.stored[m].state == InFlight ::
               w.stored[m].state == InFlight && forall i | 0 <= i < |held| :: held[i].handle != m
    ensures forall m | 0 <= m < |w.stored| && after.stored[m].url == url && after.stored[m].state == InFlight ::
              m in after.elsewhere
  {
  }

  lemma {:induction false} SweepsFree(start: World, s: Sweeping, captured: set<string>, choices: Choices,
                                      urls: seq<string>, n: nat)
    requires n <= |urls| && Kept(start, s, captured, {}) && EveryReleaseWorks(choices)
    ensures Kept(start, SweptUpTo(s, captured, choices, urls, n).0, captured, {})
  {
    hide Kept, SweptQueue;
    if n > 0 {
      SweepsFree(start, s, captured, choices, urls, n - 1);
      var before := SweptUpTo(s, captured, choices, urls, n - 1).0;
      if before.state.pending != {} {
        SweepFrees(start, before, captured, choices, urls[n - 1]);
      }
    }
  }

  // Where releases work, the deletion leaves no message hidden but what other consumers had: every
  // uncaptured message it received, and every captured one it failed to delete, is let go.
  lemma NothingStaysHidden(w: World, choices: Choices, urls: seq<string>, ids: seq<string>)
    requires IsBeginning(w) && EveryReleaseWorks(choices)
    ensures IsBeginning(Swept(w, choices, urls, ids).0.world)
  {
    hide SweptUpTo;
    BeginningIsKept(w, IdsIn(ids));
    SweepsFree(w, Sweeping(w, SweepView(IdsIn(ids), [], [])), IdsIn(ids), choices, urls, |urls|);
  }

  // ---------- the whole deletion ----------

  lemma BeginningIsKept(w: World, captured: set<string>)
    requires IsBeginning(w)
    ensures Kept(w, Sweeping(w, SweepView(captured, [], [])), captured, {})
  {
  }

  // For all choices of the queues and of other consumers: the report's three lists hold every captured
  // id exactly once; the sweep deletes no uncaptured message; an id reported deleted was deleted; an id
  // reported absent is in no bound queue that exists, but for messages other consumers had in flight, at
  // the beginning or since, and in a FIFO queue the rest of their groups; with no queue bound nothing is
  // reported absent; and each queue is asked at most 20 times.
  lemma SweepIsSound(w: World, choices: Choices, urls: seq<string>, ids: seq<string>, report: Report)
    requires NoRepeats(urls) && IsBeginning(w)
    requires var (after, gap) := Swept(w, choices, urls, ids); IsReport(report, after.state, gap)
    ensures var after := Swept(w, choices, urls, ids).0.world;
      && NoRepeats(report.deleted + IdsOf(report.failed) + report.absent)
      && (forall id :: id in ids <==> id in report.deleted || id in IdsOf(report.failed) || id in report.absent)
      && SameMessages(w.stored, after.stored)
      && (forall m | 0 <= m < |after.stored| && after.stored[m].state == Gone ::
            w.stored[m].state == Gone || after.stored[m].id in ids || m in after.elsewhere)
      && WereDeleted(w.stored, after.stored, report.deleted)
      && (forall m | 0 <= m < |after.stored| && after.stored[m].id in report.absent
                       && after.stored[m].url in urls && after.stored[m].url in after.existing ::
            after.stored[m].state == Gone || IsElsewhere(after, m))
      && (urls == [] ==> report.absent == [])
      && after.receives <= w.receives + |urls| * 20
  {
    hide SweptUpTo, IsCleared, WereDeleted, IsElsewhere, Partitions, IdsOf, NoRepeats;
    var captured := IdsIn(ids);
    var begun := Sweeping(w, SweepView(captured, [], []));
    BeginningIsKept(w, captured);
    SweepsKeep(w, begun, captured, choices, urls, |urls|);
    var (after, gap) := Swept(w, choices, urls, ids);
    ReportPartitions(captured, after.state, gap, report);
    if gap.None? {
      ClearedMeans(after.world, urls, after.state.pending, report.absent);
    }
  }

  lemma ClearedMeans(w: World, urls: seq<string>, pending: set<string>, absent: seq<string>)
    requires AllCleared(w, urls, |urls|, pending) && forall id :: id in absent <==> id in pending
    ensures forall m | 0 <= m < |w.stored| && w.stored[m].id in absent && w.stored[m].url in urls
                       && w.stored[m].url in w.existing ::
              w.stored[m].state == Gone || IsElsewhere(w, m)
  {
    hide IsElsewhere;
    forall m | 0 <= m < |w.stored| && w.stored[m].id in absent && w.stored[m].url in urls
                 && w.stored[m].url in w.existing
      ensures w.stored[m].state == Gone || IsElsewhere(w, m)
    {
      var j :| 0 <= j < |urls| && urls[j] == w.stored[m].url;
      assert IsCleared(w, urls[j], pending);
    }
  }

  lemma ReportPartitions(captured: set<string>, state: SweepView, gap: Option<string>, report: Report)
    requires Accounts(state, captured) && IsReport(report, state, gap)
    ensures NoRepeats(report.deleted + IdsOf(report.failed) + report.absent)
    ensures forall id :: id in captured <==> id in report.deleted || id in IdsOf(report.failed) || id in report.absent
  {
    hide Partitions, IdsOf, NoRepeats;
    var n := |state.failed|;
    var rest := if gap.None? then report.absent else IdsOf(report.failed[n..]);
    EveryIdOnce(captured, state.deleted, IdsOf(state.failed), state.pending, rest);
    if gap.Some? {
      assert report.failed == state.failed + report.failed[n..];
      IdsOfBoth(state.failed, report.failed[n..]);
    }
    assert report.deleted + IdsOf(report.failed) + report.absent == state.deleted + IdsOf(state.failed) + rest;
  }

  lemma IdsOfBoth(failed: seq<FailedId>, more: seq<FailedId>)
    ensures IdsOf(failed + more) == IdsOf(failed) + IdsOf(more)
  {
  }

  lemma EveryIdOnce(captured: set<string>, deleted: seq<string>, failed: seq<string>, pending: set<string>,
                    rest: seq<string>)
    requires Partitions(captured, deleted, failed, pending) && Lists(rest, pending)
    ensures NoRepeats(deleted + failed + rest)
    ensures forall id :: id in captured <==> id in deleted || id in failed || id in rest
  {
    var settled, all := deleted + failed, deleted + failed + rest;
    assert forall id :: id in settled <==> id in deleted || id in failed;
    forall i, j | 0 <= i < j < |all|
      ensures all[i] != all[j]
    {
      var n := |settled|;
      if i < n <= j {
        assert all[i] == settled[i] && all[j] == rest[j - n];
        assert settled[i] in settled && rest[j - n] in rest;
      } else if i < n {
        assert all[i] == settled[i] && all[j] == settled[j];
      } else {
        assert all[i] == rest[i - n] && all[j] == rest[j - n];
      }
    }
  }

  // ---------- alone with the queues ----------

  ghost predicate NobodyElseTakes(choices: Choices) {
    forall n :: choices.receive(n).taken == {}
  }

  lemma {:induction false} AloneWhileSettling(s: Sweeping, held: seq<Received>, captured: set<string>, choices: Choices,
                                              batch: seq<Received>, n: nat)
    requires Fit(batch, |s.world.stored|) && Fit(held, |s.world.stored|) && n <= |batch|
    ensures SettledUpTo(s, held, captured, choices, batch, n).0.world.elsewhere == s.world.elsewhere
  {
    if n > 0 {
      AloneWhileSettling(s, held, captured, choices, batch, n - 1);
    }
  }

  lemma AloneAtReceive(w: World, url: string, choices: Choices)
    requires NobodyElseTakes(choices)
    ensures AfterReceive(w, url, choices).0.elsewhere == w.elsewhere
  {
    hide Batch, Hidden, Delivered;
    assert OthersTake(w, choices.receive(w.calls)) == {};
  }

  lemma {:induction false} AloneWhileReceiving(s: Sweeping, held: seq<Received>, captured: set<string>,
                                               choices: Choices,
                                               url: string, left: nat)
    requires Fit(held, |s.world.stored|) && NobodyElseTakes(choices)
    ensures ReceivedFrom(s, held, captured, choices, url, left).sweeping.world.elsewhere == s.world.elsewhere
    decreases left
  {
    hide SettledUpTo, AfterReceive, NobodyElseTakes;
    if left > 0 {
      var (world, received) := AfterReceive(s.world, url, choices);
      DeliveryFits(s.world, url, choices);
      AloneAtReceive(s.world, url, choices);
      var batch := MessagesOf(received);
      if batch != [] {
        var next := s.(world := world);
        AloneWhileSettling(next, held, captured, choices, batch, |batch|);
        var (after, kept) := SettledUpTo(next, held, captured, choices, batch, |batch|);
        AloneWhileReceiving(after, kept, captured, choices, url, left - 1);
      }
    }
  }

  lemma {:induction false} AloneWhileReleasing(w: World, choices: Choices, held: seq<Received>, n: nat)
    requires Fit(held, |w.stored|) && n <= |held|
    ensures ReleasedUpTo(w, choices, held, n).elsewhere == w.elsewhere
  {
    if n > 0 {
      AloneWhileReleasing(w, choices, held, n - 1);
    }
  }

  lemma {:induction false} AloneThroughout(s: Sweeping, captured: set<string>, choices: Choices, urls: seq<string>,
                                           n: nat)
    requires n <= |urls| && NobodyElseTakes(choices)
    ensures SweptUpTo(s, captured, choices, urls, n).0.world.elsewhere == s.world.elsewhere
  {
    hide ReceivedFrom, ReleasedUpTo;
    if n > 0 {
      AloneThroughout(s, captured, choices, urls, n - 1);
      var before := SweptUpTo(s, captured, choices, urls, n - 1).0;
      AloneWhileReceiving(before, [], captured, choices, urls[n - 1], MAX_RECEIVES);
      var r := ReceivedFrom(before, [], captured, choices, urls[n - 1], MAX_RECEIVES);
      AloneWhileReleasing(r.sweeping.world, choices, r.held, |r.held|);
    }
  }

  // With nothing in flight at the beginning and no other consumer, an id reported absent is in no bound
  // queue that exists, and only captured messages are gone.
  lemma AbsentMeansAbsentWhenAlone(w: World, choices: Choices, urls: seq<string>, ids: seq<string>, report: Report)
    requires NoRepeats(urls) && w.elsewhere == {} && NobodyElseTakes(choices)
    requires forall m | 0 <= m < |w.stored| :: w.stored[m].state != InFlight
    requires var (after, gap) := Swept(w, choices, urls, ids); IsReport(report, after.state, gap)
    ensures var after := Swept(w, choices, urls, ids).0.world;
      && |after.stored| == |w.stored|
      && (forall m | 0 <= m < |after.stored| && after.stored[m].state == Gone ::
            w.stored[m].state == Gone || after.stored[m].id in ids)
      && (forall m | 0 <= m < |after.stored| && after.stored[m].id in report.absent
                       && after.stored[m].url in urls && after.stored[m].url in after.existing ::
            after.stored[m].state == Gone)
  {
    hide SweptUpTo, WereDeleted, NoRepeats, IsReport, IdsOf;
    SweepIsSound(w, choices, urls, ids, report);
    AloneThroughout(Sweeping(w, SweepView(IdsIn(ids), [], [])), IdsIn(ids), choices, urls, |urls|);
  }

  // ---------- and beside other consumers ----------

  // A first receive that comes back empty reports the id absent.
  lemma EmptyAtOnce(w: World, choices: Choices, url: string, id: string)
    requires AfterReceive(w, url, choices).1 == Messages([])
    ensures var (after, gap) := Swept(w, choices, [url], [id]);
      after.world == AfterReceive(w, url, choices).0 && IsReport(Report([], [id], []), after.state, gap)
  {
    hide AfterReceive;
    var captured := IdsIn([id]);
    var begun := Sweeping(w, SweepView(captured, [], []));
    var world := AfterReceive(w, url, choices).0;
    assert captured == {id};
    assert ReceivedFrom(begun, [], captured, choices, url, MAX_RECEIVES) == Gathered(begun.(world := world), [], None);
    assert SweptUpTo(begun, captured, choices, [url], 0) == (begun, None);
    assert SweptUpTo(begun, captured, choices, [url], 1) == SweptQueue(begun, captured, choices, url);
  }

  function TakingFirst(taken: set<nat>): Choices {
    Choices(_ => ReceiveChoice({}, taken, {}, false, None, {}), _ => DeleteChoice(None, false), _ => true)
  }

  // The id is reported absent although its message is in the queue the sweep is bound to.
  ghost predicate IsMissed(w: World, choices: Choices, url: string, id: string, m: nat) {
    var (after, gap) := Swept(w, choices, [url], [id]);
    && IsReport(Report([], [id], []), after.state, gap)
    && m < |after.world.stored| && after.world.stored[m].id == id && after.world.stored[m].url == url
    && url in after.world.existing && after.world.stored[m].state != Gone
  }

  // A message in flight from the beginning is missed.
  lemma HiddenIsMissed(url: string, id: string, group: string)
    ensures IsMissed(World({url}, [Stored(url, id, group, InFlight)], {0}, {}, 0, 0), TakingFirst({}), url, id, 0)
  {
    hide IsMissed;
    MissedWhenUnseen(World({url}, [Stored(url, id, group, InFlight)], {0}, {}, 0, 0), {}, url, id, 0);
  }

  // So is one that another consumer takes during the sweep.
  lemma TakenIsMissed(url: string, id: string, group: string)
    ensures IsMissed(World({url}, [Stored(url, id, group, Visible)], {}, {}, 0, 0), TakingFirst({0}), url, id, 0)
  {
    hide IsMissed;
    MissedWhenUnseen(World({url}, [Stored(url, id, group, Visible)], {}, {}, 0, 0), {0}, url, id, 0);
  }

  // And in a FIFO queue one that nobody has, while another of its group is in flight.
  lemma GroupedIsMissed(url: string, id: string, group: string, other: string)
    requires IsFifo(url)
    ensures IsMissed(World({url}, [Stored(url, other, group, InFlight), Stored(url, id, group, Visible)],
                           {0}, {}, 0, 0),
                     TakingFirst({}), url, id, 1)
  {
    hide IsMissed;
    var w := World({url}, [Stored(url, other, group, InFlight), Stored(url, id, group, Visible)], {0}, {}, 0, 0);
    var stored := Stirred(w, TakingFirst({}).receive(0)).stored;
    assert stored == w.stored;
    assert SharesGroup(stored, 1, 0) && stored[0].state == InFlight;
    MissedWhenUnseen(w, {}, url, id, 1);
  }

  lemma MissedWhenUnseen(w: World, taken: set<nat>, url: string, id: string, m: nat)
    requires w.existing == {url} && w.calls == 0 && m < |w.stored|
    requires w.stored[m].id == id && w.stored[m].url == url && w.stored[m].state != Gone
    requires var stored := Stirred(w, TakingFirst(taken).receive(0)).stored;
      forall k | 0 <= k < |stored| :: !IsEligible(stored, url, k)
    ensures IsMissed(w, TakingFirst(taken), url, id, m)
  {
    hide IsEligible, Batch, IsReport, Swept;
    var choices := TakingFirst(taken);
    var stirred := Stirred(w, choices.receive(0));
    assert Batch(stirred.stored, url, {}) == [];
    assert Hidden(stirred.stored, []) == stirred.stored;
    EmptyAtOnce(w, choices, url, id);
  }
}
