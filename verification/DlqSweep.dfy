// Deleting exactly the captured dead-letter messages: study-1/src/cleanup/dlq-message-deletion.ts,
// swept against queues that hide what is in flight, and for FIFO queues the rest of its group.

module DlqQueueModel {
  import opened Wrappers

  datatype MessageState = Visible | InFlight | Gone

  datatype Stored = Stored(url: string, id: string, group: string, state: MessageState)

  // A receipt handle is the position of the message it was received for.
  datatype Received = Received(id: string, handle: nat)

  datatype Receive = Messages(messages: seq<Received>) | QueueAbsent | ReceiveFailed(code: string)

  datatype Change = Done | ChangeFailed(code: string)

  const RECEIVE_BATCH: nat := 10

  // The queues that exist and every message; the messages other consumers had in flight at any time
  // since the beginning, and those the sweep received; and how many receives and calls there were.
  datatype World = World(
    existing: set<string>,
    stored: seq<Stored>,
    elsewhere: set<nat>,
    received: set<nat>,
    receives: nat,
    calls: nat)

  // What the service and other consumers do around one receive: hidden messages that become visible
  // again, messages others take and delete, and the eligible messages the answer favours.
  datatype ReceiveChoice = ReceiveChoice(
    reappearing: set<nat>,
    taken: set<nat>,
    consumed: set<nat>,
    vanishes: bool,
    failure: Option<string>,
    favoured: set<nat>)

  // A failed deletion may have deleted the message all the same.
  datatype DeleteChoice = DeleteChoice(failure: Option<string>, deletesAnyway: bool)

  // Every choice, by the number of the call.
  datatype Choices = Choices(receive: nat -> ReceiveChoice, delete: nat -> DeleteChoice, release: nat -> bool)

  predicate IsFifo(url: string) {
    |url| >= 5 && url[|url| - 5..] == ".fifo"
  }

  // A queue is FIFO exactly when its name says so.
  lemma FifoExactly(url: string)
    ensures IsFifo(url) <==> exists name :: url == name + ".fifo"
  {
    if IsFifo(url) {
      assert url == url[..|url| - 5] + ".fifo";
    }
  }

  predicate SharesGroup(stored: seq<Stored>, m: nat, other: nat)
    requires m < |stored| && other < |stored|
  {
    stored[other].url == stored[m].url && stored[other].group == stored[m].group
  }

  // What a receive may return: visible, and in a FIFO queue with nothing of its group in flight.
  predicate IsEligible(stored: seq<Stored>, url: string, m: nat)
    requires m < |stored|
  {
    && stored[m].url == url && stored[m].state == Visible
    && (IsFifo(url) ==>
          forall other | 0 <= other < |stored| :: !(SharesGroup(stored, m, other) && stored[other].state == InFlight))
  }

  function Eligible(stored: seq<Stored>, url: string, n: nat): (ms: seq<nat>)
    requires n <= |stored|
    ensures forall i | 0 <= i < |ms| :: ms[i] < n && IsEligible(stored, url, ms[i])
    ensures forall i, j | 0 <= i < j < |ms| :: ms[i] < ms[j]
    ensures forall m | 0 <= m < n && IsEligible(stored, url, m) :: m in ms
  {
    if n == 0 then []
    else
      var before := Eligible(stored, url, n - 1);
      if IsEligible(stored, url, n - 1) then before + [n - 1] else before
  }

  function Favoured(ms: seq<nat>, favoured: set<nat>, n: nat): (picked: seq<nat>)
    requires n <= |ms| && forall i, j | 0 <= i < j < |ms| :: ms[i] < ms[j]
    ensures forall i | 0 <= i < |picked| :: picked[i] in ms[..n]
    ensures forall i, j | 0 <= i < j < |picked| :: picked[i] < picked[j]
  {
    if n == 0 then []
    else
      var before := Favoured(ms, favoured, n - 1);
      assert ms[..n] == ms[..n - 1] + [ms[n - 1]];
      if ms[n - 1] in favoured then before + [ms[n - 1]] else before
  }

  // The favoured ones, at most one batch; some message whenever one is eligible.
  function Batch(stored: seq<Stored>, url: string, favoured: set<nat>): (ms: seq<nat>)
    ensures |ms| <= 10
    ensures forall i | 0 <= i < |ms| :: ms[i] < |stored| && IsEligible(stored, url, ms[i])
    ensures forall i, j | 0 <= i < j < |ms| :: ms[i] < ms[j]
    ensures ms == [] <==> forall m | 0 <= m < |stored| :: !IsEligible(stored, url, m)
  {
    var eligible := Eligible(stored, url, |stored|);
    var picked := Favoured(eligible, favoured, |eligible|);
    assert eligible[..|eligible|] == eligible;
    if eligible == [] then []
    else if picked == [] then [eligible[0]]
    else if |picked| <= RECEIVE_BATCH then picked
    else picked[..RECEIVE_BATCH]
  }

  // What other consumers get hold of: visible messages, and hidden ones that reappear.
  function OthersTake(w: World, choice: ReceiveChoice): set<nat> {
    set m | 0 <= m < |w.stored| && m in choice.taken
      && (w.stored[m].state == Visible || (w.stored[m].state == InFlight && m in choice.reappearing))
  }

  // Before the answer: messages reappear, and other consumers take some and delete what they have.
  function Stirred(w: World, choice: ReceiveChoice): (after: World)
    ensures |after.stored| == |w.stored|
  {
    var theirs := w.elsewhere + OthersTake(w, choice);
    var stored := seq(|w.stored|, m requires 0 <= m < |w.stored| =>
      var one := w.stored[m];
      if one.state == Gone then one
      else if m in theirs && m in choice.consumed then one.(state := Gone)
      else if m in OthersTake(w, choice) then one.(state := InFlight)
      else if m in choice.reappearing then one.(state := Visible)
      else one);
    w.(stored := stored, elsewhere := theirs, receives := w.receives + 1, calls := w.calls + 1)
  }

  function Hidden(stored: seq<Stored>, ms: seq<nat>): (after: seq<Stored>)
    ensures |after| == |stored|
  {
    seq(|stored|, m requires 0 <= m < |stored| => if m in ms then stored[m].(state := InFlight) else stored[m])
  }

  function Delivered(stored: seq<Stored>, ms: seq<nat>): (batch: seq<Received>)
    requires forall i | 0 <= i < |ms| :: ms[i] < |stored|
    ensures |batch| == |ms|
  {
    seq(|ms|, i requires 0 <= i < |ms| => Received(stored[ms[i]].id, ms[i]))
  }

  function AfterReceive(w: World, url: string, choices: Choices): (World, Receive) {
    var choice := choices.receive(w.calls);
    var stirred := Stirred(w, choice);
    var open := stirred.(existing := if choice.vanishes then w.existing - {url} else w.existing);
    if url !in open.existing then (open, QueueAbsent)
    else if choice.failure.Some? then (open, ReceiveFailed(choice.failure.value))
    else
      var ms := Batch(open.stored, url, choice.favoured);
      var received := open.received + set i | 0 <= i < |ms| :: ms[i];
      (open.(stored := Hidden(open.stored, ms), received := received), Messages(Delivered(open.stored, ms)))
  }

  function AfterDelete(w: World, handle: nat, choices: Choices): (World, Change)
    requires handle < |w.stored|
  {
    var choice := choices.delete(w.calls);
    var gone := w.stored[handle := w.stored[handle].(state := Gone)];
    if choice.failure.None? then (w.(stored := gone, calls := w.calls + 1), Done)
    else (w.(stored := if choice.deletesAnyway then gone else w.stored, calls := w.calls + 1),
          ChangeFailed(choice.failure.value))
  }

  function AfterRelease(w: World, handle: nat, choices: Choices): World
    requires handle < |w.stored|
  {
    var one := w.stored[handle];
    var stored := if choices.release(w.calls) && one.state == InFlight
      then w.stored[handle := one.(state := Visible)] else w.stored;
    w.(stored := stored, calls := w.calls + 1)
  }

  // ---------- what the queues keep ----------

  ghost predicate SameMessages(before: seq<Stored>, after: seq<Stored>) {
    && |before| == |after|
    && forall m | 0 <= m < |before| :: after[m] == before[m].(state := after[m].state)
  }

  // Nothing arrives or comes back, no queue appears, and what others took stays on record.
  ghost predicate Follows(a: World, b: World) {
    && SameMessages(a.stored, b.stored) && b.existing <= a.existing && a.elsewhere <= b.elsewhere
    && forall m | 0 <= m < |a.stored| && a.stored[m].state == Gone :: b.stored[m].state == Gone
  }

  lemma FollowsOn(a: World, b: World, c: World)
    requires Follows(a, b) && Follows(b, c)
    ensures Follows(a, c)
  {
  }

  ghost predicate IsTaken(taken: seq<Received>, from: nat, m: nat) {
    exists i | from <= i < |taken| :: taken[i].handle == m
  }

  ghost predicate NamesStored(stored: seq<Stored>, url: string, taken: seq<Received>) {
    forall i | 0 <= i < |taken| ::
      && taken[i].handle < |stored|
      && stored[taken[i].handle].id == taken[i].id && stored[taken[i].handle].url == url
  }

  // Distinct messages of the queue, none of them gone.
  ghost predicate IsDelivery(stored: seq<Stored>, url: string, taken: seq<Received>) {
    && NamesStored(stored, url, taken)
    && (forall i | 0 <= i < |taken| :: stored[taken[i].handle].state == InFlight)
    && forall i, j | 0 <= i < j < |taken| :: taken[i].handle < taken[j].handle
  }

  // Only the delivered messages go in flight unless another consumer takes them; only other
  // consumers delete.
  ghost predicate OnlyTaken(a: World, b: World, taken: seq<Received>) {
    && Follows(a, b)
    && (forall m | 0 <= m < |a.stored| && b.stored[m].state == InFlight ::
          a.stored[m].state == InFlight || IsTaken(taken, 0, m) || m in b.elsewhere)
    && forall m | 0 <= m < |a.stored| && b.stored[m].state == Gone :: a.stored[m].state == Gone || m in b.elsewhere
  }

  function MessagesOf(r: Receive): seq<Received> {
    if r.Messages? then r.messages else []
  }

  lemma StirTakes(w: World, choice: ReceiveChoice)
    ensures OnlyTaken(w, Stirred(w, choice), [])
  {
  }

  lemma HidingTakes(w: World, url: string, favoured: set<nat>)
    ensures var ms := Batch(w.stored, url, favoured);
      var after, taken := w.(stored := Hidden(w.stored, ms)), Delivered(w.stored, ms);
      && OnlyTaken(w, after, taken) && IsDelivery(after.stored, url, taken)
      && (taken == [] ==> forall m | 0 <= m < |after.stored| :: !IsEligible(after.stored, url, m))
  {
    hide Batch;
    var ms := Batch(w.stored, url, favoured);
    var after, taken := Hidden(w.stored, ms), Delivered(w.stored, ms);
    assert forall i | 0 <= i < |ms| :: taken[i].handle == ms[i];
    if taken == [] {
      assert after == w.stored;
    }
  }

  lemma ReceiveTakes(w: World, url: string, choices: Choices)
    ensures var (after, r) := AfterReceive(w, url, choices);
      && OnlyTaken(w, after, MessagesOf(r)) && IsDelivery(after.stored, url, MessagesOf(r))
      && after.receives == w.receives + 1
      && (forall m :: m in after.received <==> m in w.received || IsTaken(MessagesOf(r), 0, m))
      && (r.QueueAbsent? ==> url !in after.existing)
      && (r == Messages([]) ==> forall m | 0 <= m < |after.stored| :: !IsEligible(after.stored, url, m))
  {
    hide Stirred, Batch, Hidden, IsEligible, Delivered;
    var choice := choices.receive(w.calls);
    var stirred := Stirred(w, choice);
    StirTakes(w, choice);
    StirCounts(w, choice);
    var open := stirred.(existing := if choice.vanishes then w.existing - {url} else w.existing);
    HidingTakes(open, url, choice.favoured);
    var ms := Batch(open.stored, url, choice.favoured);
    DeliveredExactly(open.stored, ms);
  }

  lemma DeliveredExactly(stored: seq<Stored>, ms: seq<nat>)
    requires forall i | 0 <= i < |ms| :: ms[i] < |stored|
    ensures forall m :: IsTaken(Delivered(stored, ms), 0, m) <==> m in (set i | 0 <= i < |ms| :: ms[i])
    ensures forall m :: !IsTaken([], 0, m)
  {
    forall m
      ensures IsTaken(Delivered(stored, ms), 0, m) <==> m in (set i | 0 <= i < |ms| :: ms[i])
    {
      if m in (set i | 0 <= i < |ms| :: ms[i]) {
        var i :| 0 <= i < |ms| && ms[i] == m;
        assert Delivered(stored, ms)[i].handle == m;
      }
    }
  }

  lemma StirCounts(w: World, choice: ReceiveChoice)
    ensures Stirred(w, choice).receives == w.receives + 1 && Stirred(w, choice).existing == w.existing
    ensures Stirred(w, choice).received == w.received
  {
  }

  class DlqQueues {
    const choices: Choices
    var world: World

    constructor (choices: Choices, world: World)
      ensures this.choices == choices && this.world == world
    {
      this.choices, this.world := choices, world;
    }

    method Receive(url: string) returns (r: Receive)
      modifies this
      ensures (world, r) == AfterReceive(old(world), url, choices)
    {
      var (after, answer) := AfterReceive(world, url, choices);
      world := after;
      return answer;
    }

    method DeleteMessage(url: string, handle: nat) returns (r: Change)
      requires handle < |world.stored|
      modifies this
      ensures (world, r) == AfterDelete(old(world), handle, choices)
    {
      var (after, answer) := AfterDelete(world, handle, choices);
      world := after;
      return answer;
    }

    method ReleaseMessage(url: string, handle: nat)
      requires handle < |world.stored|
      modifies this
      ensures world == AfterRelease(old(world), handle, choices)
    {
      world := AfterRelease(world, handle, choices);
    }
  }
}

module DlqDeletion {
  import opened Wrappers
  import opened DlqQueueModel

  const MAX_RECEIVES: nat := 20

  datatype FailedId = FailedId(id: string, code: string)

  datatype Report = Report(deleted: seq<string>, absent: seq<string>, failed: seq<FailedId>)

  datatype SweepView = SweepView(pending: set<string>, deleted: seq<string>, failed: seq<FailedId>)

  datatype Sweeping = Sweeping(world: World, state: SweepView)

  // ---------- what the sweep does ----------

  predicate Fit(taken: seq<Received>, n: nat) {
    forall i | 0 <= i < |taken| :: taken[i].handle < n
  }

  function Noted(state: SweepView, id: string, deletion: Option<Change>): SweepView {
    var rest := state.(pending := state.pending - {id});
    if id !in state.pending || deletion.None? then rest
    else if deletion.value.Done? then rest.(deleted := state.deleted + [id])
    else rest.(failed := state.failed + [FailedId(id, deletion.value.code)])
  }

  // Deletes a captured message; holds any other, and a captured one that failed to delete.
  function Settled(s: Sweeping, held: seq<Received>, captured: set<string>, choices: Choices, message: Received)
    : (Sweeping, seq<Received>)
    requires message.handle < |s.world.stored|
  {
    if message.id in captured then
      var (world, change) := AfterDelete(s.world, message.handle, choices);
      (Sweeping(world, Noted(s.state, message.id, Some(change))), if change.Done? then held else held + [message])
    else (s.(state := Noted(s.state, message.id, None)), held + [message])
  }

  function SettledUpTo(s: Sweeping, held: seq<Received>, captured: set<string>, choices: Choices,
                       batch: seq<Received>, n: nat): (r: (Sweeping, seq<Received>))
    requires Fit(batch, |s.world.stored|) && Fit(held, |s.world.stored|) && n <= |batch|
    ensures |r.0.world.stored| == |s.world.stored| && Fit(r.1, |s.world.stored|)
  {
    if n == 0 then (s, held)
    else
      var (before, kept) := SettledUpTo(s, held, captured, choices, batch, n - 1);
      Settled(before, kept, captured, choices, batch[n - 1])
  }

  datatype Gathered = Gathered(sweeping: Sweeping, held: seq<Received>, gap: Option<string>)

  // At most `left` receives: until one is empty, fails or finds the queue gone, or nothing is pending.
  function ReceivedFrom(s: Sweeping, held: seq<Received>, captured: set<string>, choices: Choices, url: string,
                        left: nat)
    : (r: Gathered)
    requires Fit(held, |s.world.stored|)
    ensures Fit(r.held, |r.sweeping.world.stored|)
    decreases left
  {
    if left == 0 then Gathered(s, held, Some("DLQ_SWEEP_INCOMPLETE"))
    else
      var (world, received) := AfterReceive(s.world, url, choices);
      var next := s.(world := world);
      DeliveryFits(s.world, url, choices);
      if MessagesOf(received) == [] then
        Gathered(next, held, if received.ReceiveFailed? then Some(received.code) else None)
      else
        var (after, kept) := SettledUpTo(next, held, captured, choices, received.messages, |received.messages|);
        if after.state.pending == {} then Gathered(after, kept, None)
        else ReceivedFrom(after, kept, captured, choices, url, left - 1)
  }

  lemma DeliveryFits(w: World, url: string, choices: Choices)
    ensures var (after, r) := AfterReceive(w, url, choices);
      |after.stored| == |w.stored| && Fit(MessagesOf(r), |w.stored|)
  {
    hide AfterReceive;
    ReceiveTakes(w, url, choices);
  }

  function ReleasedUpTo(w: World, choices: Choices, held: seq<Received>, n: nat): (after: World)
    requires Fit(held, |w.stored|) && n <= |held|
    ensures |after.stored| == |w.stored|
  {
    if n == 0 then w else AfterRelease(ReleasedUpTo(w, choices, held, n - 1), held[n - 1].handle, choices)
  }

  function SweptQueue(s: Sweeping, captured: set<string>, choices: Choices, url: string): (Sweeping, Option<string>) {
    var r := ReceivedFrom(s, [], captured, choices, url, MAX_RECEIVES);
    var after := r.sweeping.(world := ReleasedUpTo(r.sweeping.world, choices, r.held, |r.held|));
    (after, if r.gap.Some? || r.held == [] || !IsFifo(url) then r.gap else Some("DLQ_FIFO_GROUP_HIDDEN"))
  }

  // The first `n` queues, one after another while ids are pending, and the first gap.
  function SweptUpTo(s: Sweeping, captured: set<string>, choices: Choices, urls: seq<string>, n: nat)
    : (Sweeping, Option<string>)
    requires n <= |urls|
  {
    if n == 0 then (s, if urls == [] then Some("DLQ_QUEUES_UNBOUND") else None)
    else
      var (before, gap) := SweptUpTo(s, captured, choices, urls, n - 1);
      if before.state.pending == {} then (before, gap)
      else
        var (after, found) := SweptQueue(before, captured, choices, urls[n - 1]);
        (after, if gap.Some? then gap else found)
  }

  function IdsIn(ids: seq<string>): (s: set<string>)
    ensures forall id :: id in s <==> id in ids
  {
    set i | 0 <= i < |ids| :: ids[i]
  }

  function Swept(w: World, choices: Choices, urls: seq<string>, ids: seq<string>): (Sweeping, Option<string>) {
    SweptUpTo(Sweeping(w, SweepView(IdsIn(ids), [], [])), IdsIn(ids), choices, urls, |urls|)
  }

  function IdsOf(failed: seq<FailedId>): (ids: seq<string>)
    ensures |ids| == |failed|
    ensures forall i | 0 <= i < |failed| :: ids[i] == failed[i].id
  {
    seq(|failed|, i requires 0 <= i < |failed| => failed[i].id)
  }

  ghost predicate NoRepeats(ids: seq<string>) {
    forall i, j | 0 <= i < j < |ids| :: ids[i] != ids[j]
  }

  ghost predicate Lists(ids: seq<string>, all: set<string>) {
    NoRepeats(ids) && forall id :: id in ids <==> id in all
  }

  // The ids still pending are absent when no queue left a gap, and failed otherwise; in any order.
  ghost predicate IsReport(report: Report, state: SweepView, gap: Option<string>) {
    && report.deleted == state.deleted
    && if gap.None? then report.failed == state.failed && Lists(report.absent, state.pending)
       else
         && report.absent == [] && |state.failed| <= |report.failed|
         && report.failed[..|state.failed|] == state.failed
         && Lists(IdsOf(report.failed[|state.failed|..]), state.pending)
         && forall i | |state.failed| <= i < |report.failed| :: report.failed[i].code == "DLQ_MESSAGE_NOT_PROVEN_ABSENT"
  }

  // ---------- the sweep itself ----------

  class SweepState {
    const captured: set<string>
    var pending: set<string>
    var deleted: seq<string>
    var failed: seq<FailedId>

    function View(): SweepView
      reads this
    {
      SweepView(pending, deleted, failed)
    }

    constructor (ids: set<string>)
      ensures captured == ids && View() == SweepView(ids, [], [])
    {
      captured, pending, deleted, failed := ids, ids, [], [];
    }
  }

  class CapturedDlqMessageDeletion {
    const queue: DlqQueues
    const queueUrls: seq<string>

    constructor (queue: DlqQueues, urls: seq<string>)
      ensures this.queue == queue && NoRepeats(queueUrls)
      ensures forall url :: url in queueUrls <==> url in urls
    {
      this.queue := queue;
      var distinct: seq<string> := [];
      for i := 0 to |urls|
        invariant NoRepeats(distinct)
        invariant forall url :: url in distinct <==> url in urls[..i]
      {
        if urls[i] !in distinct {
          distinct := distinct + [urls[i]];
        }
      }
      queueUrls := distinct;
    }

    function Now(state: SweepState): Sweeping
      reads queue, state
    {
      Sweeping(queue.world, state.View())
    }

    method SettleMessage(url: string, message: Received, state: SweepState, held: seq<Received>)
      returns (held': seq<Received>)
      requires message.handle < |queue.world.stored|
      modifies queue, state
      ensures (Now(state), held') == Settled(old(Now(state)), held, state.captured, queue.choices, message)
    {
      var deletion: Option<Change> := None;
      if message.id in state.captured {
        var change := queue.DeleteMessage(url, message.handle);
        deletion := Some(change);
      }
      var wasPending := message.id in state.pending;
      state.pending := state.pending - {message.id};
      if deletion == Some(Done) {
        if wasPending {
          state.deleted := state.deleted + [message.id];
        }
        return held;
      }
      if deletion.Some? && wasPending {
        state.failed := state.failed + [FailedId(message.id, deletion.value.code)];
      }
      return held + [message];
    }

    method SettleBatch(url: string, batch: seq<Received>, state: SweepState, held: seq<Received>)
      returns (held': seq<Received>)
      requires Fit(batch, |queue.world.stored|) && Fit(held, |queue.world.stored|)
      modifies queue, state
      ensures (Now(state), held') == SettledUpTo(old(Now(state)), held, state.captured, queue.choices, batch, |batch|)
    {
      hide Settled;
      held' := held;
      for i := 0 to |batch|
        invariant (Now(state), held') == SettledUpTo(old(Now(state)), held, state.captured, queue.choices, batch, i)
        invariant |queue.world.stored| == old(|queue.world.stored|)
      {
        held' := SettleMessage(url, batch[i], state, held');
      }
    }

    method ReceiveUntilEmpty(url: string, state: SweepState) returns (gap: Option<string>, held: seq<Received>)
      modifies queue, state
      ensures Gathered(Now(state), held, gap)
           == ReceivedFrom(old(Now(state)), [], state.captured, queue.choices, url, MAX_RECEIVES)
    {
      hide AfterReceive, SettledUpTo, IsDelivery;
      held := [];
      for receives := 0 to MAX_RECEIVES
        invariant Fit(held, |queue.world.stored|)
        invariant ReceivedFrom(old(Now(state)), [], state.captured, queue.choices, url, MAX_RECEIVES)
               == ReceivedFrom(Now(state), held, state.captured, queue.choices, url, MAX_RECEIVES - receives)
      {
        DeliveryFits(queue.world, url, queue.choices);
        var received := queue.Receive(url);
        if !received.Messages? || received.messages == [] {
          return if received.ReceiveFailed? then Some(received.code) else None, held;
        }
        held := SettleBatch(url, received.messages, state, held);
        if state.pending == {} {
          return None, held;
        }
      }
      return Some("DLQ_SWEEP_INCOMPLETE"), held;
    }

    // Sweeps one queue and releases what it held.
    method Sweep(url: string, state: SweepState) returns (gap: Option<string>)
      modifies queue, state
      ensures (Now(state), gap) == SweptQueue(old(Now(state)), state.captured, queue.choices, url)
    {
      hide ReceivedFrom, AfterRelease;
      var held;
      gap, held := ReceiveUntilEmpty(url, state);
      ghost var before, view := queue.world, state.View();
      for i := 0 to |held|
        invariant state.View() == view && queue.world == ReleasedUpTo(before, queue.choices, held, i)
      {
        queue.ReleaseMessage(url, held[i].handle);
      }
      if gap.Some? || held == [] || !IsFifo(url) {
        return gap;
      }
      return Some("DLQ_FIFO_GROUP_HIDDEN");
    }

    method DeleteCaptured(messageIds: seq<string>) returns (report: Report)
      modifies queue
      ensures var (after, gap) := Swept(old(queue.world), queue.choices, queueUrls, messageIds);
        queue.world == after.world && IsReport(report, after.state, gap)
    {
      hide SweptQueue, Lists, IdsIn;
      var captured := IdsIn(messageIds);
      var state := new SweepState(captured);
      ghost var start := Now(state);
      var gap := if queueUrls == [] then Some("DLQ_QUEUES_UNBOUND") else None;
      for i := 0 to |queueUrls|
        invariant (Now(state), gap) == SweptUpTo(start, captured, queue.choices, queueUrls, i)
      {
        if state.pending != {} {
          var found := Sweep(queueUrls[i], state);
          gap := if gap.Some? then gap else found;
        }
      }
      var remaining := Enumerate(state.pending);
      if gap.None? {
        return Report(state.deleted, remaining, state.failed);
      }
      var unproven := seq(|remaining|, i requires 0 <= i < |remaining| =>
        FailedId(remaining[i], "DLQ_MESSAGE_NOT_PROVEN_ABSENT"));
      report := Report(state.deleted, [], state.failed + unproven);
      assert IdsOf(unproven) == remaining && report.failed[|state.failed|..] == unproven;
    }
  }

  // The ids of a set, each once; the source sorts them.
  method Enumerate(ids: set<string>) returns (listed: seq<string>)
    ensures Lists(listed, ids)
  {
    listed := [];
    var rest := ids;
    while rest != {}
      invariant NoRepeats(listed) && rest <= ids
      invariant forall id :: id in ids <==> id in listed || id in rest
      invariant forall id | id in rest :: id !in listed
      decreases |rest|
    {
      var id :| id in rest;
      listed, rest := listed + [id], rest - {id};
    }
  }
}
