// One run's journal: study-1/src/cleanup/cleanup-journal.ts. Every action is kept in memory whether
// or not the journal writer accepted it; the first refusal waits as a reason for the next step line.
module CleanupJournals {
  import opened Wrappers
  import opened Ownership
  import opened CleanupRecords

  // The writer's answers and the clock, by the position of the append in the run.
  datatype Appends = Appends(accepts: nat -> bool, at: nat -> int)

  datatype Account = Account(lines: seq<Line>, pending: Option<Reason>, stopReported: bool)

  datatype Item = Item(
    action: ItemAction,
    resourceType: string,
    identifier: string,
    basis: Option<Basis>,
    reasons: seq<string>)

  // The run, mode and step a line is recorded under.
  datatype Frame = Frame(run: nat, mode: Mode, step: nat)

  function Recorded(account: Account, run: nat, body: Body, appends: Appends): (r: Account)
    ensures |r.lines| == |account.lines| + 1 && account.lines <= r.lines
  {
    var n := |account.lines|;
    var lines := account.lines + [Line(run, appends.at(n), body)];
    if appends.accepts(n) || account.stopReported then account.(lines := lines)
    else Account(lines, Some(JournalStopped(run)), true)
  }

  function Pending(account: Account): seq<Reason> {
    if account.pending.Some? then [account.pending.value] else []
  }

  function Wrapped(codes: seq<string>): (reasons: seq<Reason>)
    ensures |reasons| == |codes|
    ensures forall i | 0 <= i < |codes| :: reasons[i] == FromStep(codes[i])
  {
    if codes == [] then [] else Wrapped(codes[..|codes| - 1]) + [FromStep(codes[|codes| - 1])]
  }

  function ItemBody(frame: Frame, item: Item): Body {
    Body(frame.step, Started, frame.mode, OnItem(item.action),
         Some(item.resourceType), Some(item.identifier), item.basis, Wrapped(item.reasons))
  }

  function StepBody(frame: Frame, status: StepStatus, reasons: seq<Reason>): Body {
    Body(frame.step, status, frame.mode, StepAction(frame.step), None, None, None, reasons)
  }

  function RecordedItems(account: Account, frame: Frame, items: seq<Item>, appends: Appends): (r: Account)
    ensures |r.lines| == |account.lines| + |items| && account.lines <= r.lines
  {
    if items == [] then account
    else
      var n := |items| - 1;
      Recorded(RecordedItems(account, frame, items[..n], appends), frame.run, ItemBody(frame, items[n]), appends)
  }

  lemma {:induction false} RecordedInTurn(account: Account, frame: Frame, first: seq<Item>, then_: seq<Item>,
                                          appends: Appends)
    ensures RecordedItems(account, frame, first + then_, appends)
         == RecordedItems(RecordedItems(account, frame, first, appends), frame, then_, appends)
    decreases |then_|
  {
    if then_ == [] {
      assert first + then_ == first;
    } else {
      var n := |then_| - 1;
      assert (first + then_)[..|first + then_| - 1] == first + then_[..n];
      RecordedInTurn(account, frame, first, then_[..n], appends);
    }
  }

  // The line of each item.
  lemma {:induction false} ItemLine(account: Account, frame: Frame, items: seq<Item>, appends: Appends, i: nat)
    requires i < |items|
    ensures var r := RecordedItems(account, frame, items, appends).lines;
      r[|account.lines| + i].run == frame.run && r[|account.lines| + i].body == ItemBody(frame, items[i])
  {
    if i < |items| - 1 {
      ItemLine(account, frame, items[..|items| - 1], appends, i);
    }
  }

  class CleanupJournal {
    const run: nat
    const appends: Appends
    var lines: seq<Line>
    var pending: Option<Reason>
    var stopReported: bool

    function View(): Account
      reads this
    {
      Account(lines, pending, stopReported)
    }

    constructor (run: nat, appends: Appends)
      ensures View() == Account([], None, false)
      ensures this.run == run && this.appends == appends
    {
      this.run, this.appends := run, appends;
      lines, pending, stopReported := [], None, false;
    }

    method Record(body: Body)
      modifies this
      ensures View() == Recorded(old(View()), run, body, appends)
    {
      var n := |lines|;
      lines := lines + [Line(run, appends.at(n), body)];
      if appends.accepts(n) {
        return;
      }
      if !stopReported {
        stopReported := true;
        pending := Some(JournalStopped(run));
      }
    }

    method RecordItem(frame: Frame, item: Item)
      requires frame.run == run
      modifies this
      ensures View() == RecordedItems(old(View()), frame, [item], appends)
    {
      Record(ItemBody(frame, item));
      assert [item][..0] == [];
    }

    method TakeFailure() returns (failure: seq<Reason>)
      modifies this
      ensures failure == Pending(old(View()))
      ensures View() == old(View()).(pending := None)
    {
      failure := if pending.Some? then [pending.value] else [];
      pending := None;
    }
  }
}
