// study-1/src/coordination-lease/lease-heartbeat-loop.ts
module LeaseHeartbeatLoops {
  import opened Wrappers
  import opened LeaseHealths

  // `timer` is the delay of the pending timer; `beating` is a heartbeat in flight; `reports` is what
  // the loss listener has heard.
  datatype Loop = Loop(timer: Option<int>, beating: bool, started: bool, stopped: bool, reports: seq<Health>)

  // What happens to the loop; a settled beat tells whether the session still held the lease, its
  // loss if any, and the delay it asks for next.
  datatype LoopEvent =
    | StartCall(delay: int)
    | StopCall
    | TimerFired
    | BeatSettled(held: bool, loss: Option<Health>, delay: int)

  const NEW_LOOP := Loop(None, false, false, false, [])

  function LoopStep(l: Loop, e: LoopEvent): Loop {
    match e
    case StartCall(delay) => if l.started then l else l.(started := true, timer := Some(delay))
    case StopCall => l.(stopped := true, timer := None)
    case TimerFired => if l.timer.None? then l else l.(timer := None, beating := true)
    case BeatSettled(held, loss, delay) =>
      if !l.beating then l
      else if !held then l.(beating := false, stopped := true)
      else if loss.Some? then l.(beating := false, stopped := true, reports := l.reports + [loss.value])
      else if l.stopped then l.(beating := false)
      else l.(beating := false, timer := Some(delay))
  }

  function LoopRun(events: seq<LoopEvent>): Loop {
    if events == [] then NEW_LOOP else LoopStep(LoopRun(events[..|events| - 1]), events[|events| - 1])
  }

  // Never a timer beside a beat in flight, nothing before the start, always one of them while running,
  // and silence after the report.
  predicate LoopValid(l: Loop) {
    && !(l.timer.Some? && l.beating)
    && (l.started && !l.stopped ==> l.timer.Some? || l.beating)
    && (!l.started ==> l.timer.None? && !l.beating && l.reports == [])
    && |l.reports| <= 1
    && (l.reports != [] ==> l.stopped && l.timer.None? && !l.beating)
  }

  // Over every sequence of events.
  lemma {:induction false} EveryLoopIsValid(events: seq<LoopEvent>)
    ensures LoopValid(LoopRun(events))
    decreases |events|
  {
    if events != [] {
      EveryLoopIsValid(events[..|events| - 1]);
    }
  }

  // What ends a loop: the caller, a beat that found no lease held, or a beat that found it lost.
  predicate EndsLoop(e: LoopEvent) {
    e.StopCall? || (e.BeatSettled? && (!e.held || e.loss.Some?))
  }

  predicate Asks(e: LoopEvent, timer: Option<int>) {
    (e.StartCall? || e.BeatSettled?) && timer == Some(e.delay)
  }

  predicate WasAskedFor(timer: Option<int>, events: seq<LoopEvent>) {
    exists i | 0 <= i < |events| :: Asks(events[i], timer)
  }

  // Once started, a loop that nothing has ended has its next beat on the way: a timer for a delay the
  // session asked for, or the beat itself.
  lemma {:induction false} LoopGoesOn(events: seq<LoopEvent>)
    requires LoopRun(events).started && forall i | 0 <= i < |events| :: !EndsLoop(events[i])
    ensures LoopRun(events).reports == [] && (LoopRun(events).beating || WasAskedFor(LoopRun(events).timer, events))
    decreases |events|
  {
    var n := |events| - 1;
    var before := events[..n];
    EveryLoopIsValid(before);
    NothingStops(before);
    if LoopRun(before).started {
      LoopGoesOn(before);
      if WasAskedFor(LoopRun(before).timer, before) {
        StillAskedFor(LoopRun(before).timer, events, n);
      }
    }
    assert events[n] == events[|events| - 1];
  }

  lemma StillAskedFor(timer: Option<int>, events: seq<LoopEvent>, n: nat)
    requires n <= |events| && WasAskedFor(timer, events[..n])
    ensures WasAskedFor(timer, events)
  {
    var i :| 0 <= i < n && Asks(events[..n][i], timer);
    assert Asks(events[i], timer);
  }

  lemma {:induction false} NothingStops(events: seq<LoopEvent>)
    requires forall i | 0 <= i < |events| :: !EndsLoop(events[i])
    ensures !LoopRun(events).stopped && LoopRun(events).reports == []
    decreases |events|
  {
    if events != [] {
      NothingStops(events[..|events| - 1]);
    }
  }

  // Once ended, a loop never sets a timer again; a beat in flight at a stop is the last, and its end the
  // last thing the loop does. A loss that ends it is what the listener hears.
  lemma {:induction false} EndedStays(events: seq<LoopEvent>, k: nat)
    requires k < |events| && EndsLoop(events[k]) && LoopRun(events[..k]).started
    requires events[k].BeatSettled? ==> LoopRun(events[..k]).beating
    ensures var before, l, e := LoopRun(events[..k]), LoopRun(events), events[k];
      && l.started && l.stopped && l.timer.None?
      && (l.beating ==> e.StopCall? && before.beating && forall i | k < i < |events| :: !events[i].BeatSettled?)
      && (e.BeatSettled? ==> l.reports == if e.held then [e.loss.value] else before.reports)
    decreases |events|
  {
    EveryLoopIsValid(events[..k]);
    var n := |events| - 1;
    if k < n {
      var shorter := events[..n];
      assert shorter[..k] == events[..k] && shorter[k] == events[k];
      EndedStays(shorter, k);
      assert forall i | k < i < n :: shorter[i] == events[i];
    }
  }

  class LeaseHeartbeatLoop {
    var timer: Option<int>
    var beating: bool
    var started: bool
    var stopped: bool
    var reports: seq<Health>

    function View(): Loop
      reads this
    {
      Loop(timer, beating, started, stopped, reports)
    }

    constructor ()
      ensures View() == NEW_LOOP
    {
      timer, beating, started, stopped, reports := None, false, false, false, [];
    }

    // A second start throws.
    method Start(delay: int) returns (threw: bool)
      modifies this
      ensures View() == LoopStep(old(View()), StartCall(delay))
      ensures threw == old(started)
    {
      if started {
        return true;
      }
      started := true;
      ScheduleNext(delay);
      return false;
    }

    method Stop()
      modifies this
      ensures View() == LoopStep(old(View()), StopCall)
    {
      stopped := true;
      timer := None;
    }

    method ScheduleNext(delay: int)
      modifies this`timer
      ensures timer == Some(delay)
    {
      timer := Some(delay);
    }

    method FireTimer()
      modifies this
      ensures View() == LoopStep(old(View()), TimerFired)
    {
      if timer.Some? {
        timer := None;
        beating := true;
      }
    }

    method SettleBeat(held: bool, loss: Option<Health>, delay: int)
      modifies this
      ensures View() == LoopStep(old(View()), BeatSettled(held, loss, delay))
    {
      if !beating {
        return;
      }
      beating := false;
      if !held {
        stopped := true;
        return;
      }
      if loss.Some? {
        stopped := true;
        reports := reports + [loss.value];
        return;
      }
      if !stopped {
        ScheduleNext(delay);
      }
    }
  }
}
