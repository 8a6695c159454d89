/**
 The daemon's wait between ticks: a generation counter under one lock, wakers on other threads, and a
 loop that carries the generation it last saw. Each event is one critical section, or the begin or end
 of a tick, so a sequence of events is one interleaving.
 */
module Wakeup {

  /** Where the loop thread is. `Waiting` is blocked in the condition wait; `Notified` may take the lock again. */
  datatype Place = Starting | AtLoopTop | AboutToTick | Ticking | AboutToWait | Waiting | Notified | Stopped

  /**
   `observed` is the local of `run_forever`. The last three fields are bookkeeping: the generation when
   the latest tick began, and how many ticks began in all and since a stop was requested.
   */
  datatype Daemon = Daemon(
    generation: nat,
    stopRequested: bool,
    place: Place,
    observed: nat,
    generationAtTick: nat,
    ticks: nat,
    ticksSinceStop: nat)

  const IDLE: Daemon := Daemon(0, false, Starting, 0, 0, 0, 0)

  datatype Event = Wake | RequestStop | Advance | TimeOut | SpuriousWakeUp

  function NotifyAll(place: Place): Place {
    if place.Waiting? then Notified else place
  }

  /** The predicate handed to `wait_for`. */
  predicate MayLeaveWait(d: Daemon) {
    d.stopRequested || d.generation != d.observed
  }

  function LeaveWait(d: Daemon): Daemon {
    d.(observed := d.generation, place := AtLoopTop)
  }

  /** The next step of the loop thread itself; a blocked or stopped thread takes none. */
  function AdvanceLoop(d: Daemon): Daemon {
    match d.place
    case Starting => d.(observed := d.generation, place := AtLoopTop)
    case AtLoopTop => d.(place := if d.stopRequested then Stopped else AboutToTick)
    case AboutToTick =>
      d.(place := Ticking, ticks := d.ticks + 1, generationAtTick := d.generation,
         ticksSinceStop := d.ticksSinceStop + if d.stopRequested then 1 else 0)
    case Ticking => d.(place := AboutToWait)
    case AboutToWait => if MayLeaveWait(d) then LeaveWait(d) else d.(place := Waiting)
    case Notified => if MayLeaveWait(d) then LeaveWait(d) else d.(place := Waiting)
    case Waiting => d
    case Stopped => d
  }

  function Apply(d: Daemon, e: Event): Daemon {
    match e
    case Wake => d.(generation := d.generation + 1, place := NotifyAll(d.place))
    case RequestStop => d.(generation := d.generation + 1, stopRequested := true, place := NotifyAll(d.place))
    case Advance => AdvanceLoop(d)
    case TimeOut => if d.place.Waiting? then LeaveWait(d) else d
    case SpuriousWakeUp => d.(place := NotifyAll(d.place))
  }

  function Run(d: Daemon, events: seq<Event>): Daemon
    decreases |events|
  {
    if events == [] then d else Run(Apply(d, events[0]), events[1..])
  }

  /** The invariant of every interleaving. */
  predicate Sound(d: Daemon) {
    && d.observed <= d.generation
    && d.generationAtTick <= d.generation
    && (d.place == Waiting ==> !MayLeaveWait(d))
    && (d.place in {Ticking, AboutToWait, Waiting, Notified} ==> d.observed <= d.generationAtTick && d.ticks > 0)
    && (!d.stopRequested ==> d.ticksSinceStop == 0)
    && d.ticksSinceStop <= 1
    && (d.stopRequested && d.place == AboutToTick ==> d.ticksSinceStop == 0)
  }

  lemma EventKeepsSound(d: Daemon, e: Event)
    requires Sound(d)
    ensures Sound(Apply(d, e))
  {
  }

  lemma {:induction false} RunIsSound(d: Daemon, events: seq<Event>)
    requires Sound(d)
    ensures Sound(Run(d, events))
    decreases |events|
  {
    if events != [] {
      EventKeepsSound(d, events[0]);
      RunIsSound(Apply(d, events[0]), events[1..]);
    }
  }

  /**
   No wake-up is lost: in every interleaving, whenever the loop is blocked, the number of wakes so far
   is the number there had been when the latest tick began, and no stop is outstanding.
   */
  lemma NoWakeUpIsLost(events: seq<Event>)
    ensures var d := Run(IDLE, events);
            d.place == Waiting ==> d.generation == d.generationAtTick && d.ticks > 0 && !d.stopRequested
  {
    RunIsSound(IDLE, events);
  }

  /** How many wakes and stops a run contains. */
  function Signals(events: seq<Event>): nat {
    if events == [] then 0 else (if events[0] == Wake || events[0] == RequestStop then 1 else 0) + Signals(events[1..])
  }

  /** The generation counts every signal, so equal generations mean that none came in between. */
  lemma {:induction false} GenerationCountsSignals(d: Daemon, events: seq<Event>)
    ensures Run(d, events).generation == d.generation + Signals(events)
    decreases |events|
  {
    if events != [] {
      GenerationCountsSignals(Apply(d, events[0]), events[1..]);
    }
  }

  /** Whatever happens after a stop request, at most one further tick begins. */
  lemma AtMostOneTickAfterStop(events: seq<Event>)
    ensures Run(IDLE, events).ticksSinceStop <= 1
  {
    RunIsSound(IDLE, events);
  }

  lemma {:induction false} TicksSinceStopCount(d: Daemon, events: seq<Event>)
    requires d.stopRequested
    ensures Run(d, events).ticks - d.ticks == Run(d, events).ticksSinceStop - d.ticksSinceStop
    ensures Run(d, events).stopRequested
    decreases |events|
  {
    if events != [] {
      TicksSinceStopCount(Apply(d, events[0]), events[1..]);
    }
  }

  /** How many steps of its own the loop still takes once a stop is requested. */
  function StepsToStop(place: Place): nat {
    match place
    case Stopped => 0
    case AtLoopTop => 1
    case Starting => 2
    case Waiting => 2
    case Notified => 2
    case AboutToWait => 2
    case Ticking => 3
    case AboutToTick => 4
  }

  /** Steps the loop itself takes in a run. */
  function Advances(events: seq<Event>): nat {
    if events == [] then 0 else (if events[0] == Advance then 1 else 0) + Advances(events[1..])
  }

  /**
   A stop is not lost either: the loop is never blocked once it is requested, and it has stopped after
   at most four steps of its own, wherever it was.
   */
  lemma {:induction false} StopIsReached(d: Daemon, events: seq<Event>)
    requires Sound(d) && d.stopRequested
    ensures Advances(events) >= StepsToStop(d.place) ==> Run(d, events).place == Stopped
    ensures Run(d, events).place != Waiting
    decreases |events|
  {
    if events != [] {
      EventKeepsSound(d, events[0]);
      StopIsReached(Apply(d, events[0]), events[1..]);
    }
  }

  /** The bound is met: a stop that arrives between the loop's check and its tick lets that tick run. */
  lemma OneTickAfterStopIsPossible()
    ensures exists events :: Run(IDLE, events).ticksSinceStop == 1
  {
    var events := [Advance, Advance, RequestStop, Advance];
    assert events[1..][1..][1..] == [Advance];
    var d := Apply(Apply(Apply(IDLE, Advance), Advance), RequestStop);
    assert Run(IDLE, events) == Run(d, [Advance]);
    assert [Advance][1..] == [];
    assert Run(d, [Advance]) == Apply(d, Advance);
  }

  // ---------------------------------------------------------------- the next tick does begin

  /** How many steps of its own the loop takes to begin its next tick, if nothing blocks or stops it. */
  function StepsToTick(place: Place): nat {
    match place
    case AboutToTick => 1
    case AtLoopTop => 2
    case Starting => 3
    case AboutToWait => 3
    case Waiting => 3
    case Notified => 3
    case Ticking => 4
    case Stopped => 0
  }

  lemma {:induction false} TicksNeverShrink(d: Daemon, events: seq<Event>)
    ensures Run(d, events).ticks >= d.ticks
    decreases |events|
  {
    if events != [] {
      TicksNeverShrink(Apply(d, events[0]), events[1..]);
    }
  }

  ghost predicate Unstopped(events: seq<Event>) {
    forall i :: 0 <= i < |events| ==> events[i] != RequestStop
  }

  /**
   Every wake is served: while a signal is newer than the latest tick the loop is not blocked, and after
   at most four steps of its own the next tick has begun, whatever else happens short of a stop.
   */
  lemma {:induction false} WakeIsServed(d: Daemon, events: seq<Event>)
    requires Sound(d) && !d.stopRequested && d.place != Stopped && Unstopped(events)
    requires d.place != Starting && d.place != AtLoopTop && d.place != AboutToTick ==> d.generation > d.generationAtTick
    ensures d.place != Waiting
    ensures Advances(events) >= StepsToTick(d.place) ==> Run(d, events).ticks > d.ticks
    decreases |events|
  {
    if events != [] {
      var next := Apply(d, events[0]);
      EventKeepsSound(d, events[0]);
      assert forall i :: 0 <= i < |events[1..]| ==> events[1..][i] == events[i + 1];
      if next.ticks > d.ticks {
        TicksNeverShrink(next, events[1..]);
      } else {
        WakeIsServed(next, events[1..]);
      }
    }
  }

  /** Without a wake the loop waits for its time-out, and then it ticks; a spurious wake-up changes nothing. */
  lemma TimeOutStartsTick(d: Daemon, events: seq<Event>)
    requires Sound(d) && d.place == Waiting && Unstopped(events) && Advances(events) >= 2
    ensures Run(Apply(d, TimeOut), events).ticks > d.ticks
    ensures AdvanceLoop(d) == d && AdvanceLoop(Apply(d, SpuriousWakeUp)) == d
  {
    EventKeepsSound(d, TimeOut);
    WakeIsServed(Apply(d, TimeOut), events);
  }

  /** The loop's own next `n` steps. */
  function Advanced(d: Daemon, n: nat): Daemon
    decreases n
  {
    if n == 0 then d else Advanced(AdvanceLoop(d), n - 1)
  }

  lemma FiveSteps(d: Daemon)
    ensures Advanced(d, 5) == AdvanceLoop(AdvanceLoop(AdvanceLoop(AdvanceLoop(AdvanceLoop(d)))))
  {
    var d1 := AdvanceLoop(d);
    var d2 := AdvanceLoop(d1);
    var d3 := AdvanceLoop(d2);
    var d4 := AdvanceLoop(d3);
    assert Advanced(d4, 1) == Advanced(AdvanceLoop(d4), 0) == AdvanceLoop(d4);
    assert Advanced(d3, 2) == Advanced(d4, 1);
    assert Advanced(d2, 3) == Advanced(d3, 2);
    assert Advanced(d1, 4) == Advanced(d2, 3);
    assert Advanced(d, 5) == Advanced(d1, 4);
  }

  /** One wake gives one tick: after it the loop is blocked again, and it starts out the same way. */
  lemma OneWakeOneTick(d: Daemon)
    requires Sound(d) && !d.stopRequested
    ensures d.place == Waiting ==>
              var after := Advanced(Apply(d, Wake), 5);
              after.place == Waiting && after.ticks == d.ticks + 1
    ensures d.place == Starting ==>
              var after := Advanced(AdvanceLoop(d), 5);
              after.ticks == d.ticks + 1 && (after.place == Waiting)
  {
    FiveSteps(Apply(d, Wake));
    FiveSteps(AdvanceLoop(d));
  }
}
