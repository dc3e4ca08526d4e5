/**
 * The e-stop latch and the status LED: the falling-edge interrupt sets the
 * tripped flag and drives the LED high, the network thread blinks the LED
 * only while the flag is clear, and cleanup drives it low. Nothing clears
 * the flag.
 */
module Latch {

  /** The level written to the status LED pin. */
  datatype Level = Low | High

  /** The steps that touch the flag or the LED, each taken as one atomic step. */
  datatype Event = EStopEdge | BlinkCycle | Cleanup

  /** The flag, the LED level and every level written to the pin so far. */
  datatype LatchState = LatchState(tripped: bool, led: Level, writes: seq<Level>)

  /** The LED is the last level written, or its level at power-up when nothing was written. */
  predicate Consistent(s: LatchState) {
    s.writes != [] ==> s.led == s.writes[|s.writes| - 1]
  }

  function Step(s: LatchState, e: Event): LatchState {
    match e
    case EStopEdge => LatchState(true, High, s.writes + [High])
    case BlinkCycle => if s.tripped then s else LatchState(false, Low, s.writes + [High, Low])
    case Cleanup => LatchState(s.tripped, Low, s.writes + [Low])
  }

  /** The state after the events, oldest first. */
  function Run(s: LatchState, events: seq<Event>): LatchState {
    if events == [] then s else Step(Run(s, events[..|events| - 1]), events[|events| - 1])
  }

  /** Every step keeps the LED equal to the last level written. */
  lemma StepConsistent(s: LatchState, e: Event)
    requires Consistent(s)
    ensures Consistent(Step(s, e))
  {
  }

  /** Once tripped, the flag stays set whatever happens next. */
  lemma {:induction false} TrippedStaysTripped(s: LatchState, events: seq<Event>)
    requires s.tripped
    ensures Run(s, events).tripped
  {
    if events != [] {
      TrippedStaysTripped(s, events[..|events| - 1]);
    }
  }

  /** The pin's history only grows: no step takes back a write. */
  lemma {:induction false} WritesOnlyGrow(s: LatchState, events: seq<Event>)
    ensures s.writes <= Run(s, events).writes
  {
    if events != [] {
      WritesOnlyGrow(s, events[..|events| - 1]);
    }
  }

  /** The flag is set exactly when some e-stop edge has happened (or it was set already). */
  lemma {:induction false} TrippedIffEdge(s: LatchState, events: seq<Event>)
    ensures Run(s, events).tripped <==> s.tripped || EStopEdge in events
  {
    if events != [] {
      var init := events[..|events| - 1];
      TrippedIffEdge(s, init);
      assert events == init + [events[|events| - 1]];
    }
  }

  /** While tripped and not cleaned up, the LED stays high: blinking writes nothing. */
  lemma {:induction false} TrippedLedHigh(s: LatchState, events: seq<Event>)
    requires s.tripped && s.led == High
    requires Cleanup !in events
    ensures Run(s, events).led == High
    ensures Run(s, events).writes == s.writes + seq(multiset(events)[EStopEdge], _ => High)
  {
    if events != [] {
      var init := events[..|events| - 1];
      var last := events[|events| - 1];
      assert events == init + [last];
      assert Cleanup !in init;
      TrippedLedHigh(s, init);
      TrippedStaysTripped(s, init);
      assert multiset(events) == multiset(init) + multiset{last};
    }
  }

  /** An untripped blink cycle writes high then low and leaves the LED low. */
  lemma BlinkWhileNormal(s: LatchState)
    requires !s.tripped
    ensures Step(s, BlinkCycle).writes == s.writes + [High, Low]
    ensures Step(s, BlinkCycle).led == Low && !Step(s, BlinkCycle).tripped
  {
  }

  /**
   * The flag and the status LED pin. `writes` logs the digitalWrite calls on
   * the pin; the LED's level before any write is whatever it had at power-up.
   */
  class EStopMonitor {
    var tripped: bool
    var led: Level
    var writes: seq<Level>

    function State(): LatchState
      reads this
    {
      LatchState(tripped, led, writes)
    }

    predicate Valid()
      reads this
    {
      Consistent(State())
    }

    constructor (powerUp: Level)
      ensures State() == LatchState(false, powerUp, [])
      ensures Valid()
    {
      tripped := false;
      led := powerUp;
      writes := [];
    }

    /** digitalWrite(STATUS_LED_PIN, level). */
    method Write(level: Level)
      requires Valid()
      modifies this
      ensures Valid()
      ensures State() == LatchState(old(tripped), level, old(writes) + [level])
    {
      led := level;
      writes := writes + [level];
    }

    /** handle_estop: drive the LED high. */
    method HandleEStop()
      requires Valid()
      modifies this
      ensures Valid()
      ensures State() == LatchState(old(tripped), High, old(writes) + [High])
    {
      Write(High);
    }

    /** estop_interrupt: set the flag, then handle_estop. */
    method EStopInterrupt()
      requires Valid()
      modifies this
      ensures Valid()
      ensures State() == Step(old(State()), EStopEdge)
    {
      tripped := true;
      HandleEStop();
    }

    /** One pass of the network_task loop: blink only while the flag is clear. */
    method Blink()
      requires Valid()
      modifies this
      ensures Valid()
      ensures State() == Step(old(State()), BlinkCycle)
    {
      if !tripped {
        Write(High);
        Write(Low);
      }
    }

    /** cleanup: drive the LED low. */
    method CleanupLed()
      requires Valid()
      modifies this
      ensures Valid()
      ensures State() == Step(old(State()), Cleanup)
    {
      Write(Low);
    }
  }
}
