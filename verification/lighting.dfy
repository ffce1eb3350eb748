/** The Lighting class of livingroom/Lighting.cpp: a light switch pressed by
    a servo.  `set` swings the servo to the on or off angle; after
    `TIME_PRESSED` milliseconds `refresh` returns it to the idle angle and
    after a further `TIME_OFF` it detaches it.  The servo library is
    modelled as its attached flag and the last angle written to it. */
module Lights {
  import opened Time32

  const TIME_PRESSED: nat := 250
  const TIME_OFF: nat := 250

  /** An Arduino servo: whether it drives its pin, and its angle. */
  datatype Servo = Servo(attached: bool, angle: int)

  /** The three angles a switch is configured with. */
  datatype Angles = Angles(off: int, idle: int, on: int)

  /** The part of a switch that changes: the logical state, the time of the
      last `set` or `init`, and the servo. */
  datatype LightState = LightState(on: bool, lastChange: Millis, servo: Servo)

  // ---------------------------------------------------------------------
  // The operations on values
  // ---------------------------------------------------------------------

  /** `set(s)` at time `now`. */
  function SetLight(a: Angles, l: LightState, s: bool, now: Millis): LightState
  {
    LightState(s, now, Servo(true, if s then a.on else a.off))
  }

  /** `init()` at time `now`: the servo goes to idle; the state is kept. */
  function InitLight(a: Angles, l: LightState, now: Millis): LightState
  {
    LightState(l.on, now, Servo(true, a.idle))
  }

  /** The servo after `refresh`, `delta` milliseconds after the last change. */
  function RefreshServo(a: Angles, sv: Servo, delta: nat): Servo
  {
    var pressedExpired := delta > TIME_PRESSED;
    var offExpired := delta > TIME_PRESSED + TIME_OFF;
    if pressedExpired && !offExpired && sv.angle != a.idle then sv.(angle := a.idle)
    else if offExpired && sv.attached then sv.(attached := false)
    else sv
  }

  /** `refresh()` at time `now`. */
  function RefreshLight(a: Angles, l: LightState, now: Millis): LightState
  {
    l.(servo := RefreshServo(a, l.servo, Elapsed(now, l.lastChange)))
  }

  /** A switch is busy from a change at `lastChange` for the next
      `TIME_PRESSED + TIME_OFF` milliseconds, on the wrapping clock. */
  ghost predicate BusyAt(lastChange: Millis, now: Millis)
  {
    exists d: nat :: d < TIME_PRESSED + TIME_OFF && Advance(lastChange, d) == now
  }

  /** `is_busy()` at time `now`. */
  function Busy(l: LightState, now: Millis): (b: bool)
    ensures b <==> BusyAt(l.lastChange, now)
  {
    var delta := Elapsed(now, l.lastChange);
    AdvanceElapsed(now, l.lastChange);
    if delta < TIME_PRESSED + TIME_OFF then true
    else
      assert forall d: nat :: d < TIME_PRESSED + TIME_OFF ==> Advance(l.lastChange, d) != now by {
        forall d: nat | d < TIME_PRESSED + TIME_OFF
          ensures Advance(l.lastChange, d) != now
        {
          ElapsedAdvance(l.lastChange, d);
        }
      }
      false
  }

  // ---------------------------------------------------------------------
  // Properties
  // ---------------------------------------------------------------------

  /** `refresh` leaves the servo alone for the first 250 ms, returns it to
      idle between 250 and 500 ms, and detaches it after 500 ms. */
  lemma RefreshPhases(a: Angles, sv: Servo, delta: nat)
    ensures delta <= TIME_PRESSED ==> RefreshServo(a, sv, delta) == sv
    ensures TIME_PRESSED < delta <= TIME_PRESSED + TIME_OFF ==>
      RefreshServo(a, sv, delta) == sv.(angle := a.idle)
    ensures delta > TIME_PRESSED + TIME_OFF ==>
      RefreshServo(a, sv, delta) == sv.(attached := false)
  {
  }

  /** A switch set at time `t` is busy until `t + 499` and free from
      `t + 500`, also across the wrap of the clock. */
  lemma BusyWindow(l: LightState, d: nat)
    requires d < MOD
    ensures Busy(l, Advance(l.lastChange, d)) <==> d < TIME_PRESSED + TIME_OFF
  {
    ElapsedAdvance(l.lastChange, d);
  }

  /** After `set(s)` at `t`, a refresh in the press window returns the servo
      to idle, and a later one after the window detaches it; `get` reports
      `s` throughout. */
  lemma SetThenSettles(a: Angles, l: LightState, s: bool, t: Millis, d1: nat, d2: nat)
    requires TIME_PRESSED < d1 <= TIME_PRESSED + TIME_OFF < d2 < MOD
    ensures
      var l1 := RefreshLight(a, SetLight(a, l, s, t), Advance(t, d1));
      var l2 := RefreshLight(a, l1, Advance(t, d2));
      l1.servo == Servo(true, a.idle) && l2.servo == Servo(false, a.idle)
      && l1.on == s && l2.on == s && l2.lastChange == t
  {
    ElapsedAdvance(t, d1);
    ElapsedAdvance(t, d2);
  }

  /** `refresh` never changes the state or the time of the last change. */
  lemma RefreshKeepsState(a: Angles, l: LightState, now: Millis)
    ensures RefreshLight(a, l, now).on == l.on
    ensures RefreshLight(a, l, now).lastChange == l.lastChange
  {
  }

  /** A switch is busy at the moment it is set. */
  lemma BusyWhenSet(a: Angles, l: LightState, s: bool, now: Millis)
    ensures Busy(SetLight(a, l, s, now), now)
  {
  }

  // ---------------------------------------------------------------------
  // The class
  // ---------------------------------------------------------------------

  class Lighting {
    const pin: int
    const offAngle: int
    const idleAngle: int
    const onAngle: int

    var state: bool
    var lastChange: Millis
    var servo: Servo

    function Cfg(): Angles
    {
      Angles(offAngle, idleAngle, onAngle)
    }

    function State(): LightState
      reads this
    {
      LightState(state, lastChange, servo)
    }

    /** The servo object starts detached; `initialAngle` is what its `read`
        reports before the first write. */
    constructor(pin: int, offAngle: int, idleAngle: int, onAngle: int, initialAngle: int)
      ensures Cfg() == Angles(offAngle, idleAngle, onAngle)
      ensures State() == LightState(false, 0, Servo(false, initialAngle))
    {
      this.pin := pin;
      this.offAngle := offAngle;
      this.idleAngle := idleAngle;
      this.onAngle := onAngle;
      state := false;
      lastChange := 0;
      servo := Servo(false, initialAngle);
    }

    /** `set(new_state)`: press the switch one way or the other. */
    method Set(newState: bool, now: Millis)
      modifies this
      ensures State() == SetLight(Cfg(), old(State()), newState, now)
      ensures Get() == newState && IsBusy(now)
    {
      servo := Servo(true, servo.angle);
      servo := servo.(angle := if newState then onAngle else offAngle);
      state := newState;
      lastChange := now;
    }

    /** `init()`: move the servo to idle without changing the state. */
    method Init(now: Millis)
      modifies this
      ensures State() == InitLight(Cfg(), old(State()), now)
      ensures Get() == old(Get())
    {
      servo := Servo(true, servo.angle);
      servo := servo.(angle := idleAngle);
      lastChange := now;
    }

    /** `get()`: the state last passed to `set`. */
    function Get(): bool
      reads this
    {
      state
    }

    /** `refresh()`: return the servo to idle, then detach it. */
    method Refresh(now: Millis)
      modifies this
      ensures State() == RefreshLight(Cfg(), old(State()), now)
      ensures Get() == old(Get()) && lastChange == old(lastChange)
    {
      var delta := Elapsed(now, lastChange);
      var timePressedExpired := delta > TIME_PRESSED;
      var timeOffExpired := delta > TIME_PRESSED + TIME_OFF;

      if timePressedExpired && !timeOffExpired && servo.angle != idleAngle {
        servo := servo.(angle := idleAngle);
      } else if timeOffExpired && servo.attached {
        servo := servo.(attached := false);
      }
    }

    /** `is_busy()`: whether the 500 ms window since the last change is open. */
    function IsBusy(now: Millis): (b: bool)
      reads this
      ensures b <==> BusyAt(lastChange, now)
    {
      Busy(State(), now)
    }
  }
}
