/** The RGBLED class of livingroom/RGBLED.cpp: a three-channel LED whose
    fade state is updated in place.  Each method is proved against the
    value-level fade of module Fade. */
module RgbLed {
  import opened Arith
  import opened Time32
  import opened Fade

  class RGBLED {
    const pinR: int
    const pinG: int
    const pinB: int

    /** Whether `attach` has made the three pins outputs. */
    var pinsAttached: bool

    var curCol: Colour
    var oldCol: Colour
    var newCol: Colour

    var step: int
    var numSteps: int

    var lastRefresh: Millis

    function State(): FadeState
      reads this
    {
      FadeState(curCol, oldCol, newCol, step, numSteps, lastRefresh)
    }

    predicate Valid()
      reads this
    {
      State().Valid()
    }

    constructor(pinR: int, pinG: int, pinB: int)
      ensures Valid()
      ensures State() == Initial
      ensures !pinsAttached
    {
      this.pinR := pinR;
      this.pinG := pinG;
      this.pinB := pinB;
      pinsAttached := false;
      curCol := Black;
      oldCol := Black;
      newCol := Black;
      step := 0;
      numSteps := 1;
      lastRefresh := 0;
    }

    /** `attach`: the pins become outputs and the refresh clock restarts. */
    method Attach(now: Millis)
      modifies this
      ensures pinsAttached
      ensures State() == old(State()).(lastRefresh := now)
    {
      pinsAttached := true;
      lastRefresh := now;
    }

    /** `refresh(force)`: `force` has no effect, since the early return that
        would read it is commented out.  Returns the duty cycles written to
        the three pins. */
    method Refresh(force: bool, now: Millis) returns (pwm: Colour)
      requires Valid()
      modifies this
      ensures Valid()
      ensures State() == Refreshed(old(State()), now)
      ensures pwm == Inverted(curCol)
      ensures pinsAttached == old(pinsAttached)
    {
      ghost var s := State();
      ghost var t := Refreshed(s, now);
      var deltaSteps := Elapsed(now, lastRefresh) / UPDATE_PERIOD;
      lastRefresh := Advance(lastRefresh, deltaSteps * UPDATE_PERIOD);
      assert lastRefresh == Carried(s.lastRefresh, now);
      step := step + deltaSteps;

      if step >= numSteps {
        step := 0;
        oldCol := newCol;
      }

      var delta := Colour(newCol.r - oldCol.r, newCol.g - oldCol.g, newCol.b - oldCol.b);
      curCol := Colour(oldCol.r + TDiv(delta.r * step, numSteps),
                       oldCol.g + TDiv(delta.g * step, numSteps),
                       oldCol.b + TDiv(delta.b * step, numSteps));
      assert curCol == LerpColour(oldCol, newCol, step, numSteps);
      assert oldCol == t.oldCol && step == t.step && lastRefresh == t.lastRefresh;

      pwm := Inverted(curCol);
    }

    /** `refresh()`, which is `refresh(false)`. */
    method RefreshUnforced(now: Millis) returns (pwm: Colour)
      requires Valid()
      modifies this
      ensures Valid()
      ensures State() == Refreshed(old(State()), now)
      ensures pwm == Inverted(curCol)
      ensures pinsAttached == old(pinsAttached)
    {
      pwm := Refresh(false, now);
    }

    /** `set_colour(colour, duration)`: start a fade from the colour shown
        now to `colour` over `duration` milliseconds. */
    method SetColour(colour: Colour, duration: int)
      requires Valid() && duration > -(UPDATE_PERIOD as int)
      modifies this
      ensures Valid()
      ensures State() == Retargeted(old(State()), colour, duration)
      ensures pinsAttached == old(pinsAttached)
    {
      oldCol := curCol;
      newCol := colour;
      step := 0;
      numSteps := TDiv(duration, UPDATE_PERIOD) + 1;
    }
  }
}
