/** The linear colour fade of the RGBLED class (livingroom/RGBLED.cpp) on
    values.  A fade runs from `oldCol` to `newCol` in `numSteps` steps of
    `UPDATE_PERIOD` milliseconds; `curCol` is the colour shown at the current
    step.  The class in module RgbLed is proved against these functions. */
module Fade {
  import opened Arith
  import opened Time32

  /** Three plain `int` channels, no clamping. */
  datatype Colour = Colour(r: int, g: int, b: int)

  const Black := Colour(0, 0, 0)

  /** The one time quantum of the fade, in milliseconds. */
  const UPDATE_PERIOD: nat := 10

  /** `x` lies between `a` and `b`, in either order. */
  predicate Between(x: int, a: int, b: int)
  {
    (a <= x <= b) || (b <= x <= a)
  }

  /** Each channel of `c` lies between the same channels of `a` and `b`. */
  predicate Within(c: Colour, a: Colour, b: Colour)
  {
    Between(c.r, a.r, b.r) && Between(c.g, a.g, b.g) && Between(c.b, a.b, b.b)
  }

  // ---------------------------------------------------------------------
  // One channel of the fade
  // ---------------------------------------------------------------------

  /** A non-negative distance `d` scaled by `step / steps`. */
  lemma ScaledNat(d: int, step: int, steps: int)
    requires d >= 0 && steps >= 1 && 0 <= step <= steps
    ensures 0 <= (d * step) / steps <= d
    ensures step == 0 ==> (d * step) / steps == 0
    ensures step == steps ==> (d * step) / steps == d
  {
    assert d * step == step * d && d * steps == steps * d;
    MulMono(0, step, d);
    MulMono(step, steps, d);
    DivMono(d * step, d * steps, steps);
    MulDiv(d, steps);
    DivMono(0, d * step, steps);
  }

  /** The channel distance `d` scaled by `step / steps` with C's truncating
      division lies between 0 and `d`. */
  lemma ScaledBounds(d: int, step: int, steps: int)
    requires steps >= 1 && 0 <= step <= steps
    ensures Between(TDiv(d * step, steps), 0, d)
    ensures step == 0 ==> TDiv(d * step, steps) == 0
    ensures step == steps ==> TDiv(d * step, steps) == d
  {
    if d >= 0 {
      ScaledNat(d, step, steps);
      MulMono(0, step, d);
      assert d * step == step * d;
    } else {
      ScaledNat(-d, step, steps);
      MulMono(0, step, -d);
      assert -(d * step) == (-d) * step == step * (-d);
    }
  }

  /** One channel at step `step` of `steps`: `old + (new - old) * step / steps`
      as RGBLED::refresh computes it. */
  function Lerp(o: int, n: int, step: int, steps: int): (c: int)
    requires steps >= 1 && 0 <= step <= steps
    ensures Between(c, o, n)
    ensures step == 0 ==> c == o
    ensures step == steps ==> c == n
  {
    ScaledBounds(n - o, step, steps);
    o + TDiv((n - o) * step, steps)
  }

  /** As the step grows the channel moves monotonically toward `n`. */
  lemma LerpMonotone(o: int, n: int, s1: int, s2: int, steps: int)
    requires steps >= 1 && 0 <= s1 <= s2 <= steps
    ensures o <= n ==> Lerp(o, n, s1, steps) <= Lerp(o, n, s2, steps)
    ensures n <= o ==> Lerp(o, n, s2, steps) <= Lerp(o, n, s1, steps)
  {
    var d := n - o;
    if d >= 0 {
      MulMono(s1, s2, d);
      assert d * s1 == s1 * d && d * s2 == s2 * d;
      MulMono(0, s1, d);
      DivMono(d * s1, d * s2, steps);
    } else {
      MulMono(s1, s2, -d);
      assert -(d * s1) == s1 * (-d) && -(d * s2) == s2 * (-d);
      MulMono(0, s1, -d);
      DivMono(-(d * s1), -(d * s2), steps);
    }
  }

  /** The three channels at step `step` of `steps`. */
  function LerpColour(o: Colour, n: Colour, step: int, steps: int): (c: Colour)
    requires steps >= 1 && 0 <= step <= steps
    ensures Within(c, o, n)
    ensures step == 0 ==> c == o
    ensures step == steps ==> c == n
  {
    Colour(Lerp(o.r, n.r, step, steps), Lerp(o.g, n.g, step, steps),
           Lerp(o.b, n.b, step, steps))
  }

  /** A later step lies between an earlier one and the target. */
  lemma LerpColourToward(o: Colour, n: Colour, s1: int, s2: int, steps: int)
    requires steps >= 1 && 0 <= s1 <= s2 <= steps
    ensures Within(LerpColour(o, n, s2, steps), LerpColour(o, n, s1, steps), n)
  {
    LerpMonotone(o.r, n.r, s1, s2, steps);
    LerpMonotone(o.g, n.g, s1, s2, steps);
    LerpMonotone(o.b, n.b, s1, s2, steps);
  }

  /** Moving toward a fixed target twice stays within the first range. */
  lemma WithinTrans(a: Colour, x: Colour, y: Colour, n: Colour)
    requires Within(x, a, n) && Within(y, x, n)
    ensures Within(y, a, n)
  {
  }

  // ---------------------------------------------------------------------
  // Pin outputs
  // ---------------------------------------------------------------------

  predicate InByteRange(c: Colour)
  {
    0 <= c.r <= 255 && 0 <= c.g <= 255 && 0 <= c.b <= 255
  }

  /** The duty cycles written to the pins: the LED is active-low, so each
      channel is written as `255 - channel`. */
  function Inverted(c: Colour): (p: Colour)
    ensures InByteRange(c) <==> InByteRange(p)
    ensures c == Black <==> p == Colour(255, 255, 255)
  {
    Colour(255 - c.r, 255 - c.g, 255 - c.b)
  }

  /** Inverting twice gives the colour back: the written duty cycle
      determines the colour. */
  lemma InvertedInvolution(c: Colour)
    ensures Inverted(Inverted(c)) == c
  {
  }

  // ---------------------------------------------------------------------
  // The fade state
  // ---------------------------------------------------------------------

  datatype FadeState = FadeState(curCol: Colour, oldCol: Colour, newCol: Colour,
                                 step: int, numSteps: int, lastRefresh: Millis)
  {
    /** `curCol` is the colour of step `step` of the fade from `oldCol` to `newCol`. */
    predicate Valid()
    {
      1 <= numSteps && 0 <= step < numSteps
      && curCol == LerpColour(oldCol, newCol, step, numSteps)
    }
  }

  /** The state the RGBLED constructor leaves: one step, no time, and the
      colours of a zero-initialised global object. */
  const Initial := FadeState(Black, Black, Black, 0, 1, 0)

  lemma InitialValid()
    ensures Initial.Valid() && Initial.curCol == Black
  {
  }

  /** The refresh time moved forward by whole update periods, never past
      `now`: the remainder is carried to the next refresh. */
  function Carried(last: Millis, now: Millis): (r: Millis)
    ensures Elapsed(now, r) == Elapsed(now, last) % UPDATE_PERIOD
    ensures Elapsed(r, last) + Elapsed(now, r) == Elapsed(now, last)
  {
    var e := Elapsed(now, last);
    var k := e / UPDATE_PERIOD;
    ElapsedAdvance(last, k * UPDATE_PERIOD);
    ElapsedFromAdvance(now, last, k * UPDATE_PERIOD);
    Advance(last, k * UPDATE_PERIOD)
  }

  /** Whole update periods since the last refresh. */
  function StepsDue(s: FadeState, now: Millis): nat
  {
    Elapsed(now, s.lastRefresh) / UPDATE_PERIOD
  }

  /** `RGBLED::refresh` at time `now`: advance the step by the whole periods
      that have passed, snap to the target once the step reaches
      `numSteps`, and recompute `curCol`. */
  function Refreshed(s: FadeState, now: Millis): (t: FadeState)
    requires 1 <= s.numSteps && 0 <= s.step
    ensures t.Valid()
    ensures t.newCol == s.newCol && t.numSteps == s.numSteps
    ensures Elapsed(now, t.lastRefresh) < UPDATE_PERIOD
  {
    var step := s.step + StepsDue(s, now);
    var from := if step >= s.numSteps then s.newCol else s.oldCol;
    var step' := if step >= s.numSteps then 0 else step;
    FadeState(LerpColour(from, s.newCol, step', s.numSteps), from, s.newCol, step',
              s.numSteps, Carried(s.lastRefresh, now))
  }

  /** `RGBLED::set_colour(c, duration)`: the current colour becomes the start
      of a new fade of `duration / 10 + 1` steps, with C's truncating
      division.  A duration of -9 to -1 truncates to one step, as 0 does;
      from -10 down the step count is zero or negative. */
  function Retargeted(s: FadeState, c: Colour, duration: int): (t: FadeState)
    requires duration > -(UPDATE_PERIOD as int)
    ensures t.Valid()
    ensures t.curCol == s.curCol && t.newCol == c && t.step == 0
    ensures t.lastRefresh == s.lastRefresh
    ensures duration >= 0 ==> (t.numSteps - 1) * UPDATE_PERIOD <= duration < t.numSteps * UPDATE_PERIOD
    ensures duration < 0 ==> t.numSteps == 1
  {
    FadeState(s.curCol, s.curCol, c, 0, TDiv(duration, UPDATE_PERIOD) + 1, s.lastRefresh)
  }

  // ---------------------------------------------------------------------
  // Properties of a refresh
  // ---------------------------------------------------------------------

  /** Once the step count reaches `numSteps` the colour snaps to the target;
      before that the fade shows the colour of the advanced step. */
  lemma RefreshSnaps(s: FadeState, now: Millis)
    requires s.Valid()
    ensures s.step + StepsDue(s, now) >= s.numSteps ==>
      var t := Refreshed(s, now);
      t.curCol == s.newCol && t.oldCol == s.newCol && t.step == 0
    ensures s.step + StepsDue(s, now) < s.numSteps ==>
      var t := Refreshed(s, now);
      t.oldCol == s.oldCol && t.step == s.step + StepsDue(s, now)
  {
  }

  /** While the fade runs, the time shown by the step count plus the time
      carried forward is unchanged by a refresh. */
  lemma RefreshKeepsProgress(s: FadeState, now: Millis)
    requires s.Valid()
    requires s.step + StepsDue(s, now) < s.numSteps
    ensures Refreshed(s, now).step * UPDATE_PERIOD + Elapsed(now, Refreshed(s, now).lastRefresh)
         == s.step * UPDATE_PERIOD + Elapsed(now, s.lastRefresh)
  {
  }

  /** Every refresh moves each channel from where it was toward the target,
      never past it. */
  lemma RefreshTowardTarget(s: FadeState, now: Millis)
    requires s.Valid()
    ensures Within(Refreshed(s, now).curCol, s.curCol, s.newCol)
  {
    var k := s.step + StepsDue(s, now);
    if k < s.numSteps {
      LerpColourToward(s.oldCol, s.newCol, s.step, k, s.numSteps);
    }
  }

  /** A fade that has reached its target stays there. */
  lemma RefreshAtTarget(s: FadeState, now: Millis)
    requires s.Valid() && s.oldCol == s.newCol
    ensures Refreshed(s, now).curCol == s.newCol && Refreshed(s, now).oldCol == s.newCol
  {
  }

  /** `set_colour(c, 0)` followed by a refresh: the colour is unchanged
      until a whole period has passed since the last refresh, and is the
      target from then on. */
  lemma InstantFade(s: FadeState, c: Colour, now: Millis)
    requires s.Valid()
    ensures Elapsed(now, s.lastRefresh) < UPDATE_PERIOD ==>
      Refreshed(Retargeted(s, c, 0), now).curCol == s.curCol
    ensures Elapsed(now, s.lastRefresh) >= UPDATE_PERIOD ==>
      Refreshed(Retargeted(s, c, 0), now).curCol == c
  {
  }

  /** `set_colour(c, d)` fades from the current colour to `c` over the
      duration: a refresh `d / 10 + 1` whole periods or more after the last
      one (at the latest `d + 10` ms after it) shows `c`, and an earlier one
      shows the colour of the step reached.  The two cases cover every
      `now`. */
  lemma FadeCompletes(s: FadeState, c: Colour, d: nat, now: Millis)
    requires s.Valid()
    ensures Elapsed(now, s.lastRefresh) / UPDATE_PERIOD > d / UPDATE_PERIOD ==>
      Refreshed(Retargeted(s, c, d), now).curCol == c
    ensures Elapsed(now, s.lastRefresh) / UPDATE_PERIOD <= d / UPDATE_PERIOD ==>
      Refreshed(Retargeted(s, c, d), now).curCol
        == LerpColour(s.curCol, c, Elapsed(now, s.lastRefresh) / UPDATE_PERIOD, d / UPDATE_PERIOD + 1)
  {
    var t := Retargeted(s, c, d);
    assert StepsDue(t, now) == Elapsed(now, s.lastRefresh) / UPDATE_PERIOD;
  }

  // ---------------------------------------------------------------------
  // A run of refreshes
  // ---------------------------------------------------------------------

  /** Refreshes at the given times, in order, with no `set_colour` between. */
  function RefreshAll(s: FadeState, times: seq<Millis>): (t: FadeState)
    requires s.Valid()
    ensures t.Valid()
    ensures t.newCol == s.newCol && t.numSteps == s.numSteps
    decreases |times|
  {
    if times == [] then s else RefreshAll(Refreshed(s, times[0]), times[1..])
  }

  /** Once at its target, a fade stays there until the next `set_colour`. */
  lemma {:induction false} StaysAtTarget(s: FadeState, times: seq<Millis>)
    requires s.Valid() && s.oldCol == s.newCol
    ensures RefreshAll(s, times).curCol == s.newCol && RefreshAll(s, times).oldCol == s.newCol
    decreases |times|
  {
    if times != [] {
      RefreshAtTarget(s, times[0]);
      StaysAtTarget(Refreshed(s, times[0]), times[1..]);
    }
  }

  /** Over any run of refreshes every channel stays between the colour shown
      at the start and the target. */
  lemma {:induction false} ApproachesTarget(s: FadeState, times: seq<Millis>)
    requires s.Valid()
    ensures Within(RefreshAll(s, times).curCol, s.curCol, s.newCol)
    decreases |times|
  {
    if times != [] {
      var t := Refreshed(s, times[0]);
      RefreshTowardTarget(s, times[0]);
      ApproachesTarget(t, times[1..]);
      WithinTrans(s.curCol, t.curCol, RefreshAll(t, times[1..]).curCol, s.newCol);
    }
  }

  /** `set_colour(c, d)` followed by the firmware's refreshes on every pass
      of the loop: once the refreshes, taken in order as seen from the last
      refresh before `set_colour`, reach `d + 10` ms after it, the colour
      shown is `c`. */
  lemma FadeCompletesOverRun(s: FadeState, c: Colour, d: nat, times: seq<Millis>)
    requires s.Valid()
    requires forall i, j :: 0 <= i <= j < |times| ==>
      Elapsed(times[i], s.lastRefresh) <= Elapsed(times[j], s.lastRefresh)
    requires times != [] && Elapsed(times[|times| - 1], s.lastRefresh) >= d + UPDATE_PERIOD
    ensures RefreshAll(Retargeted(s, c, d), times).curCol == c
  {
    var t := Retargeted(s, c, d);
    assert t.lastRefresh == Advance(s.lastRefresh, 0);
    assert t.numSteps * UPDATE_PERIOD <= d + UPDATE_PERIOD;
    RunSnaps(t, s.lastRefresh, 0, times);
  }

  /** Dropping the first of a run of times ordered from `base` leaves them
      ordered, with the same last one, none before the dropped one. */
  lemma OrderedTail(base: Millis, times: seq<Millis>)
    requires |times| > 1
    requires forall i, j :: 0 <= i <= j < |times| ==> Elapsed(times[i], base) <= Elapsed(times[j], base)
    ensures forall i, j :: 0 <= i <= j < |times[1..]| ==>
      Elapsed(times[1..][i], base) <= Elapsed(times[1..][j], base)
    ensures Elapsed(times[0], base) <= Elapsed(times[1..][0], base)
    ensures times[1..][|times| - 2] == times[|times| - 1]
  {
    forall i, j | 0 <= i <= j < |times[1..]|
      ensures Elapsed(times[1..][i], base) <= Elapsed(times[1..][j], base)
    {
      assert times[1..][i] == times[i + 1] && times[1..][j] == times[j + 1];
    }
  }

  /** The induction behind `FadeCompletesOverRun`.  While the fade runs,
      its step count times the period is the offset `o` of its last refresh
      from `base`, so a refresh at offset `x` reaches step `x / 10`; the
      first refresh at an offset of `numSteps` periods or more snaps. */
  lemma {:induction false} RunSnaps(t: FadeState, base: Millis, o: nat, times: seq<Millis>)
    requires t.Valid()
    requires o < MOD && t.lastRefresh == Advance(base, o)
    requires t.oldCol == t.newCol || t.step * UPDATE_PERIOD == o
    requires forall i, j :: 0 <= i <= j < |times| ==> Elapsed(times[i], base) <= Elapsed(times[j], base)
    requires times != [] && o <= Elapsed(times[0], base)
    requires Elapsed(times[|times| - 1], base) >= t.numSteps * UPDATE_PERIOD
    ensures RefreshAll(t, times).curCol == t.newCol
    decreases |times|
  {
    if t.oldCol == t.newCol {
      StaysAtTarget(t, times);
      return;
    }
    var now := times[0];
    var x := Elapsed(now, base);
    ElapsedFromAdvance(now, base, o);
    var k := StepsDue(t, now);
    assert k == (x - o) / UPDATE_PERIOD;
    DivBracket(x - o, UPDATE_PERIOD);
    var u := Refreshed(t, now);
    assert RefreshAll(t, times) == RefreshAll(u, times[1..]);
    RefreshSnaps(t, now);
    if t.step + k >= t.numSteps {
      StaysAtTarget(u, times[1..]);
    } else {
      assert Elapsed(times[|times| - 1], base) >= x by {
        assert 0 <= 0 <= |times| - 1 < |times|;
      }
      assert |times| > 1;
      AdvanceAdd(base, o, k * UPDATE_PERIOD);
      OrderedTail(base, times);
      RunSnaps(u, base, o + k * UPDATE_PERIOD, times[1..]);
    }
  }
}
