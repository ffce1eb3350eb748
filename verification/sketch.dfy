/** The older standalone sketch livingroom.cpp: an RGB LED faded in a fixed
    100 steps, one step on each pass of `loop` in which the clock reads a
    multiple of 10 ms, a 15-bit colour property, and eight buttons whose
    changes are reported as events.  The global `rgb` record and the
    `btn_state` array are the state of one object. */
module Sketch {
  import opened Arith
  import opened Time32
  import opened Options
  import opened Fade
  import opened Colour15

  const RGB_STEPS: int := 100
  const RGB_FREQUENCY: int := 10
  const NUM_BTNS: nat := 8
  const BTN_DOWN: int := 0
  const BTN_UP: int := 1

  const White := Colour(255, 255, 255)

  // ---------------------------------------------------------------------
  // The fade
  // ---------------------------------------------------------------------

  /** `(int)millis()` with the 16-bit `int` of the AVR: the low sixteen bits
      of the clock read as a two's-complement number. */
  function Int16(t: Millis): (x: int)
    ensures -32768 <= x < 32768
    ensures (x - t) % 65536 == 0
  {
    var low := t % 65536;
    if low >= 32768 then low - 65536 else low
  }

  /** `rgb_update` acts when `((int)millis()) % RGB_FREQUENCY == 0`, with C's
      remainder. */
  predicate Tick(now: Millis)
  {
    TRem(Int16(now), RGB_FREQUENCY) == 0
  }

  /** Until the 16-bit cast wraps, a tick is a clock value that is a
      multiple of 10 ms. */
  lemma TickBeforeWrap(now: Millis)
    requires now < 32768
    ensures Tick(now) <==> now % RGB_FREQUENCY == 0
  {
    TRemZero(Int16(now), RGB_FREQUENCY);
  }

  /** The `rgb` record: the colour shown, the start and the target of the
      fade, and the step reached. */
  datatype SketchRgb = SketchRgb(curCol: Colour, oldCol: Colour, newCol: Colour, step: int)
  {
    /** `curCol` is step `step` of 100 of the fade, and the target is a
        colour of 8-bit channels. */
    predicate Valid()
    {
      0 <= step < RGB_STEPS
      && curCol == LerpColour(oldCol, newCol, step, RGB_STEPS)
      && InByteRange(newCol)
    }
  }

  /** The record as `setup` leaves it: black, fading to white. */
  const InitialRgb := SketchRgb(Black, Black, White, 0)

  /** One active tick of `rgb_update`: one step further, and at the
      hundredth step the target becomes the new start. */
  function RgbTick(s: SketchRgb): (t: SketchRgb)
    requires s.Valid()
    ensures t.Valid() && t.newCol == s.newCol
  {
    var step := s.step + 1;
    var cur := LerpColour(s.oldCol, s.newCol, step, RGB_STEPS);
    if step >= RGB_STEPS then SketchRgb(s.newCol, s.newCol, s.newCol, 0)
    else SketchRgb(cur, s.oldCol, s.newCol, step)
  }

  /** `rgb_update` at time `now`, with the duty cycles it writes, if any. */
  function RgbUpdated(s: SketchRgb, now: Millis): (r: (SketchRgb, Option<Colour>))
    requires s.Valid()
    ensures r.0.Valid()
    ensures r.1.Some? <==> Tick(now)
    ensures r.1.Some? ==> r.1.value == Inverted(r.0.curCol)
    ensures !Tick(now) ==> r.0 == s
  {
    if Tick(now) then (RgbTick(s), Some(Inverted(RgbTick(s).curCol))) else (s, None)
  }

  /** `n` active ticks in a row. */
  function Ticks(s: SketchRgb, n: nat): (t: SketchRgb)
    requires s.Valid()
    ensures t.Valid()
    decreases n
  {
    if n == 0 then s else Ticks(RgbTick(s), n - 1)
  }

  /** Before the hundredth step, `n` ticks show step `step + n` of the fade. */
  lemma {:induction false} TicksProgress(s: SketchRgb, n: nat)
    requires s.Valid() && s.step + n < RGB_STEPS
    ensures Ticks(s, n) == SketchRgb(LerpColour(s.oldCol, s.newCol, s.step + n, RGB_STEPS),
                                     s.oldCol, s.newCol, s.step + n)
    decreases n
  {
    if n > 0 {
      var t := RgbTick(s);
      assert t == SketchRgb(LerpColour(s.oldCol, s.newCol, s.step + 1, RGB_STEPS),
                            s.oldCol, s.newCol, s.step + 1);
      TicksProgress(t, n - 1);
    }
  }

  /** The fade reaches its target exactly: after the ticks that remain to
      the hundredth step, the colour shown is the target and the fade is at
      rest. */
  lemma FadeReachesTarget(s: SketchRgb)
    requires s.Valid()
    ensures Ticks(s, RGB_STEPS - s.step) == SketchRgb(s.newCol, s.newCol, s.newCol, 0)
  {
    var n: nat := RGB_STEPS - s.step;
    TicksProgress(s, n - 1);
    var t := Ticks(s, n - 1);
    TicksLast(s, n - 1);
    assert RgbTick(t) == SketchRgb(s.newCol, s.newCol, s.newCol, 0);
  }

  /** Unfolding `Ticks` from the end. */
  lemma {:induction false} TicksLast(s: SketchRgb, n: nat)
    requires s.Valid()
    ensures Ticks(s, n + 1) == RgbTick(Ticks(s, n))
    decreases n
  {
    if n > 0 {
      TicksLast(RgbTick(s), n - 1);
    }
  }

  /** `set_rgb(raw)`: fade from the colour shown now to the decoded colour. */
  function RgbSet(s: SketchRgb, raw: int): (t: SketchRgb)
    ensures t.Valid()
    ensures t.curCol == s.curCol && t.oldCol == s.curCol && t.newCol == Decode15(raw)
  {
    SketchRgb(s.curCol, s.curCol, Decode15(raw), 0)
  }

  /** `get_rgb()` as it is evidently meant: the target colour encoded. */
  function RgbGet(s: SketchRgb): (e: int)
    requires s.Valid()
    ensures 0 <= e < 32768
  {
    Encode15(s.newCol)
  }

  /** `get_rgb()` as written: the packing is computed but no value is
      returned, so the caller receives no defined value.  `None` stands for
      that undefined value of a non-void function that falls off its end;
      it is the modelling choice, not something proved. */
  function RgbGetAsWritten(s: SketchRgb): (e: Option<int>)
    ensures e.None?
  {
    None
  }

  /** The property reads back what was written, up to the fifteen bits it
      holds. */
  lemma GetAfterSet(s: SketchRgb, raw: int)
    ensures RgbGet(RgbSet(s, raw)) == raw % 32768
  {
    EncodeDecode(raw);
  }

  /** As written, the read-back after `set_rgb(raw)` yields no value for any
      `raw`, so the round trip fails. */
  lemma GetAfterSetAsWritten(s: SketchRgb, raw: int)
    ensures RgbGetAsWritten(RgbSet(s, raw)) != Some(raw % 32768)
  {
  }

  // ---------------------------------------------------------------------
  // The buttons
  // ---------------------------------------------------------------------

  datatype BtnEvent = BtnDown(index: nat) | BtnUp(index: nat)

  /** A pin reading as a `btn_state` value (`BTN_UP` for high). */
  function Level(high: bool): int
  {
    if high then BTN_UP else BTN_DOWN
  }

  /** The event for button `i` reading `high`. */
  function EventFor(i: nat, high: bool): BtnEvent
  {
    if Level(high) == BTN_DOWN then BtnDown(i) else BtnUp(i)
  }

  /** The events `monitor_buttons` emits for the first `n` buttons. */
  function ChangesUpTo(prev: seq<int>, pins: seq<bool>, n: nat): seq<BtnEvent>
    requires n <= |prev| && n <= |pins|
  {
    if n == 0 then []
    else ChangesUpTo(prev, pins, n - 1)
         + (if prev[n - 1] != Level(pins[n - 1]) then [EventFor(n - 1, pins[n - 1])] else [])
  }

  /** Appending button `n - 1`: its event, if it changed, goes last. */
  lemma ChangesUnfold(prev: seq<int>, pins: seq<bool>, n: nat)
    requires 0 < n <= |prev| && n <= |pins|
    ensures var evs0 := ChangesUpTo(prev, pins, n - 1);
      ChangesUpTo(prev, pins, n)
        == if prev[n - 1] != Level(pins[n - 1]) then evs0 + [EventFor(n - 1, pins[n - 1])] else evs0
  {
  }

  /** Every event names a button below `n` that changed, and is the event
      its new reading calls for. */
  lemma {:induction false} ChangesSound(prev: seq<int>, pins: seq<bool>, n: nat)
    requires n <= |prev| && n <= |pins|
    ensures var evs := ChangesUpTo(prev, pins, n);
      forall k :: 0 <= k < |evs| ==>
        evs[k].index < n && prev[evs[k].index] != Level(pins[evs[k].index])
        && evs[k] == EventFor(evs[k].index, pins[evs[k].index])
    decreases n
  {
    if n > 0 {
      ChangesSound(prev, pins, n - 1);
      ChangesUnfold(prev, pins, n);
    }
  }

  /** The events come in strictly increasing order of button, so no button
      is reported twice. */
  lemma {:induction false} ChangesOrdered(prev: seq<int>, pins: seq<bool>, n: nat)
    requires n <= |prev| && n <= |pins|
    ensures var evs := ChangesUpTo(prev, pins, n);
      forall j, k :: 0 <= j < k < |evs| ==> evs[j].index < evs[k].index
    decreases n
  {
    if n > 0 {
      ChangesOrdered(prev, pins, n - 1);
      ChangesSound(prev, pins, n - 1);
      ChangesUnfold(prev, pins, n);
      var evs0 := ChangesUpTo(prev, pins, n - 1);
      var evs := ChangesUpTo(prev, pins, n);
      if prev[n - 1] != Level(pins[n - 1]) {
        forall j, k | 0 <= j < k < |evs| ensures evs[j].index < evs[k].index {
          assert evs[j] == evs0[j];
          if k < |evs0| {
            assert evs[k] == evs0[k];
          } else {
            assert evs[k].index == n - 1;
          }
        }
      }
    }
  }

  /** Every button below `n` that changed is reported. */
  lemma {:induction false} ChangesComplete(prev: seq<int>, pins: seq<bool>, n: nat)
    requires n <= |prev| && n <= |pins|
    ensures var evs := ChangesUpTo(prev, pins, n);
      forall i :: 0 <= i < n && prev[i] != Level(pins[i]) ==>
        exists k :: 0 <= k < |evs| && evs[k].index == i
    decreases n
  {
    if n > 0 {
      ChangesComplete(prev, pins, n - 1);
      ChangesUnfold(prev, pins, n);
      var evs0 := ChangesUpTo(prev, pins, n - 1);
      var evs := ChangesUpTo(prev, pins, n);
      forall i | 0 <= i < n && prev[i] != Level(pins[i])
        ensures exists k :: 0 <= k < |evs| && evs[k].index == i
      {
        if i < n - 1 {
          var k :| 0 <= k < |evs0| && evs0[k].index == i;
          assert evs[k] == evs0[k];
        } else {
          assert evs[|evs0|].index == i;
        }
      }
    }
  }

  /** The `btn_state` values `setup` leaves: the initializer `{BTN_UP}`
      sets element 0 only, and the rest are zero, which is `BTN_DOWN`. */
  const InitialLevels: seq<int> := [BTN_UP, BTN_DOWN, BTN_DOWN, BTN_DOWN,
                                    BTN_DOWN, BTN_DOWN, BTN_DOWN, BTN_DOWN]

  /** So the first scan with every pin high reports buttons 1 to 7 as going
      up, and only button 0 stays silent. */
  lemma FirstScanAllHigh()
    ensures ChangesUpTo(InitialLevels, [true, true, true, true, true, true, true, true], NUM_BTNS)
         == [BtnUp(1), BtnUp(2), BtnUp(3), BtnUp(4), BtnUp(5), BtnUp(6), BtnUp(7)]
  {
    var high := [true, true, true, true, true, true, true, true];
    var evs := [BtnUp(1), BtnUp(2), BtnUp(3), BtnUp(4), BtnUp(5), BtnUp(6), BtnUp(7)];
    assert ChangesUpTo(InitialLevels, high, 1) == [];
    for k := 1 to NUM_BTNS
      invariant ChangesUpTo(InitialLevels, high, k) == evs[..k - 1]
    {
      assert evs[..k] == evs[..k - 1] + [BtnUp(k)];
    }
    assert evs[..NUM_BTNS - 1] == evs;
  }

  /** The readings as `btn_state` values. */
  function Levels(pins: seq<bool>): (s: seq<int>)
    ensures |s| == |pins|
    ensures forall i :: 0 <= i < |pins| ==> s[i] == Level(pins[i])
  {
    seq(|pins|, i requires 0 <= i < |pins| => Level(pins[i]))
  }

  // ---------------------------------------------------------------------
  // The sketch's state as an object
  // ---------------------------------------------------------------------

  class LivingRoomSketch {
    var curCol: Colour
    var oldCol: Colour
    var newCol: Colour
    var step: int

    const btnState: array<int>

    function Rgb(): SketchRgb
      reads this
    {
      SketchRgb(curCol, oldCol, newCol, step)
    }

    predicate Valid()
      reads this
    {
      Rgb().Valid() && btnState.Length == NUM_BTNS
    }

    /** The globals after `setup`: only the first button starts `BTN_UP`,
        as the initializer `{BTN_UP}` sets element 0 alone. */
    constructor()
      ensures fresh(btnState) && btnState.Length == NUM_BTNS
      ensures forall i :: 0 <= i < NUM_BTNS ==> btnState[i] == InitialLevels[i]
      ensures Rgb() == InitialRgb && Valid()
    {
      var a := new int[NUM_BTNS](i => if i == 0 then BTN_UP else BTN_DOWN);
      btnState := a;
      curCol := Black;
      oldCol := Black;
      newCol := White;
      step := 0;
    }

    /** `rgb_update()` at time `now`; returns the duty cycles written. */
    method RgbUpdate(now: Millis) returns (pwm: Option<Colour>)
      requires Valid()
      modifies this
      ensures Valid()
      ensures (Rgb(), pwm) == RgbUpdated(old(Rgb()), now)
    {
      ghost var s := Rgb();
      pwm := None;
      if TRem(Int16(now), RGB_FREQUENCY) == 0 {
        step := step + 1;
        var deltaR := newCol.r - oldCol.r;
        var deltaG := newCol.g - oldCol.g;
        var deltaB := newCol.b - oldCol.b;

        curCol := Colour(oldCol.r + TDiv(deltaR * step, RGB_STEPS),
                         oldCol.g + TDiv(deltaG * step, RGB_STEPS),
                         oldCol.b + TDiv(deltaB * step, RGB_STEPS));
        assert curCol == LerpColour(s.oldCol, s.newCol, s.step + 1, RGB_STEPS);

        if step >= RGB_STEPS {
          oldCol := newCol;
          curCol := newCol;
          step := 0;
        }
        assert Rgb() == RgbTick(s);
        pwm := Some(Inverted(curCol));
      }
    }

    /** `set_rgb(raw)`. */
    method SetRgb(raw: int)
      requires Valid()
      modifies this
      ensures Valid()
      ensures Rgb() == RgbSet(old(Rgb()), raw)
    {
      oldCol := curCol;
      newCol := Decode15(raw);
      step := 0;
    }

    /** `get_rgb()` with the packed value returned. */
    method GetRgb() returns (out: int)
      requires Valid()
      ensures out == RgbGet(Rgb())
    {
      out := 0;
      out := ShiftIn(out, newCol.b / 8);
      out := ShiftIn(out, newCol.g / 8);
      out := ShiftIn(out, newCol.r / 8);
    }

    /** `get_rgb()` as written: it falls off its end without a value. */
    method GetRgbAsWritten() returns (out: Option<int>)
      ensures out == RgbGetAsWritten(Rgb())
    {
      out := None;
    }

    /** `monitor_buttons()` with the eight pin readings: record each new
        state and report each change. */
    method MonitorButtons(pins: seq<bool>) returns (events: seq<BtnEvent>)
      requires Valid() && |pins| == NUM_BTNS
      modifies btnState
      ensures Valid()
      ensures btnState[..] == Levels(pins)
      ensures events == ChangesUpTo(old(btnState[..]), pins, NUM_BTNS)
    {
      ghost var prev := btnState[..];
      events := [];
      for i := 0 to NUM_BTNS
        invariant forall j :: 0 <= j < i ==> btnState[j] == Level(pins[j])
        invariant forall j :: i <= j < NUM_BTNS ==> btnState[j] == prev[j]
        invariant events == ChangesUpTo(prev, pins, i)
      {
        var newState := pins[i];
        if btnState[i] != Level(newState) {
          btnState[i] := Level(newState);
          if Level(newState) == BTN_DOWN {
            events := events + [BtnDown(i)];
          } else {
            events := events + [BtnUp(i)];
          }
        }
      }
    }
  }
}
