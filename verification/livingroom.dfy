/** The wiring of livingroom/livingroom.cpp: two servo light switches that
    share one wall switch and must not move at the same time, the RGB LED
    driven by 15-bit colours, and a washing-machine sensor whose falling
    edge reports the length of the wash.  The global variables and the
    function-local statics of the sketch are the fields of one object. */
module LivingRoom {
  import opened Arith
  import opened Time32
  import opened Options
  import opened Fade
  import opened RgbLed
  import opened Lights
  import opened Colour15

  const SLOW_LOOP_PERIOD: nat := 1000
  const RGBLED_FADE_FAST: nat := 250

  /** Off, idle and on angles of the two servos. */
  const KitchenAngles := Angles(120, 90, 60)
  const LoungeAngles := Angles(115, 90, 65)

  // ---------------------------------------------------------------------
  // The lights on values
  // ---------------------------------------------------------------------

  /** Both switches, the pending requests and their targets, and the wall
      switch as last seen (`btn_state`, true while pressed). */
  datatype Panel = Panel(kitchen: LightState, lounge: LightState,
                         kitchenRequested: bool, kitchenTarget: bool,
                         loungeRequested: bool, loungeTarget: bool,
                         switchPressed: bool)

  /** The panel after `lights_refresh` and which switches it pressed. */
  datatype LightsResult = LightsResult(next: Panel, setKitchen: bool, setLounge: bool)

  /** The wall switch is released: it was pressed, and the pin now reads
      high (the switch pulls it low while pressed). */
  predicate Released(p: Panel, level: bool)
  {
    p.switchPressed && level
  }

  /** Toggle on release: both lights are requested, on unless both are on. */
  function SwitchEdge(p: Panel, level: bool): Panel
  {
    var pressed := !level;
    if pressed != p.switchPressed && pressed == false then
      var target := !(p.lounge.on && p.kitchen.on);
      p.(kitchenRequested := true, loungeRequested := true,
         kitchenTarget := target, loungeTarget := target, switchPressed := pressed)
    else
      p.(switchPressed := pressed)
  }

  /** Carry out the pending requests, kitchen first, each only while the
      other switch is not busy. */
  function Arbitrate(p: Panel, now: Millis): LightsResult
  {
    var setK := p.kitchenRequested && !Busy(p.lounge, now);
    var kitchen := if setK then SetLight(KitchenAngles, p.kitchen, p.kitchenTarget, now) else p.kitchen;
    var setL := p.loungeRequested && !Busy(kitchen, now);
    var lounge := if setL then SetLight(LoungeAngles, p.lounge, p.loungeTarget, now) else p.lounge;
    LightsResult(p.(kitchen := kitchen, lounge := lounge,
                    kitchenRequested := p.kitchenRequested && !setK,
                    loungeRequested := p.loungeRequested && !setL),
                 setK, setL)
  }

  /** `lights_refresh` at time `now` with the switch pin at `level`. */
  function LightsStep(p: Panel, level: bool, now: Millis): LightsResult
  {
    var p1 := SwitchEdge(p, level);
    var p2 := p1.(kitchen := RefreshLight(KitchenAngles, p1.kitchen, now),
                  lounge := RefreshLight(LoungeAngles, p1.lounge, now));
    Arbitrate(p2, now)
  }

  /** Whether each light has a request after the switch is handled. */
  predicate KitchenWanted(p: Panel, level: bool)
  {
    p.kitchenRequested || Released(p, level)
  }

  predicate LoungeWanted(p: Panel, level: bool)
  {
    p.loungeRequested || Released(p, level)
  }

  /** The switch state recorded by a call is the pin read in that call. */
  lemma SwitchRecorded(p: Panel, level: bool, now: Millis)
    ensures LightsStep(p, level, now).next.switchPressed == !level
  {
  }

  /** At most one switch is pressed per call: the kitchen is busy from the
      moment it is set, which holds the lounge back. */
  lemma AtMostOneSet(p: Panel, level: bool, now: Millis)
    ensures !(LightsStep(p, level, now).setKitchen && LightsStep(p, level, now).setLounge)
  {
    var r := LightsStep(p, level, now);
    if r.setKitchen {
      var p1 := SwitchEdge(p, level);
      BusyWhenSet(KitchenAngles, RefreshLight(KitchenAngles, p1.kitchen, now), p1.kitchenTarget, now);
    }
  }

  /** The kitchen is set exactly when it is wanted and the lounge is not
      busy; the lounge exactly when it is wanted, the kitchen was not set
      in this call, and the kitchen is not busy. */
  lemma KitchenFirst(p: Panel, level: bool, now: Millis)
    ensures LightsStep(p, level, now).setKitchen
        <==> KitchenWanted(p, level) && !Busy(p.lounge, now)
    ensures LightsStep(p, level, now).setLounge
        <==> LoungeWanted(p, level) && !LightsStep(p, level, now).setKitchen
             && !Busy(p.kitchen, now)
  {
  }

  /** A request is cleared exactly when its switch is set; otherwise it
      waits for a later call. */
  lemma RequestsClearedWhenSet(p: Panel, level: bool, now: Millis)
    ensures LightsStep(p, level, now).next.kitchenRequested
        == (KitchenWanted(p, level) && !LightsStep(p, level, now).setKitchen)
    ensures LightsStep(p, level, now).next.loungeRequested
        == (LoungeWanted(p, level) && !LightsStep(p, level, now).setLounge)
  {
  }

  /** A release of the wall switch asks both lights for the same state: off
      if both were on, on otherwise. */
  lemma ReleaseToggles(p: Panel, level: bool, now: Millis)
    requires Released(p, level)
    ensures LightsStep(p, level, now).next.kitchenTarget == !(p.kitchen.on && p.lounge.on)
    ensures LightsStep(p, level, now).next.loungeTarget == !(p.kitchen.on && p.lounge.on)
  {
  }

  /** Without a release the targets are those of the last request. */
  lemma NoReleaseKeepsTargets(p: Panel, level: bool, now: Millis)
    requires !Released(p, level)
    ensures LightsStep(p, level, now).next.kitchenTarget == p.kitchenTarget
    ensures LightsStep(p, level, now).next.loungeTarget == p.loungeTarget
  {
  }

  /** A switch that is set takes its target and the time of the call; one
      that is not keeps its state and its time. */
  lemma SetTakesTarget(p: Panel, level: bool, now: Millis)
    ensures var r := LightsStep(p, level, now);
      if r.setKitchen then r.next.kitchen.on == r.next.kitchenTarget && r.next.kitchen.lastChange == now
      else r.next.kitchen.on == p.kitchen.on && r.next.kitchen.lastChange == p.kitchen.lastChange
    ensures var r := LightsStep(p, level, now);
      if r.setLounge then r.next.lounge.on == r.next.loungeTarget && r.next.lounge.lastChange == now
      else r.next.lounge.on == p.lounge.on && r.next.lounge.lastChange == p.lounge.lastChange
  {
  }

  // ---------------------------------------------------------------------
  // The washing machine on values
  // ---------------------------------------------------------------------

  /** The statics of `washing_refresh`: the last reading and the time the
      current wash started. */
  datatype Washing = Washing(running: bool, startTime: Millis)

  /** `washing_refresh` with the sensor reading `reading`: a falling edge
      reports the length of the wash in whole seconds, a rising edge
      records the start. */
  function WashingStep(w: Washing, reading: bool, now: Millis): (Washing, Option<nat>)
  {
    if w.running != reading && reading == false then
      (w.(running := reading), Some(Elapsed(now, w.startTime) / 1000))
    else if w.running != reading && reading == true then
      (Washing(reading, now), None)
    else
      (w.(running := reading), None)
  }

  /** The recorded state always follows the reading, and a report is made
      exactly on a falling edge. */
  lemma WashingEdges(w: Washing, reading: bool, now: Millis)
    ensures WashingStep(w, reading, now).0.running == reading
    ensures WashingStep(w, reading, now).1.Some? <==> w.running && !reading
    ensures w.running || !reading ==> WashingStep(w, reading, now).0.startTime == w.startTime
  {
  }

  /** Washing-sensor readings with the time of each. */
  function WashingRun(w: Washing, rs: seq<(bool, Millis)>): (Washing, seq<nat>)
    decreases |rs|
  {
    if rs == [] then (w, [])
    else
      var (w1, out) := WashingStep(w, rs[0].0, rs[0].1);
      var rest := WashingRun(w1, rs[1..]);
      (rest.0, AsSeq(out) + rest.1)
  }

  predicate AllOn(rs: seq<(bool, Millis)>)
  {
    forall i :: 0 <= i < |rs| ==> rs[i].0
  }

  /** While the machine keeps running nothing is reported and the start time
      is kept. */
  lemma {:induction false} RunningKeepsStart(w: Washing, rs: seq<(bool, Millis)>)
    requires w.running && AllOn(rs)
    ensures WashingRun(w, rs) == (w, [])
    decreases |rs|
  {
    if rs != [] {
      assert rs[0].0;
      assert WashingStep(w, rs[0].0, rs[0].1) == (w, None);
      assert AllOn(rs[1..]) by {
        forall i | 0 <= i < |rs[1..]| ensures rs[1..][i].0 {
          assert rs[1..][i] == rs[i + 1];
        }
      }
      RunningKeepsStart(w, rs[1..]);
      var rest := WashingRun(w, rs[1..]);
      assert WashingRun(w, rs) == (rest.0, [] + rest.1);
      assert rest == (w, []);
      assert [] + rest.1 == [];
    }
  }

  /** A wash that starts at `t1`, keeps running, and stops at `t2` is reported
      once, as the whole seconds between `t1` and `t2`. */
  lemma WashReported(w: Washing, t1: Millis, during: seq<(bool, Millis)>, t2: Millis)
    requires !w.running && AllOn(during)
    ensures WashingRun(w, [(true, t1)] + during + [(false, t2)]).1
         == [Elapsed(t2, t1) / 1000]
  {
    var w1 := Washing(true, t1);
    assert WashingStep(w, true, t1) == (w1, None);
    var rs := [(true, t1)] + during + [(false, t2)];
    assert rs[1..] == during + [(false, t2)];
    WashingRunAppend(w1, during, (false, t2));
    RunningKeepsStart(w1, during);
  }

  /** Running a sequence followed by one more reading. */
  lemma {:induction false} WashingRunAppend(w: Washing, rs: seq<(bool, Millis)>, last: (bool, Millis))
    ensures WashingRun(w, rs + [last]).0 == WashingStep(WashingRun(w, rs).0, last.0, last.1).0
    ensures WashingRun(w, rs + [last]).1
         == WashingRun(w, rs).1 + AsSeq(WashingStep(WashingRun(w, rs).0, last.0, last.1).1)
    decreases |rs|
  {
    if rs == [] {
      assert [last][1..] == [];
    } else {
      assert (rs + [last])[1..] == rs[1..] + [last];
      var w1 := WashingStep(w, rs[0].0, rs[0].1).0;
      WashingRunAppend(w1, rs[1..], last);
    }
  }

  // ---------------------------------------------------------------------
  // The main loop counter
  // ---------------------------------------------------------------------

  /** `slow_loop` runs on the calls whose counter is a multiple of the
      period: after one such call the next is exactly 1000 calls later. */
  predicate SlowDue(counter: nat)
  {
    counter % SLOW_LOOP_PERIOD == 0
  }

  lemma SlowLoopCadence(c: nat)
    requires SlowDue(c)
    ensures forall j: nat :: c < j < c + SLOW_LOOP_PERIOD ==> !SlowDue(j)
    ensures SlowDue(c + SLOW_LOOP_PERIOD)
  {
    forall j: nat | c < j < c + SLOW_LOOP_PERIOD
      ensures !SlowDue(j)
    {
      DivModUnique(j, SLOW_LOOP_PERIOD, c / SLOW_LOOP_PERIOD, j - c);
    }
    DivModUnique(c + SLOW_LOOP_PERIOD, SLOW_LOOP_PERIOD, c / SLOW_LOOP_PERIOD + 1, 0);
  }

  // ---------------------------------------------------------------------
  // The sketch's state as an object
  // ---------------------------------------------------------------------

  class Room {
    const kitchen: Lighting
    const lounge: Lighting
    const rgbled: RGBLED

    var kitchenRequested: bool
    var kitchenState: bool
    var loungeRequested: bool
    var loungeState: bool

    /** The static `btn_state` of `lights_refresh`. */
    var switchPressed: bool

    /** The statics of `washing_refresh`. */
    var washingStartTime: Millis
    var washingState: bool

    /** The static `counter` of `loop`. */
    var counter: nat

    predicate Valid()
      reads this, kitchen, lounge, rgbled
    {
      kitchen != lounge
      && kitchen.Cfg() == KitchenAngles && lounge.Cfg() == LoungeAngles
      && rgbled.Valid()
    }

    function Lights(): Panel
      reads this, kitchen, lounge
    {
      Panel(kitchen.State(), lounge.State(), kitchenRequested, kitchenState,
            loungeRequested, loungeState, switchPressed)
    }

    function Washer(): Washing
      reads this
    {
      Washing(washingState, washingStartTime)
    }

    /** The globals as the program starts: the two switches and the LED,
        built as `light_kitchen`, `light_lounge` and `rgbled` are; nothing
        requested, the wall switch not pressed, no wash, the counter at
        zero. */
    constructor(kitchen: Lighting, lounge: Lighting, rgbled: RGBLED)
      requires kitchen != lounge
      requires kitchen.Cfg() == KitchenAngles && lounge.Cfg() == LoungeAngles
      requires rgbled.Valid()
      ensures this.kitchen == kitchen && this.lounge == lounge && this.rgbled == rgbled
      ensures Lights() == Panel(kitchen.State(), lounge.State(), false, false, false, false, false)
      ensures Washer() == Washing(false, 0) && counter == 0
      ensures Valid()
    {
      this.kitchen := kitchen;
      this.lounge := lounge;
      this.rgbled := rgbled;
      kitchenRequested := false;
      kitchenState := false;
      loungeRequested := false;
      loungeState := false;
      switchPressed := false;
      washingStartTime := 0;
      washingState := false;
      counter := 0;
    }

    /** `set_light_kitchen(s)`: only records the request; the servo moves on
        a later `lights_refresh`. */
    method SetLightKitchen(s: int)
      modifies this
      ensures Lights() == old(Lights()).(kitchenRequested := true, kitchenTarget := s != 0)
      ensures Washer() == old(Washer()) && counter == old(counter)
    {
      kitchenRequested := true;
      kitchenState := s != 0;
    }

    /** `set_light_lounge(s)`: as for the kitchen. */
    method SetLightLounge(s: int)
      modifies this
      ensures Lights() == old(Lights()).(loungeRequested := true, loungeTarget := s != 0)
      ensures Washer() == old(Washer()) && counter == old(counter)
    {
      loungeRequested := true;
      loungeState := s != 0;
    }

    /** `get_light_kitchen()`: the switch state, as 0 or 1. */
    method GetLightKitchen() returns (r: int)
      ensures r == 1 <==> kitchen.Get()
      ensures r == 0 || r == 1
    {
      r := if kitchen.Get() then 1 else 0;
    }

    /** `get_light_lounge()`: as for the kitchen. */
    method GetLightLounge() returns (r: int)
      ensures r == 1 <==> lounge.Get()
      ensures r == 0 || r == 1
    {
      r := if lounge.Get() then 1 else 0;
    }

    /** `lights_refresh()` with the switch pin reading `level`; reports which
        switches it pressed. */
    method LightsRefresh(level: bool, now: Millis) returns (setKitchen: bool, setLounge: bool)
      requires Valid()
      modifies this, kitchen, lounge
      ensures Valid()
      ensures LightsResult(Lights(), setKitchen, setLounge) == LightsStep(old(Lights()), level, now)
      ensures Washer() == old(Washer()) && counter == old(counter)
    {
      HandleSwitch(level);
      kitchen.Refresh(now);
      lounge.Refresh(now);
      setKitchen, setLounge := ArbitrateLights(now);
    }

    /** The wall-switch part of `lights_refresh`. */
    method HandleSwitch(level: bool)
      requires Valid()
      modifies this
      ensures Valid()
      ensures Lights() == SwitchEdge(old(Lights()), level)
      ensures Washer() == old(Washer()) && counter == old(counter)
    {
      var newBtnState := !level;
      if newBtnState != switchPressed && newBtnState == false {
        kitchenRequested, loungeRequested := true, true;
        var target := !(lounge.Get() && kitchen.Get());
        kitchenState, loungeState := target, target;
      }
      switchPressed := newBtnState;
    }

    /** The part of `lights_refresh` that disallows simultaneous changes. */
    method ArbitrateLights(now: Millis) returns (setKitchen: bool, setLounge: bool)
      requires Valid()
      modifies this, kitchen, lounge
      ensures Valid()
      ensures LightsResult(Lights(), setKitchen, setLounge) == Arbitrate(old(Lights()), now)
      ensures Washer() == old(Washer()) && counter == old(counter)
    {
      ghost var p := Lights();
      setKitchen, setLounge := false, false;
      if kitchenRequested && !lounge.IsBusy(now) {
        kitchen.Set(kitchenState, now);
        kitchenRequested := false;
        setKitchen := true;
      }
      ghost var k := kitchen.State();
      if loungeRequested && !kitchen.IsBusy(now) {
        lounge.Set(loungeState, now);
        loungeRequested := false;
        setLounge := true;
      }
      assert kitchen.State() == k;
    }

    /** `set_rgbled_colour(encoded, duration)`: fade to the decoded colour. */
    method SetRgbledColour(encoded: int, duration: int)
      requires Valid() && duration > -(UPDATE_PERIOD as int)
      modifies rgbled
      ensures Valid()
      ensures rgbled.State() == Retargeted(old(rgbled.State()), Decode15(encoded), duration)
    {
      var colour := Decode15(encoded);
      rgbled.SetColour(colour, duration);
    }

    /** `set_rgbled_colour_instant(encoded)`: a fade of duration 0. */
    method SetRgbledColourInstant(encoded: int)
      requires Valid()
      modifies rgbled
      ensures Valid()
      ensures rgbled.State() == Retargeted(old(rgbled.State()), Decode15(encoded), 0)
      ensures rgbled.State().numSteps == 1
    {
      SetRgbledColour(encoded, 0);
    }

    /** `set_rgbled_colour_fast(encoded)`: a fade of `RGBLED_FADE_FAST` ms. */
    method SetRgbledColourFast(encoded: int)
      requires Valid()
      modifies rgbled
      ensures Valid()
      ensures rgbled.State() == Retargeted(old(rgbled.State()), Decode15(encoded), RGBLED_FADE_FAST)
      ensures rgbled.State().numSteps == 26
    {
      SetRgbledColour(encoded, RGBLED_FADE_FAST);
    }

    /** `rgbled_refresh()`: a forced refresh. */
    method RgbledRefresh(now: Millis) returns (pwm: Colour)
      requires Valid()
      modifies rgbled
      ensures Valid()
      ensures rgbled.State() == Refreshed(old(rgbled.State()), now)
      ensures pwm == Inverted(rgbled.curCol)
    {
      pwm := rgbled.Refresh(true, now);
    }

    /** `washing_refresh()` with the sensor's boolean reading. */
    method WashingRefresh(reading: bool, now: Millis) returns (finished: Option<nat>)
      modifies this
      ensures (Washer(), finished) == WashingStep(old(Washer()), reading, now)
      ensures counter == old(counter)
      ensures kitchenRequested == old(kitchenRequested) && kitchenState == old(kitchenState)
      ensures loungeRequested == old(loungeRequested) && loungeState == old(loungeState)
      ensures switchPressed == old(switchPressed)
    {
      finished := None;
      if washingState != reading && reading == false {
        finished := Some(Elapsed(now, washingStartTime) / 1000);
      } else if washingState != reading && reading == true {
        washingStartTime := now;
      }
      washingState := reading;
    }

    /** `loop()`: the fast part on every call, the washing sensor on every
        thousandth. */
    method Loop(level: bool, washingReading: bool, now: Millis)
      returns (pwm: Colour, setKitchen: bool, setLounge: bool, slowRan: bool,
               finished: Option<nat>)
      requires Valid()
      modifies this, kitchen, lounge, rgbled
      ensures Valid()
      ensures rgbled.State() == Refreshed(old(rgbled.State()), now)
      ensures pwm == Inverted(rgbled.curCol)
      ensures LightsResult(Lights(), setKitchen, setLounge) == LightsStep(old(Lights()), level, now)
      ensures counter == old(counter) + 1
      ensures slowRan <==> SlowDue(counter)
      ensures slowRan ==> (Washer(), finished) == WashingStep(old(Washer()), washingReading, now)
      ensures !slowRan ==> Washer() == old(Washer()) && finished == None
    {
      pwm := RgbledRefresh(now);
      setKitchen, setLounge := LightsRefresh(level, now);
      counter := counter + 1;
      slowRan := counter % SLOW_LOOP_PERIOD == 0;
      finished := None;
      if slowRan {
        finished := WashingRefresh(washingReading, now);
      }
    }
  }
}
