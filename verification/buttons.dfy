/** The ButtonManager object of livingroom/Buttons.cpp: it keeps the session
    fields in place and updates them on every `set_btn_states` call.  Each
    method is proved against the value-level step of module ButtonModel,
    where the properties of a call and of a session are proved. */
module Buttons {
  import opened Time32
  import opened Options
  import opened Arith
  import opened ButtonModel

  class ButtonManager {
    const longPressDuration: int
    const numModes: int
    const normMasks: seq<bv8>
    const modeMasks: seq<bv8>
    const modMasks: seq<bv8>

    /** The packed mode: type in the low bits, number above them. */
    var mode: nat

    var curBtnStates: bv8
    var cumBtnStates: bv8
    var addBtnStates: bv8
    var subBtnStates: bv8

    var holdStarted: bool
    var holdStartTime: Millis

    var eventFired: bool

    /** Whether each callback field is set (not null). */
    var onModeChange: bool
    var onPress: bool
    var onHoldStart: bool
    var onHoldEnd: bool

    function Cfg(): Config
    {
      Config(longPressDuration, numModes, normMasks, modeMasks, modMasks)
    }

    predicate Valid()
    {
      Cfg().Valid()
    }

    function State(): Session
      reads this
    {
      Session(curBtnStates, cumBtnStates, addBtnStates, subBtnStates,
              holdStarted, holdStartTime, eventFired, mode)
    }

    function Callbacks(): Listeners
      reads this
    {
      Listeners(onModeChange, onPress, onHoldStart, onHoldEnd)
    }

    constructor(longPressDuration: int, numModes: int,
                normMasks: seq<bv8>, modeMasks: seq<bv8>, modMasks: seq<bv8>)
      requires Config(longPressDuration, numModes, normMasks, modeMasks, modMasks).Valid()
      ensures Valid()
      ensures Cfg() == Config(longPressDuration, numModes, normMasks, modeMasks, modMasks)
      ensures State() == Initial
      ensures Callbacks() == Listeners(false, false, false, false)
    {
      this.longPressDuration := longPressDuration;
      this.numModes := numModes;
      this.normMasks := normMasks;
      this.modeMasks := modeMasks;
      this.modMasks := modMasks;
      mode := 1;
      curBtnStates := 0;
      cumBtnStates := 0;
      addBtnStates := 0;
      subBtnStates := 0;
      holdStarted := false;
      holdStartTime := 0;
      eventFired := false;
      onModeChange := false;
      onPress := false;
      onHoldStart := false;
      onHoldEnd := false;
    }

    /** `set_btn_states(new_btn_states)` at time `now`: the new state is the
        one `Step` gives, and `events` are the callbacks invoked, in order.
        The three blocks of the source are the three private methods below. */
    method SetBtnStates(newBtnStates: bv8, now: Millis) returns (events: seq<ButtonEvent>)
      requires Valid()
      modifies this
      ensures State() == Step(Cfg(), old(State()), newBtnStates, now).next
      ensures events == Deliver(Callbacks(), Step(Cfg(), old(State()), newBtnStates, now).Events())
      ensures Callbacks() == old(Callbacks())
    {
      ghost var cfg, l, s0 := Cfg(), Callbacks(), State();
      SampleButtons(newBtnStates);
      ghost var s1 := State();
      var before := UpdateHoldTimer(now);
      ghost var s2 := State();
      var rest := SettleSession(now);
      events := before + rest;
      StepComposes(cfg, l, s0, newBtnStates, now, s1, s2, before, State(), rest);
    }

    /** The edges against the previous vector, the new current vector and
        the cumulative or. */
    method SampleButtons(newBtnStates: bv8)
      modifies this`curBtnStates, this`cumBtnStates, this`addBtnStates, this`subBtnStates
      ensures State() == Sampled(old(State()), newBtnStates)
      ensures Callbacks() == old(Callbacks())
    {
      ghost var s0 := State();
      addBtnStates := !curBtnStates & newBtnStates;
      subBtnStates := curBtnStates & !newBtnStates;
      curBtnStates := newBtnStates;
      cumBtnStates := cumBtnStates | newBtnStates;
      SampledIs(s0, newBtnStates, State());
    }

    /** A new normal or modifier button restarts the hold timer; otherwise a
        session with a mode button stops it unfinished. */
    method UpdateHoldTimer(now: Millis) returns (events: seq<ButtonEvent>)
      modifies this`holdStarted, this`holdStartTime
      ensures State() == HoldUpdate(Cfg(), old(State()), now).0
      ensures events == Deliver(Callbacks(), HoldUpdate(Cfg(), old(State()), now).1)
      ensures Callbacks() == old(Callbacks())
    {
      events := [];
      var norm := IsNorm(addBtnStates);
      var mod := IsMod(addBtnStates);
      if norm || mod {
        events := ResetHoldTimer(now);
      } else {
        var inMode := IsMode(cumBtnStates);
        if inMode {
          events := StopHoldTimer(false, now);
        }
      }
    }

    /** Fire the session's event on a release or an expired hold timer, or
        close the session once an event has fired and nothing is held. */
    method SettleSession(now: Millis) returns (events: seq<ButtonEvent>)
      requires Valid()
      modifies this`mode, this`holdStarted, this`eventFired, this`cumBtnStates, this`addBtnStates
      ensures State() == Settle(Cfg(), old(State()), [], now).next
      ensures events == Deliver(Callbacks(), Settle(Cfg(), old(State()), [], now).Events())
      ensures Callbacks() == old(Callbacks())
    {
      ghost var s := State();
      SettleFires(Cfg(), s, [], now);
      events := [];
      if !eventFired {
        var expired := HoldTimerExpired(now);
        if (curBtnStates == 0 && subBtnStates != 0) || expired {
          events := FireSessionEvent(now);
        }
      } else if curBtnStates == 0 {
        eventFired := false;
        cumBtnStates := 0;
        addBtnStates := 0;
        SameSession(State(), s.(eventFired := false, cum := 0, add := 0));
      }
    }

    /** The firing block: the mode change or the press, then
        `stop_hold_timer(true)` and the latch. */
    method FireSessionEvent(now: Millis) returns (events: seq<ButtonEvent>)
      requires Valid()
      modifies this`mode, this`holdStarted, this`eventFired
      ensures State() == Fire(Cfg(), old(State()), [], now).next
      ensures events == Deliver(Callbacks(), Fire(Cfg(), old(State()), [], now).Events())
    {
      ghost var s := State();
      ghost var r := Fire(Cfg(), s, [], now);
      var fired := FireModeOrPress(now);
      var ended := StopHoldTimer(true, now);
      eventFired := true;
      DeliverAppend(Callbacks(), AsSeq(r.fired), r.after);
      events := fired + ended;
      SameSession(State(), r.next);
    }

    /** A mode change when the session touched a mode button, a press
        otherwise. */
    method FireModeOrPress(now: Millis) returns (events: seq<ButtonEvent>)
      requires Valid()
      modifies this`mode
      ensures var e := SemanticEvent(Cfg(), old(State()), now);
        && events == Deliver(Callbacks(), [e])
        && mode == if e.ModeChange? then e.mode else old(mode)
    {
      var inMode := IsMode(cumBtnStates);
      if inMode {
        events := FireModeChangeEvent();
      } else {
        events := FirePressEvent(now);
      }
    }

    /** `reset_hold_timer`: report whether the timer was idle, then restart it. */
    method ResetHoldTimer(now: Millis) returns (events: seq<ButtonEvent>)
      modifies this`holdStarted, this`holdStartTime
      ensures events == Deliver(Callbacks(), [HoldStart(!old(holdStarted))])
      ensures holdStarted && holdStartTime == now
    {
      events := if onHoldStart then [HoldStart(!holdStarted)] else [];
      holdStarted := true;
      holdStartTime := now;
    }

    /** `stop_hold_timer(finished)`: a running timer reports whether it
        finished (asked to, and expired); then the timer is stopped. */
    method StopHoldTimer(finished: bool, now: Millis) returns (events: seq<ButtonEvent>)
      modifies this`holdStarted
      ensures events == Deliver(Callbacks(),
        if old(holdStarted) then [HoldEnd(finished && Expired(Cfg(), old(State()), now))] else [])
      ensures !holdStarted
    {
      events := [];
      if holdStarted && onHoldEnd {
        var expired := HoldTimerExpired(now);
        events := [HoldEnd(finished && expired)];
      }
      holdStarted := false;
    }

    /** `hold_timer_expired`. */
    method HoldTimerExpired(now: Millis) returns (expired: bool)
      ensures expired == Expired(Cfg(), State(), now)
    {
      expired := holdStarted && Elapsed(now, holdStartTime) > longPressDuration % MOD;
    }

    /** `fire_mode_change_event`: the new packed mode, then the callback. */
    method FireModeChangeEvent() returns (events: seq<ButtonEvent>)
      requires Valid()
      modifies this`mode
      ensures mode == NextMode(Cfg(), old(mode), cumBtnStates)
      ensures events == Deliver(Callbacks(), [ModeChange(mode)])
    {
      var n := |modeMasks|;
      var buttons := GetNorm(cumBtnStates);
      var oldModeType := TypeOf(mode, n);
      var oldModeNum := NumberOf(mode, n);
      var newModeType := GetMode(cumBtnStates);
      var newModeNum;
      if newModeType as nat != oldModeType {
        newModeNum := 0;
      } else {
        newModeNum := CRem(oldModeNum + 1, numModes);
      }
      if buttons != 0 {
        newModeNum := GetFirst(buttons);
      }
      BitsBelow(cumBtnStates, modeMasks);
      mode := Pack(newModeNum, newModeType as nat, n);
      events := if onModeChange then [ModeChange(mode)] else [];
    }

    /** `fire_press_event`: the callback with the mode, whether a modifier
        was in the session, whether the hold timer expired, and the
        compressed normal buttons. */
    method FirePressEvent(now: Millis) returns (events: seq<ButtonEvent>)
      requires Valid()
      ensures events == Deliver(Callbacks(), [Press(mode, Cfg().GetMod(cumBtnStates) != 0,
                                                    Expired(Cfg(), State(), now), Cfg().GetNorm(cumBtnStates))])
    {
      var buttons := GetNorm(cumBtnStates);
      var longPress := HoldTimerExpired(now);
      var modifiers := GetMod(cumBtnStates);
      events := if onPress then [Press(mode, modifiers != 0, longPress, buttons)] else [];
    }

    /** `is_any_set`: scan the masks, stopping at the first that meets `state`. */
    method IsAnySet(state: bv8, masks: seq<bv8>) returns (b: bool)
      ensures b == AnySet(state, masks)
    {
      AnySetExists(state, masks);
      for i := 0 to |masks|
        invariant forall j :: 0 <= j < i ==> state & masks[j] == 0
      {
        if state & masks[i] != 0 {
          return true;
        }
      }
      return false;
    }

    method IsNorm(s: bv8) returns (b: bool)
      ensures b == Cfg().IsNorm(s)
    {
      b := IsAnySet(s, normMasks);
    }

    method IsMode(s: bv8) returns (b: bool)
      ensures b == Cfg().IsMode(s)
    {
      b := IsAnySet(s, modeMasks);
    }

    method IsMod(s: bv8) returns (b: bool)
      ensures b == Cfg().IsMod(s)
    {
      b := IsAnySet(s, modMasks);
    }

    /** `get_bits`: bit `i` of the result is set when `state` meets mask `i`. */
    method GetBits(state: bv8, masks: seq<bv8>) returns (out: bv8)
      requires |masks| <= 8
      ensures out == Bits(state, masks)
    {
      out := 0;
      for i := 0 to |masks|
        invariant out == Bits(state, masks[..i])
      {
        assert masks[..i + 1][..i] == masks[..i];
        if state & masks[i] != 0 {
          out := out | Bit(i);
        }
      }
      assert masks[..|masks|] == masks;
    }

    method GetNorm(s: bv8) returns (out: bv8)
      requires Valid()
      ensures out == Cfg().GetNorm(s)
    {
      out := GetBits(s, normMasks);
    }

    method GetMode(s: bv8) returns (out: bv8)
      requires Valid()
      ensures out == Cfg().GetMode(s)
    {
      out := GetBits(s, modeMasks);
    }

    method GetMod(s: bv8) returns (out: bv8)
      requires Valid()
      ensures out == Cfg().GetMod(s)
    {
      out := GetBits(s, modMasks);
    }

    /** `get_first`: the lowest set bit, or 0 when there is none. */
    method GetFirst(bits: bv8) returns (r: nat)
      ensures r == First(bits)
    {
      for i := 0 to 8
        invariant forall j :: 0 <= j < i ==> !HasBit(bits, j)
      {
        if HasBit(bits, i) {
          return i;
        }
      }
      ZeroIffNoBit(bits);
      return 0;
    }
  }
}
