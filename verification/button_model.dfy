/** The ButtonManager of livingroom/Buttons.cpp as a pure state machine.

    A button vector is a `bv8` (the source's `uint8_t`), one bit per button.
    The configuration names three lists of masks (normal, mode and modifier
    buttons).  `Step` is one call of `set_btn_states` with one reading of the
    clock; it returns the new session state and the callbacks the call
    invokes, in order, before the null checks (see `Deliver`). */
module ButtonModel {
  import opened Time32
  import opened Options
  import opened Arith

  // ---------------------------------------------------------------------
  // Bits of a button vector
  // ---------------------------------------------------------------------

  /** The vector with only bit `k` set, written out for each of the eight
      bits (`BitIsShift` shows it is `1 << k`). */
  function Bit(k: nat): bv8
    requires k < 8
  {
    if k == 0 then 0x01 else if k == 1 then 0x02 else if k == 2 then 0x04
    else if k == 3 then 0x08 else if k == 4 then 0x10 else if k == 5 then 0x20
    else if k == 6 then 0x40 else 0x80
  }

  /** Bit `k` of `b` is set (`BitTest` shows it is the `(b >> k) & 0x1`
      test of `get_first`). */
  predicate HasBit(b: bv8, k: nat)
    requires k < 8
  {
    b & Bit(k) != 0
  }

  /** `Bit(k)` is `1 << k`, as `get_bits` builds it. */
  lemma BitIsShift(k: nat)
    requires k < 8
    ensures Bit(k) == (1 as bv8) << k
  {
  }

  /** `HasBit` is the test `get_first` makes. */
  lemma BitTest(b: bv8, k: nat)
    requires k < 8
    ensures HasBit(b, k) <==> (b >> k) & 1 == 1
  {
  }

  /** Setting bit `k` sets that bit and leaves the others as they were. */
  lemma HasBitOr(b: bv8, k: nat)
    requires k < 8
    ensures forall j :: 0 <= j < 8 ==> (HasBit(b | Bit(k), j) <==> HasBit(b, j) || j == k)
  {
    forall j | 0 <= j < 8
      ensures HasBit(b | Bit(k), j) <==> HasBit(b, j) || j == k
    {
      HasBitOrAt(b, k, j);
    }
  }

  lemma HasBitOrAt(b: bv8, k: nat, j: nat)
    requires k < 8 && j < 8
    ensures HasBit(b | Bit(k), j) <==> HasBit(b, j) || j == k
  {
  }

  /** A vector is zero exactly when none of its eight bits is set. */
  lemma ZeroIffNoBit(b: bv8)
    ensures b == 0 <==> forall k :: 0 <= k < 8 ==> !HasBit(b, k)
  {
    if b != 0 {
      assert HasBit(b, 0) || HasBit(b, 1) || HasBit(b, 2) || HasBit(b, 3)
          || HasBit(b, 4) || HasBit(b, 5) || HasBit(b, 6) || HasBit(b, 7);
    }
  }

  /** A vector whose bits from `n` upwards are clear is below 2^n. */
  lemma HighBitsClear(b: bv8, n: nat)
    requires n <= 8
    requires forall k :: n <= k < 8 ==> !HasBit(b, k)
    ensures b as int < Pow2(n)
  {
    if n < 8 {
      assert !HasBit(b, 7);
      assert n < 7 ==> !HasBit(b, 6);
      assert n < 6 ==> !HasBit(b, 5);
      assert n < 5 ==> !HasBit(b, 4);
      assert n < 4 ==> !HasBit(b, 3);
      assert n < 3 ==> !HasBit(b, 2);
      assert n < 2 ==> !HasBit(b, 1);
      assert n < 1 ==> !HasBit(b, 0);
    }
    match n
    case 0 => assert b == 0;
    case 1 => assert b < 2;
    case 2 => assert b < 4;
    case 3 => assert b < 8;
    case 4 => assert b < 16;
    case 5 => assert b < 32;
    case 6 => assert b < 64;
    case 7 => assert b < 128;
    case _ =>
  }

  // ---------------------------------------------------------------------
  // is_any_set, get_bits, get_first (Buttons.cpp) as functions
  // ---------------------------------------------------------------------

  /** `is_any_set`: some mask of the list meets `state` (the last mask, or
      one of those before it). */
  predicate AnySet(state: bv8, masks: seq<bv8>)
    decreases |masks|
  {
    |masks| > 0 && (AnySet(state, masks[..|masks| - 1]) || state & masks[|masks| - 1] != 0)
  }

  /** `is_any_set` holds exactly when some mask meets `state`. */
  lemma {:induction false} AnySetExists(state: bv8, masks: seq<bv8>)
    ensures AnySet(state, masks) <==> exists i :: 0 <= i < |masks| && state & masks[i] != 0
    decreases |masks|
  {
    if |masks| > 0 {
      var k := |masks| - 1;
      AnySetExists(state, masks[..k]);
      assert forall i :: 0 <= i < k ==> masks[..k][i] == masks[i];
    }
  }

  /** No mask meets the empty vector. */
  lemma {:induction false} NoneSetInZero(masks: seq<bv8>)
    ensures !AnySet(0, masks)
    decreases |masks|
  {
    if |masks| > 0 {
      NoneSetInZero(masks[..|masks| - 1]);
    }
  }

  /** `get_bits`: bit `i` of the result says whether `state` meets mask `i`;
      the bits above the number of masks stay clear. */
  function Bits(state: bv8, masks: seq<bv8>): (out: bv8)
    requires |masks| <= 8
    ensures forall i :: 0 <= i < 8 ==> (HasBit(out, i) <==> i < |masks| && state & masks[i] != 0)
    decreases |masks|
  {
    if |masks| == 0 then
      ZeroIffNoBit(0);
      0
    else
      var k := |masks| - 1;
      var rest := Bits(state, masks[..k]);
      BitsExtend(state, masks, rest);
      if state & masks[k] != 0 then rest | Bit(k) else rest
  }

  /** Adding mask `k` to the compressed vector of the masks before it sets
      bit `k` exactly when `state` meets that mask. */
  lemma BitsExtend(state: bv8, masks: seq<bv8>, rest: bv8)
    requires 0 < |masks| <= 8
    requires forall i :: 0 <= i < 8 ==>
      (HasBit(rest, i) <==> i < |masks| - 1 && state & masks[..|masks| - 1][i] != 0)
    ensures var k := |masks| - 1;
      var out := if state & masks[k] != 0 then rest | Bit(k) else rest;
      forall i :: 0 <= i < 8 ==> (HasBit(out, i) <==> i < |masks| && state & masks[i] != 0)
  {
    var k := |masks| - 1;
    var out := if state & masks[k] != 0 then rest | Bit(k) else rest;
    forall i | 0 <= i < 8
      ensures HasBit(out, i) <==> i < |masks| && state & masks[i] != 0
    {
      if i < k {
        assert masks[..k][i] == masks[i];
      }
      if state & masks[k] != 0 {
        HasBitOrAt(rest, k, i);
      }
    }
  }

  /** The compressed vector of `n` masks is below 2^n, so it fits in the
      low `n` bits of the packed mode. */
  lemma BitsBelow(state: bv8, masks: seq<bv8>)
    requires |masks| <= 8
    ensures Bits(state, masks) as int < Pow2(|masks|)
  {
    HighBitsClear(Bits(state, masks), |masks|);
  }

  /** `is_any_set` holds exactly when `get_bits` is not zero. */
  lemma AnySetIffBits(state: bv8, masks: seq<bv8>)
    requires |masks| <= 8
    ensures AnySet(state, masks) <==> Bits(state, masks) != 0
  {
    var out := Bits(state, masks);
    ZeroIffNoBit(out);
    AnySetExists(state, masks);
    if AnySet(state, masks) {
      var i :| 0 <= i < |masks| && state & masks[i] != 0;
      assert HasBit(out, i);
    }
  }

  /** The index of the lowest set bit of `bits` at or above `i`, or 0 when
      there is none. */
  function LowestFrom(bits: bv8, i: nat): (r: nat)
    requires i <= 8
    ensures r < 8
    ensures (exists k :: i <= k < 8 && HasBit(bits, k)) ==>
              i <= r && HasBit(bits, r) && forall j :: i <= j < r ==> !HasBit(bits, j)
    ensures (forall k :: i <= k < 8 ==> !HasBit(bits, k)) ==> r == 0
    decreases 8 - i
  {
    if i == 8 then 0
    else if HasBit(bits, i) then i
    else LowestFrom(bits, i + 1)
  }

  /** `get_first`: the index of the lowest set bit, 0 when none is set. */
  function First(bits: bv8): (r: nat)
    ensures r < 8
    ensures bits != 0 ==> HasBit(bits, r) && forall j :: 0 <= j < r ==> !HasBit(bits, j)
    ensures bits == 0 ==> r == 0
  {
    ZeroIffNoBit(bits);
    LowestFrom(bits, 0)
  }

  // ---------------------------------------------------------------------
  // The packed mode value
  // ---------------------------------------------------------------------

  /** The mode type: `mode & ((1 << n) - 1)`, the low `n` bits, taken one
      bit at a time. */
  function TypeOf(mode: nat, n: nat): (t: nat)
    ensures t < Pow2(n)
  {
    if n == 0 then 0 else mode % 2 + 2 * TypeOf(mode / 2, n - 1)
  }

  /** The mode number: `mode >> n`, the bits above the type. */
  function NumberOf(mode: nat, n: nat): nat
  {
    if n == 0 then mode else NumberOf(mode / 2, n - 1)
  }

  /** `(num << n) | typ`: `typ` in the low `n` bits, `num` above them. */
  function Pack(num: nat, typ: nat, n: nat): (mode: nat)
    requires typ < Pow2(n)
  {
    if n == 0 then num else typ % 2 + 2 * Pack(num, typ / 2, n - 1)
  }

  /** Unpacking a packed mode gives back its type and its number: the two
      parts do not overlap as long as the type is below 2^n. */
  lemma {:induction false} PackUnpack(num: nat, typ: nat, n: nat)
    requires typ < Pow2(n)
    ensures TypeOf(Pack(num, typ, n), n) == typ
    ensures NumberOf(Pack(num, typ, n), n) == num
  {
    if n > 0 {
      PackUnpack(num, typ / 2, n - 1);
      var m := Pack(num, typ, n);
      assert m % 2 == typ % 2 && m / 2 == Pack(num, typ / 2, n - 1);
    }
  }

  /** The bit-by-bit packing is the C expression `(num << n) | typ`: the
      number shifted left by `n` places, plus a type below `2^n`. */
  lemma {:induction false} PackArith(num: nat, typ: nat, n: nat)
    requires typ < Pow2(n)
    ensures Pack(num, typ, n) == num * Pow2(n) + typ
  {
    if n > 0 {
      PackArith(num, typ / 2, n - 1);
      assert num * Pow2(n) == 2 * (num * Pow2(n - 1));
    }
  }

  /** The bit-by-bit parts are the C expressions `mode & ((1 << n) - 1)`
      and `mode >> n`: the remainder and the quotient by `2^n`. */
  lemma UnpackArith(mode: nat, n: nat)
    ensures TypeOf(mode, n) == mode % Pow2(n)
    ensures NumberOf(mode, n) == mode / Pow2(n)
  {
    UnpackPack(mode, n);
    PackArith(NumberOf(mode, n), TypeOf(mode, n), n);
    DivModUnique(mode, Pow2(n), NumberOf(mode, n), TypeOf(mode, n));
  }

  /** Every mode is the packing of its own number and type. */
  lemma {:induction false} UnpackPack(mode: nat, n: nat)
    ensures Pack(NumberOf(mode, n), TypeOf(mode, n), n) == mode
  {
    if n > 0 {
      UnpackPack(mode / 2, n - 1);
      assert TypeOf(mode, n) / 2 == TypeOf(mode / 2, n - 1);
      assert TypeOf(mode, n) % 2 == mode % 2;
    }
  }

  // ---------------------------------------------------------------------
  // Configuration, session state and callbacks
  // ---------------------------------------------------------------------

  /** The constructor arguments of a ButtonManager: the long-press length,
      the number of modes per mode button and the three mask lists (the
      source passes each list as a count and an array).  The two numbers
      are C `int`s and may be negative. */
  datatype Config = Config(
    longPressDuration: int,
    numModes: int,
    normMasks: seq<bv8>,
    modeMasks: seq<bv8>,
    modMasks: seq<bv8>)
  {
    /** `% num_modes` needs a non-zero count, and `get_bits` packs at most
        eight masks into a `uint8_t`. */
    predicate Valid()
    {
      numModes != 0 && |normMasks| <= 8 && |modeMasks| <= 8 && |modMasks| <= 8
    }

    /** The number of distinct mode numbers the cycling reaches: C's `%` by
        a negative count takes the remainder by its absolute value. */
    function ModeCount(): nat
    {
      Abs(numModes)
    }

    /** The long-press length as the comparison with the `unsigned long`
        elapsed time sees it: a negative `int` is converted modulo 2^32. */
    function UnsignedLength(): Millis
    {
      longPressDuration % MOD
    }

    predicate IsNorm(s: bv8) { AnySet(s, normMasks) }
    predicate IsMode(s: bv8) { AnySet(s, modeMasks) }
    predicate IsMod(s: bv8) { AnySet(s, modMasks) }

    function GetNorm(s: bv8): bv8 requires Valid() { Bits(s, normMasks) }
    function GetMode(s: bv8): bv8 requires Valid() { Bits(s, modeMasks) }
    function GetMod(s: bv8): bv8 requires Valid() { Bits(s, modMasks) }
  }

  /** The private session fields of a ButtonManager and its public `mode`.
      The mode is never negative, so it is kept as a `nat`. */
  datatype Session = Session(
    cur: bv8,
    cum: bv8,
    add: bv8,
    sub: bv8,
    holdStarted: bool,
    holdStartTime: Millis,
    eventFired: bool,
    mode: nat)
  {
    /** Every button held now belongs to the cumulative set. */
    predicate Covered()
    {
      cur & !cum == 0
    }
  }

  /** The state the constructor leaves: everything clear and `mode = 1`. */
  const Initial: Session := Session(0, 0, 0, 0, false, 0, false, 1)

  /** One invocation of a callback slot. */
  datatype ButtonEvent =
    | ModeChange(mode: nat)
    | Press(mode: nat, modifiers: bool, longPress: bool, buttons: bv8)
    | HoldStart(starting: bool)
    | HoldEnd(finished: bool)
  {
    /** The two callbacks that at most one of fires per session. */
    predicate IsSemantic()
    {
      ModeChange? || Press?
    }
  }

  /** Which of the four callback fields are set (not null). */
  datatype Listeners = Listeners(modeChange: bool, press: bool, holdStart: bool, holdEnd: bool)
  {
    predicate Hears(e: ButtonEvent)
    {
      match e
      case ModeChange(_) => modeChange
      case Press(_, _, _, _) => press
      case HoldStart(_) => holdStart
      case HoldEnd(_) => holdEnd
    }
  }

  /** The invocations that reach a listener: each callback is null-checked
      before it is called, so an event without a listener is dropped and
      the others keep their order. */
  function Deliver(l: Listeners, evs: seq<ButtonEvent>): (out: seq<ButtonEvent>)
    ensures |out| <= |evs|
    ensures forall e :: e in out <==> e in evs && l.Hears(e)
  {
    if evs == [] then []
    else (if l.Hears(evs[0]) then [evs[0]] else []) + Deliver(l, evs[1..])
  }

  lemma {:induction false} DeliverAppend(l: Listeners, a: seq<ButtonEvent>, b: seq<ButtonEvent>)
    ensures Deliver(l, a + b) == Deliver(l, a) + Deliver(l, b)
  {
    if a == [] {
      assert a + b == b;
    } else {
      assert (a + b)[1..] == a[1..] + b;
      DeliverAppend(l, a[1..], b);
    }
  }

  /** The semantic events of a sequence of invocations, in order. */
  function SemanticOf(evs: seq<ButtonEvent>): (out: seq<ButtonEvent>)
    ensures forall e :: e in out <==> e in evs && e.IsSemantic()
  {
    if evs == [] then []
    else (if evs[0].IsSemantic() then [evs[0]] else []) + SemanticOf(evs[1..])
  }

  lemma {:induction false} SemanticOfAppend(a: seq<ButtonEvent>, b: seq<ButtonEvent>)
    ensures SemanticOf(a + b) == SemanticOf(a) + SemanticOf(b)
  {
    if a == [] {
      assert a + b == b;
    } else {
      assert (a + b)[1..] == a[1..] + b;
      SemanticOfAppend(a[1..], b);
    }
  }

  // ---------------------------------------------------------------------
  // set_btn_states
  // ---------------------------------------------------------------------

  /** `hold_timer_expired`: the timer runs and is strictly past the
      long-press length (unsigned `millis() - hold_start_time`). */
  predicate Expired(cfg: Config, s: Session, now: Millis)
  {
    s.holdStarted && Elapsed(now, s.holdStartTime) > cfg.UnsignedLength()
  }

  /** For a length in the range of the AVR's 16-bit `int`: a non-negative
      length is compared as it is, a negative one as 2^32 plus it, so a
      length of -1 never expires. */
  lemma LongPressLength(cfg: Config, s: Session, now: Millis)
    requires -32768 <= cfg.longPressDuration <= 32767
    ensures cfg.longPressDuration >= 0 ==>
      (Expired(cfg, s, now) <==> s.holdStarted && Elapsed(now, s.holdStartTime) > cfg.longPressDuration)
    ensures cfg.longPressDuration < 0 ==>
      (Expired(cfg, s, now) <==> s.holdStarted && Elapsed(now, s.holdStartTime) > cfg.longPressDuration + MOD)
    ensures cfg.longPressDuration == -1 ==> !Expired(cfg, s, now)
  {
    var d := cfg.longPressDuration;
    if d < 0 {
      DivModUnique(d, MOD, -1, d + MOD);
    } else {
      DivModUnique(d, MOD, 0, d);
    }
  }

  /** The first four assignments of `set_btn_states`: the edges against the
      previous vector, the new current vector, the cumulative or. */
  function Sampled(s: Session, input: bv8): Session
  {
    s.(add := !s.cur & input, sub := s.cur & !input, cur := input, cum := s.cum | input)
  }

  /** A session whose vectors are the edges, the input and the cumulative
      or, and whose other fields are unchanged, is the sampled session. */
  lemma SampledIs(s: Session, input: bv8, t: Session)
    requires t.cur == input && t.cum == s.cum | input
    requires t.add == !s.cur & input && t.sub == s.cur & !input
    requires t.holdStarted == s.holdStarted && t.holdStartTime == s.holdStartTime
    requires t.eventFired == s.eventFired && t.mode == s.mode
    ensures t == Sampled(s, input)
  {
  }

  /** The hold-timer branch: a newly pressed normal or modifier button
      restarts the timer (`reset_hold_timer`); otherwise, when the session
      touches a mode button, the timer stops unfinished (`stop_hold_timer(false)`). */
  function HoldUpdate(cfg: Config, s: Session, now: Millis): (Session, seq<ButtonEvent>)
  {
    if cfg.IsNorm(s.add) || cfg.IsMod(s.add) then
      (s.(holdStarted := true, holdStartTime := now), [HoldStart(!s.holdStarted)])
    else if cfg.IsMode(s.cum) then
      (s.(holdStarted := false), if s.holdStarted then [HoldEnd(false)] else [])
    else
      (s, [])
  }

  /** `fire_mode_change_event`: the new type is the compressed mode bits of
      the session; a normal button picks the number outright, otherwise the
      number advances when the type is unchanged and restarts at 0 when it
      changed. */
  function NextMode(cfg: Config, mode: nat, cum: bv8): nat
    requires cfg.Valid()
  {
    var n := |cfg.modeMasks|;
    var buttons := cfg.GetNorm(cum);
    var newType := cfg.GetMode(cum) as nat;
    var cycled := if newType != TypeOf(mode, n) then 0 else CRem(NumberOf(mode, n) + 1, cfg.numModes);
    var num := if buttons != 0 then First(buttons) else cycled;
    BitsBelow(cum, cfg.modeMasks);
    Pack(num, newType, n)
  }

  /** The event a triggered session raises: a mode change when the session
      touched a mode button, otherwise a press (`fire_press_event`). */
  function SemanticEvent(cfg: Config, s: Session, now: Millis): (e: ButtonEvent)
    requires cfg.Valid()
  {
    if cfg.IsMode(s.cum) then ModeChange(NextMode(cfg, s.mode, s.cum))
    else Press(s.mode, cfg.GetMod(s.cum) != 0, Expired(cfg, s, now), cfg.GetNorm(s.cum))
  }

  /** What one call does: the new state and the callbacks it invokes before
      the event (hold start or end), the event itself, and after it (the
      hold end of `stop_hold_timer(true)`). */
  datatype StepResult = StepResult(
    next: Session,
    before: seq<ButtonEvent>,
    fired: Option<ButtonEvent>,
    after: seq<ButtonEvent>)
  {
    function Events(): seq<ButtonEvent>
    {
      before + AsSeq(fired) + after
    }
  }

  /** `fire_mode_change_event` or `fire_press_event`, then
      `stop_hold_timer(true)` and the latch. */
  function Fire(cfg: Config, s: Session, before: seq<ButtonEvent>, now: Millis): StepResult
    requires cfg.Valid()
  {
    var e := SemanticEvent(cfg, s, now);
    StepResult(
      s.(mode := if e.ModeChange? then e.mode else s.mode, holdStarted := false, eventFired := true),
      before, Some(e),
      if s.holdStarted then [HoldEnd(Expired(cfg, s, now))] else [])
  }

  /** The `if (!event_fired) ... else ...` tail of `set_btn_states`: fire on
      a full release or an expired hold timer, or, once an event has fired,
      close the session when nothing is held. */
  function Settle(cfg: Config, s: Session, before: seq<ButtonEvent>, now: Millis): StepResult
    requires cfg.Valid()
  {
    if !s.eventFired then
      if (s.cur == 0 && s.sub != 0) || Expired(cfg, s, now) then Fire(cfg, s, before, now)
      else StepResult(s, before, None, [])
    else if s.cur == 0 then
      StepResult(s.(eventFired := false, cum := 0, add := 0), before, None, [])
    else
      StepResult(s, before, None, [])
  }

  /** The tail passes the callbacks made before it through unchanged. */
  lemma SettleBefore(cfg: Config, s: Session, before: seq<ButtonEvent>, now: Millis)
    requires cfg.Valid()
    ensures Settle(cfg, s, before, now).next == Settle(cfg, s, [], now).next
    ensures Settle(cfg, s, before, now).Events() == before + Settle(cfg, s, [], now).Events()
  {
    var r := Settle(cfg, s, before, now);
    var r0 := Settle(cfg, s, [], now);
    assert r.fired == r0.fired && r.after == r0.after && r.before == before;
  }

  /** Two sessions that agree field by field are equal. */
  lemma SameSession(a: Session, b: Session)
    requires a.cur == b.cur && a.cum == b.cum && a.add == b.add && a.sub == b.sub
    requires a.holdStarted == b.holdStarted && a.holdStartTime == b.holdStartTime
    requires a.eventFired == b.eventFired && a.mode == b.mode
    ensures a == b
  {
  }

  /** One call of `set_btn_states(input)` at time `now`. */
  function Step(cfg: Config, s: Session, input: bv8, now: Millis): StepResult
    requires cfg.Valid()
  {
    var hu := HoldUpdate(cfg, Sampled(s, input), now);
    Settle(cfg, hu.0, hu.1, now)
  }

  /** A call is the hold-timer half followed by the settling half: a
      session and callbacks that went through the two halves one after the
      other are those of one whole call. */
  lemma StepComposes(cfg: Config, l: Listeners, s0: Session, input: bv8, now: Millis, s1: Session,
                     s2: Session, before: seq<ButtonEvent>, s3: Session, rest: seq<ButtonEvent>)
    requires cfg.Valid()
    requires s1 == Sampled(s0, input)
    requires s2 == HoldUpdate(cfg, s1, now).0 && before == Deliver(l, HoldUpdate(cfg, s1, now).1)
    requires s3 == Settle(cfg, s2, [], now).next
    requires rest == Deliver(l, Settle(cfg, s2, [], now).Events())
    ensures s3 == Step(cfg, s0, input, now).next
    ensures before + rest == Deliver(l, Step(cfg, s0, input, now).Events())
  {
    var hu := HoldUpdate(cfg, Sampled(s0, input), now);
    SettleBefore(cfg, hu.0, hu.1, now);
    DeliverAppend(l, hu.1, Settle(cfg, hu.0, [], now).Events());
  }

  // Narrow facts about the two halves of a call, one concern each.

  /** The hold-timer branch touches only the two timer fields. */
  lemma HoldKeeps(cfg: Config, s: Session, now: Millis)
    ensures var n := HoldUpdate(cfg, s, now).0;
      && n.cur == s.cur && n.add == s.add && n.sub == s.sub && n.cum == s.cum
      && n.eventFired == s.eventFired && n.mode == s.mode
  {
  }

  /** The hold callbacks of the hold-timer branch, and the timer it leaves. */
  lemma HoldTimer(cfg: Config, s: Session, now: Millis)
    ensures var (n, before) := HoldUpdate(cfg, s, now);
      var restarted := cfg.IsNorm(s.add) || cfg.IsMod(s.add);
      && (restarted ==> before == [HoldStart(!s.holdStarted)] && n.holdStarted && n.holdStartTime == now)
      && (!restarted && cfg.IsMode(s.cum) ==>
            before == (if s.holdStarted then [HoldEnd(false)] else []) && !n.holdStarted)
      && (!restarted && !cfg.IsMode(s.cum) ==>
            before == [] && n.holdStarted == s.holdStarted && n.holdStartTime == s.holdStartTime)
  {
  }

  /** After the hold-timer branch the timer is expired exactly when the
      branch neither restarted nor stopped an expired timer. */
  lemma HoldExpired(cfg: Config, s: Session, now: Millis)
    ensures Expired(cfg, HoldUpdate(cfg, s, now).0, now) <==>
      !cfg.IsNorm(s.add) && !cfg.IsMod(s.add) && !cfg.IsMode(s.cum) && Expired(cfg, s, now)
  {
    assert Elapsed(now, now) == 0;
  }

  /** The hold-timer branch reports no mode change and no press. */
  lemma HoldNotSemantic(cfg: Config, s: Session, now: Millis)
    ensures SemanticOf(HoldUpdate(cfg, s, now).1) == []
  {
  }

  /** The tail keeps the vectors, except that closing a session clears the
      cumulative and added ones. */
  lemma SettleVectors(cfg: Config, s: Session, before: seq<ButtonEvent>, now: Millis)
    requires cfg.Valid()
    ensures var n := Settle(cfg, s, before, now).next;
      && n.cur == s.cur && n.sub == s.sub
      && ((n.cum == s.cum && n.add == s.add) || (s.cur == 0 && n.cum == 0 && n.add == 0))
  {
  }

  /** The tail fires exactly on a release or an expired timer while no event
      has fired in the session, and passes `before` through. */
  lemma SettleFires(cfg: Config, s: Session, before: seq<ButtonEvent>, now: Millis)
    requires cfg.Valid()
    ensures var r := Settle(cfg, s, before, now);
      && r.before == before
      && (r.fired.Some? <==> !s.eventFired && ((s.cur == 0 && s.sub != 0) || Expired(cfg, s, now)))
  {
  }

  /** The latch after the tail. */
  lemma SettleLatch(cfg: Config, s: Session, before: seq<ButtonEvent>, now: Millis)
    requires cfg.Valid()
    ensures var r := Settle(cfg, s, before, now);
      && r.next.eventFired == (if s.eventFired then s.cur != 0 else r.fired.Some?)
      && (s.eventFired && s.cur == 0 ==> r.next.cum == 0 && r.next.add == 0)
  {
  }

  /** The event the tail fires, and the mode it leaves. */
  lemma SettleEvent(cfg: Config, s: Session, before: seq<ButtonEvent>, now: Millis)
    requires cfg.Valid()
    ensures var r := Settle(cfg, s, before, now);
      && (r.fired.Some? ==> r.fired.value == SemanticEvent(cfg, s, now))
      && r.next.mode == (if r.fired.Some? && r.fired.value.ModeChange? then r.fired.value.mode else s.mode)
  {
  }

  /** The timer after the tail: stopped after an event, untouched otherwise;
      the callbacks after the event are hold ends only. */
  lemma SettleHold(cfg: Config, s: Session, before: seq<ButtonEvent>, now: Millis)
    requires cfg.Valid()
    ensures var r := Settle(cfg, s, before, now);
      && (r.fired.Some? ==> !r.next.holdStarted)
      && (r.fired.None? ==> r.after == [] && r.next.holdStarted == s.holdStarted)
      && r.next.holdStartTime == s.holdStartTime
      && SemanticOf(r.after) == []
  {
  }

  // ---------------------------------------------------------------------
  // What one call does
  // ---------------------------------------------------------------------

  /** After a call the current vector is the input, the edges are taken
      against the previous vector, and every held button is in the
      cumulative set (the reset only clears it when nothing is held). */
  lemma StepSamples(cfg: Config, s: Session, input: bv8, now: Millis)
    requires cfg.Valid()
    ensures var r := Step(cfg, s, input, now);
      && r.next.cur == input
      && r.next.add == !s.cur & input
      && r.next.sub == s.cur & !input
      && r.next.Covered()
  {
    var s1 := Sampled(s, input);
    var hu := HoldUpdate(cfg, s1, now);
    HoldKeeps(cfg, s1, now);
    SettleVectors(cfg, hu.0, hu.1, now);
  }

  /** A call raises at most one mode change or press, namely `fired`; the
      hold callbacks around it are not semantic events. */
  lemma StepFiresAtMostOnce(cfg: Config, s: Session, input: bv8, now: Millis)
    requires cfg.Valid()
    ensures var r := Step(cfg, s, input, now);
      && SemanticOf(r.Events()) == AsSeq(r.fired)
      && |SemanticOf(r.Events())| <= 1
  {
    var s1 := Sampled(s, input);
    var hu := HoldUpdate(cfg, s1, now);
    HoldNotSemantic(cfg, s1, now);
    SettleFires(cfg, hu.0, hu.1, now);
    SettleEvent(cfg, hu.0, hu.1, now);
    SettleHold(cfg, hu.0, hu.1, now);
    var r := Settle(cfg, hu.0, hu.1, now);
    SemanticOfAppend(r.before, AsSeq(r.fired));
    SemanticOfAppend(r.before + AsSeq(r.fired), r.after);
  }

  /** The once-per-session latch: nothing fires while `event_fired` is set,
      firing sets it, and only an all-zero input clears it again, together
      with the cumulative and added vectors. */
  lemma StepLatch(cfg: Config, s: Session, input: bv8, now: Millis)
    requires cfg.Valid()
    ensures var r := Step(cfg, s, input, now);
      && (s.eventFired ==> r.fired.None?)
      && r.next.eventFired == (if s.eventFired then input != 0 else r.fired.Some?)
      && (s.eventFired && input == 0 ==> r.next.cum == 0 && r.next.add == 0)
  {
    var s1 := Sampled(s, input);
    var hu := HoldUpdate(cfg, s1, now);
    HoldKeeps(cfg, s1, now);
    SettleFires(cfg, hu.0, hu.1, now);
    SettleLatch(cfg, hu.0, hu.1, now);
  }

  /** An event fires exactly on a full release of a held vector, or when the
      hold timer is strictly past the long-press length and this call
      neither restarted it (new normal or modifier button) nor stopped it
      (mode button in the session). */
  lemma StepTrigger(cfg: Config, s: Session, input: bv8, now: Millis)
    requires cfg.Valid()
    ensures var r := Step(cfg, s, input, now);
      var add := !s.cur & input;
      r.fired.Some? <==>
        && !s.eventFired
        && ((input == 0 && s.cur != 0)
            || (!cfg.IsNorm(add) && !cfg.IsMod(add) && !cfg.IsMode(s.cum | input)
                && Expired(cfg, s, now)))
  {
    var s1 := Sampled(s, input);
    var add := !s.cur & input;
    assert s1.add == add && s1.cum == s.cum | input;
    assert Expired(cfg, s1, now) == Expired(cfg, s, now);
    var hu := HoldUpdate(cfg, s1, now);
    HoldKeeps(cfg, s1, now);
    HoldExpired(cfg, s1, now);
    var released := hu.0.cur == 0 && hu.0.sub != 0;
    ReleaseEdge(s.cur, input);
    assert released <==> input == 0 && s.cur != 0;
    var expired := Expired(cfg, hu.0, now);
    assert expired <==> !cfg.IsNorm(add) && !cfg.IsMod(add) && !cfg.IsMode(s.cum | input) && Expired(cfg, s, now);
    SettleFires(cfg, hu.0, hu.1, now);
    assert Step(cfg, s, input, now).fired.Some? <==> !s.eventFired && (released || expired);
  }

  /** The release condition `cur == 0 && sub != 0` of a sampled session is a
      full release of a vector that was held. */
  lemma ReleaseEdge(prev: bv8, input: bv8)
    ensures (input == 0 && prev & !input != 0) <==> (input == 0 && prev != 0)
  {
  }

  /** The event is a mode change exactly when the session touched a mode
      button, and only a mode change alters `mode`.  A press carries the
      unchanged mode, whether any modifier was held (a bool, not the bits),
      whether the hold timer had expired, and the compressed normal
      buttons of the session. */
  lemma StepEvent(cfg: Config, s: Session, input: bv8, now: Millis)
    requires cfg.Valid()
    ensures var r := Step(cfg, s, input, now);
      var add := !s.cur & input;
      var cum := s.cum | input;
      && (r.next.mode != s.mode ==> r.fired == Some(ModeChange(r.next.mode)))
      && (r.fired.Some? && cfg.IsMode(cum) ==>
            r.fired == Some(ModeChange(NextMode(cfg, s.mode, cum))) && r.next.mode == NextMode(cfg, s.mode, cum))
      && (r.fired.Some? && !cfg.IsMode(cum) ==>
            && r.next.mode == s.mode
            && r.fired == Some(Press(s.mode, cfg.GetMod(cum) != 0,
                                     !cfg.IsNorm(add) && !cfg.IsMod(add) && Expired(cfg, s, now),
                                     cfg.GetNorm(cum))))
  {
    var s1 := Sampled(s, input);
    assert s1.add == !s.cur & input && s1.cum == s.cum | input;
    assert Expired(cfg, s1, now) == Expired(cfg, s, now);
    var hu := HoldUpdate(cfg, s1, now);
    HoldKeeps(cfg, s1, now);
    HoldExpired(cfg, s1, now);
    SettleEvent(cfg, hu.0, hu.1, now);
  }

  /** The hold timer: a newly pressed normal or modifier button restarts it
      and reports whether it was idle; otherwise a session with a mode
      button stops it, reporting an unfinished hold only if it ran; and
      after an event it is stopped. */
  lemma StepHoldTimer(cfg: Config, s: Session, input: bv8, now: Millis)
    requires cfg.Valid()
    ensures var r := Step(cfg, s, input, now);
      var add := !s.cur & input;
      var restarted := cfg.IsNorm(add) || cfg.IsMod(add);
      && (restarted ==> r.before == [HoldStart(!s.holdStarted)])
      && (restarted && r.fired.None? ==> r.next.holdStarted && r.next.holdStartTime == now)
      && (!restarted && cfg.IsMode(s.cum | input) ==>
            r.before == (if s.holdStarted then [HoldEnd(false)] else []) && !r.next.holdStarted)
      && (!restarted && !cfg.IsMode(s.cum | input) ==> r.before == [])
      && (r.fired.Some? ==> !r.next.holdStarted)
      && (r.fired.None? ==> r.after == [])
  {
    var s1 := Sampled(s, input);
    assert s1.add == !s.cur & input && s1.cum == s.cum | input;
    var hu := HoldUpdate(cfg, s1, now);
    HoldTimer(cfg, s1, now);
    SettleFires(cfg, hu.0, hu.1, now);
    SettleHold(cfg, hu.0, hu.1, now);
  }

  // ---------------------------------------------------------------------
  // Mode arithmetic
  // ---------------------------------------------------------------------

  /** The new mode's type is the compressed mode bits of the session; its
      number is the lowest held normal button if there is one (not reduced
      modulo the mode count), else 0 when the type changed, else the old
      number plus one modulo the mode count. */
  lemma NextModeParts(cfg: Config, mode: nat, cum: bv8)
    requires cfg.Valid()
    ensures var n := |cfg.modeMasks|;
      var m := NextMode(cfg, mode, cum);
      && TypeOf(m, n) == cfg.GetMode(cum) as nat
      && (cfg.GetNorm(cum) != 0 ==> NumberOf(m, n) == First(cfg.GetNorm(cum)))
      && (cfg.GetNorm(cum) == 0 && cfg.GetMode(cum) as nat != TypeOf(mode, n) ==> NumberOf(m, n) == 0)
      && (cfg.GetNorm(cum) == 0 && cfg.GetMode(cum) as nat == TypeOf(mode, n) ==>
            NumberOf(m, n) == (NumberOf(mode, n) + 1) % cfg.ModeCount())
  {
    var n := |cfg.modeMasks|;
    var buttons := cfg.GetNorm(cum);
    var newType := cfg.GetMode(cum) as nat;
    var cycled := if newType != TypeOf(mode, n) then 0 else (NumberOf(mode, n) + 1) % cfg.ModeCount();
    var num := if buttons != 0 then First(buttons) else cycled;
    BitsBelow(cum, cfg.modeMasks);
    PackUnpack(num, newType, n);
  }

  /** A session on the same mode buttons as the current type, with no
      normal button, keeps the type and advances the number by one modulo
      the mode count. */
  lemma NextModeAdvances(cfg: Config, mode: nat, cum: bv8)
    requires cfg.Valid()
    requires cfg.GetNorm(cum) == 0 && cfg.GetMode(cum) as nat == TypeOf(mode, |cfg.modeMasks|)
    ensures TypeOf(NextMode(cfg, mode, cum), |cfg.modeMasks|) == TypeOf(mode, |cfg.modeMasks|)
    ensures NumberOf(NextMode(cfg, mode, cum), |cfg.modeMasks|) == (NumberOf(mode, |cfg.modeMasks|) + 1) % cfg.ModeCount()
  {
    NextModeParts(cfg, mode, cum);
  }

  /** The constructor's `mode = 1` is type 1, number 0, so the first session
      on the first mode mask alone moves to number `1 % num_modes`. */
  lemma FirstModeSession(cfg: Config, cum: bv8)
    requires cfg.Valid() && |cfg.modeMasks| >= 1
    requires cfg.GetNorm(cum) == 0 && cfg.GetMode(cum) == 1
    ensures NextMode(cfg, Initial.mode, cum) == Pack(1 % cfg.ModeCount(), 1, |cfg.modeMasks|)
  {
    var n := |cfg.modeMasks|;
    ZeroParts(n - 1);
    assert TypeOf(Initial.mode, n) == 1 && NumberOf(Initial.mode, n) == 0;
  }

  /** The sign of `num_modes` does not matter: with a negative count the
      numbers cycle exactly as with its absolute value. */
  lemma NegativeModeCount(cfg: Config, mode: nat, cum: bv8)
    requires cfg.Valid()
    ensures NextMode(cfg.(numModes := -cfg.numModes), mode, cum) == NextMode(cfg, mode, cum)
  {
  }

  /** Mode 0 has type 0 and number 0. */
  lemma {:induction false} ZeroParts(n: nat)
    ensures TypeOf(0, n) == 0 && NumberOf(0, n) == 0
  {
    if n > 0 {
      ZeroParts(n - 1);
    }
  }

  /** `k` mode-change sessions on the same mode buttons. */
  function Cycle(cfg: Config, mode: nat, cum: bv8, k: nat): nat
    requires cfg.Valid()
  {
    if k == 0 then mode else NextMode(cfg, Cycle(cfg, mode, cum, k - 1), cum)
  }

  /** Pressing and releasing the same mode buttons (no normal button) over
      and over keeps the mode type and walks the number through 0, 1, ...,
      num_modes - 1, 0, ... */
  lemma ModeCycles(cfg: Config, mode: nat, cum: bv8, k: nat)
    requires cfg.Valid()
    requires cfg.GetNorm(cum) == 0 && cfg.GetMode(cum) as nat == TypeOf(mode, |cfg.modeMasks|)
    requires NumberOf(mode, |cfg.modeMasks|) < cfg.ModeCount()
    ensures TypeOf(Cycle(cfg, mode, cum, k), |cfg.modeMasks|) == TypeOf(mode, |cfg.modeMasks|)
    ensures NumberOf(Cycle(cfg, mode, cum, k), |cfg.modeMasks|) == (NumberOf(mode, |cfg.modeMasks|) + k) % cfg.ModeCount()
  {
    CycleKeepsType(cfg, mode, cum, k);
    CycleCounts(cfg, mode, cum, k);
  }

  /** The type half of `ModeCycles`. */
  lemma {:induction false} CycleKeepsType(cfg: Config, mode: nat, cum: bv8, k: nat)
    requires cfg.Valid()
    requires cfg.GetNorm(cum) == 0 && cfg.GetMode(cum) as nat == TypeOf(mode, |cfg.modeMasks|)
    ensures TypeOf(Cycle(cfg, mode, cum, k), |cfg.modeMasks|) == TypeOf(mode, |cfg.modeMasks|)
  {
    if k > 0 {
      CycleKeepsType(cfg, mode, cum, k - 1);
      NextModeAdvances(cfg, Cycle(cfg, mode, cum, k - 1), cum);
    }
  }

  /** The number half of `ModeCycles`. */
  lemma {:induction false} CycleCounts(cfg: Config, mode: nat, cum: bv8, k: nat)
    requires cfg.Valid()
    requires cfg.GetNorm(cum) == 0 && cfg.GetMode(cum) as nat == TypeOf(mode, |cfg.modeMasks|)
    requires NumberOf(mode, |cfg.modeMasks|) < cfg.ModeCount()
    ensures NumberOf(Cycle(cfg, mode, cum, k), |cfg.modeMasks|) == (NumberOf(mode, |cfg.modeMasks|) + k) % cfg.ModeCount()
  {
    if k > 0 {
      var prev := Cycle(cfg, mode, cum, k - 1);
      CycleCounts(cfg, mode, cum, k - 1);
      CycleKeepsType(cfg, mode, cum, k - 1);
      NextModeCounts(cfg, prev, cum, NumberOf(mode, |cfg.modeMasks|), k);
    } else {
      ModSmall(NumberOf(mode, |cfg.modeMasks|), cfg.ModeCount());
    }
  }

  /** The step of `ModeCycles`: a mode whose number is `start + k - 1`
      modulo the mode count moves to `start + k`, keeping its type. */
  lemma NextModeCounts(cfg: Config, prev: nat, cum: bv8, start: nat, k: nat)
    requires cfg.Valid() && k > 0
    requires cfg.GetNorm(cum) == 0 && cfg.GetMode(cum) as nat == TypeOf(prev, |cfg.modeMasks|)
    requires NumberOf(prev, |cfg.modeMasks|) == (start + k - 1) % cfg.ModeCount()
    ensures TypeOf(NextMode(cfg, prev, cum), |cfg.modeMasks|) == TypeOf(prev, |cfg.modeMasks|)
    ensures NumberOf(NextMode(cfg, prev, cum), |cfg.modeMasks|) == (start + k) % cfg.ModeCount()
  {
    var n := |cfg.modeMasks|;
    NextModeAdvances(cfg, prev, cum);
    CountStep(start, k, cfg.ModeCount(), NumberOf(prev, n), NumberOf(NextMode(cfg, prev, cum), n));
  }

  lemma ModSmall(a: nat, m: nat)
    requires a < m
    ensures a % m == a
  {
  }

  /** Counting modulo `m`: one more than the count after `k - 1` steps is
      the count after `k` steps. */
  lemma CountStep(start: nat, k: nat, m: nat, x: nat, y: nat)
    requires m > 0 && k > 0
    requires x == (start + k - 1) % m && y == (x + 1) % m
    ensures y == (start + k) % m
  {
    ModAddOne(start + k - 1, m);
  }

  lemma ModAddOne(a: nat, m: nat)
    requires m > 0
    ensures (a % m + 1) % m == (a + 1) % m
  {
    DivModUnique(a, m, a / m, a % m);
    if a % m + 1 == m {
      DivModUnique(a + 1, m, a / m + 1, 0);
    } else {
      DivModUnique(a + 1, m, a / m, a % m + 1);
    }
  }

  // ---------------------------------------------------------------------
  // Long presses
  // ---------------------------------------------------------------------

  /** Holding the same non-mode buttons: once the timer is strictly past the
      long-press length, the call fires a long press. */
  lemma LongPressFires(cfg: Config, s: Session, now: Millis)
    requires cfg.Valid() && s.Covered()
    requires !s.eventFired && s.cur != 0 && !cfg.IsMode(s.cum) && Expired(cfg, s, now)
    ensures Step(cfg, s, s.cur, now).fired == Some(Press(s.mode, cfg.GetMod(s.cum) != 0, true, cfg.GetNorm(s.cum)))
  {
    SameSample(s);
    var s1 := Sampled(s, s.cur);
    NoneSetInZero(cfg.normMasks);
    NoneSetInZero(cfg.modMasks);
    var hu := HoldUpdate(cfg, s1, now);
    HoldKeeps(cfg, s1, now);
    HoldExpired(cfg, s1, now);
    SettleFiresLongPress(cfg, hu.0, hu.1, now);
  }

  /** A session that has not fired yet fires on its full release: with
      `OneEventPerSession`, every session that is released raises exactly
      one event. */
  lemma ReleaseFires(cfg: Config, s: Session, now: Millis)
    requires cfg.Valid()
    requires !s.eventFired && s.cur != 0
    ensures Step(cfg, s, 0, now).fired.Some?
  {
    StepTrigger(cfg, s, 0, now);
  }

  /** Sampling the vector already held adds no button and, in a covered
      session, leaves the cumulative vector as it is. */
  lemma SameSample(s: Session)
    requires s.Covered()
    ensures Sampled(s, s.cur).add == 0 && Sampled(s, s.cur).cum == s.cum
  {
  }

  lemma SettleFiresLongPress(cfg: Config, s: Session, before: seq<ButtonEvent>, now: Millis)
    requires cfg.Valid()
    requires !s.eventFired && !cfg.IsMode(s.cum) && Expired(cfg, s, now)
    ensures Settle(cfg, s, before, now).fired == Some(Press(s.mode, cfg.GetMod(s.cum) != 0, true, cfg.GetNorm(s.cum)))
  {
  }

  /** Holding the same buttons before the timer expires fires nothing. */
  lemma HoldingBeforeExpiry(cfg: Config, s: Session, now: Millis)
    requires cfg.Valid()
    requires s.cur != 0 && !Expired(cfg, s, now)
    ensures Step(cfg, s, s.cur, now).fired.None?
  {
    StepTrigger(cfg, s, s.cur, now);
  }

  // ---------------------------------------------------------------------
  // Sessions
  // ---------------------------------------------------------------------

  /** One sample fed to `set_btn_states`: the vector and the clock. */
  datatype Reading = Reading(mask: bv8, now: Millis)

  /** The state after feeding `rs` in order. */
  function Run(cfg: Config, s: Session, rs: seq<Reading>): Session
    requires cfg.Valid()
    decreases |rs|
  {
    if rs == [] then s else Run(cfg, Step(cfg, s, rs[0].mask, rs[0].now).next, rs[1..])
  }

  /** How many mode changes and presses feeding `rs` raises. */
  function FiredCount(cfg: Config, s: Session, rs: seq<Reading>): nat
    requires cfg.Valid()
    decreases |rs|
  {
    if rs == [] then 0
    else
      var r := Step(cfg, s, rs[0].mask, rs[0].now);
      (if r.fired.Some? then 1 else 0) + FiredCount(cfg, r.next, rs[1..])
  }

  /** Once an event has fired, nothing more fires until an all-zero sample. */
  lemma {:induction false} LatchedFiresNothing(cfg: Config, s: Session, rs: seq<Reading>)
    requires cfg.Valid() && s.eventFired
    requires forall k :: 0 <= k < |rs| ==> rs[k].mask != 0
    ensures FiredCount(cfg, s, rs) == 0
    ensures Run(cfg, s, rs).eventFired
    decreases |rs|
  {
    if rs != [] {
      StepLatch(cfg, s, rs[0].mask, rs[0].now);
      LatchedFiresNothing(cfg, Step(cfg, s, rs[0].mask, rs[0].now).next, rs[1..]);
    }
  }

  /** At most one mode change or press per session: between two all-zero
      samples (the first sample may be anything, the rest are not zero)
      at most one event fires. */
  lemma {:induction false} OneEventPerSession(cfg: Config, s: Session, rs: seq<Reading>)
    requires cfg.Valid()
    requires forall k :: 1 <= k < |rs| ==> rs[k].mask != 0
    ensures FiredCount(cfg, s, rs) <= 1
    decreases |rs|
  {
    if rs != [] {
      var r := Step(cfg, s, rs[0].mask, rs[0].now);
      StepLatch(cfg, s, rs[0].mask, rs[0].now);
      if r.fired.Some? {
        LatchedFiresNothing(cfg, r.next, rs[1..]);
      } else {
        OneEventPerSession(cfg, r.next, rs[1..]);
      }
    }
  }
}
