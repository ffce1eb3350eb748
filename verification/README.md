# Living-room panel: a Dafny model

This project models the Arduino firmware of a living-room control panel on a
SHETSource network:

- the `ButtonManager` (livingroom/Buttons.cpp). It turns an 8-bit vector of
  held buttons into sessions. A session raises at most one event: a mode
  change or a press, short or long. A session that has not raised one by
  the time all its buttons are released raises it then. Hold-start and hold-end callbacks go
  around that event.
- the `RGBLED` class (livingroom/RGBLED.cpp). It fades a three-channel
  active-low LED linearly, in steps of `UPDATE_PERIOD` = 10 ms.
- the `Lighting` class (livingroom/Lighting.cpp). It works a light switch
  with a servo: it presses the switch, returns the servo to idle after
  250 ms, and detaches it 250 ms later.
- the wiring in livingroom/livingroom.cpp:
  - two light switches that share one wall switch and must never move in
    the same call;
  - the LED fed with 15-bit colours;
  - a washing-machine sensor that reports the length of each wash;
  - the main loop, which runs the washing sensor once every 1000 passes.
- the older standalone sketch livingroom.cpp:
  - a fixed 100-step fade;
  - a readable and writable 15-bit colour property;
  - eight buttons whose changes are reported as events.

Each class whose fields the firmware updates in place is a Dafny `class`.
Its methods are proved against functions on values. The fade of `RGBLED`
is specified in module `Fade`, the `ButtonManager` step in `ButtonModel`,
and the light switches and the washing sensor in `Lights` and `LivingRoom`.
The lemmas about the firmware's behaviour are proved about those functions.

Shared pieces:

- `Time32` is the 32-bit wrapping `millis()` clock. Every elapsed-time test
  in the firmware is an unsigned subtraction modulo 2^32.
- `Arith` holds C's truncating division and remainder, next to Dafny's
  Euclidean ones.
- `Colour15` is the 15-bit colour encoding, five bits per channel.

## Model

| member | source | states |
|---|---|---|
| Arith.TDivTruncates | livingroom/RGBLED.cpp:61-63 | C's quotient for a positive divisor truncates toward zero: `q*b` is the multiple of `b` nearest `a` on the side of zero |
| Arith.TDivNeg | livingroom/RGBLED.cpp:61-63 | the truncating quotient is symmetric about zero, which is how a fade toward a darker channel rounds |
| Arith.CRem | livingroom/Buttons.cpp:98 | C's remainder of a non-negative number by a non-zero divisor of either sign: below the divisor's absolute value, and with C's truncated quotient it rebuilds the dividend |
| Arith.TRemZero | livingroom.cpp:50 | C's remainder is zero exactly when the Euclidean one is (divisibility does not depend on the sign convention) |
| Time32.Elapsed | livingroom/Lighting.cpp:49 | `now - since` on `unsigned long` is the value that, added to `since` modulo 2^32, gives `now` |
| Time32.Advance | livingroom/RGBLED.cpp:39 | `t + d` on `unsigned long` lies `d mod 2^32` after `t` |
| Time32.ElapsedAdvance | livingroom/Lighting.cpp:64-65 | elapsed time is exact across the wrap of the clock for any span below 2^32 |
| Time32.ElapsedUnique | livingroom/Lighting.cpp:64-65 | the elapsed time is the unique span below 2^32 that takes `since` to `now` |
| Time32.AdvanceElapsed | livingroom/RGBLED.cpp:38-39 | advancing a time stamp by the elapsed time reaches `now` |
| Time32.AdvanceAdd | livingroom/RGBLED.cpp:39 | two wrapping advances of `last_refresh` add up to one advance by the sum |
| Time32.ElapsedFromAdvance | livingroom/RGBLED.cpp:38-39 | moving the reference point forward by `d`, not past `now`, takes exactly `d` off the elapsed time |
| ButtonModel.BitIsShift | livingroom/Buttons.cpp:172 | the one-bit vector used for mask `k` is `1 << k` |
| ButtonModel.BitTest | livingroom/Buttons.cpp:187 | the bit test of the model is `(b >> k) & 0x1` |
| ButtonModel.HasBitOr | livingroom/Buttons.cpp:172 | or-ing in bit `k` sets that bit and leaves the other seven unchanged |
| ButtonModel.ZeroIffNoBit | livingroom/Buttons.cpp:186-190 | a vector is zero exactly when none of its eight bits is set |
| ButtonModel.AnySetExists | livingroom/Buttons.cpp:151-159 | `is_any_set` holds exactly when some mask of the list meets the state |
| ButtonModel.NoneSetInZero | livingroom/Buttons.cpp:151-159 | no mask meets the empty vector |
| ButtonModel.Bits | livingroom/Buttons.cpp:167-175 | bit `i` of `get_bits` is set exactly when `i` is below the mask count and the state meets mask `i`; the higher bits stay clear |
| ButtonModel.BitsBelow | livingroom/Buttons.cpp:89-105 | the compressed mode bits are below `2^num_btn_mode`, so they fit the type field of the packed mode |
| ButtonModel.AnySetIffBits | livingroom/Buttons.cpp:151-175 | `is_any_set` holds exactly when `get_bits` is not zero |
| ButtonModel.First | livingroom/Buttons.cpp:183-191 | `get_first` returns the lowest set bit, below 8, or 0 for an empty vector |
| ButtonModel.TypeOf | livingroom/Buttons.cpp:89 | the mode type is below `2^num_btn_mode` |
| ButtonModel.PackUnpack | livingroom/Buttons.cpp:89-105 | unpacking the packed mode (`num` shifted left by `n`, or-ed with `typ`) gives back `typ` and `num` when `typ < 2^n` |
| ButtonModel.PackArith | livingroom/Buttons.cpp:105 | the packing shifts the number left by `n` places and ors in the type: it is `num * 2^n + typ` for a type below `2^n` |
| ButtonModel.UnpackArith | livingroom/Buttons.cpp:89-90 | the type is `mode & ((1 << n) - 1)`, i.e. `mode % 2^n`, and the number is `mode >> n`, i.e. `mode / 2^n` |
| ButtonModel.UnpackPack | livingroom/Buttons.cpp:89-105 | every mode is the packing of its own number and type |
| ButtonModel.Deliver | livingroom/Buttons.cpp:108-109 | a callback is null-checked before each invocation: the events delivered are those with a listener, in order |
| ButtonModel.DeliverAppend | livingroom/Buttons.cpp:38-81 | delivering two runs of callbacks one after the other is delivering their concatenation |
| ButtonModel.SemanticOf | livingroom/Buttons.cpp:58-72 | the mode changes and presses of a run of callbacks are exactly its semantic events |
| ButtonModel.SettleBefore | livingroom/Buttons.cpp:58-80 | the firing tail of `set_btn_states` passes the callbacks raised before it through unchanged |
| ButtonModel.StepComposes | livingroom/Buttons.cpp:38-81 | sampling, the hold-timer branch and the firing tail, one after the other, are one whole call |
| ButtonModel.HoldKeeps | livingroom/Buttons.cpp:51-56 | the hold-timer branch touches only the two timer fields |
| ButtonModel.HoldTimer | livingroom/Buttons.cpp:51-56 | a new normal or modifier button restarts the timer and reports whether it was idle; otherwise a mode session stops it, reporting an unfinished hold only if it ran |
| ButtonModel.LongPressLength | livingroom/Buttons.cpp:144-148 | a long-press length in the 16-bit `int` range is compared as itself when non-negative and as 2^32 plus itself when negative (the conversion to `unsigned long`), so a length of -1 never expires |
| ButtonModel.HoldExpired | livingroom/Buttons.cpp:144-148 | after the hold-timer branch the timer is expired exactly when the branch neither restarted nor stopped an expired timer |
| ButtonModel.HoldNotSemantic | livingroom/Buttons.cpp:51-56 | the hold-timer branch raises no mode change and no press |
| ButtonModel.SettleVectors | livingroom/Buttons.cpp:58-80 | the tail keeps the button vectors, except that closing a session clears the cumulative and added ones |
| ButtonModel.SettleFires | livingroom/Buttons.cpp:58-60 | the tail fires exactly on a release or an expired hold timer while no event has fired in the session |
| ButtonModel.SettleLatch | livingroom/Buttons.cpp:70-76 | firing sets `event_fired`; an empty vector after an event clears it |
| ButtonModel.SettleEvent | livingroom/Buttons.cpp:61-66 | the event fired and the mode it leaves |
| ButtonModel.SettleHold | livingroom/Buttons.cpp:68 | after an event the hold timer is stopped, and only hold ends follow the event |
| ButtonModel.StepSamples | livingroom/Buttons.cpp:41-49 | after a call the current vector is the input, the edges are taken against the previous vector, and every held button is in the cumulative set |
| ButtonModel.StepFiresAtMostOnce | livingroom/Buttons.cpp:58-72 | one call raises at most one mode change or press, namely the one it fires |
| ButtonModel.StepLatch | livingroom/Buttons.cpp:58-80 | nothing fires while `event_fired` is set, firing sets it, and only an all-zero input clears it, together with the cumulative and added vectors |
| ButtonModel.StepTrigger | livingroom/Buttons.cpp:52-60 | an event fires exactly on a full release of a held vector, or when the timer is past the long-press length and this call neither restarted nor stopped it |
| ButtonModel.ReleaseEdge | livingroom/Buttons.cpp:45-60 | the test `cur == 0 && sub != 0` is a full release of a vector that was held |
| ButtonModel.StepEvent | livingroom/Buttons.cpp:58-122 | the event is a mode change exactly when the session touched a mode button; a press carries the unchanged mode, the modifier flag, the expiry of the timer and the compressed normal buttons |
| ButtonModel.StepHoldTimer | livingroom/Buttons.cpp:51-68 | the hold callbacks of a call and the timer it leaves, before and after an event |
| ButtonModel.NextModeParts | livingroom/Buttons.cpp:84-110 | the new type is the compressed mode bits; the number is the lowest normal button if one was held, else 0 on a type change, else the old number plus one modulo `num_modes` |
| ButtonModel.NextModeAdvances | livingroom/Buttons.cpp:95-98 | a session on the current mode buttons with no normal button keeps the type and advances the number modulo `num_modes` |
| ButtonModel.FirstModeSession | livingroom/Buttons.cpp:21 | from the initial `mode = 1`, the first session on the first mode button alone moves to number `1 % num_modes` |
| ButtonModel.ModeCycles | livingroom/Buttons.cpp:95-98 | repeating one mode-button session `k` times keeps the type and adds `k` to the number modulo the absolute value of `num_modes` |
| ButtonModel.NegativeModeCount | livingroom/Buttons.cpp:98 | a negative `num_modes` cycles the mode number exactly as its absolute value does, since C's `%` of a non-negative number ignores the divisor's sign |
| ButtonModel.ReleaseFires | livingroom/Buttons.cpp:58-72 | a session that has not fired yet fires an event on the full release of its buttons |
| ButtonModel.LongPressFires | livingroom/Buttons.cpp:58-122 | holding the same non-mode buttons past the long-press length fires a press flagged long |
| ButtonModel.HoldingBeforeExpiry | livingroom/Buttons.cpp:58-60 | holding the same buttons before the timer expires fires nothing |
| ButtonModel.LatchedFiresNothing | livingroom/Buttons.cpp:58-80 | after an event nothing more fires until an all-zero sample, and the latch stays set |
| ButtonModel.OneEventPerSession | livingroom/Buttons.h:53 | between two all-zero samples at most one mode change or press fires |
| Buttons.ButtonManager.constructor | livingroom/Buttons.cpp:5-35 | the configuration is stored, with the long-press length and the mode count as C `int`s of either sign; `mode` is 1, every vector 0, the timer and the latch clear, no callback set |
| Buttons.ButtonManager.SetBtnStates | livingroom/Buttons.cpp:38-81 | the new session state and the callbacks invoked are those of one step of the model; the callback fields are unchanged |
| Buttons.ButtonManager.SampleButtons | livingroom/Buttons.cpp:41-49 | the edges, the current and the cumulative vectors are updated as the sampled session, and the callbacks are untouched |
| Buttons.ButtonManager.UpdateHoldTimer | livingroom/Buttons.cpp:51-56 | state and callbacks of the hold-timer branch of the model |
| Buttons.ButtonManager.SettleSession | livingroom/Buttons.cpp:58-80 | state and callbacks of the firing tail of the model |
| Buttons.ButtonManager.FireSessionEvent | livingroom/Buttons.cpp:60-72 | the event, then `stop_hold_timer(true)`, then the latch, as `Fire` of the model |
| Buttons.ButtonManager.FireModeOrPress | livingroom/Buttons.cpp:61-66 | a mode change when the session touched a mode button, otherwise a press; only a mode change alters `mode` |
| Buttons.ButtonManager.ResetHoldTimer | livingroom/Buttons.cpp:125-132 | reports whether the timer was idle, then starts it at `now` |
| Buttons.ButtonManager.StopHoldTimer | livingroom/Buttons.cpp:135-141 | a running timer reports whether it finished (asked to and expired); the timer ends stopped |
| Buttons.ButtonManager.HoldTimerExpired | livingroom/Buttons.cpp:144-148 | the timer runs and the unsigned elapsed time is strictly above the long-press length |
| Buttons.ButtonManager.FireModeChangeEvent | livingroom/Buttons.cpp:84-110 | the new mode is `NextMode` of the old one and the session; the callback receives the new mode |
| Buttons.ButtonManager.FirePressEvent | livingroom/Buttons.cpp:113-122 | the press callback receives the mode, whether a modifier was held, the timer's expiry and the compressed normal buttons |
| Buttons.ButtonManager.IsAnySet | livingroom/Buttons.cpp:151-159 | the scan's answer is `AnySet` |
| Buttons.ButtonManager.IsNorm | livingroom/Buttons.cpp:162 | `is_any_set` over the normal masks |
| Buttons.ButtonManager.IsMode | livingroom/Buttons.cpp:163 | `is_any_set` over the mode masks |
| Buttons.ButtonManager.IsMod | livingroom/Buttons.cpp:164 | `is_any_set` over the modifier masks |
| Buttons.ButtonManager.GetBits | livingroom/Buttons.cpp:167-175 | the loop's vector is `Bits`, one bit per mask |
| Buttons.ButtonManager.GetNorm | livingroom/Buttons.cpp:178 | `get_bits` over the normal masks |
| Buttons.ButtonManager.GetMode | livingroom/Buttons.cpp:179 | `get_bits` over the mode masks |
| Buttons.ButtonManager.GetMod | livingroom/Buttons.cpp:180 | `get_bits` over the modifier masks |
| Buttons.ButtonManager.GetFirst | livingroom/Buttons.cpp:183-191 | the loop's index is `First`: the lowest set bit, or 0 |
| Fade.Lerp | livingroom/RGBLED.cpp:61-63 | a channel at step `step` of `steps` lies between the start and the target, is the start at step 0 and the target at the last step |
| Fade.LerpMonotone | livingroom/RGBLED.cpp:61-63 | as the step grows the channel moves monotonically toward the target |
| Fade.LerpColour | livingroom/RGBLED.cpp:55-63 | every channel lies between the start and the target; start at step 0, target at the last step |
| Fade.LerpColourToward | livingroom/RGBLED.cpp:55-63 | a later step lies between an earlier one and the target |
| Fade.Inverted | livingroom/RGBLED.cpp:66-68 | the active-low duty cycles `255 - channel` are in byte range exactly when the colour is; black is written as full duty |
| Fade.InvertedInvolution | livingroom/RGBLED.cpp:66-68 | the duty cycles written determine the colour |
| Fade.InitialValid | livingroom/RGBLED.cpp:5-14 | the constructor's one-step, zero-time state is a consistent fade at black |
| Fade.Carried | livingroom/RGBLED.cpp:38-39 | the refresh time moves forward by whole periods, never past `now`, and the remainder below 10 ms is carried to the next refresh |
| Fade.Refreshed | livingroom/RGBLED.cpp:34-69 | a refresh leaves a consistent fade with the same target and step count, and less than one period outstanding |
| Fade.Retargeted | livingroom/RGBLED.cpp:72-88 | `set_colour` starts a consistent fade from the colour shown to the new colour; `numSteps` periods cover the duration (`(numSteps - 1) * 10 <= duration < numSteps * 10`), and a duration from -9 to -1 truncates to one step |
| Fade.RefreshSnaps | livingroom/RGBLED.cpp:46-52 | once the step count reaches `num_steps` the colour snaps to the target; before that it is the colour of the advanced step |
| Fade.RefreshKeepsProgress | livingroom/RGBLED.cpp:38-40 | while a fade runs, steps times the period plus the carried time is unchanged by a refresh: no time is lost |
| Fade.RefreshTowardTarget | livingroom/RGBLED.cpp:34-69 | every refresh moves each channel from where it was toward the target, never past it |
| Fade.RefreshAtTarget | livingroom/RGBLED.cpp:46-63 | a fade that has reached its target stays there |
| Fade.InstantFade | livingroom/RGBLED.cpp:72-88 | after `set_colour(c, 0)` the colour is unchanged until a whole period has passed, and is `c` from then on |
| Fade.FadeCompletes | livingroom/RGBLED.cpp:34-88 | after `set_colour(c, d)` a refresh more than `d / 10` whole periods after the last one (so at the latest `d + 10` ms later) shows `c`; an earlier one shows the colour of the step reached; the two cases cover every time |
| Fade.FadeCompletesOverRun | livingroom/RGBLED.cpp:34-88 | after `set_colour(c, d)`, any run of refreshes in time order whose last one is `d + 10` ms or more after the last refresh before `set_colour` shows `c` |
| Fade.RunSnaps | livingroom/RGBLED.cpp:38-52 | while a fade runs, its step count stays in line with the time carried since a base point, so the first refresh `numSteps` periods after the base snaps to the target, and every later one stays there |
| Fade.RefreshAll | livingroom/RGBLED.cpp:34-69 | any run of refreshes keeps the fade consistent, with the same target and step count |
| Fade.StaysAtTarget | livingroom/RGBLED.cpp:46-63 | once at its target, a fade stays there over any run of refreshes |
| Fade.ApproachesTarget | livingroom/RGBLED.cpp:34-69 | over any run of refreshes every channel stays between the colour at the start and the target |
| RgbLed.RGBLED.constructor | livingroom/RGBLED.cpp:5-14 | the initial fade: step 0, one step, no refresh time, black; pins not yet outputs |
| RgbLed.RGBLED.Attach | livingroom/RGBLED.cpp:21-28 | the pins become outputs and the refresh clock restarts at `now`; the fade is otherwise unchanged |
| RgbLed.RGBLED.Refresh | livingroom/RGBLED.cpp:34-69 | the new fade state is `Refreshed`, and the duty cycles written are the inverted current colour |
| RgbLed.RGBLED.RefreshUnforced | livingroom/RGBLED.cpp:31 | `refresh()` is `refresh(false)`, which behaves like a forced refresh |
| RgbLed.RGBLED.SetColour | livingroom/RGBLED.cpp:72-88 | the new fade state is `Retargeted` |
| Lights.Busy | livingroom/Lighting.cpp:61-66 | a switch is busy exactly when `now` lies less than 500 ms after the last change, also across the wrap of the clock |
| Lights.RefreshPhases | livingroom/Lighting.cpp:46-58 | the servo is left alone up to 250 ms, returned to idle from 250 to 500 ms, and detached after 500 ms |
| Lights.BusyWindow | livingroom/Lighting.cpp:61-66 | `d` ms after a change a switch is busy exactly when `d < 500` |
| Lights.SetThenSettles | livingroom/Lighting.cpp:20-58 | after `set(s)`, a refresh in the press window returns the servo to idle and a later one detaches it; `get` reports `s` throughout |
| Lights.RefreshKeepsState | livingroom/Lighting.cpp:46-58 | `refresh` changes neither the state nor the time of the last change |
| Lights.BusyWhenSet | livingroom/Lighting.cpp:20-27 | a switch is busy at the moment it is set |
| Lights.Lighting.constructor | livingroom/Lighting.cpp:5-14 | the angles are stored; state off, last change 0, servo detached |
| Lights.Lighting.Set | livingroom/Lighting.cpp:20-27 | the servo attaches and moves to the on or off angle, the state and the time are recorded; afterwards `get` is the new state and the switch is busy |
| Lights.Lighting.Init | livingroom/Lighting.cpp:30-36 | the servo attaches and moves to idle and the time is recorded; the state is unchanged |
| Lights.Lighting.Refresh | livingroom/Lighting.cpp:46-58 | the servo as `RefreshLight` gives it; the state and the time are unchanged |
| Lights.Lighting.IsBusy | livingroom/Lighting.cpp:61-66 | busy exactly within the 500 ms window after the last change |
| Colour15.Field | livingroom/livingroom.cpp:167-169 | `(e >> k) & 0x1F` is a five-bit field |
| Colour15.Decode15 | livingroom/livingroom.cpp:165-169 | every decoded channel is a multiple of 8 from 0 to 248 |
| Colour15.ShiftIn | livingroom.cpp:93-95 | shifting `out` left by five places and or-ing in `x < 32` gives `out * 32 + x` |
| Colour15.Encode15 | livingroom.cpp:92-95 | the packed value is a 15-bit number |
| Colour15.DecodeLow15 | livingroom/livingroom.cpp:167-169 | only the low fifteen bits of the encoded value matter |
| Colour15.EncodeDecode | livingroom.cpp:81-95 | encoding a decoded colour gives back the low fifteen bits of the value |
| Colour15.DecodeEncode | livingroom.cpp:81-95 | decoding an encoded colour rounds each channel down to a multiple of 8; a decoded colour comes back unchanged |
| LivingRoom.SwitchRecorded | livingroom/livingroom.cpp:127-135 | the wall-switch state recorded by a call is the pin read in that call |
| LivingRoom.AtMostOneSet | livingroom/livingroom.cpp:141-149 | at most one switch is set per call |
| LivingRoom.KitchenFirst | livingroom/livingroom.cpp:141-149 | the kitchen is set exactly when wanted and the lounge is not busy; the lounge exactly when wanted, the kitchen was not set in this call, and the kitchen is not busy |
| LivingRoom.RequestsClearedWhenSet | livingroom/livingroom.cpp:142-149 | a request is cleared exactly when its switch is set; otherwise it waits |
| LivingRoom.ReleaseToggles | livingroom/livingroom.cpp:129-134 | a release asks both lights for the same state: off if both were on, on otherwise |
| LivingRoom.NoReleaseKeepsTargets | livingroom/livingroom.cpp:129-134 | without a release the targets are those of the last request |
| LivingRoom.SetTakesTarget | livingroom/livingroom.cpp:142-149 | a switch that is set takes its target and the time of the call; one that is not keeps both |
| LivingRoom.WashingEdges | livingroom/livingroom.cpp:222-240 | the recorded state follows the reading; a report is made exactly on a falling edge; only a rising edge moves the start time |
| LivingRoom.RunningKeepsStart | livingroom/livingroom.cpp:231-239 | while the machine keeps running nothing is reported and the start time is kept |
| LivingRoom.WashReported | livingroom/livingroom.cpp:231-237 | a wash that starts at `t1` and stops at `t2` is reported once, as the whole seconds between them |
| LivingRoom.WashingRunAppend | livingroom/livingroom.cpp:222-240 | feeding one more reading continues the run from where it stood |
| LivingRoom.SlowLoopCadence | livingroom/livingroom.cpp:283-287 | after a pass that runs `slow_loop`, the next one is exactly 1000 passes later |
| LivingRoom.Room.constructor | livingroom/livingroom.cpp:87-98 | the two switches and the LED are those given; nothing requested, the wall switch not pressed, no wash, the counter at zero |
| LivingRoom.Room.SetLightKitchen | livingroom/livingroom.cpp:102 | only records the request and its target (any non-zero value is on) |
| LivingRoom.Room.SetLightLounge | livingroom/livingroom.cpp:103 | only records the request and its target |
| LivingRoom.Room.GetLightKitchen | livingroom/livingroom.cpp:106 | 1 exactly when the kitchen switch is on, else 0 |
| LivingRoom.Room.GetLightLounge | livingroom/livingroom.cpp:107 | 1 exactly when the lounge switch is on, else 0 |
| LivingRoom.Room.LightsRefresh | livingroom/livingroom.cpp:122-150 | the switches, requests and targets after the call, and which switches it set, are `LightsStep` |
| LivingRoom.Room.HandleSwitch | livingroom/livingroom.cpp:126-135 | the wall-switch edge as `SwitchEdge` gives it |
| LivingRoom.Room.ArbitrateLights | livingroom/livingroom.cpp:141-149 | the pending requests are carried out as `Arbitrate` gives them |
| LivingRoom.Room.SetRgbledColour | livingroom/livingroom.cpp:162-171 | the LED fades to the decoded colour over the duration |
| LivingRoom.Room.SetRgbledColourInstant | livingroom/livingroom.cpp:175 | a fade of duration 0, which is a single step |
| LivingRoom.Room.SetRgbledColourFast | livingroom/livingroom.cpp:176 | a fade of 250 ms, which is 26 steps |
| LivingRoom.Room.RgbledRefresh | livingroom/livingroom.cpp:193 | a forced LED refresh and the duty cycles it writes |
| LivingRoom.Room.WashingRefresh | livingroom/livingroom.cpp:222-240 | the sensor statics and the report as `WashingStep` gives them; nothing else changes |
| LivingRoom.Room.Loop | livingroom/livingroom.cpp:276-288 | the LED and the lights are refreshed on every pass; the counter goes up by one; the washing sensor runs exactly when the new counter is a multiple of 1000 |
| Sketch.Int16 | livingroom.cpp:50 | `(int)millis()` on a 16-bit `int` is the two's-complement value congruent to the clock modulo 2^16 |
| Sketch.TickBeforeWrap | livingroom.cpp:50 | until the cast wraps, `rgb_update` acts exactly on clock values that are multiples of 10 ms |
| Sketch.RgbTick | livingroom.cpp:51-65 | one active tick keeps the 100-step fade consistent and the target unchanged |
| Sketch.RgbUpdated | livingroom.cpp:47-71 | the duty cycles are written exactly on a tick, as the inverted new colour; otherwise nothing changes |
| Sketch.Ticks | livingroom.cpp:47-71 | any number of ticks keeps the fade consistent |
| Sketch.TicksProgress | livingroom.cpp:51-58 | before the hundredth step, `n` ticks show step `step + n` of the fade |
| Sketch.TicksLast | livingroom.cpp:51-65 | `n + 1` ticks are `n` ticks followed by one more |
| Sketch.FadeReachesTarget | livingroom.cpp:60-65 | the fade ends exactly on the target and comes to rest there |
| Sketch.RgbSet | livingroom.cpp:74-86 | `set_rgb` starts a consistent fade from the colour shown to the decoded colour |
| Sketch.RgbGet | livingroom.cpp:89-96 | the read-back value is a 15-bit number |
| Sketch.RgbGetAsWritten | livingroom.cpp:89-96 | as written, `get_rgb` yields no value |
| Sketch.GetAfterSet | livingroom.cpp:74-96 | reading the property after `set_rgb(raw)` gives the low fifteen bits of `raw` |
| Sketch.GetAfterSetAsWritten | livingroom.cpp:74-96 | as written, that read-back never gives the value set |
| Sketch.ChangesSound | livingroom.cpp:98-111 | every event names a button that changed, with the kind its new reading calls for |
| Sketch.ChangesOrdered | livingroom.cpp:98-111 | events come in strictly increasing button order, so no button is reported twice |
| Sketch.ChangesComplete | livingroom.cpp:98-111 | every button that changed is reported |
| Sketch.FirstScanAllHigh | livingroom.cpp:18 | with the initializer `{BTN_UP}`, a first scan with every pin high reports buttons 1 to 7 going up |
| Sketch.LivingRoomSketch.constructor | livingroom.cpp:18 | button 0 starts `BTN_UP` and the others `BTN_DOWN`; the fade starts black, aiming at white, at step 0 |
| Sketch.LivingRoomSketch.RgbUpdate | livingroom.cpp:47-71 | the new fade state and the duty cycles written are `RgbUpdated` |
| Sketch.LivingRoomSketch.SetRgb | livingroom.cpp:74-86 | the new fade state is `RgbSet` |
| Sketch.LivingRoomSketch.GetRgb | livingroom.cpp:89-96 | the shift-and-or chain computes `RgbGet`, the corrected read-back |
| Sketch.LivingRoomSketch.GetRgbAsWritten | livingroom.cpp:89-96 | as written: no value |
| Sketch.LivingRoomSketch.MonitorButtons | livingroom.cpp:98-111 | after the scan every `btn_state` entry is the new reading; the events are those of `ChangesUpTo` |

## Left out

- Clock: each call reads the clock once, as the parameter `now`. `set_btn_states` reads `millis()` up to four times on the press path (`reset_hold_timer`, `hold_timer_expired`, `fire_press_event` and `stop_hold_timer`), and the model treats those reads as one value.
- Callbacks: each callback field is a boolean (set or null). A call returns the callbacks it invokes as a sequence of events. SHET events and actions are likewise returned values. The SHETSource transport, registration in the `*_init` functions, `setup` and `DoSHET` are not modelled.
- Hardware: pins, `pinMode`, `analogWrite` and `digitalRead` are parameters or results. The `Servo` library is modelled as its attached flag and the last angle written, so `read()` returns that angle.
- Washing sensor: the analog reading and its threshold of 512 are replaced by the boolean reading.
- ButtonModel.Config: allows at most eight masks per list, because `get_bits` packs one bit per mask into a `uint8_t` and more masks would be lost. It also requires `numModes != 0` even when there are no mode masks. The source would accept `num_modes == 0` in that case, because `fire_mode_change_event` and its `% num_modes` are then never reached.
- Buttons.ButtonManager.FireModeChangeEvent: the packed mode is an unbounded `nat`. A C `int` could overflow for a large mode number or many mode masks.
- Fade.Lerp: `step`, `num_steps` and the channel products are unbounded integers. On the 16-bit AVR `int`, `delta * step` (with `step` at most `num_steps - 1`) overflows once a fade has more than 129 steps, or more than 133 for colours decoded from the 15-bit value, whose channels are at most 248 (a duration above about 1.3 s), and `step` wraps after a long pause between refreshes.
- LivingRoom.Room.Loop: the loop counter is a `nat`. The firmware's 16-bit `static int counter` overflows after 32767 passes, and that overflow is not modelled.
- RgbLed.RGBLED.SetColour: requires a duration above -10. With C's truncating division, -9 to -1 give one step, as 0 does, and the model covers them. From -10 to -19 `num_steps` is 0, and the next refresh divides by zero. From -20 down it is negative, and the next refresh snaps to the target at once. Neither case is modelled. The only callers pass 0 and 250 (livingroom/livingroom.cpp:175-176).
- Fade.Retargeted: requires a duration above -10, for the same reason as `SetColour`.
- LivingRoom.Room.SetRgbledColour: requires a duration above -10, for the same reason as `SetColour`.
- Fade.FadeCompletesOverRun: takes a non-negative duration, which is what both callers pass.
- Colour15.Encode15: requires channels in byte range, which is all that `set_rgb` and the initial colour produce.
- Sketch.RgbTick: requires a consistent fade whose target is in byte range, the only states the sketch reaches.
- LivingRoom.Room.constructor: takes the already constructed switches and LED rather than building them.
- Lights.Lighting.Get: has no contract of its own. It is the state field, and `Set`, `Init` and `Refresh` state what it returns.
- Lighting::init: defined in livingroom/Lighting.cpp but not declared in livingroom/Lighting.h. It is modelled as `Init`.
- The remaining pieces of livingroom.cpp are not part of this model: `btn_events`, the `setup` registration and the `loop` body.

## Findings

| source | as written | input that shows it | evidently intended | confidence | as-written member | corrected member |
|---|---|---|---|---|---|---|
| livingroom.cpp:89-96 | `get_rgb` computes the packed colour into `out` but has no `return`, so the property getter yields an undefined value | any state, e.g. after `set_rgb(0x7FFF)` the getter does not return `0x7FFF` | return `out`, the target colour packed as five bits per channel | not executed | Sketch.GetAfterSetAsWritten | Sketch.GetAfterSet |
