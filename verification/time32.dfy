/** Millisecond time stamps as the Arduino `millis()` counter returns them:
    an `unsigned long` of 32 bits that wraps around.  Every elapsed-time
    computation of the panel is an unsigned subtraction modulo 2^32. */
module Time32 {
  import opened Arith

  const MOD: int := 0x1_0000_0000

  /** A value of `millis()` or of a stored `unsigned long` time stamp. */
  type Millis = t: int | 0 <= t < MOD

  /** `now - since` on `unsigned long`: the time that has passed since `since`,
      counted modulo 2^32. */
  function Elapsed(now: Millis, since: Millis): (d: Millis)
    ensures (since + d) % MOD == now
  {
    (now - since) % MOD
  }

  /** `t + d` on `unsigned long`: the time stamp `d` milliseconds after `t`. */
  function Advance(t: Millis, d: nat): (r: Millis)
    ensures Elapsed(r, t) == d % MOD
  {
    (t + d) % MOD
  }

  /** Unsigned subtraction is exact across the wrap-around: `d` milliseconds
      after `t` (with `d` below 2^32) the elapsed time is `d` again. */
  lemma ElapsedAdvance(t: Millis, d: nat)
    requires d < MOD
    ensures Elapsed(Advance(t, d), t) == d
  {
  }

  /** Elapsed time is the unique `d` that takes `since` to `now`. */
  lemma ElapsedUnique(now: Millis, since: Millis, d: nat)
    requires d < MOD
    requires Advance(since, d) == now
    ensures Elapsed(now, since) == d
  {
    ElapsedAdvance(since, d);
  }

  /** Advancing `since` by the elapsed time reaches `now`. */
  lemma AdvanceElapsed(now: Millis, since: Millis)
    ensures Advance(since, Elapsed(now, since)) == now
  {
  }

  /** Moving the reference point `d` milliseconds forward, but not past
      `now`, takes exactly `d` off the elapsed time: no time is lost. */
  lemma ElapsedFromAdvance(now: Millis, since: Millis, d: nat)
    requires d <= Elapsed(now, since)
    ensures Elapsed(now, Advance(since, d)) == Elapsed(now, since) - d
  {
    var e := Elapsed(now, since);
    var t := Advance(since, d);
    AdvanceElapsed(now, since);
    assert t + (e - d) == since + e || t + (e - d) == since + e - MOD;
    ElapsedUnique(now, t, e - d);
  }

  /** Two advances in a row are one advance by the sum. */
  lemma AdvanceAdd(t: Millis, a: nat, b: nat)
    ensures Advance(Advance(t, a), b) == Advance(t, a + b)
  {
    var r := Advance(t, a);
    DivModUnique(t + a, MOD, (t + a) / MOD, r);
    DivModUnique(r + b, MOD, (r + b) / MOD, Advance(r, b));
    DivModUnique(t + a + b, MOD, (t + a) / MOD + (r + b) / MOD, Advance(r, b));
  }
}
