/** The 15-bit colour encoding of the panel: five bits per channel, red in
    the lowest bits, then green, then blue.  Decoding (`set_rgbled_colour`
    in livingroom/livingroom.cpp and `set_rgb` in livingroom.cpp) widens
    each field to eight bits by `<< 3`; encoding (`get_rgb` in
    livingroom.cpp) keeps the top five bits of each channel. */
module Colour15 {
  import opened Arith
  import opened Fade

  /** `(e >> shift) & 0x1F` on a two's-complement `int`: the arithmetic
      shift is a floor division and the mask the non-negative remainder,
      which are Dafny's `/` and `%` for a positive divisor. */
  function Field(e: int, unit: nat): (f: int)
    requires unit > 0
    ensures 0 <= f < 32
  {
    (e / unit) % 32
  }

  /** A channel as decoding produces it: a multiple of 8 from 0 to 248. */
  predicate Widened(x: int)
  {
    0 <= x <= 248 && x % 8 == 0
  }

  predicate Decoded(c: Colour)
  {
    Widened(c.r) && Widened(c.g) && Widened(c.b)
  }

  /** Expand a 15-bit colour into three 8-bit channels. */
  function Decode15(e: int): (c: Colour)
    ensures Decoded(c) && InByteRange(c)
  {
    Colour(Field(e, 1) * 8, Field(e, 32) * 8, Field(e, 1024) * 8)
  }

  /** Bitwise or of two naturals, one bit at a time. */
  function Or(a: nat, b: nat): nat
  {
    if a == 0 && b == 0 then 0
    else Or(a / 2, b / 2) * 2 + (if a % 2 == 1 || b % 2 == 1 then 1 else 0)
  }

  /** Or-ing `x` below `2^k` into a value shifted left by `k` places adds it:
      the two have no bit in common. */
  lemma {:induction false} OrDisjoint(out: nat, x: nat, k: nat)
    requires x < Pow2(k)
    ensures Or(out * Pow2(k), x) == out * Pow2(k) + x
  {
    if k == 0 {
      assert x == 0;
      OrZero(out);
    } else {
      var p := Pow2(k - 1);
      assert out * Pow2(k) == (out * p) * 2;
      DivModUnique(out * Pow2(k), 2, out * p, 0);
      DivModUnique(x, 2, x / 2, x % 2);
      assert x / 2 < p;
      OrDisjoint(out, x / 2, k - 1);
    }
  }

  lemma {:induction false} OrZero(a: nat)
    ensures Or(a, 0) == a
  {
    if a != 0 {
      OrZero(a / 2);
    }
  }

  /** `(out << 5) | x` on an `int`: shift left by five places, then or. */
  function ShiftIn(out: nat, x: nat): (r: nat)
    requires x < 32
    ensures r == out * 32 + x
  {
    assert Pow2(5) == 32;
    OrDisjoint(out, x, 5);
    Or(out * 32, x)
  }

  /** Pack the top five bits of each channel, blue first, as `get_rgb`
      shifts them in. */
  function Encode15(c: Colour): (e: int)
    requires InByteRange(c)
    ensures 0 <= e < 32768
  {
    var out := 0;
    var out := ShiftIn(out, c.b / 8);
    var out := ShiftIn(out, c.g / 8);
    ShiftIn(out, c.r / 8)
  }

  /** Only the low fifteen bits of the encoded value matter. */
  lemma DecodeLow15(e: int)
    ensures Decode15(e) == Decode15(e % 32768)
  {
    var x := e % 32768;
    var q := e / 32768;
    DivModUnique(e, 32, q * 1024 + x / 32, x % 32);
    DivModUnique(e / 32, 32, q * 32 + x / 1024, (x / 32) % 32);
    DivModUnique(e, 1024, q * 32 + x / 1024, x % 1024);
    DivModUnique(e / 1024, 32, q, x / 1024);
  }

  /** Encoding a decoded colour gives back the low fifteen bits:
      `encode(decode(e)) == e & 0x7FFF`. */
  lemma EncodeDecode(e: int)
    ensures Encode15(Decode15(e)) == e % 32768
  {
    DecodeLow15(e);
    var x := e % 32768;
    var r, g, b := x % 32, (x / 32) % 32, x / 1024;
    DivModUnique(x / 32, 32, b, g);
    DivModUnique(x, 1024, b, g * 32 + r);
    assert Decode15(x) == Colour(r * 8, g * 8, b * 8);
    assert x == (b * 32 + g) * 32 + r;
  }

  /** Decoding an encoded colour rounds each channel down to a multiple of
      8; a colour that decoding produced comes back unchanged. */
  lemma DecodeEncode(c: Colour)
    requires InByteRange(c)
    ensures Decode15(Encode15(c)) == Colour(c.r / 8 * 8, c.g / 8 * 8, c.b / 8 * 8)
    ensures Decoded(c) ==> Decode15(Encode15(c)) == c
  {
    var r, g, b := c.r / 8, c.g / 8, c.b / 8;
    var e := Encode15(c);
    assert e == (b * 32 + g) * 32 + r;
    DivModUnique(e, 32, b * 32 + g, r);
    DivModUnique(e / 32, 32, b, g);
    DivModUnique(e, 1024, b, g * 32 + r);
    DivModUnique(b, 32, 0, b);
  }
}
