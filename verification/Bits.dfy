/** Bitwise operators of C on non-negative integers, and the masks the codecs use. */
module Bits {
  function And(x: nat, y: nat): nat {
    if x == 0 || y == 0 then 0 else (if x % 2 == 1 && y % 2 == 1 then 1 else 0) + 2 * And(x / 2, y / 2)
  }

  function Or(x: nat, y: nat): nat {
    if x == 0 then y
    else if y == 0 then x
    else (if x % 2 == 1 || y % 2 == 1 then 1 else 0) + 2 * Or(x / 2, y / 2)
  }

  function Xor(x: nat, y: nat): nat {
    if x == 0 then y
    else if y == 0 then x
    else (if x % 2 != y % 2 then 1 else 0) + 2 * Xor(x / 2, y / 2)
  }

  function Pow2(n: nat): (p: nat)
    ensures p >= 1
  {
    if n == 0 then 1 else 2 * Pow2(n - 1)
  }

  /** `h << n` without overflow. */
  function Shl(h: nat, n: nat): nat { if n == 0 then h else 2 * Shl(h, n - 1) }

  /** The low bits of a number. */
  function Low(x: nat, n: nat): nat { if n == 0 then 0 else x % 2 + 2 * Low(x / 2, n - 1) }

  lemma {:induction false} AndLow(x: nat, n: nat)
    ensures And(x, Pow2(n) - 1) == Low(x, n)
  {
    if n > 0 {
      AndLow(x / 2, n - 1);
      assert (Pow2(n) - 1) / 2 == Pow2(n - 1) - 1 && (Pow2(n) - 1) % 2 == 1;
    }
  }

  lemma Low3(x: nat)
    ensures Low(x, 3) == x % 8
  {
    assert Low(x, 3) == x % 2 + 2 * Low(x / 2, 2) && Low(x / 2, 2) == x / 2 % 2 + 2 * Low(x / 4, 1);
    assert Low(x / 4, 1) == x / 4 % 2 + 2 * Low(x / 8, 0);
  }

  lemma LowShift3(x: nat, n: nat)
    ensures Low(x, n + 3) == x % 8 + 8 * Low(x / 8, n)
  {
    assert Low(x, n + 3) == x % 2 + 2 * Low(x / 2, n + 2) && Low(x / 2, n + 2) == x / 2 % 2 + 2 * Low(x / 4, n + 1);
    assert Low(x / 4, n + 1) == x / 4 % 2 + 2 * Low(x / 8, n);
  }

  lemma Low6(x: nat)
    ensures Low(x, 6) == x % 64 && Low(x, 4) == x % 16 && Low(x, 5) == x % 32
  {
    hide Low;
    LowShift3(x, 3);
    Low3(x / 8);
    LowShift3(x, 1);
    LowShift3(x, 2);
    LowSmall(x / 8);
    Eighths(x);
  }

  lemma Eighths(x: nat)
    ensures x % 8 + 8 * (x / 8 % 8) == x % 64
    ensures x % 8 + 8 * (x / 8 % 4) == x % 32
    ensures x % 8 + 8 * (x / 8 % 2) == x % 16
  {
    var q := x / 8;
    assert q / 8 == x / 64 && q / 4 == x / 32 && q / 2 == x / 16;
  }

  lemma LowSmall(x: nat)
    ensures Low(x, 1) == x % 2 && Low(x, 2) == x % 4
  {
    var y := x / 2;
    assert Low(y, 1) == y % 2 + 2 * Low(y / 2, 0);
    assert Low(x, 2) == x % 2 + 2 * Low(y, 1);
  }

  lemma Low10(x: nat)
    ensures Low(x, 10) == x % 1024
  {
    hide Low;
    LowShift3(x, 7);
    LowShift3(x / 8, 4);
    Low6(x / 64);
    assert x / 8 / 8 == x / 64;
    Eighths(x);
    Sixteenths(x);
  }

  lemma Sixteenths(x: nat)
    ensures x % 64 + 64 * (x / 64 % 16) == x % 1024
  {
    assert x / 64 / 16 == x / 1024;
  }

  /** Masking with the low bits is taking a remainder. */
  lemma Masks(x: nat)
    ensures And(x, 0x7) == x % 8 && And(x, 0xF) == x % 16 && And(x, 0x1F) == x % 32
    ensures And(x, 0x3F) == x % 64 && And(x, 0x3FF) == x % 1024
  {
    Powers();
    hide And, Low, Pow2;
    AndLow(x, 3); AndLow(x, 4); AndLow(x, 5); AndLow(x, 6); AndLow(x, 10);
    Low3(x); Low6(x); Low10(x);
  }

  lemma Powers()
    ensures Pow2(3) == 8 && Pow2(4) == 16 && Pow2(5) == 32 && Pow2(6) == 64 && Pow2(10) == 1024
    ensures Shl(2, 6) == 0x80 && Shl(6, 5) == 0xC0 && Shl(14, 4) == 0xE0 && Shl(30, 3) == 0xF0
  {
    assert Pow2(10) == 32 * Pow2(5);
  }

  /** Setting high bits over low ones is adding. */
  lemma {:induction false} OrHigh(x: nat, h: nat, n: nat)
    requires x < Pow2(n)
    ensures Or(x, Shl(h, n)) == x + Shl(h, n) == Or(Shl(h, n), x)
  {
    if n > 0 {
      OrHigh(x / 2, h, n - 1);
      assert Shl(h, n) / 2 == Shl(h, n - 1);
    }
  }

  /** `(x | 0x80) & 0xBF`: a continuation byte. */
  lemma ContinuationByte(x: nat)
    ensures And(Or(x, 0x80), 0xBF) == 0x80 + x % 64
  {
    Powers();
    hide And, Or, Low, Pow2, Shl;
    ContinuationBits(x, 6);
    Low6(x);
  }

  /** Mask `10` followed by n ones, after setting the bit in front of them. */
  lemma {:induction false} ContinuationBits(x: nat, n: nat)
    ensures Shl(2, n) > 0 && And(Or(x, Shl(2, n)), Shl(2, n) + Pow2(n) - 1) == Shl(2, n) + Low(x, n)
  {
    hide And, Or;
    if n == 0 {
      ContinuationBase(x);
    } else {
      var s, m := Shl(2, n), Shl(2, n) + Pow2(n) - 1;
      ContinuationBits(x / 2, n - 1);
      assert s / 2 == Shl(2, n - 1) && s % 2 == 0 && s > 0;
      assert m / 2 == Shl(2, n - 1) + Pow2(n - 1) - 1 && m % 2 == 1;
      OrStep(x, s);
      AndStep(Or(x, s), m);
    }
  }

  lemma ContinuationBase(x: nat)
    ensures And(Or(x, 2), 2) == 2
  {
    assert Or(x, 2) == x % 2 + 2 * Or(x / 2, 1) && Or(x / 2, 1) % 2 == 1;
    assert And(Or(x / 2, 1), 1) == 1;
  }

  lemma OrStep(x: nat, y: nat)
    requires y > 0 && y % 2 == 0
    ensures Or(x, y) / 2 == Or(x / 2, y / 2) && Or(x, y) % 2 == x % 2
  {
  }

  lemma AndStep(x: nat, y: nat)
    requires y % 2 == 1
    ensures And(x, y) == x % 2 + 2 * And(x / 2, y / 2)
  {
  }

  lemma ShlTen(h: nat)
    ensures Shl(h, 10) == h * 1024
  {
    ShlTwo(h, 0); ShlTwo(h, 2); ShlTwo(h, 4); ShlTwo(h, 6); ShlTwo(h, 8);
  }

  lemma ShlTwo(h: nat, n: nat)
    ensures Shl(h, n + 2) == 4 * Shl(h, n)
  {
    assert Shl(h, n + 2) == 2 * Shl(h, n + 1);
  }
}
