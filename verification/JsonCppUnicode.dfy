/** How tools/jsoncpp/json_reader.cpp turns hexadecimal digits into code points and these into bytes. */
module JsonCppUnicode {
  import opened Bits
  import opened Utf8

  function UnitDigits(s: string, n: nat): int
    requires n <= |s|
  {
    if n == 0 then 0 else UnitDigits(s, n - 1) * 16 + HexValue(s[n - 1])
  }

  lemma UnitDigitsStep(s: string, n: nat)
    requires n < |s|
    ensures UnitDigits(s, n + 1) == UnitDigits(s, n) * 16 + HexValue(s[n])
  {
  }

  lemma UnitDigitsAll(s: string)
    requires |s| >= 4 && IsHex4(s)
    ensures UnitDigits(s, 4) == ParseHex4(s)
  {
    assert UnitDigits(s, 0) == 0;
    UnitDigitsStep(s, 0);
    UnitDigitsStep(s, 1);
    UnitDigitsStep(s, 2);
    UnitDigitsStep(s, 3);
    hide UnitDigits, HexValue;
  }

  /** `0x10000 + ((unicode & 0x3FF) << 10) + (surrogatePair & 0x3FF)`. */
  function PairValue(unicode: nat, surrogatePair: nat): (cp: nat)
    requires unicode < 0x10000 && surrogatePair < 0x10000
    ensures cp == Combine(unicode, surrogatePair)
  {
    Masks(unicode);
    Masks(surrogatePair);
    ShlTen(And(unicode, 0x3FF));
    0x10000 + Shl(And(unicode, 0x3FF), 10) + And(surrogatePair, 0x3FF)
  }

  /** codePointToUTF8: each byte is a marker with six bits or fewer of the code point. */
  function CodePointToUtf8(cp: nat): string
    requires cp < 0x110000
  {
    if cp <= 0x7F then [cp as char]
    else if cp <= 0x7FF then [Lead2(cp / 64), Trail(cp)]
    else if cp <= 0xFFFF then [Lead3(cp / 4096), Trail(cp / 64), Trail(cp)]
    else [Lead4(cp / 262144), Trail(cp / 4096), Trail(cp / 64), Trail(cp)]
  }

  /** What it makes is the encoding of the standard. */
  lemma CodePointIsEncoded(cp: nat)
    requires cp < 0x110000
    ensures CodePointToUtf8(cp) == Encode(cp)
  {
    hide Trail, Lead2, Lead3, Lead4;
    if cp >= 0x80 {
      assert cp < 0x800 ==> cp / 64 % 32 == cp / 64;
      assert cp < 0x10000 ==> cp / 4096 % 16 == cp / 4096;
      assert cp / 262144 % 8 == cp / 262144;
    }
  }

  function Trail(x: nat): (c: char)
    ensures c as int == 0x80 + x % 64
  {
    Continuation(x);
    Or(0x80, And(0x3F, x)) as char
  }

  function Lead2(x: nat): (c: char)
    ensures c as int == 0xC0 + x % 32
  {
    LeadByte(x);
    Or(0xC0, And(0x1F, x)) as char
  }

  function Lead3(x: nat): (c: char)
    ensures c as int == 0xE0 + x % 16
  {
    LeadByte(x);
    Or(0xE0, And(0xF, x)) as char
  }

  function Lead4(x: nat): (c: char)
    ensures c as int == 0xF0 + x % 8
  {
    LeadByte(x);
    Or(0xF0, And(0x7, x)) as char
  }

  lemma {:induction false} AndCommutes(x: nat, y: nat)
    ensures And(x, y) == And(y, x)
    decreases x
  {
    if x != 0 && y != 0 {
      AndCommutes(x / 2, y / 2);
    }
  }

  lemma Continuation(x: nat)
    ensures Or(0x80, And(0x3F, x)) == 0x80 + x % 64
  {
    hide And, Or;
    AndCommutes(0x3F, x);
    Masks(x);
    Powers();
    OrHigh(x % 64, 2, 6);
  }

  lemma LeadByte(x: nat)
    ensures Or(0xC0, And(0x1F, x)) == 0xC0 + x % 32
    ensures Or(0xE0, And(0xF, x)) == 0xE0 + x % 16
    ensures Or(0xF0, And(0x7, x)) == 0xF0 + x % 8
  {
    hide And, Or, Shl, Pow2;
    AndCommutes(0x1F, x);
    AndCommutes(0xF, x);
    AndCommutes(0x7, x);
    Masks(x);
    Powers();
    OrHigh(x % 32, 6, 5);
    OrHigh(x % 16, 14, 4);
    OrHigh(x % 8, 30, 3);
  }
}
