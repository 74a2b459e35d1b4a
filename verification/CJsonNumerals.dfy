/** The numbers of section 6 of RFC 8259, as tools/cJSON/cJSON.c reads them. */
module CJsonNumerals {
  import opened CJson
  import opened CJsonRoundTrip

  /** Sign, whole part, fraction and exponent of a numeral; an empty fraction or exponent is not written. */
  datatype Numeral = Numeral(negative: bool, whole: string, fraction: string, mark: char, sign: string, exponent: string)

  predicate AllDigits(ds: string) { forall i | 0 <= i < |ds| :: IsDigit(ds[i]) }

  predicate Sound(n: Numeral) {
    && AllDigits(n.whole) && AllDigits(n.fraction) && AllDigits(n.exponent)
    && n.whole != "" && (n.whole[0] == '0' ==> n.whole == "0")
    && (n.mark == 'e' || n.mark == 'E') && n.sign in ["", "+", "-"]
  }

  function Text(n: Numeral): string {
    (if n.negative then "-" else "") + (n.whole + (FractionText(n) + ExponentText(n)))
  }

  function FractionText(n: Numeral): string { if n.fraction == "" then "" else "." + n.fraction }

  function ExponentText(n: Numeral): string { if n.exponent == "" then "" else [n.mark] + n.sign + n.exponent }

  /** The number that digits write behind others, which have made n. */
  function Behind(n: nat, ds: string): nat
    requires AllDigits(ds)
  {
    if ds == "" then n else 10 * Behind(n, ds[..|ds| - 1]) + (ds[|ds| - 1] as int - '0' as int)
  }

  function Value(ds: string): nat
    requires AllDigits(ds)
  {
    Behind(0, ds)
  }

  lemma {:induction false} BehindFirst(n: nat, ds: string)
    requires AllDigits(ds) && ds != ""
    ensures Behind(n, ds) == Behind(n * 10 + (ds[0] as int - '0' as int), ds[1..])
    decreases |ds|
  {
    if |ds| > 1 {
      var front := ds[..|ds| - 1];
      BehindFirst(n, front);
      assert ds[1..][..|ds| - 2] == front[1..];
    } else {
      assert Behind(n, ds[..0]) == n;
    }
  }

  lemma {:induction false} DigitsRead(n: nat, ds: string, u: string)
    requires AllDigits(ds) && !IsDigit(At(u))
    ensures Digits(n, ds + u) == (Behind(n, ds), u)
    decreases |ds|
  {
    if ds == "" {
      assert ds + u == u;
    } else {
      assert (ds + u)[1..] == ds[1..] + u;
      BehindFirst(n, ds);
      DigitsRead(n * 10 + (ds[0] as int - '0' as int), ds[1..], u);
    }
  }

  lemma {:induction false} BehindBoth(n: nat, a: string, b: string)
    requires AllDigits(a) && AllDigits(b)
    ensures AllDigits(a + b) && Behind(n, a + b) == Behind(Behind(n, a), b)
  {
    if b == "" {
      assert a + b == a;
    } else {
      var front := b[..|b| - 1];
      BehindBoth(n, a, front);
      assert (a + b)[..|a + b| - 1] == a + front;
    }
  }

  lemma WholeRead(whole: string, u: string)
    requires AllDigits(whole) && whole != "" && (whole[0] == '0' ==> whole == "0") && !IsDigit(At(u))
    ensures var s := whole + u;
            var s2 := if At(s) == '0' then s[1..] else s;
            (if '1' <= At(s2) <= '9' then Digits(0, s2) else (0, s2)) == (Value(whole), u)
  {
    var s := whole + u;
    if whole == "0" {
      assert s[1..] == u && Behind(0, "0"[..0]) == 0;
    } else {
      DigitsRead(0, whole, u);
    }
  }

  lemma MantissaRead(n: Numeral, u: string)
    requires Sound(n) && !IsDigit(At(u)) && At(u) != '.'
    ensures AllDigits(n.whole + n.fraction)
    ensures Mantissa(n.whole + (FractionText(n) + u)) == (Value(n.whole + n.fraction), -|n.fraction|, u)
  {
    var rest := FractionText(n) + u;
    BehindBoth(0, n.whole, n.fraction);
    if n.fraction == "" {
      assert rest == u && n.whole + n.fraction == n.whole;
      WholeRead(n.whole, u);
    } else {
      assert rest == "." + (n.fraction + u) && rest[1..] == n.fraction + u && rest[1..][0] == n.fraction[0];
      WholeRead(n.whole, rest);
      DigitsRead(Value(n.whole), n.fraction, u);
    }
  }

  lemma ExponentRead(n: Numeral, u: string)
    requires Sound(n) && EndsNumber(u)
    ensures Exponent(ExponentText(n) + u) == (if n.sign == "-" && n.exponent != "" then 0 - Value(n.exponent) else Value(n.exponent), u)
  {
    var s := ExponentText(n) + u;
    if n.exponent == "" {
      assert s == u;
    } else {
      DigitsRead(0, n.exponent, u);
      assert s[1..] == n.sign + (n.exponent + u);
      if n.sign == "" {
        assert s[1..] == n.exponent + u;
        assert s[1..][0] == n.exponent[0];
      } else {
        assert s[1..][0] == n.sign[0] && s[2..] == n.exponent + u;
      }
    }
  }

  /** The number a numeral writes: its digits, and the exponent less the number of digits behind the point. */
  function Number10(n: Numeral): Json
    requires Sound(n)
  {
    DigitsTogether(n);
    var m: int, e: int := Value(n.whole + n.fraction), Value(n.exponent);
    Number(if n.negative then 0 - m else m, (if n.sign == "-" then 0 - e else e) - |n.fraction|)
  }

  lemma DigitsTogether(n: Numeral)
    requires Sound(n)
    ensures AllDigits(n.whole + n.fraction)
  {
  }

  /** The value read for a numeral is the number it writes. */
  lemma NumeralRead(n: Numeral, u: string)
    requires Sound(n) && EndsNumber(u)
    ensures ParseValue(Text(n) + u) == Ok(Number10(n), u)
  {
    var rest := ExponentText(n) + u;
    var s := n.whole + (FractionText(n) + rest);
    ExponentRead(n, u);
    EmptyOrMark(n, u);
    MantissaRead(n, rest);
    NoValue(n);
    SignRead(n, s, u);
    assert IsDigit(n.whole[0]);
    hide Mantissa, Exponent, Value, ExponentText, FractionText, AllDigits, EndsNumber, Text, ParseNumber, ParseValue;
    NumberByParts(Text(n) + u);
    NumberFirst(Text(n) + u);
  }

  lemma SignRead(n: Numeral, s: string, u: string)
    requires Sound(n) && s == n.whole + (FractionText(n) + (ExponentText(n) + u))
    ensures var t := Text(n) + u;
            if n.negative then At(t) == '-' && t[1..] == s else t == s && At(t) == n.whole[0] != '-'
  {
    hide FractionText, ExponentText;
    assert Text(n) + u == (if n.negative then "-" else "") + s;
    assert n.negative ==> ("-" + s)[1..] == s;
  }

  lemma NumberByParts(s: string)
    ensures var t := if At(s) == '-' then s[1..] else s;
            var (m, scale, s4) := Mantissa(t);
            var (e, s6) := Exponent(s4);
            ParseNumber(s) == Ok(Number(if At(s) == '-' then 0 - m else m, scale + e), s6)
  {
    hide Mantissa, Exponent;
  }

  lemma NumberFirst(s: string)
    requires At(s) == '-' || IsDigit(At(s))
    ensures ParseValue(s) == ParseNumber(s)
  {
    hide ParseNumber, ParseString, ParseItems, ParseMembers, Skip;
  }

  lemma NoValue(n: Numeral)
    requires Sound(n)
    ensures n.exponent == "" ==> Value(n.exponent) == 0
  {
  }

  lemma EmptyOrMark(n: Numeral, u: string)
    requires Sound(n) && EndsNumber(u)
    ensures var rest := ExponentText(n) + u; !IsDigit(At(rest)) && At(rest) != '.'
  {
    assert n.exponent == "" ==> ExponentText(n) + u == u;
  }

  /** `1e2` is a hundred. */
  lemma Hundred()
    ensures ParseValue("1e2") == Ok(Number(1, 2), "")
  {
    var n := Numeral(false, "1", "", 'e', "", "2");
    assert Behind(0, "") == 0 && "1"[..0] == "" && "2"[..0] == "";
    assert Value("1") == 1 && Value("2") == 2 && "1" + "" == "1" && Text(n) + "" == "1e2";
    hide ParseValue;
    NumeralRead(n, "");
  }

  /** `-2.50E-1` is a minus quarter. */
  lemma MinusQuarter()
    ensures ParseValue("-2.50E-1") == Ok(Number(-250, -3), "")
  {
    var n := Numeral(true, "2", "50", 'E', "-", "1");
    assert Behind(0, "") == 0 && "1"[..0] == "" && "2"[..0] == "" && "250"[..2] == "25" && "25"[..1] == "2";
    assert Value("1") == 1 && Value("2") == 2 && Value("25") == 25 && Value("250") == 250;
    assert "2" + "50" == "250" && Text(n) + "" == "-2.50E-1";
    hide ParseValue, Behind;
    NumeralRead(n, "");
  }
}
