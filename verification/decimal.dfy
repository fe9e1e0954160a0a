/** Decimal text of a 32-bit integer, as `int.ToString()` writes it and
    `int.Parse` reads it back: the encoding of an event's version in a row key. */
module Decimal {

  import opened Wrappers

  const Int32Min: int := -0x8000_0000
  const Int32Max: int := 0x7FFF_FFFF

  /** The range of the source's `int`. */
  predicate IsInt32(v: int)
  {
    Int32Min <= v <= Int32Max
  }

  predicate IsDigit(c: char)
  {
    '0' <= c <= '9'
  }

  predicate AllDigits(s: string)
  {
    forall i :: 0 <= i < |s| ==> IsDigit(s[i])
  }

  function DigitChar(d: nat): (c: char)
    requires d < 10
    ensures IsDigit(c)
  {
    ('0' as int + d) as char
  }

  function DigitValue(c: char): (d: nat)
    requires IsDigit(c)
    ensures d < 10 && DigitChar(d) == c
  {
    c as int - '0' as int
  }

  /** The shortest decimal numeral of `n`, most significant digit first. */
  function FormatNat(n: nat): (s: string)
    ensures 1 <= |s| && AllDigits(s)
    decreases n
  {
    if n < 10 then [DigitChar(n)] else FormatNat(n / 10) + [DigitChar(n % 10)]
  }

  /** `int.ToString()` with the invariant culture: a minus sign for negatives. */
  function FormatInt(v: int): (s: string)
    ensures 1 <= |s|
    ensures s[0] == '-' <==> v < 0
  {
    if v < 0 then "-" + FormatNat(-v) else FormatNat(v)
  }

  /** The value of a string of decimal digits (leading zeros allowed). */
  function DigitsValue(s: string): nat
    requires AllDigits(s)
  {
    if |s| == 0 then 0 else DigitsValue(s[..|s| - 1]) * 10 + DigitValue(s[|s| - 1])
  }

  /** The text after an optional leading sign. */
  function Unsigned(s: string): (d: string)
    ensures |s| > 0 && (s[0] == '-' || s[0] == '+') ==> d == s[1..]
    ensures |s| == 0 || (s[0] != '-' && s[0] != '+') ==> d == s
  {
    if |s| > 0 && (s[0] == '-' || s[0] == '+') then s[1..] else s
  }

  /** The number an optional sign followed by digits denotes. */
  function Denoted(s: string): int
    requires AllDigits(Unsigned(s))
  {
    if |s| > 0 && s[0] == '-' then -(DigitsValue(Unsigned(s)) as int) else DigitsValue(Unsigned(s))
  }

  /** `int.Parse`: an optional sign, then at least one digit, and the value must
      fit the 32-bit range; anything else is the source's format or overflow
      exception, here `None`. */
  function ParseInt(s: string): (r: Option<int>)
    ensures r.Some? <==> |Unsigned(s)| > 0 && AllDigits(Unsigned(s)) && IsInt32(Denoted(s))
    ensures r.Some? ==> r.value == Denoted(s)
  {
    var digits := Unsigned(s);
    if |digits| == 0 || !AllDigits(digits) then None
    else if IsInt32(Denoted(s)) then Some(Denoted(s))
    else None
  }

  /** Digits with an optional sign are read as the number they denote. */
  lemma ParseReadsDigits()
    ensures ParseInt("12") == Some(12)
    ensures ParseInt("+7") == Some(7)
    ensures ParseInt("-30") == Some(-30)
  {
    assert Unsigned("12") == "12" && "12"[..1] == "1";
    assert DigitsValue("1") == 1;
    assert DigitsValue("12") == 12;
    assert Unsigned("+7") == "7";
    assert Unsigned("-30") == "30" && "30"[..1] == "3";
    assert DigitsValue("3") == 3;
    assert DigitsValue("30") == 30;
  }

  /** Empty text, a bare sign and text with a non-digit are rejected. */
  lemma ParseRejectsNonNumbers()
    ensures ParseInt("") == None && ParseInt("-") == None
    ensures ParseInt("abc") == None && ParseInt("1a") == None
  {
    assert Unsigned("-") == "";
    assert Unsigned("abc") == "abc" && !IsDigit("abc"[0]);
    assert Unsigned("1a") == "1a" && !IsDigit("1a"[1]);
  }

  /** Reading back a formatted natural gives the natural. */
  lemma {:induction false} DigitsValueFormat(n: nat)
    ensures DigitsValue(FormatNat(n)) == n
    decreases n
  {
    if n >= 10 {
      var s := FormatNat(n);
      assert s[..|s| - 1] == FormatNat(n / 10);
      DigitsValueFormat(n / 10);
    }
  }

  /** The row-key round trip: every 32-bit version parses back from its text. */
  lemma ParseFormat(v: int)
    requires IsInt32(v)
    ensures ParseInt(FormatInt(v)) == Some(v)
  {
    var s := FormatInt(v);
    if v < 0 {
      assert s[1..] == FormatNat(-v);
      DigitsValueFormat(-v);
    } else {
      DigitsValueFormat(v);
    }
  }

  /** Distinct integers have distinct decimal texts, whatever their size. */
  lemma FormatIntInjective(a: int, b: int)
    ensures FormatInt(a) == FormatInt(b) <==> a == b
  {
    if FormatInt(a) == FormatInt(b) {
      if a < 0 {
        assert FormatInt(a)[1..] == FormatNat(-a);
        assert FormatInt(b)[1..] == FormatNat(-b);
        DigitsValueFormat(-a);
        DigitsValueFormat(-b);
      } else {
        DigitsValueFormat(a);
        DigitsValueFormat(b);
      }
    }
  }
}
