/** Java's 32-bit `int`: `Integer.parseInt` in radix 10, decimal rendering
    as done by `StringBuilder.append(int)`, and two's-complement wrap-around. */
module Numerals {
  import opened Wrappers

  const MinInt32: int := -0x8000_0000
  const MaxInt32: int := 0x7FFF_FFFF

  predicate InInt32(n: int) {
    MinInt32 <= n <= MaxInt32
  }

  /** The value Java's `int` arithmetic yields for the mathematical result `x`. */
  function Wrap32(x: int): (r: int)
    ensures InInt32(r)
    ensures (r - x) % 0x1_0000_0000 == 0
    ensures InInt32(x) ==> r == x
  {
    (x - MinInt32) % 0x1_0000_0000 + MinInt32
  }

  predicate IsDigit(c: char) {
    '0' <= c <= '9'
  }

  predicate AllDigits(s: string) {
    forall i :: 0 <= i < |s| ==> IsDigit(s[i])
  }

  function DigitValue(c: char): (d: nat)
    requires IsDigit(c)
    ensures d < 10
  {
    (c as int) - ('0' as int)
  }

  function DigitChar(d: nat): (c: char)
    requires d < 10
    ensures IsDigit(c) && DigitValue(c) == d
  {
    (('0' as int) + d) as char
  }

  /** The value of a run of decimal digits, most significant first. */
  function DigitsValue(ds: string): nat
    requires AllDigits(ds)
    decreases |ds|
  {
    if ds == [] then 0 else DigitsValue(ds[..|ds| - 1]) * 10 + DigitValue(ds[|ds| - 1])
  }

  /** True when the first character is an explicit sign. */
  predicate Signed(s: string) {
    |s| > 0 && (s[0] == '-' || s[0] == '+')
  }

  /** The part of `s` after an optional leading sign. */
  function Magnitude(s: string): (m: string)
    ensures |m| <= |s|
  {
    if Signed(s) then s[1..] else s
  }

  /** `Integer.parseInt(s)`: an optional `+` or `-`, then at least one ASCII
      digit, and the value must fit in 32 bits; anything else is a
      `NumberFormatException`, modelled as `None`. */
  function ParseInt(s: string): (r: Option<int>)
    ensures r.Some? ==> InInt32(r.value)
    ensures r.Some? ==> |Magnitude(s)| > 0 && AllDigits(Magnitude(s))
    ensures r.Some? ==> (if |s| > 0 && s[0] == '-' then r.value <= 0 else r.value >= 0)
    ensures |Magnitude(s)| > 0 && AllDigits(Magnitude(s)) && !(|s| > 0 && s[0] == '-') ==>
              (r.Some? <==> DigitsValue(Magnitude(s)) <= MaxInt32)
    ensures |Magnitude(s)| > 0 && AllDigits(Magnitude(s)) && |s| > 0 && s[0] == '-' ==>
              (r.Some? <==> DigitsValue(Magnitude(s)) <= -MinInt32)
  {
    var m := Magnitude(s);
    if |m| == 0 || !AllDigits(m) then None
    else
      var v: int := if s[0] == '-' then -(DigitsValue(m) as int) else DigitsValue(m);
      if InInt32(v) then Some(v) else None
  }

  /** Decimal rendering of a natural number, no leading zeros. */
  function ShowNat(n: nat): (r: string)
    ensures |r| > 0 && AllDigits(r)
    ensures |r| > 1 ==> r[0] != '0'
    decreases n
  {
    if n < 10 then [DigitChar(n)] else ShowNat(n / 10) + [DigitChar(n % 10)]
  }

  /** Decimal rendering of an integer, as `String.valueOf(int)` produces it. */
  function ShowInt(n: int): (r: string)
    ensures |r| > 0
    ensures r[0] == '-' <==> n < 0
  {
    if n < 0 then "-" + ShowNat(-n) else ShowNat(n)
  }

  lemma {:induction false} DigitsValueOfShowNat(n: nat)
    ensures DigitsValue(ShowNat(n)) == n
    decreases n
  {
    if n >= 10 {
      var r := ShowNat(n);
      DigitsValueOfShowNat(n / 10);
      assert r[..|r| - 1] == ShowNat(n / 10);
    }
  }

  /** Rendering an `int` and parsing it back with `Integer.parseInt` is the identity. */
  lemma ParseShowRoundTrip(n: int)
    requires InInt32(n)
    ensures ParseInt(ShowInt(n)) == Some(n)
  {
    if n < 0 {
      assert Magnitude(ShowInt(n)) == ShowNat(-n);
      DigitsValueOfShowNat(-n);
    } else {
      assert Magnitude(ShowInt(n)) == ShowNat(n);
      DigitsValueOfShowNat(n);
    }
  }

  /** A leading `+` is accepted, exactly like Java does. */
  lemma ParseAcceptsPlusSign(n: nat)
    requires n <= MaxInt32
    ensures ParseInt("+" + ShowNat(n)) == Some(n)
  {
    assert Magnitude("+" + ShowNat(n)) == ShowNat(n);
    DigitsValueOfShowNat(n);
  }

  /** Any character other than a digit after the optional sign makes the parse fail. */
  lemma ParseRejectsNonDigit(s: string, i: nat)
    requires i < |Magnitude(s)| && !IsDigit(Magnitude(s)[i])
    ensures ParseInt(s) == None
  {
  }

  /** The empty string and a lone sign are rejected. */
  lemma ParseRejectsEmpty()
    ensures ParseInt("") == None
    ensures ParseInt("-") == None
    ensures ParseInt("+") == None
  {
    assert Magnitude("-") == [];
    assert Magnitude("+") == [];
  }

  /** A leading zero does not change the value of a digit run. */
  lemma {:induction false} DigitsValueLeadingZero(t: string)
    requires AllDigits(t)
    ensures AllDigits("0" + t) && DigitsValue("0" + t) == DigitsValue(t)
    decreases |t|
  {
    if t != [] {
      var u := "0" + t;
      assert u[..|u| - 1] == "0" + t[..|t| - 1];
      DigitsValueLeadingZero(t[..|t| - 1]);
    }
  }

  /** Leading zeros are accepted and ignored, after any sign. Together
      with `ParseZero`, `ParseShowRoundTrip`, `ParseAcceptsPlusSign` and the
      acceptance bounds of `ParseInt`, this fixes the outcome for every
      digit string. */
  lemma ParseLeadingZero(sign: string, t: string)
    requires sign == "" || sign == "+" || sign == "-"
    requires |t| > 0 && AllDigits(t)
    ensures ParseInt(sign + "0" + t) == ParseInt(sign + t)
  {
    DigitsValueLeadingZero(t);
    assert Magnitude(sign + "0" + t) == "0" + t;
    assert Magnitude(sign + t) == t;
  }

  /** A lone zero parses to 0 after any sign, `-0` included. */
  lemma ParseZero(sign: string)
    requires sign == "" || sign == "+" || sign == "-"
    ensures ParseInt(sign + "0") == Some(0)
  {
    assert Magnitude(sign + "0") == "0";
    assert DigitsValue("0") == DigitsValue("0"[..0]) * 10 + DigitValue('0');
  }

  /** One past the largest `int` does not parse: overflow is an error, not a wrap. */
  lemma ParseRejectsOverflow()
    ensures ParseInt(ShowNat(MaxInt32 + 1)) == None
  {
    var s := ShowNat(MaxInt32 + 1);
    DigitsValueOfShowNat(MaxInt32 + 1);
    assert Magnitude(s) == s;
  }
}
