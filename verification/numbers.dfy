/** The JDK number conversions `parseNumber` relies on: `Integer.parseInt`
    and `Long.parseLong` in base 10, `Integer.toString` as their inverse,
    and the decimal syntax `Double.parseDouble` accepts. The double value
    itself is not computed; a fractional number keeps its text. */
module Numbers {
  import opened Base

  const Int32Min: int := -0x8000_0000
  const Int32Max: int := 0x7FFF_FFFF
  const Int64Min: int := -0x8000_0000_0000_0000
  const Int64Max: int := 0x7FFF_FFFF_FFFF_FFFF

  /** The value of a run of ASCII digits, most significant first. */
  function DecimalValue(t: Text): (r: nat)
    requires DigitRun(t)
  {
    if t == [] then 0
    else
      assert DigitRun(t[..|t| - 1]);
      DecimalValue(t[..|t| - 1]) * 10 + (t[|t| - 1] - '0' as Unit)
  }

  function DigitChar(d: nat): (r: Unit)
    requires d < 10
    ensures IsAsciiDigit(r) && r - '0' as Unit == d
  {
    d + '0' as Unit
  }

  /** The shortest decimal spelling of `n`: no leading zero except in `0`
      itself. */
  function ShowDigits(n: nat): (r: Text)
    ensures r != [] && DigitRun(r)
    ensures |r| > 1 ==> r[0] != '0' as Unit
  {
    if n < 10 then [DigitChar(n)] else ShowDigits(n / 10) + [DigitChar(n % 10)]
  }

  /** `Integer.toString` / `Long.toString`: a `-` for negative values, then
      the digits of the magnitude. */
  function ShowInteger(n: int): (r: Text)
    ensures r != [] && (r[0] == Minus <==> n < 0)
  {
    if n < 0 then [Minus] + ShowDigits(-n) else ShowDigits(n)
  }

  /** The digits after an optional leading sign. */
  function Magnitude(t: Text): Text {
    if t != [] && (t[0] == Minus || t[0] == Plus) then t[1..] else t
  }

  /** `Integer.parseInt(t)` with `lo`/`hi` the `int` bounds, or
      `Long.parseLong(t)` with the `long` bounds, over ASCII digits: an
      optional sign, at least one digit, nothing else, and a value in range;
      otherwise a `NumberFormatException`, here `None`. Java's
      `Character.digit` also accepts non-ASCII Unicode decimal digits, which
      this model rejects. */
  function ParseInteger(t: Text, lo: int, hi: int): (r: Option<int>)
    ensures r.Some? ==> lo <= r.value <= hi
    ensures r.Some? ==> Magnitude(t) != [] && DigitRun(Magnitude(t))
    ensures r.Some? ==> r.value == (if t[0] == Minus then -1 else 1) * DecimalValue(Magnitude(t))
    ensures Magnitude(t) != [] && DigitRun(Magnitude(t))
            && lo <= (if t[0] == Minus then -1 else 1) * DecimalValue(Magnitude(t)) <= hi
            ==> r.Some?
  {
    var digits := Magnitude(t);
    if digits == [] || !DigitRun(digits) then None
    else
      var n := if t[0] == Minus then 0 - DecimalValue(digits) else DecimalValue(digits);
      if lo <= n <= hi then Some(n) else None
  }

  /** Reading back the spelling of a digit string's value. */
  lemma {:induction false} ShowDigitsValue(n: nat)
    ensures DecimalValue(ShowDigits(n)) == n
    decreases n
  {
    if n >= 10 {
      var hi := ShowDigits(n / 10);
      var t := hi + [DigitChar(n % 10)];
      assert t[..|t| - 1] == hi;
      ShowDigitsValue(n / 10);
    }
  }

  /** A canonical digit run is the spelling of its own value. */
  lemma {:induction false} ValueShowDigits(t: Text)
    requires t != [] && DigitRun(t) && (|t| > 1 ==> t[0] != '0' as Unit)
    ensures ShowDigits(DecimalValue(t)) == t
    decreases |t|
  {
    if |t| > 1 {
      var init := t[..|t| - 1];
      assert DigitRun(init);
      ValueShowDigits(init);
      LeadingDigitPositive(init);
    }
  }

  /** A canonical run of two or more digits is worth at least ten. */
  lemma {:induction false} LeadingDigitPositive(t: Text)
    requires t != [] && DigitRun(t) && t[0] != '0' as Unit
    ensures DecimalValue(t) >= 1
    decreases |t|
  {
    if |t| > 1 {
      var init := t[..|t| - 1];
      assert DigitRun(init) && init[0] == t[0];
      LeadingDigitPositive(init);
    }
  }

  /** `parseInt(toString(n)) == n` for every `n` in range. */
  lemma ParseShowInteger(n: int, lo: int, hi: int)
    requires lo <= n <= hi
    ensures ParseInteger(ShowInteger(n), lo, hi) == Some(n)
  {
    var d := ShowDigits(if n < 0 then -n else n);
    ShowDigitsValue(if n < 0 then -n else n);
    if n < 0 {
      assert ([Minus] + d)[1..] == d;
    } else {
      assert d[0] != Minus;
    }
  }

  /** Conversely, a text `parseInt` accepts is `toString` of its value
      once any `+`, leading zeros and the sign of `-0` are dropped. */
  lemma ShowParseInteger(t: Text, lo: int, hi: int)
    requires ParseInteger(t, lo, hi).Some?
    requires t[0] != Plus
    requires |Magnitude(t)| > 1 ==> Magnitude(t)[0] != '0' as Unit
    requires t[0] == Minus ==> DecimalValue(Magnitude(t)) != 0
    ensures ShowInteger(ParseInteger(t, lo, hi).value) == t
  {
    var m := Magnitude(t);
    ValueShowDigits(m);
    if t[0] == Minus {
      assert t == [Minus] + m;
    }
  }

  /** Every `int` text is a `long` text with the same value, which is why
      the fallback to `parseLong` never changes a value `parseInt` accepts. */
  lemma ParseIntegerWidens(t: Text)
    requires ParseInteger(t, Int32Min, Int32Max).Some?
    ensures ParseInteger(t, Int64Min, Int64Max) == ParseInteger(t, Int32Min, Int32Max)
  {
  }

  /** The length of the run of ASCII digits at the front of `t`. */
  function LeadingDigits(t: Text): (r: nat)
    ensures r <= |t| && DigitRun(t[..r])
    ensures r < |t| ==> !IsAsciiDigit(t[r])
  {
    if t != [] && IsAsciiDigit(t[0]) then
      var n := LeadingDigits(t[1..]);
      assert t[..1 + n] == [t[0]] + t[1..][..n];
      1 + n
    else 0
  }

  /** The exponent `Double.parseDouble` accepts after the mantissa: nothing,
      or `e`/`E`, an optional sign and at least one digit. */
  predicate ExponentSyntax(t: Text) {
    || t == []
    || (&& (t[0] == SmallE || t[0] == BigE)
        && var u := if |t| > 1 && (t[1] == Plus || t[1] == Minus) then t[2..] else t[1..];
           u != [] && DigitRun(u))
  }

  /** The decimal floating-point syntax of `Double.parseDouble`: an optional
      sign, digits with at most one `.` and at least one digit among them,
      then an optional exponent. */
  predicate DecimalFloatSyntax(t: Text) {
    UnsignedFloatSyntax(Magnitude(t))
  }

  /** The same syntax after the sign: `i` leading digits, then either a
      point, `f` more digits and the exponent, or the exponent at once. */
  predicate UnsignedFloatSyntax(m: Text) {
    var i := LeadingDigits(m);
    if i < |m| && m[i] == Dot then
      var f := LeadingDigits(m[i + 1..]);
      i + f > 0 && ExponentSyntax(m[i + 1 + f..])
    else i > 0 && ExponentSyntax(m[i..])
  }

  /** `parseNumber`'s test: the text contains `.`, `e` or `E`. */
  predicate LooksFractional(t: Text) {
    Dot in t || SmallE in t || BigE in t
  }

  /** What `parseDouble` accepts ends in a digit or in the point of a
      mantissa such as `1.`; a dangling exponent (`1e`, `1e+`) or a lone
      sign is a `NumberFormatException`. */
  lemma {:induction false} FloatSyntaxEnd(t: Text)
    requires DecimalFloatSyntax(t)
    ensures t != [] && (IsAsciiDigit(t[|t| - 1]) || t[|t| - 1] == Dot)
  {
    var m := Magnitude(t);
    MantissaEnd(m);
    assert m == t[|t| - |m|..];
  }

  lemma {:induction false} MantissaEnd(m: Text)
    requires UnsignedFloatSyntax(m)
    ensures m != []
    ensures IsAsciiDigit(m[|m| - 1]) || m[|m| - 1] == Dot
  {
    var i := LeadingDigits(m);
    if i < |m| && m[i] == Dot {
      var f := LeadingDigits(m[i + 1..]);
      var e := m[i + 1 + f..];
      if e != [] {
        ExponentEnd(e);
        assert m[|m| - 1] == e[|e| - 1];
      } else if f > 0 {
        assert m[|m| - 1] == m[i + 1..][..f][f - 1];
      }
    } else {
      var e := m[i..];
      if e != [] {
        ExponentEnd(e);
        assert m[|m| - 1] == e[|e| - 1];
      } else {
        assert m[|m| - 1] == m[..i][i - 1];
      }
    }
  }

  /** A non-empty exponent ends in a digit. */
  lemma {:induction false} ExponentEnd(e: Text)
    requires ExponentSyntax(e) && e != []
    ensures IsAsciiDigit(e[|e| - 1])
  {
    var u := if |e| > 1 && (e[1] == Plus || e[1] == Minus) then e[2..] else e[1..];
    assert e[|e| - 1] == u[|u| - 1];
  }

  /** Digits, a point and digits always form a valid double, with or
      without a sign in front. */
  lemma {:induction false} PointedDigitsAreFloat(a: Text, b: Text)
    requires DigitRun(a) && DigitRun(b) && |a| + |b| > 0
    ensures DecimalFloatSyntax(a + [Dot] + b)
    ensures DecimalFloatSyntax([Minus] + a + [Dot] + b)
  {
    var m := a + [Dot] + b;
    var s := [Minus] + a + [Dot] + b;
    PointedMantissa(a, b);
    assert m[0] != Minus && m[0] != Plus by {
      assert a == [] ==> m[0] == Dot;
      assert a != [] ==> m[0] == a[0];
    }
    assert Magnitude(m) == m;
    assert s[0] == Minus && s[1..] == m;
    assert Magnitude(s) == m;
  }

  /** Digits, a point and digits, with no sign: the mantissa alone. */
  lemma PointedMantissa(a: Text, b: Text)
    requires DigitRun(a) && DigitRun(b) && |a| + |b| > 0
    ensures UnsignedFloatSyntax(a + [Dot] + b)
  {
    var m := a + [Dot] + b;
    LeadingRun(a, [Dot] + b);
    assert a + ([Dot] + b) == m;
    assert m[|a|] == Dot && m[|a| + 1..] == b;
    LeadingRun(b, []);
    assert b + [] == b;
    assert m[|a| + 1 + |b|..] == [];
  }

  /** The leading-digit count stops exactly at the end of a digit run
      followed by a non-digit. */
  lemma {:induction false} LeadingRun(a: Text, rest: Text)
    requires DigitRun(a) && (rest != [] ==> !IsAsciiDigit(rest[0]))
    ensures LeadingDigits(a + rest) == |a|
    decreases |a|
  {
    if a != [] {
      assert (a + rest)[1..] == a[1..] + rest;
      LeadingRun(a[1..], rest);
    }
  }
}
