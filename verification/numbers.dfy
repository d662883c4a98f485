/** A concrete reading of Python's `float(str)` and `int(str)` restricted to
    plain decimal notation: optional surrounding whitespace, an optional
    sign, ASCII digits and (for floats) one decimal point. Exponents,
    `inf`/`nan` and digit-group underscores are not accepted. The core
    operations take the parser as a parameter; these are the instances
    used in the worked examples. */
module Numbers {
  import opened Wrappers
  import opened Text

  predicate IsDigit(c: char) {
    '0' <= c <= '9'
  }

  predicate AllDigits(s: string) {
    forall i :: 0 <= i < |s| ==> IsDigit(s[i])
  }

  function DigitValue(c: char): (d: nat)
    requires IsDigit(c)
    ensures d < 10
  {
    c as int - '0' as int
  }

  function DigitChar(d: nat): (c: char)
    requires d < 10
    ensures IsDigit(c) && DigitValue(c) == d
  {
    (d + '0' as int) as char
  }

  /** The number a run of decimal digits denotes (most significant first). */
  function DigitsValue(s: string): nat
    requires AllDigits(s)
  {
    if s == [] then 0 else DigitsValue(s[..|s| - 1]) * 10 + DigitValue(s[|s| - 1])
  }

  function Pow10(k: nat): (p: nat)
    ensures p >= 1
  {
    if k == 0 then 1 else 10 * Pow10(k - 1)
  }

  /** Index of the first occurrence of `c` in `s`. */
  function IndexOf(s: string, c: char): (r: Option<nat>)
    ensures r.None? <==> c !in s
    ensures r.Some? ==> r.value < |s| && s[r.value] == c && c !in s[..r.value]
  {
    if s == [] then None
    else if s[0] == c then Some(0)
    else
      match IndexOf(s[1..], c)
      case None => None
      case Some(k) =>
        assert s[..k + 1] == [s[0]] + s[1..][..k];
        Some(k + 1)
  }

  /** The value of the literal `<whole>.<frac>`. */
  function FixedPoint(whole: nat, frac: string): real
    requires AllDigits(frac)
  {
    whole as real + DigitsValue(frac) as real / Pow10(|frac|) as real
  }

  /** Unsigned decimal: `ddd`, `ddd.`, `.ddd` or `ddd.ddd`. */
  function ParseUnsigned(s: string): (r: Option<real>)
    ensures AllDigits(s) ==> (r.Some? <==> s != [])
    ensures AllDigits(s) && s != [] ==> r == Some(DigitsValue(s) as real)
  {
    match IndexOf(s, '.')
    case None =>
      if s != [] && AllDigits(s) then Some(DigitsValue(s) as real) else None
    case Some(k) =>
      var whole := s[..k];
      var frac := s[k + 1..];
      if AllDigits(whole) && AllDigits(frac) && (whole != [] || frac != []) then
        Some(FixedPoint(DigitsValue(whole), frac))
      else
        None
  }

  /** `float(s)` for plain decimal strings; `None` where Python raises. */
  function ParseFloat(s: string): (r: Option<real>)
    ensures Strip(s) == [] ==> r.None?
  {
    var t := Strip(s);
    if t != [] && (t[0] == '+' || t[0] == '-') then
      match ParseUnsigned(t[1..])
      case None => None
      case Some(x) => Some(if t[0] == '-' then -x else x)
    else
      ParseUnsigned(t)
  }

  /** `int(s)` in base 10; `None` where Python raises. */
  function ParseInt(s: string): (r: Option<int>)
    ensures Strip(s) == [] ==> r.None?
  {
    var t := Strip(s);
    if t != [] && (t[0] == '+' || t[0] == '-') then
      var d := t[1..];
      if d != [] && AllDigits(d) then Some(if t[0] == '-' then -(DigitsValue(d) as int) else DigitsValue(d))
      else None
    else if t != [] && AllDigits(t) then Some(DigitsValue(t))
    else None
  }

  /** Decimal digits of `n`, as Python's `str(n)` writes them. */
  function NatToDigits(n: nat): (s: string)
    ensures s != [] && AllDigits(s)
  {
    if n < 10 then [DigitChar(n)] else NatToDigits(n / 10) + [DigitChar(n % 10)]
  }

  function IntToString(i: int): (s: string)
    ensures s != []
  {
    if i < 0 then "-" + NatToDigits(-i) else NatToDigits(i)
  }

  lemma {:induction false} DigitsRoundTrip(n: nat)
    ensures DigitsValue(NatToDigits(n)) == n
  {
    var s := NatToDigits(n);
    if n >= 10 {
      DigitsRoundTrip(n / 10);
      assert s[..|s| - 1] == NatToDigits(n / 10);
    }
  }

  lemma DigitsAreStripped(s: string)
    requires s != [] && AllDigits(s)
    ensures Strip(s) == s
  {
    assert IsDigit(s[0]) && IsDigit(s[|s| - 1]);
    StripOfPadded([], s, []);
    assert [] + s + [] == s;
  }

  /** `int(str(i)) == i` for every integer. */
  lemma ParseIntRoundTrip(i: int)
    ensures ParseInt(IntToString(i)) == Some(i)
  {
    var s := IntToString(i);
    if i < 0 {
      NegativeTextStripped(i);
      DigitsRoundTrip(-i);
    } else {
      DigitsAreStripped(s);
      DigitsRoundTrip(i);
    }
  }

  lemma NegativeTextStripped(i: int)
    requires i < 0
    ensures Strip(IntToString(i)) == IntToString(i)
    ensures IntToString(i)[0] == '-' && IntToString(i)[1..] == NatToDigits(-i)
  {
    var s := IntToString(i);
    var d := NatToDigits(-i);
    assert s[0] == '-' && s[|s| - 1] == d[|d| - 1];
    StripOfPadded([], s, []);
    assert [] + s + [] == s;
    assert s[1..] == d;
  }

  /** `float(str(n)) == n` for every natural number. */
  lemma ParseFloatOfNat(n: nat)
    ensures ParseFloat(NatToDigits(n)) == Some(n as real)
  {
    var s := NatToDigits(n);
    DigitsAreStripped(s);
    DigitsRoundTrip(n);
  }

  lemma IndexOfFirst(w: string, c: char, rest: string)
    requires c !in w
    ensures IndexOf(w + [c] + rest, c) == Some(|w|)
  {
    if w != [] {
      assert (w + [c] + rest)[1..] == w[1..] + [c] + rest;
      IndexOfFirst(w[1..], c, rest);
    }
  }

  lemma DigitsHaveNoPoint(w: string)
    requires AllDigits(w)
    ensures '.' !in w
  {
  }

  lemma ParseUnsignedOfPoint(w: string, frac: string)
    requires AllDigits(w) && AllDigits(frac) && w != []
    ensures ParseUnsigned(w + ['.'] + frac) == Some(FixedPoint(DigitsValue(w), frac))
  {
    var s := w + ['.'] + frac;
    DigitsHaveNoPoint(w);
    IndexOfFirst(w, '.', frac);
    assert s[..|w|] == w;
    assert s[|w| + 1..] == frac;
  }

  /** A fixed-point literal `<whole>.<frac>` parses to
      whole + frac / 10^|frac|. */
  lemma ParseFloatOfFixedPoint(whole: nat, frac: string)
    requires AllDigits(frac)
    ensures ParseFloat(NatToDigits(whole) + "." + frac) == Some(FixedPoint(whole, frac))
  {
    FixedPointTextStripped(whole, frac);
    ParseUnsignedOfPoint(NatToDigits(whole), frac);
    DigitsRoundTrip(whole);
  }

  lemma FixedPointTextStripped(whole: nat, frac: string)
    requires AllDigits(frac)
    ensures var s := NatToDigits(whole) + "." + frac; Strip(s) == s && IsDigit(s[0])
  {
    var w := NatToDigits(whole);
    var s := w + "." + frac;
    assert s == w + ['.'] + frac;
    assert s[0] == w[0];
    assert s[|s| - 1] == (if frac == [] then '.' else frac[|frac| - 1]);
    StripOfPadded([], s, []);
    assert [] + s + [] == s;
  }
}
