/** Amounts of money as integer cents, and the reading of a typed-in balance
    that `createAccount` does with `parseFloat`: leading white space is
    skipped, an optional sign and the longest decimal numeral after it are
    read, and whatever follows is ignored. No numeral at all is NaN. The
    fraction is cut to whole cents. */
module Money {
  import opened Results

  predicate IsDigit(c: char) {
    '0' <= c <= '9'
  }

  /** White space that `parseFloat` skips (the ASCII part of ECMA-262's
      StrWhiteSpaceChar). */
  predicate IsSpace(c: char) {
    c == ' ' || c == '\t' || c == '\n' || c == '\r' || c == '\U{000B}' || c == '\U{000C}'
  }

  predicate AllDigits(s: string) {
    forall i :: 0 <= i < |s| ==> IsDigit(s[i])
  }

  function TrimStart(s: string): (r: string)
    ensures |r| <= |s| && r == s[|s| - |r|..]
    ensures |r| > 0 ==> !IsSpace(r[0])
  {
    if |s| > 0 && IsSpace(s[0]) then TrimStart(s[1..]) else s
  }

  /** The length of the run of digits `s` starts with. */
  function DigitRun(s: string): (n: nat)
    ensures n <= |s| && AllDigits(s[..n])
    ensures n < |s| ==> !IsDigit(s[n])
  {
    if |s| > 0 && IsDigit(s[0]) then 1 + DigitRun(s[1..]) else 0
  }

  function DigitValue(c: char): nat
    requires IsDigit(c)
  {
    (c - '0') as nat
  }

  /** The number a run of decimal digits denotes. */
  function DigitsValue(s: string): nat
    requires AllDigits(s)
  {
    if |s| == 0 then 0 else 10 * DigitsValue(s[..|s| - 1]) + DigitValue(s[|s| - 1])
  }

  /** The first two fraction digits as cents; the rest are cut off. */
  function FractionCents(f: string): (r: nat)
    requires AllDigits(f)
    ensures r < 100
  {
    if |f| == 0 then 0
    else if |f| == 1 then 10 * DigitValue(f[0])
    else 10 * DigitValue(f[0]) + DigitValue(f[1])
  }

  /** The digits after the decimal point, when `rest` starts with one. */
  function FractionDigits(rest: string): (f: string)
    ensures AllDigits(f)
  {
    if |rest| > 0 && rest[0] == '.' then rest[1..][..DigitRun(rest[1..])] else ""
  }

  /** The value of a numeral given by its whole and fraction digits; NaN when
      there is no digit at all. */
  function NumeralValue(whole: string, fraction: string): (r: Option<int>)
    requires AllDigits(whole) && AllDigits(fraction)
    ensures r.Some? ==> r.value >= 0
  {
    if |whole| == 0 && |fraction| == 0 then None
    else Some(100 * DigitsValue(whole) + FractionCents(fraction))
  }

  /** `u` starts with a decimal numeral: a digit, or a point and a digit. */
  predicate StartsNumeral(u: string) {
    (|u| > 0 && IsDigit(u[0])) || (|u| > 1 && u[0] == '.' && IsDigit(u[1]))
  }

  /** An unsigned decimal numeral at the start of `body`, in cents: digits,
      optionally a point and more digits, at least one digit in all. */
  function ParseUnsigned(body: string): (r: Option<int>)
    ensures r.Some? <==> StartsNumeral(body)
    ensures r.Some? ==> r.value >= 0
  {
    var n := DigitRun(body);
    NumeralValue(body[..n], FractionDigits(body[n..]))
  }

  /** `parseFloat(s)` in cents; `None` is NaN. After the leading white
      space and an optional sign there must be a numeral; a minus sign
      negates it and a plus sign is ignored. */
  function ParseBalance(s: string): (r: Option<int>)
    ensures var t := TrimStart(s);
            var signed := |t| > 0 && (t[0] == '-' || t[0] == '+');
            var u := if signed then t[1..] else t;
            && (r.Some? <==> StartsNumeral(u))
            && (r.Some? ==> r.value == if t[0] == '-' then -ParseUnsigned(u).value else ParseUnsigned(u).value)
  {
    var t := TrimStart(s);
    if |t| > 0 && t[0] == '-' then
      match ParseUnsigned(t[1..])
      case None => None
      case Some(v) => Some(-v)
    else ParseUnsigned(if |t| > 0 && t[0] == '+' then t[1..] else t)
  }

  function DigitChar(d: nat): (c: char)
    requires d < 10
    ensures IsDigit(c) && DigitValue(c) == d
  {
    ('0' as int + d) as char
  }

  /** The decimal numeral of `n`, without leading zeros. */
  function NatToDigits(n: nat): (s: string)
    ensures |s| > 0 && AllDigits(s)
  {
    if n < 10 then [DigitChar(n)] else NatToDigits(n / 10) + [DigitChar(n % 10)]
  }

  /** A magnitude in cents written with two decimals: `1234` is `12.34`. */
  function Numeral(m: nat): (s: string)
    ensures |s| > 0 && IsDigit(s[0])
  {
    var w := NatToDigits(m / 100);
    assert (w + ".")[0] == w[0];
    w + "." + [DigitChar(m % 100 / 10), DigitChar(m % 100 % 10)]
  }

  /** An amount as a balance field holds it, minus sign first. */
  function FormatCents(c: int): (s: string)
  {
    if c < 0 then "-" + Numeral(-c) else Numeral(c)
  }

  lemma {:induction false} NatToDigitsValue(n: nat)
    ensures DigitsValue(NatToDigits(n)) == n
  {
    var s := NatToDigits(n);
    if n >= 10 {
      NatToDigitsValue(n / 10);
      assert s[..|s| - 1] == NatToDigits(n / 10);
    }
  }

  /** A run of digits followed by a non-digit is read to its end. */
  lemma {:induction false} DigitRunOfNumeral(d: string, x: string)
    requires AllDigits(d)
    requires |x| > 0 ==> !IsDigit(x[0])
    ensures DigitRun(d + x) == |d|
    decreases |d|
  {
    if |d| > 0 {
      assert (d + x)[1..] == d[1..] + x;
      DigitRunOfNumeral(d[1..], x);
    } else {
      assert d + x == x;
    }
  }

  /** A numeral with two fraction digits followed by non-numeric text is
      read to its end. */
  lemma ParseNumeral(whole: string, f: string, x: string)
    requires |whole| > 0 && AllDigits(whole) && |f| == 2 && AllDigits(f)
    requires |x| > 0 ==> !IsDigit(x[0])
    ensures ParseUnsigned(whole + (['.'] + (f + x))) == NumeralValue(whole, f)
  {
    var fx := f + x;
    var tail := ['.'] + fx;
    var body := whole + tail;
    DigitRunOfNumeral(whole, tail);
    assert body[..|whole|] == whole;
    assert body[|whole|..] == tail;
    assert tail[1..] == fx;
    DigitRunOfNumeral(f, x);
    assert fx[..2] == f;
    assert FractionDigits(tail) == f;
  }

  lemma NumeralValueOfDigits(whole: string, fraction: string)
    requires |whole| > 0 && AllDigits(whole) && AllDigits(fraction)
    ensures NumeralValue(whole, fraction) == Some(100 * DigitsValue(whole) + FractionCents(fraction))
  {
  }

  /** Two digits written for a number of cents are read back to it. */
  lemma CentsDigits(c: nat)
    requires c < 100
    ensures FractionCents([DigitChar(c / 10), DigitChar(c % 10)]) == c
  {
  }

  /** The two digits `Numeral` writes after the point. */
  function CentsChars(m: nat): (f: string)
    ensures |f| == 2 && AllDigits(f) && FractionCents(f) == m % 100
  {
    CentsDigits(m % 100);
    [DigitChar(m % 100 / 10), DigitChar(m % 100 % 10)]
  }

  /** A formatted magnitude followed by `x`, split at the point. */
  lemma NumeralSplit(m: nat, x: string)
    ensures Numeral(m) + x == NatToDigits(m / 100) + (['.'] + (CentsChars(m) + x))
  {
  }

  /** The digits of a formatted amount are read back to its magnitude. */
  lemma UnsignedRoundTrip(m: nat, x: string)
    requires |x| > 0 ==> !IsDigit(x[0])
    ensures ParseUnsigned(Numeral(m) + x) == Some(m)
  {
    var w := NatToDigits(m / 100);
    NumeralSplit(m, x);
    ParseNumeral(w, CentsChars(m), x);
    NatToDigitsValue(m / 100);
  }

  /** A numeral that starts with a digit is read as it is. */
  lemma ParseDigitFirst(u: string)
    requires |u| > 0 && IsDigit(u[0])
    ensures ParseBalance(u) == ParseUnsigned(u)
  {
    assert TrimStart(u) == u;
  }

  /** A minus sign before a numeral negates it. */
  lemma ParseMinus(u: string, v: int)
    requires |u| > 0 && IsDigit(u[0])
    requires ParseUnsigned(u) == Some(v)
    ensures ParseBalance("-" + u) == Some(-v)
  {
    var s := "-" + u;
    assert s[0] == '-' && s[1..] == u;
    assert TrimStart(s) == s;
  }

  /** A formatted negative amount is a minus sign before its magnitude. */
  lemma FormatNegativeSplit(m: nat, x: string)
    requires m > 0
    ensures FormatCents(-(m as int)) + x == "-" + (Numeral(m) + x)
  {
  }

  /** A formatted negative amount is read back. */
  lemma ParseFormatNegative(m: nat, x: string)
    requires m > 0 && (|x| > 0 ==> !IsDigit(x[0]))
    ensures ParseBalance(FormatCents(-(m as int)) + x) == Some(-(m as int))
  {
    var u := Numeral(m) + x;
    assert u[0] == Numeral(m)[0];
    UnsignedRoundTrip(m, x);
    ParseMinus(u, m);
    FormatNegativeSplit(m, x);
  }

  /** A formatted amount that is not negative is read back. */
  lemma ParseFormatNonNegative(m: nat, x: string)
    requires |x| > 0 ==> !IsDigit(x[0])
    ensures ParseBalance(FormatCents(m) + x) == Some(m)
  {
    var u := Numeral(m) + x;
    assert u[0] == Numeral(m)[0];
    assert FormatCents(m) + x == u;
    UnsignedRoundTrip(m, x);
    ParseDigitFirst(u);
  }

  /** Reading back a formatted amount gives the amount, whatever
      non-numeric text follows it. */
  lemma ParseFormatRoundTrip(c: int, x: string)
    requires |x| > 0 ==> !IsDigit(x[0])
    ensures ParseBalance(FormatCents(c) + x) == Some(c)
  {
    if c < 0 {
      ParseFormatNegative(-c, x);
    } else {
      ParseFormatNonNegative(c, x);
    }
  }

  /** Text without a single digit is NaN. */
  lemma NoDigitsIsNaN(s: string)
    requires forall i :: 0 <= i < |s| ==> !IsDigit(s[i])
    ensures ParseBalance(s) == None
  {
    var t := TrimStart(s);
    var body := if |t| > 0 && (t[0] == '-' || t[0] == '+') then t[1..] else t;
    assert forall i :: 0 <= i < |body| ==> !IsDigit(body[i]);
    var rest := body[DigitRun(body)..];
    if |rest| > 0 && rest[0] == '.' {
      assert |rest[1..]| == 0 || !IsDigit(rest[1..][0]);
    }
  }
}
