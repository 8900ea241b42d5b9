/** Decimal text: Python's `str(int)`, the two integer format specifications
    the timestamp formatter uses, the subsets of `int()` and `float()` that
    the parser relies on, and truncation of a real toward zero. */
module Decimal {
  import opened Outcome

  predicate IsDigit(c: char) { '0' <= c <= '9' }

  predicate AllDigits(s: string) {
    forall k :: 0 <= k < |s| ==> IsDigit(s[k])
  }

  function DigitValue(c: char): nat
    requires IsDigit(c)
  {
    c as int - '0' as int
  }

  function DigitChar(d: nat): (c: char)
    requires d < 10
    ensures IsDigit(c) && DigitValue(c) == d
  {
    ('0' as int + d) as char
  }

  function Pow10(n: nat): (r: nat)
    ensures r >= 1
  {
    if n == 0 then 1 else 10 * Pow10(n - 1)
  }

  /** The value of a string of decimal digits; the empty string reads as 0. */
  function ParseNat(s: string): nat
    requires AllDigits(s)
  {
    if |s| == 0 then 0 else 10 * ParseNat(s[..|s| - 1]) + DigitValue(s[|s| - 1])
  }

  /** `str(n)` for a non-negative `n`: the shortest digit string denoting `n`. */
  function Digits(n: nat): (r: string)
    ensures 1 <= |r| && AllDigits(r)
    ensures ParseNat(r) == n
    ensures |r| > 1 ==> r[0] != '0'
    ensures n < Pow10(|r|) && (|r| > 1 ==> Pow10(|r| - 1) <= n)
  {
    if n < 10 then
      [DigitChar(n)]
    else
      var front := Digits(n / 10);
      assert (front + [DigitChar(n % 10)])[..|front|] == front;
      front + [DigitChar(n % 10)]
  }

  /** `str(i)` for any integer. */
  function IntText(i: int): string {
    if i < 0 then "-" + Digits(-i) else Digits(i)
  }

  function Zeros(n: nat): (r: string)
    ensures |r| == n && forall k :: 0 <= k < n ==> r[k] == '0'
  {
    seq(n, _ => '0')
  }

  /** `s` preceded by as many '0' as it takes to reach `width` characters. */
  function PadLeft(s: string, width: int): string {
    if |s| < width then Zeros(width - |s|) + s else s
  }

  /** `s` followed by as many '0' as it takes to reach `width` characters. */
  function PadRight(s: string, width: int): string {
    if |s| < width then s + Zeros(width - |s|) else s
  }

  /** Python's `f'{i:0<width>}'`: sign-aware zero padding, so the sign stays
      in front and counts toward the width. */
  function ZeroPad(i: int, width: int): (r: string)
    ensures IsInteger(r) && ParseInt(r) == i
    ensures i >= 0 ==> AllDigits(r) && |r| == Max(width, |Digits(i)|)
  {
    if i < 0 then
      var p := PadLeft(Digits(-i), width - 1);
      PadLeftDigits(Digits(-i), width - 1);
      assert ("-" + p)[1..] == p;
      "-" + p
    else
      PadLeftDigits(Digits(i), width);
      PadLeft(Digits(i), width)
  }

  /** Python's `f'{i:<0<width>d}'`: left-aligned with '0' as the fill
      character, so the zeros go AFTER the digits. */
  function LeftJustify(i: int, width: int): (r: string)
    ensures i >= 0 ==> AllDigits(r) && |r| == Max(width, |Digits(i)|)
    ensures i >= 0 ==> ParseNat(r) == i * Pow10(|r| - |Digits(i)|)
  {
    var d := IntText(i);
    if i >= 0 && |d| < width then
      ParseNatAppend(d, Zeros(width - |d|));
      ParseNatZeros(width - |d|);
      PadRight(d, width)
    else
      PadRight(d, width)
  }

  function Max(a: int, b: int): int { if a < b then b else a }

  /** `int(s)` succeeds, for the grammar this model keeps: an optional sign
      followed by at least one ASCII digit. */
  predicate IsInteger(s: string) {
    && |s| >= 1
    && if s[0] == '+' || s[0] == '-' then |s| >= 2 && AllDigits(s[1..]) else AllDigits(s)
  }

  /** A digit string as `str` writes it: no leading zero unless it is "0". */
  predicate CanonicalDigits(d: string) {
    |d| >= 1 && AllDigits(d) && (|d| > 1 ==> d[0] != '0')
  }

  /** The texts `str(i)` produces: canonical digits, or a '-' before
      canonical digits other than "0". */
  predicate Canonical(s: string) {
    || CanonicalDigits(s)
    || (|s| >= 2 && s[0] == '-' && CanonicalDigits(s[1..]) && s[1..] != "0")
  }

  /** The value of `int(s)`; on the texts `str` writes, `str` gives `s`
      back. */
  function ParseInt(s: string): (r: int)
    requires IsInteger(s)
    ensures Canonical(s) ==> IntText(r) == s
  {
    if s[0] == '-' then
      NegativeText(s);
      -(ParseNat(s[1..]) as int)
    else if s[0] == '+' then
      ParseNat(s[1..])
    else
      DigitsOfParse(s);
      ParseNat(s)
  }

  /** A canonical text with a '-' is `str` of the negated value of its
      digits. */
  lemma NegativeText(s: string)
    requires IsInteger(s) && s[0] == '-'
    ensures Canonical(s) ==> IntText(-(ParseNat(s[1..]) as int)) == s
  {
    if Canonical(s) {
      var d := s[1..];
      DigitsOfParse(d);
      var i := -(ParseNat(d) as int);
      assert i < 0 && -i == ParseNat(d);
      assert IntText(i) == "-" + d;
      assert s == "-" + d;
    }
  }

  /** A canonical digit string is the `str` of its value. */
  lemma {:induction false} DigitsOfParse(d: string)
    requires AllDigits(d)
    ensures CanonicalDigits(d) ==> Digits(ParseNat(d)) == d
    ensures CanonicalDigits(d) ==> (ParseNat(d) == 0 <==> d == "0")
    decreases |d|
  {
    if CanonicalDigits(d) && |d| > 1 {
      var front, last := d[..|d| - 1], d[|d| - 1];
      assert CanonicalDigits(front) && front != "0" by {
        assert front[0] == d[0];
      }
      DigitsOfParse(front);
      var f, v := ParseNat(front), DigitValue(last);
      assert ParseNat(d) == 10 * f + v;
      DivMod10(f, v);
      DigitCharValue(last);
      assert d == front + [last];
    }
  }

  lemma DigitCharValue(c: char)
    requires IsDigit(c)
    ensures DigitChar(DigitValue(c)) == c
  {
  }

  lemma DivMod10(f: nat, v: nat)
    requires v < 10
    ensures (10 * f + v) / 10 == f && (10 * f + v) % 10 == v
  {
  }

  /** The index of the first `c` in `s`, or `|s|` when there is none. */
  function IndexOf(s: string, c: char): (p: nat)
    ensures p <= |s| && (p < |s| ==> s[p] == c)
    ensures forall k :: 0 <= k < p ==> s[k] != c
  {
    if |s| == 0 then 0
    else if s[0] == c then 0
    else 1 + IndexOf(s[1..], c)
  }

  /** `float(s)` for an optional sign, digits, an optional '.' and more
      digits, with at least one digit in all; `None` outside this grammar. */
  function ParseDecimal(s: string): Option<real> {
    if |s| > 0 && (s[0] == '+' || s[0] == '-') then
      match ParseUnsigned(s[1..])
      case None => None
      case Some(x) => Some(if s[0] == '-' then -x else x)
    else
      ParseUnsigned(s)
  }

  /** `float(s) == int(s)` on every text `int` accepts: an integer text
      holds no '.', so `float` reads it as the same whole number. */
  lemma FloatOfInteger(s: string)
    requires IsInteger(s)
    ensures ParseDecimal(s) == Some(ParseInt(s) as real)
  {
    var digits := if s[0] == '+' || s[0] == '-' then s[1..] else s;
    assert forall k :: 0 <= k < |digits| ==> digits[k] != '.';
    assert IndexOf(digits, '.') == |digits|;
    assert digits[..|digits|] == digits;
  }

  function ParseUnsigned(s: string): Option<real> {
    var p := IndexOf(s, '.');
    var whole := s[..p];
    var frac := if p < |s| then s[p + 1..] else "";
    if AllDigits(whole) && AllDigits(frac) && |whole| + |frac| >= 1 then
      Some(ParseNat(whole) as real + ParseNat(frac) as real / Pow10(|frac|) as real)
    else
      None
  }

  /** Multiplying a positive number by ten appends a '0' to its digits. */
  lemma DigitsTimesTen(n: nat)
    requires n >= 1
    ensures Digits(10 * n) == Digits(n) + "0"
  {
    assert (10 * n) / 10 == n && (10 * n) % 10 == 0;
    assert DigitChar(0) == '0';
  }

  /** Digits, a '.' and three more digits read as whole units plus
      thousandths. */
  lemma ParsePointThree(r: string, whole: nat, thousandths: nat, x: real)
    requires |r| >= 5 && r[|r| - 4] == '.'
    requires AllDigits(r[..|r| - 4]) && ParseNat(r[..|r| - 4]) == whole
    requires AllDigits(r[|r| - 3..]) && ParseNat(r[|r| - 3..]) == thousandths
    requires x == whole as real + thousandths as real / 1000.0
    ensures ParseDecimal(r) == Some(x)
  {
    var p := |r| - 4;
    assert forall k :: 0 <= k < p ==> r[k] == r[..p][k];
    assert IsDigit(r[0]);
    assert ParseDecimal(r) == ParseUnsigned(r);
    assert IndexOf(r, '.') == p;
    assert r[p + 1..] == r[|r| - 3..];
    assert Pow10(3) == 1000;
  }

  /** `int(x)` for a real `x`: truncation toward zero. */
  function Trunc(x: real): (r: int)
    ensures x >= 0.0 ==> r >= 0 && r as real <= x < r as real + 1.0
    ensures x < 0.0 ==> r <= 0 && r as real - 1.0 < x <= r as real
  {
    if x >= 0.0 then x.Floor else -((-x).Floor)
  }

  lemma {:induction false} ParseNatAppend(a: string, b: string)
    requires AllDigits(a) && AllDigits(b)
    ensures AllDigits(a + b)
    ensures ParseNat(a + b) == ParseNat(a) * Pow10(|b|) + ParseNat(b)
    decreases |b|
  {
    assert AllDigits(a + b);
    if |b| == 0 {
      assert a + b == a;
    } else {
      var b' := b[..|b| - 1];
      var last := b[|b| - 1];
      assert (a + b)[..|a + b| - 1] == a + b';
      assert (a + b)[|a + b| - 1] == last;
      ParseNatAppend(a, b');
      var x, y, p, d := ParseNat(a), ParseNat(b'), Pow10(|b'|), DigitValue(last);
      assert ParseNat(a + b) == 10 * ParseNat(a + b') + d;
      assert ParseNat(a + b') == x * p + y;
      assert Pow10(|b|) == 10 * p;
      assert ParseNat(b) == 10 * y + d;
      MulShift(x, p, y, d);
    }
  }

  lemma MulShift(x: int, p: int, y: int, d: int)
    ensures 10 * (x * p + y) + d == x * (10 * p) + (10 * y + d)
  {
  }

  lemma {:induction false} ParseNatZeros(n: nat)
    ensures ParseNat(Zeros(n)) == 0
  {
    if n > 0 {
      assert Zeros(n)[..n - 1] == Zeros(n - 1);
      ParseNatZeros(n - 1);
    }
  }

  lemma PadLeftDigits(d: string, width: int)
    requires AllDigits(d) && |d| >= 1
    ensures |PadLeft(d, width)| == Max(width, |d|)
    ensures AllDigits(PadLeft(d, width)) && ParseNat(PadLeft(d, width)) == ParseNat(d)
  {
    if |d| < width {
      ParseNatLeadingZeros(width - |d|, d);
    }
  }

  /** Leading zeros do not change the value of a digit string. */
  lemma ParseNatLeadingZeros(n: nat, s: string)
    requires AllDigits(s)
    ensures AllDigits(Zeros(n) + s) && ParseNat(Zeros(n) + s) == ParseNat(s)
  {
    ParseNatAppend(Zeros(n), s);
    ParseNatZeros(n);
  }

  /** `int(str(i)) == i`: the text of every integer passes the integer
      test and reads back as that integer. */
  lemma IntTextRoundTrip(i: int)
    ensures IsInteger(IntText(i)) && Canonical(IntText(i)) && ParseInt(IntText(i)) == i
  {
    if i < 0 {
      var d := Digits(-i);
      assert ("-" + d)[0] == '-' && ("-" + d)[1..] == d;
    }
  }
}
