/** The tag and lyric-line values of an LRC document and their text forms. */
module Component {
  import opened Outcome
  import opened Decimal

  /** A bracket tag `[name:val]`. `Header` is a plain tag that stores both
      strings. `Time` is a timestamp that stores only a minute and a second;
      its name and value strings are computed from them on demand. */
  datatype Tag = Header(name: string, val: string) | Time(minute: int, second: real)

  /** A lyric text together with the tag it was written under. */
  datatype LyricLine = LyricLine(tag: Tag, lyric: string)

  /** What `toTuple` gives back: the two strings of a plain tag, the two
      numbers of a timestamp. */
  datatype Tuple = Strings(name: string, val: string) | Numbers(minute: int, second: real)

  /** Whole milliseconds past the whole second, cut toward zero:
      `int((second - int(second)) * 1000)`. */
  function Millis(second: real): (k: int)
    ensures second >= 0.0 ==> 0 <= k <= 999
    ensures second >= 0.0 ==>
      && Trunc(second) as real + k as real / 1000.0 <= second
      && second < Trunc(second) as real + (k + 1) as real / 1000.0
  {
    Trunc((second - Trunc(second) as real) * 1000.0)
  }

  /** The number the three millisecond digits denote once `k` has been
      left-justified in a field of width 3: 5 and 50 both read as 500. */
  function ShownMillis(k: nat): nat
    requires k <= 999
  {
    if k == 0 then 0 else if k < 10 then 100 * k else if k < 100 then 10 * k else k
  }

  /** The second a timestamp's value text denotes when read back. */
  function Rendered(second: real): real
    requires second >= 0.0
  {
    Trunc(second) as real + ShownMillis(Millis(second)) as real / 1000.0
  }

  /** `name` of either kind of tag. */
  function Name(t: Tag): (r: string)
    ensures t.Header? ==> r == t.name
    ensures t.Time? ==> IsInteger(r) && ParseInt(r) == t.minute
    ensures t.Time? && t.minute >= 0 ==>
      AllDigits(r) && |r| >= 2 && (t.minute <= 99 ==> |r| == 2)
  {
    match t
    case Header(n, _) => n
    case Time(m, _) =>
      assert 0 <= m <= 99 ==> |Digits(m)| <= 2 by {
        if 0 <= m <= 99 {
          DigitsBelow(m, 2);
        }
      }
      ZeroPad(m, 2)
  }

  /** `val` of either kind of tag. For a timestamp it is the whole second
      zero-padded to two digits, a '.', and the truncated milliseconds
      left-justified with '0' to three digits. */
  function Val(t: Tag): string {
    match t
    case Header(_, v) => v
    case Time(_, s) => SecondText(s)
  }

  /** The value text of a timestamp with second `s`. */
  function SecondText(s: real): string {
    ZeroPad(Trunc(s), 2) + "." + LeftJustify(Millis(s), 3)
  }

  /** The text of a non-negative second: at least two digits of whole
      seconds, a '.', and three digits that read as the left-justified
      millisecond count. */
  lemma SecondTextLayout(s: real)
    requires s >= 0.0
    ensures var r := SecondText(s);
      && |r| >= 6 && r[|r| - 4] == '.'
      && AllDigits(r[..|r| - 4]) && ParseNat(r[..|r| - 4]) == Trunc(s)
      && AllDigits(r[|r| - 3..]) && ParseNat(r[|r| - 3..]) == ShownMillis(Millis(s))
  {
    var whole := ZeroPad(Trunc(s), 2);
    var frac := LeftJustify(Millis(s), 3);
    PointSplit(whole, frac);
    DigitsBelow(Millis(s), 3);
    ShownMillisIsJustified(Millis(s));
  }

  /** The two parts of a text joined by a '.' are found again on either
      side of it. */
  lemma PointSplit(a: string, b: string)
    ensures var r := a + "." + b;
      |r| == |a| + |b| + 1 && r[|a|] == '.' && r[..|a|] == a && r[|a| + 1..] == b
  {
  }

  /** The text form `[name:val]`, the same shape for both kinds of tag. */
  function Str(t: Tag): string {
    Bracketed(Name(t), Val(t))
  }

  /** The text `[n:v]` of a tag with name `n` and value `v`. */
  function Bracketed(n: string, v: string): string {
    "[" + n + ":" + v + "]"
  }

  /** `toTuple`: the strings of a plain tag, the numbers of a timestamp. */
  function ToTuple(t: Tag): (r: Tuple)
    ensures r.Strings? <==> t.Header?
    ensures t.Header? ==> r.name == Name(t) && r.val == Val(t)
    ensures t.Time? ==> r.minute == t.minute && r.second == t.second
  {
    match t
    case Header(n, v) => Strings(n, v)
    case Time(m, s) => Numbers(m, s)
  }

  /** The constructor call that `toTuple` undoes. */
  function FromTuple(p: Tuple): Tag {
    match p
    case Strings(n, v) => Header(n, v)
    case Numbers(m, s) => Time(m, s)
  }

  lemma TupleRoundTrip(t: Tag, p: Tuple)
    ensures FromTuple(ToTuple(t)) == t
    ensures ToTuple(FromTuple(p)) == p
  {
  }

  lemma {:induction false} DigitsBelow(n: nat, w: nat)
    requires n < Pow10(w) && w >= 1
    ensures |Digits(n)| <= w
  {
    var d := Digits(n);
    if |d| > w {
      Pow10Monotone(w, |d| - 1);
    }
  }

  lemma {:induction false} Pow10Monotone(a: nat, b: nat)
    requires a <= b
    ensures Pow10(a) <= Pow10(b)
    decreases b
  {
    if a < b {
      Pow10Monotone(a, b - 1);
    }
  }

  lemma ShownMillisIsJustified(k: nat)
    requires k <= 999
    ensures ParseNat(LeftJustify(k, 3)) == ShownMillis(k)
  {
    var d := Digits(k);
    if k == 0 {
    } else if k < 10 {
      assert |d| == 1;
    } else if k < 100 {
      DigitsBelow(k, 2);
      assert |d| == 2;
    } else {
      DigitsBelow(k, 3);
      assert |d| == 3;
    }
  }

  /** A second that lies on the millisecond grid. */
  predicate OnMillisecond(second: real) {
    (second * 1000.0).Floor as real == second * 1000.0
  }

  /** Reading a timestamp's value text back with `float` gives the second
      cut down to whole milliseconds, with the millisecond digits read as
      the left-justified field shows them. */
  lemma ValParses(t: Tag)
    requires t.Time? && t.second >= 0.0
    ensures ParseDecimal(Val(t)) == Some(Rendered(t.second))
  {
    assert Val(t) == SecondText(t.second);
    SecondTextParses(t.second);
  }

  lemma SecondTextParses(s: real)
    requires s >= 0.0
    ensures ParseDecimal(SecondText(s)) == Some(Rendered(s))
  {
    var w, m := Trunc(s), ShownMillis(Millis(s));
    SecondTextLayout(s);
    ParsePointThree(SecondText(s), w, m, Rendered(s));
  }

  /** The value text denotes the stored second exactly if and only if the
      second lies on the millisecond grid and its millisecond count is 0 or
      has three digits. */
  lemma {:induction false} RenderedExact(second: real)
    requires second >= 0.0
    ensures Rendered(second) == second <==>
      OnMillisecond(second) && (Millis(second) == 0 || Millis(second) >= 100)
  {
    var whole, k := Trunc(second), Millis(second);
    if OnMillisecond(second) {
      var n := (second * 1000.0).Floor;
      assert 1000 * whole + k <= n < 1000 * whole + k + 1;
      assert second == whole as real + k as real / 1000.0;
    }
    if Rendered(second) == second {
      var n := 1000 * whole + ShownMillis(k);
      assert second * 1000.0 == n as real;
      assert k <= ShownMillis(k) < k + 1;
    }
  }

  /** For a millisecond count of 0 or of three digits the value text is the
      second truncated (never rounded) to whole milliseconds. */
  lemma TruncatedToMillis(second: real)
    requires second >= 0.0 && (Millis(second) == 0 || Millis(second) >= 100)
    ensures Rendered(second) <= second < Rendered(second) + 0.001
    ensures OnMillisecond(Rendered(second))
  {
    var whole, k := Trunc(second), Millis(second);
    RenderedOnGrid(whole, k);
  }

  /** Whole units plus a three-digit millisecond count lie on the
      millisecond grid. */
  lemma RenderedOnGrid(whole: int, k: int)
    ensures OnMillisecond(whole as real + k as real / 1000.0)
  {
    assert (whole as real + k as real / 1000.0) * 1000.0 == (1000 * whole + k) as real;
  }

  /** The millisecond field is injective on the counts 0 and 100..999 ... */
  lemma MillisFieldInjective(j: nat, k: nat)
    requires j <= 999 && k <= 999
    requires j == 0 || j >= 100
    requires k == 0 || k >= 100
    requires LeftJustify(j, 3) == LeftJustify(k, 3)
    ensures j == k
  {
    ShownMillisIsJustified(j);
    ShownMillisIsJustified(k);
  }

  /** ... and on no other count: 1..9 read like 100..900 and 10..99 like
      100..990. */
  lemma MillisFieldCollides(k: nat)
    requires 1 <= k <= 99
    ensures var k' := if k < 10 then 100 * k else 10 * k;
      k' != k && k' <= 999 && LeftJustify(k, 3) == LeftJustify(k', 3)
  {
    if k < 10 {
      OneDigitCollides(k);
    } else {
      TwoDigitsCollide(k);
    }
  }

  lemma OneDigitCollides(k: nat)
    requires 1 <= k <= 9
    ensures LeftJustify(k, 3) == LeftJustify(100 * k, 3)
  {
    DigitsTimesTen(k);
    DigitsTimesTen(10 * k);
    assert Digits(100 * k) == Digits(k) + "00";
    assert Zeros(2) == "00";
  }

  lemma TwoDigitsCollide(k: nat)
    requires 10 <= k <= 99
    ensures LeftJustify(k, 3) == LeftJustify(10 * k, 3)
  {
    DigitsBelow(k, 2);
    DigitsTimesTen(k);
    assert Zeros(1) == "0";
  }

  /** 2.9999 s shows as 02.999 and reads back as 2.999: the milliseconds
      are cut, not rounded. */
  lemma TruncationExample()
    ensures Trunc(2.9999) == 2 && ZeroPad(2, 2) == "02"
    ensures Millis(2.9999) == 999 && LeftJustify(999, 3) == "999"
    ensures Rendered(2.9999) == 2.999
  {
    assert Trunc(2.9999) == 2;
    assert Millis(2.9999) == 999;
    assert ZeroPad(2, 2) == "02" by {
      assert Digits(2) == "2";
      assert Zeros(1) == "0";
    }
    assert Digits(999) == "999" by {
      assert Digits(99) == "99";
    }
  }

  /** 5 ms shows as .500 and reads back as half a second, ... */
  lemma FiveMillisExample()
    ensures Millis(0.005) == 5 && LeftJustify(5, 3) == "500"
    ensures Rendered(0.005) == 0.5
  {
    assert Millis(0.005) == 5;
    assert Digits(5) == "5";
    assert Zeros(2) == "00";
  }

  /** ... and so does 50 ms, ... */
  lemma FiftyMillisExample()
    ensures Millis(0.05) == 50 && LeftJustify(50, 3) == "500"
    ensures Rendered(0.05) == 0.5
  {
    assert Millis(0.05) == 50;
    assert Digits(50) == "50" by {
      assert Digits(5) == "5";
    }
    assert Zeros(1) == "0";
  }

  /** ... while 0 ms shows as .000. */
  lemma ZeroMillisExample()
    ensures Millis(0.0) == 0 && LeftJustify(0, 3) == "000"
    ensures Rendered(0.0) == 0.0
  {
    assert Millis(0.0) == 0;
    assert Digits(0) == "0";
    assert Zeros(2) == "00";
  }
}
