/** The LRC document: its lyric lines and its plain tags, read from text,
    written back as text, and edited like a Python list of lyric lines. */
module Document {
  import opened Outcome
  import opened Decimal
  import opened Component
  import opened Tokenizer

  /** A document: the lyric lines in order, and the plain tags. */
  datatype Lrc = Lrc(lyrics: seq<LyricLine>, tags: seq<Tag>)

  /** Python's `IndexError` for an index outside the list. */
  datatype IndexError = IndexError

  // ---------------------------------------------------------------------
  // Construction

  /** `Lrc(lyrics, tags)`: a tag list that is missing or empty leaves the
      document without tags; any other is kept as given. */
  function New(lyrics: seq<LyricLine>, tags: Option<seq<Tag>>): (d: Lrc)
    ensures d.lyrics == lyrics
    ensures |d.tags| == 0 <==> tags.None? || |tags.value| == 0
    ensures tags.Some? ==> d.tags == tags.value
  {
    match tags
    case Some(ts) => if |ts| > 0 then Lrc(lyrics, ts) else Lrc(lyrics, [])
    case None => Lrc(lyrics, [])
  }

  // ---------------------------------------------------------------------
  // Reading: the loop of `loads`

  /** Every tokenized line has a first tag. */
  predicate AllTagged(lines: seq<TaggedLine>) {
    forall k :: 0 <= k < |lines| ==> |lines[k].tags| >= 1
  }

  /** The two parts of two documents, one after the other. */
  function Concat(a: Lrc, b: Lrc): Lrc {
    Lrc(a.lyrics + b.lyrics, a.tags + b.tags)
  }

  /** The lyric lines a line opening with a timestamp gives: one per tag of
      the line, in order, each with the line's lyric. */
  function Spread(line: TaggedLine): seq<LyricLine> {
    seq(|line.tags|, k requires 0 <= k < |line.tags| => LyricLine(line.tags[k], line.lyric))
  }

  /** What one tokenized line adds to the document. A line whose first tag
      is a timestamp adds a lyric line for every one of its tags; any other
      line adds its first tag to the plain tags, and its lyric and its other
      tags are dropped. */
  function Contribution(line: TaggedLine): Lrc
    requires |line.tags| >= 1
  {
    if line.tags[0].Time? then Lrc(Spread(line), []) else Lrc([], [line.tags[0]])
  }

  /** The document the lines add up to, in order. On one line that opens
      with a timestamp it is one lyric line per tag, in tag order, each
      with the line's lyric; on one line that opens with a plain tag it is
      that tag alone. */
  function Classify(lines: seq<TaggedLine>): (d: Lrc)
    requires AllTagged(lines)
    ensures |d.lyrics| + |d.tags| >= |lines|
    ensures forall k :: 0 <= k < |d.tags| ==> d.tags[k].Header?
    ensures |lines| == 1 && lines[0].tags[0].Time? ==>
      && d.tags == []
      && |d.lyrics| == |lines[0].tags|
      && forall k :: 0 <= k < |d.lyrics| ==> d.lyrics[k] == LyricLine(lines[0].tags[k], lines[0].lyric)
    ensures |lines| == 1 && !lines[0].tags[0].Time? ==> d == Lrc([], [lines[0].tags[0]])
  {
    if |lines| == 0 then
      Lrc([], [])
    else
      var head, rest := Contribution(lines[0]), Classify(lines[1..]);
      assert forall k :: 0 <= k < |head.tags| ==> head.tags[k] == lines[0].tags[0];
      Concat(head, rest)
  }

  /** `line` gives the lyric line `l`. */
  predicate GivesLyric(line: TaggedLine, l: LyricLine)
    requires |line.tags| >= 1
  {
    line.tags[0].Time? && l.tag in line.tags && l.lyric == line.lyric
  }

  /** `line` gives the plain tag `t`. */
  predicate GivesTag(line: TaggedLine, t: Tag)
    requires |line.tags| >= 1
  {
    !line.tags[0].Time? && t == line.tags[0]
  }

  /** Classifying the lines one after another is classifying them all. */
  lemma {:induction false} ClassifyAppend(a: seq<TaggedLine>, b: seq<TaggedLine>)
    requires AllTagged(a) && AllTagged(b)
    ensures AllTagged(a + b)
    ensures Classify(a + b) == Concat(Classify(a), Classify(b))
    decreases |a|
  {
    if |a| == 0 {
      assert a + b == b;
      ConcatEmpty(Classify(b));
    } else {
      var head := Contribution(a[0]);
      ClassifyAppend(a[1..], b);
      assert (a + b)[0] == a[0] && (a + b)[1..] == a[1..] + b;
      ConcatAssoc(head, Classify(a[1..]), Classify(b));
    }
  }

  lemma ConcatEmpty(d: Lrc)
    ensures Concat(Lrc([], []), d) == d
  {
    assert [] + d.lyrics == d.lyrics && [] + d.tags == d.tags;
  }

  lemma ConcatAssoc(x: Lrc, y: Lrc, z: Lrc)
    ensures Concat(x, Concat(y, z)) == Concat(Concat(x, y), z)
  {
    assert x.lyrics + (y.lyrics + z.lyrics) == (x.lyrics + y.lyrics) + z.lyrics;
    assert x.tags + (y.tags + z.tags) == (x.tags + y.tags) + z.tags;
  }

  lemma SpreadMembers(line: TaggedLine, l: LyricLine)
    requires |line.tags| >= 1
    ensures |Spread(line)| == |line.tags|
    ensures forall k :: 0 <= k < |line.tags| ==> Spread(line)[k] == LyricLine(line.tags[k], line.lyric)
    ensures l in Spread(line) <==> l.tag in line.tags && l.lyric == line.lyric
  {
    var s := Spread(line);
    if l.tag in line.tags && l.lyric == line.lyric {
      var j :| 0 <= j < |line.tags| && line.tags[j] == l.tag;
      assert s[j] == l;
    }
  }

  /** The document holds exactly the lyric lines and plain tags that some
      line gives. */
  lemma {:induction false} ClassifyMembers(lines: seq<TaggedLine>)
    requires AllTagged(lines)
    ensures forall l :: l in Classify(lines).lyrics <==> exists k :: 0 <= k < |lines| && GivesLyric(lines[k], l)
    ensures forall t :: t in Classify(lines).tags <==> exists k :: 0 <= k < |lines| && GivesTag(lines[k], t)
    decreases |lines|
  {
    if |lines| > 0 {
      var rest := lines[1..];
      ClassifyMembers(rest);
      forall l
        ensures l in Classify(lines).lyrics <==> exists k :: 0 <= k < |lines| && GivesLyric(lines[k], l)
      {
        SpreadMembers(lines[0], l);
        ShiftLyric(lines, l);
      }
      forall t
        ensures t in Classify(lines).tags <==> exists k :: 0 <= k < |lines| && GivesTag(lines[k], t)
      {
        ShiftTag(lines, t);
      }
    }
  }

  lemma ShiftLyric(lines: seq<TaggedLine>, l: LyricLine)
    requires AllTagged(lines) && |lines| >= 1
    ensures (exists k :: 0 <= k < |lines| && GivesLyric(lines[k], l)) <==>
      GivesLyric(lines[0], l) || exists k :: 0 <= k < |lines[1..]| && GivesLyric(lines[1..][k], l)
  {
    if exists k :: 0 <= k < |lines| && GivesLyric(lines[k], l) {
      var k :| 0 <= k < |lines| && GivesLyric(lines[k], l);
      if k > 0 {
        assert lines[1..][k - 1] == lines[k];
      }
    }
    if exists k :: 0 <= k < |lines[1..]| && GivesLyric(lines[1..][k], l) {
      var k :| 0 <= k < |lines[1..]| && GivesLyric(lines[1..][k], l);
      assert lines[k + 1] == lines[1..][k];
    }
  }

  lemma ShiftTag(lines: seq<TaggedLine>, t: Tag)
    requires AllTagged(lines) && |lines| >= 1
    ensures (exists k :: 0 <= k < |lines| && GivesTag(lines[k], t)) <==>
      GivesTag(lines[0], t) || exists k :: 0 <= k < |lines[1..]| && GivesTag(lines[1..][k], t)
  {
    if exists k :: 0 <= k < |lines| && GivesTag(lines[k], t) {
      var k :| 0 <= k < |lines| && GivesTag(lines[k], t);
      if k > 0 {
        assert lines[1..][k - 1] == lines[k];
      }
    }
    if exists k :: 0 <= k < |lines[1..]| && GivesTag(lines[1..][k], t) {
      var k :| 0 <= k < |lines[1..]| && GivesTag(lines[1..][k], t);
      assert lines[k + 1] == lines[1..][k];
    }
  }

  /** `Lrc.loads`: tokenize the text, then sort its lines into lyric lines
      and plain tags. */
  function Loads(s: string): (r: Result<Lrc, ParseError>)
    ensures r.Err? ==> r.error.NotLrc? || r.error.BadSecond?
    ensures r.Ok? ==> |r.value.lyrics| + |r.value.tags| >= 1
  {
    MakeLinesOutcome(s);
    match MakeLines(s)
    case Err(e) => Err(e)
    case Ok(lines) => Ok(Classify(lines))
  }

  /** Reading fails for want of tags exactly when no physical line of the
      text opens with a `[name:val]` group. */
  lemma LoadsNotLrc(s: string)
    ensures Loads(s) == Err(NotLrc) <==> forall line :: line in Lines(s) ==> MatchGroup(line, 0).None?
  {
    NotLrcIffNoTaggedLine(s);
  }

  // ---------------------------------------------------------------------
  // Writing: `dumps`

  /** The lines `dumps` writes, as lyric lines: each plain tag with an empty
      lyric, then the lyric lines themselves. */
  function Entries(d: Lrc): (es: seq<LyricLine>)
    ensures |es| == |d.tags| + |d.lyrics|
  {
    seq(|d.tags|, k requires 0 <= k < |d.tags| => LyricLine(d.tags[k], "")) + d.lyrics
  }

  /** Each entry as its tag's text form and its lyric, ended by a newline. */
  function Written(es: seq<LyricLine>): (r: string)
    ensures r == "" <==> |es| == 0
    ensures r != "" ==> r[|r| - 1] == '\n'
  {
    if |es| == 0 then "" else Str(es[0].tag) + es[0].lyric + "\n" + Written(es[1..])
  }

  /** `Lrc.dumps`: empty for the empty document, and otherwise ended by a
      newline. */
  function Dumps(d: Lrc): (r: string)
    ensures r == "" <==> |d.lyrics| + |d.tags| == 0
    ensures r != "" ==> r[|r| - 1] == '\n'
  {
    Written(Entries(d))
  }

  /** A lyric line whose tag text and lyric hold no newline. */
  predicate OneLine(e: LyricLine) {
    '\n' !in Str(e.tag) && '\n' !in e.lyric
  }

  /** Each entry as one physical line: its tag's text form and its lyric. */
  function Rows(es: seq<LyricLine>): seq<string> {
    seq(|es|, k requires 0 <= k < |es| => Str(es[k].tag) + es[k].lyric)
  }

  /** The text `dumps` writes has one physical line per plain tag, then one
      per lyric line, in order, each ended by a newline, so the text after
      the last newline is empty. */
  lemma DumpsLines(d: Lrc)
    requires forall k :: 0 <= k < |Entries(d)| ==> OneLine(Entries(d)[k])
    ensures Lines(Dumps(d)) == Rows(Entries(d)) + [""]
  {
    WrittenLines(Entries(d));
  }

  lemma {:induction false} WrittenLines(es: seq<LyricLine>)
    requires forall k :: 0 <= k < |es| ==> OneLine(es[k])
    ensures Lines(Written(es)) == Rows(es) + [""]
    decreases |es|
  {
    if |es| == 0 {
      assert Lines("") == [""];
    } else {
      WrittenLines(es[1..]);
      WrittenRowCons(es);
      ConsAppend(Rows(es)[0], Rows(es[1..]), [""]);
    }
  }

  lemma ConsAppend<T>(x: T, a: seq<T>, b: seq<T>)
    ensures [x] + (a + b) == ([x] + a) + b
  {
  }

  lemma WrittenRowCons(es: seq<LyricLine>)
    requires |es| >= 1 && OneLine(es[0])
    ensures Lines(Written(es)) == [Rows(es)[0]] + Lines(Written(es[1..]))
    ensures Rows(es) == [Rows(es)[0]] + Rows(es[1..])
  {
    var line, tail := Str(es[0].tag) + es[0].lyric, Written(es[1..]);
    WrittenUnfold(es);
    LinesCons(line, tail);
    RowsCons(es);
  }

  lemma WrittenUnfold(es: seq<LyricLine>)
    requires |es| >= 1
    ensures Written(es) == Str(es[0].tag) + es[0].lyric + "\n" + Written(es[1..])
  {
  }

  lemma RowsCons(es: seq<LyricLine>)
    requires |es| >= 1
    ensures Rows(es)[0] == Str(es[0].tag) + es[0].lyric
    ensures Rows(es) == [Rows(es)[0]] + Rows(es[1..])
  {
  }

  // ---------------------------------------------------------------------
  // The round trip

  /** A tag whose text form reads back as one tag of the same kind: a plain
      tag whose name and value the lazy group pattern reads back whole and
      whose name is not an integer, or a timestamp of a second that is not
      negative. */
  predicate Readable(t: Tag) {
    match t
    case Header(n, v) => PlainName(n) && PlainVal(v) && !IsInteger(n)
    case Time(_, s) => s >= 0.0
  }

  /** A lyric that stays on its line and does not read as another tag. */
  predicate LyricText(s: string) {
    '\n' !in s && MatchGroup(s, 0).None?
  }

  /** A document `dumps` writes in a form `loads` reads back: readable plain
      tags, and lyric lines under readable timestamps with lyric texts. */
  predicate WellFormed(d: Lrc) {
    && (forall k :: 0 <= k < |d.tags| ==> d.tags[k].Header? && Readable(d.tags[k]))
    && (forall k :: 0 <= k < |d.lyrics| ==>
          d.lyrics[k].tag.Time? && Readable(d.lyrics[k].tag) && LyricText(d.lyrics[k].lyric))
  }

  /** The tag a readable tag reads back as: a timestamp's second becomes
      the second its value text denotes. */
  function Normal(t: Tag): Tag
    requires Readable(t)
  {
    match t
    case Header(_, _) => t
    case Time(m, s) => Time(m, Rendered(s))
  }

  /** Lyric lines under readable tags. */
  predicate ReadableTags(ls: seq<LyricLine>) {
    forall k :: 0 <= k < |ls| ==> Readable(ls[k].tag)
  }

  /** The lyric lines with every tag replaced by what it reads back as. */
  function NormalLyrics(ls: seq<LyricLine>): seq<LyricLine>
    requires ReadableTags(ls)
  {
    seq(|ls|, k requires 0 <= k < |ls| => LyricLine(Normal(ls[k].tag), ls[k].lyric))
  }

  /** The document with every timestamp replaced by what it reads back as. */
  function Normalised(d: Lrc): Lrc
    requires WellFormed(d)
  {
    Lrc(NormalLyrics(d.lyrics), d.tags)
  }

  /** A timestamp's name and value, and those of a readable plain tag, are
      read back whole by the group pattern. */
  lemma ReadablePlain(t: Tag)
    requires Readable(t)
    ensures PlainName(Name(t)) && PlainVal(Val(t))
  {
    if t.Time? {
      IntegerPlain(Name(t));
      SecondTextLayout(t.second);
      assert Val(t) == SecondText(t.second);
      PointPlain(SecondText(t.second));
    }
  }

  /** Integer text is a name the group pattern reads back whole. */
  lemma IntegerPlain(n: string)
    requires IsInteger(n)
    ensures PlainName(n)
  {
    assert forall k :: 1 <= k < |n| ==> IsDigit(n[k]) by {
      if n[0] == '+' || n[0] == '-' {
        assert forall k :: 1 <= k < |n| ==> n[k] == n[1..][k - 1];
      }
    }
    assert n[0] == '+' || n[0] == '-' || IsDigit(n[0]);
    assert forall k :: 0 <= k < |n| ==> n[k] != '\n';
  }

  /** Digits, a '.' and three digits make a value the group pattern reads
      back whole. */
  lemma PointPlain(r: string)
    requires |r| >= 5 && r[|r| - 4] == '.'
    requires AllDigits(r[..|r| - 4]) && AllDigits(r[|r| - 3..])
    ensures PlainVal(r)
  {
    var p := |r| - 4;
    forall k | 0 <= k < |r|
      ensures r[k] != ']' && r[k] != '\n'
    {
      if k < p {
        assert r[k] == r[..p][k];
      } else if k > p {
        assert r[k] == r[|r| - 3..][k - p - 1];
      }
    }
  }

  /** A readable tag's text form is tokenized back into the tag it reads
      back as. */
  lemma SplitTagsOfStr(t: Tag)
    requires Readable(t)
    ensures SplitTags(Str(t)) == Ok([Normal(t)])
  {
    var n, v := Name(t), Val(t);
    OneTagRun(t);
    if t.Time? {
      ValParses(t);
    }
    ReclassifyOne(Header(n, v), Normal(t));
  }

  lemma ReclassifyOne(raw: Tag, t: Tag)
    requires raw.Header? && Reclassify(raw) == Ok(t)
    ensures ReclassifyAll([raw]) == Ok([t])
  {
    assert [raw][0] == raw && [raw][1..] == [];
    assert ReclassifyAll([]) == Ok([]);
    assert [t] + [] == [t];
  }

  /** The run of a readable tag's text form is that one tag, as a plain
      tag. */
  lemma OneTagRun(t: Tag)
    requires Readable(t)
    ensures SplitTags(Str(t)) == ReclassifyAll([Header(Name(t), Val(t))])
  {
    var n, v := Name(t), Val(t);
    ReadablePlain(t);
    SingleTagLine(n, v, "");
    var line := Bracketed(n, v) + "";
    assert line == Str(t);
    var m := Match(Str(t), "");
    assert IsLineMatch(m);
    SplitTagsOfMatch(m);
  }

  /** The match of each written line: the tag's text form and the lyric. */
  function MatchesOf(es: seq<LyricLine>): seq<Match> {
    seq(|es|, k requires 0 <= k < |es| => Match(Str(es[k].tag), es[k].lyric))
  }

  /** Entries whose tags are readable and whose lyrics are lyric texts. */
  predicate ReadableEntries(es: seq<LyricLine>) {
    forall k :: 0 <= k < |es| ==> Readable(es[k].tag) && LyricText(es[k].lyric)
  }

  /** A readable tag's text form spans no newline. */
  lemma StrOneLine(t: Tag)
    requires Readable(t)
    ensures '\n' !in Str(t)
  {
    ReadablePlain(t);
    var n, v := Name(t), Val(t);
    assert '\n' !in n && '\n' !in v;
    JoinOneLine(n, v);
  }

  lemma JoinOneLine(n: string, v: string)
    requires '\n' !in n && '\n' !in v
    ensures '\n' !in Bracketed(n, v)
  {
  }

  /** The lines of written entries are their matches, and the empty line
      after the last newline matches nothing. */
  lemma {:induction false} MatchesOfWritten(es: seq<LyricLine>)
    requires ReadableEntries(es)
    ensures Matches(Lines(Written(es))) == MatchesOf(es)
    decreases |es|
  {
    if |es| == 0 {
      assert Lines("") == [""];
    } else {
      var rest := es[1..];
      MatchesOfWritten(rest);
      WrittenCons(es);
      MatchesOfCons(es);
    }
  }

  lemma MatchesOfCons(es: seq<LyricLine>)
    requires |es| >= 1
    ensures MatchesOf(es) == [Match(Str(es[0].tag), es[0].lyric)] + MatchesOf(es[1..])
  {
  }

  /** One entry more in front of written entries. */
  lemma WrittenCons(es: seq<LyricLine>)
    requires |es| >= 1 && Readable(es[0].tag) && LyricText(es[0].lyric)
    ensures Matches(Lines(Written(es))) ==
      [Match(Str(es[0].tag), es[0].lyric)] + Matches(Lines(Written(es[1..])))
  {
    var e := es[0];
    var line := Str(e.tag) + e.lyric;
    var tail := Written(es[1..]);
    assert Written(es) == line + "\n" + tail;
    StrOneLine(e.tag);
    LinesCons(line, tail);
    LineMatch(e);
    MatchesCons(line, Lines(tail));
  }

  /** A written line matches with its tag's text form as the run and its
      lyric as the lyric. */
  lemma LineMatch(e: LyricLine)
    requires Readable(e.tag) && LyricText(e.lyric)
    ensures MatchLine(Str(e.tag) + e.lyric) == Some(Match(Str(e.tag), e.lyric))
  {
    ReadablePlain(e.tag);
    SingleTagLine(Name(e.tag), Val(e.tag), e.lyric);
  }

  lemma MatchesCons(line: string, lines: seq<string>)
    requires MatchLine(line).Some?
    ensures Matches([line] + lines) == [MatchLine(line).value] + Matches(lines)
  {
    assert ([line] + lines)[1..] == lines;
  }

  /** Each written entry tokenized: its lyric, and its tag as it reads back. */
  function TaggedOf(es: seq<LyricLine>): seq<TaggedLine>
    requires ReadableEntries(es)
  {
    seq(|es|, k requires 0 <= k < |es| => TaggedLine(es[k].lyric, [Normal(es[k].tag)]))
  }

  /** Each tokenized written line holds the lyric and the one tag it was
      written from, as that tag reads back. */
  lemma ParseMatchesOf(es: seq<LyricLine>)
    requires ReadableEntries(es)
    ensures ParseMatches(MatchesOf(es)) == Ok(TaggedOf(es))
  {
    var ms, want := MatchesOf(es), TaggedOf(es);
    forall k | 0 <= k < |es|
      ensures ms[k].lyric == want[k].lyric && SplitTags(ms[k].run) == Ok(want[k].tags)
    {
      SplitTagsOfStr(es[k].tag);
    }
    ParseMatchesAll(ms, want);
  }

  /** Tokenizing matches whose runs each split into known tags. */
  lemma ParseMatchesAll(ms: seq<Match>, want: seq<TaggedLine>)
    requires |ms| == |want|
    requires forall k :: 0 <= k < |ms| ==> ms[k].lyric == want[k].lyric && SplitTags(ms[k].run) == Ok(want[k].tags)
    ensures ParseMatches(ms) == Ok(want)
  {
    var r := ParseMatches(ms);
    assert r.Ok?;
    assert r.value == want;
  }

  /** Plain tags, each written alone on its line and tokenized back. */
  function HeaderLines(ts: seq<Tag>): seq<TaggedLine> {
    seq(|ts|, k requires 0 <= k < |ts| => TaggedLine("", [ts[k]]))
  }

  /** Lyric lines, each written and tokenized back. */
  function TimedLines(ls: seq<LyricLine>): seq<TaggedLine>
    requires ReadableTags(ls)
  {
    seq(|ls|, k requires 0 <= k < |ls| => TaggedLine(ls[k].lyric, [Normal(ls[k].tag)]))
  }

  /** Lines of one tag each. */
  predicate Singles(lines: seq<TaggedLine>) {
    forall k :: 0 <= k < |lines| ==> |lines[k].tags| == 1
  }

  /** The tag of each line of one tag, with the line's lyric. */
  function SingleLyrics(lines: seq<TaggedLine>): seq<LyricLine>
    requires Singles(lines)
  {
    seq(|lines|, k requires 0 <= k < |lines| => LyricLine(lines[k].tags[0], lines[k].lyric))
  }

  /** The tag of each line of one tag. */
  function SingleTags(lines: seq<TaggedLine>): seq<Tag>
    requires Singles(lines)
  {
    seq(|lines|, k requires 0 <= k < |lines| => lines[k].tags[0])
  }

  /** Lines of one plain tag each add up to those tags. */
  lemma {:induction false} ClassifyPlainSingles(lines: seq<TaggedLine>)
    requires Singles(lines) && forall k :: 0 <= k < |lines| ==> lines[k].tags[0].Header?
    ensures AllTagged(lines)
    ensures Classify(lines) == Lrc([], SingleTags(lines))
    decreases |lines|
  {
    if |lines| > 0 {
      ClassifyPlainSingles(lines[1..]);
      assert SingleTags(lines) == [lines[0].tags[0]] + SingleTags(lines[1..]);
    }
  }

  /** Lines of one timestamp each add up to one lyric line each. */
  lemma {:induction false} ClassifyTimedSingles(lines: seq<TaggedLine>)
    requires Singles(lines) && forall k :: 0 <= k < |lines| ==> lines[k].tags[0].Time?
    ensures AllTagged(lines)
    ensures Classify(lines) == Lrc(SingleLyrics(lines), [])
    decreases |lines|
  {
    if |lines| > 0 {
      ClassifyTimedSingles(lines[1..]);
      assert Spread(lines[0]) == [SingleLyrics(lines)[0]];
      assert SingleLyrics(lines) == [SingleLyrics(lines)[0]] + SingleLyrics(lines[1..]);
    }
  }

  /** The written entries of a well-formed document tokenize into its plain
      tags' lines followed by its lyric lines'. */
  lemma EntriesTagged(d: Lrc)
    requires WellFormed(d)
    ensures ReadableEntries(Entries(d))
    ensures ReadableTags(d.lyrics)
    ensures TaggedOf(Entries(d)) == HeaderLines(d.tags) + TimedLines(d.lyrics)
  {
    var es := Entries(d);
    var n := |d.tags|;
    assert forall k :: n <= k < |es| ==> es[k] == d.lyrics[k - n];
    assert forall k :: 0 <= k < n ==> es[k] == LyricLine(d.tags[k], "");
    assert ReadableEntries(es) by {
      forall k | 0 <= k < |es|
        ensures Readable(es[k].tag) && LyricText(es[k].lyric)
      {
        if k < n {
          assert MatchGroup("", 0).None?;
        }
      }
    }
  }

  /** Tokenizing the written entries of a well-formed document and sorting
      the lines gives the document back, timestamps as they read back. */
  lemma ClassifyEntries(d: Lrc)
    requires WellFormed(d)
    ensures ReadableEntries(Entries(d))
    ensures AllTagged(TaggedOf(Entries(d)))
    ensures Classify(TaggedOf(Entries(d))) == Normalised(d)
  {
    EntriesTagged(d);
    var hs, ts := HeaderLines(d.tags), TimedLines(d.lyrics);
    ClassifyPlainSingles(hs);
    assert SingleTags(hs) == d.tags;
    ClassifyTimedSingles(ts);
    assert SingleLyrics(ts) == NormalLyrics(d.lyrics);
    ClassifyAppend(HeaderLines(d.tags), TimedLines(d.lyrics));
    assert [] + NormalLyrics(d.lyrics) == NormalLyrics(d.lyrics);
    assert d.tags + [] == d.tags;
  }

  /** `loads` reads back what `dumps` writes: a well-formed document comes
      back with each timestamp's second as its value text denotes it, and a
      document with nothing in it is rejected as not LRC text. */
  lemma RoundTrip(d: Lrc)
    requires WellFormed(d)
    ensures |d.lyrics| + |d.tags| == 0 ==> Loads(Dumps(d)) == Err(NotLrc)
    ensures |d.lyrics| + |d.tags| >= 1 ==> Loads(Dumps(d)) == Ok(Normalised(d))
  {
    var es := Entries(d);
    ClassifyEntries(d);
    MatchesOfWritten(es);
    var s := Dumps(d);
    assert Matches(Lines(s)) == MatchesOf(es);
    if |es| > 0 {
      ParseMatchesOf(es);
      assert MakeLines(s) == Ok(TaggedOf(es));
    }
  }

  /** A timestamp second that its value text denotes exactly. */
  predicate Exact(second: real) {
    OnMillisecond(second) && (Millis(second) == 0 || Millis(second) >= 100)
  }

  /** A well-formed document with something in it comes back unchanged if
      and only if every one of its timestamps lies on the millisecond grid
      with a millisecond count of 0 or of three digits. */
  lemma RoundTripExact(d: Lrc)
    requires WellFormed(d) && |d.lyrics| + |d.tags| >= 1
    ensures Loads(Dumps(d)) == Ok(d) <==>
      forall k :: 0 <= k < |d.lyrics| ==> Exact(d.lyrics[k].tag.second)
  {
    RoundTrip(d);
    NormalisedExact(d);
  }

  lemma NormalisedExact(d: Lrc)
    requires WellFormed(d)
    ensures Normalised(d) == d <==> forall k :: 0 <= k < |d.lyrics| ==> Exact(d.lyrics[k].tag.second)
  {
    var ls := d.lyrics;
    var ns := NormalLyrics(ls);
    forall k | 0 <= k < |ls|
      ensures ns[k] == ls[k] <==> Exact(ls[k].tag.second)
    {
      RenderedExact(ls[k].tag.second);
    }
    if forall k :: 0 <= k < |ls| ==> Exact(ls[k].tag.second) {
      assert ns == ls;
    }
  }

  // ---------------------------------------------------------------------
  // Editing the lyric lines like a Python list

  /** The position a Python index names in a list of `n` items: counted
      from the front when not negative and from the end when negative;
      `None` where the list raises `IndexError`. */
  function Position(i: int, n: nat): (p: Option<nat>)
    ensures p.Some? <==> -(n as int) <= i < n
    ensures p.Some? ==> p.value < n && (p.value == i || p.value == i + n)
  {
    if 0 <= i < n then Some(i)
    else if -(n as int) <= i < 0 then Some(i + n)
    else None
  }

  /** `d[i]` for an integer `i`. */
  function GetItem(d: Lrc, i: int): (r: Result<LyricLine, IndexError>)
    ensures r.Ok? <==> -|d.lyrics| <= i < |d.lyrics|
    ensures r.Ok? && i >= 0 ==> r.value == d.lyrics[i]
    ensures r.Ok? && i < 0 ==> r.value == d.lyrics[|d.lyrics| + i]
  {
    match Position(i, |d.lyrics|)
    case None => Err(IndexError)
    case Some(p) => Ok(d.lyrics[p])
  }

  /** `d[i] = v` for an integer `i`: the one lyric line `i` names is
      replaced, everything else is kept. */
  function SetItem(d: Lrc, i: int, v: LyricLine): (r: Result<Lrc, IndexError>)
    ensures r.Ok? <==> -|d.lyrics| <= i < |d.lyrics|
    ensures r.Ok? ==> r.value.tags == d.tags && |r.value.lyrics| == |d.lyrics|
    ensures r.Ok? ==> GetItem(r.value, i) == Ok(v)
    ensures r.Ok? ==> forall j :: Position(j, |d.lyrics|).Some? && Position(j, |d.lyrics|) != Position(i, |d.lyrics|) ==>
      GetItem(r.value, j) == GetItem(d, j)
  {
    match Position(i, |d.lyrics|)
    case None => Err(IndexError)
    case Some(p) => Ok(Lrc(d.lyrics[p := v], d.tags))
  }

  /** `del d[i]` for an integer `i`: the lyric line `i` names is removed
      and the ones after it move up by one. */
  function DelItem(d: Lrc, i: int): (r: Result<Lrc, IndexError>)
    ensures r.Ok? <==> -|d.lyrics| <= i < |d.lyrics|
    ensures r.Ok? ==> r.value.tags == d.tags && |r.value.lyrics| == |d.lyrics| - 1
    ensures r.Ok? ==> var p := Position(i, |d.lyrics|).value;
      && (forall k :: 0 <= k < p ==> r.value.lyrics[k] == d.lyrics[k])
      && (forall k :: p <= k < |r.value.lyrics| ==> r.value.lyrics[k] == d.lyrics[k + 1])
  {
    match Position(i, |d.lyrics|)
    case None => Err(IndexError)
    case Some(p) => Ok(Lrc(d.lyrics[..p] + d.lyrics[p + 1..], d.tags))
  }

  /** A slice bound of a list of `n` items, as CPython adjusts it: a
      missing bound takes its default, a negative one counts from the end,
      and the result is clipped to `0..n`. */
  function Clamp(b: Option<int>, default: nat, n: nat): (c: nat)
    requires default <= n
    ensures c <= n
    ensures b.Some? && 0 <= b.value <= n ==> c == b.value
    ensures b.Some? && -(n as int) <= b.value < 0 ==> c == b.value + n as int
    ensures b.None? ==> c == default
    ensures b.Some? && b.value > n ==> c == n
    ensures b.Some? && b.value < -(n as int) ==> c == 0
  {
    match b
    case None => default
    case Some(x) =>
      if x < 0 then (if x + n < 0 then 0 else x + n)
      else if x > n then n
      else x
  }

  /** The clipped start of the slice `lo:hi`. */
  function Start(lo: Option<int>, n: nat): nat {
    Clamp(lo, 0, n)
  }

  /** The clipped stop of the slice `lo:hi`; a stop before the start is
      moved up to the start, as CPython does when it assigns or deletes. */
  function Stop(lo: Option<int>, hi: Option<int>, n: nat): (c: nat)
    ensures Start(lo, n) <= c <= n
  {
    Max(Start(lo, n), Clamp(hi, n, n))
  }

  /** `d[lo:hi]`: the lyric lines from the start up to but not including
      the stop. */
  function GetSlice(d: Lrc, lo: Option<int>, hi: Option<int>): (r: seq<LyricLine>)
    ensures var a := Start(lo, |d.lyrics|);
      && |r| == Stop(lo, hi, |d.lyrics|) - a
      && forall k :: 0 <= k < |r| ==> r[k] == d.lyrics[a + k]
  {
    var n := |d.lyrics|;
    var a, b := Clamp(lo, 0, n), Clamp(hi, n, n);
    if a < b then d.lyrics[a..b] else []
  }

  /** `d[lo:hi] = vals`: the lines of the slice are replaced by `vals`,
      which may be longer or shorter. */
  function SetSlice(d: Lrc, lo: Option<int>, hi: Option<int>, vals: seq<LyricLine>): (r: Lrc)
    ensures r.tags == d.tags
    ensures var a, b := Start(lo, |d.lyrics|), Stop(lo, hi, |d.lyrics|);
      && |r.lyrics| == |d.lyrics| - (b - a) + |vals|
      && r.lyrics[..a] == d.lyrics[..a]
      && r.lyrics[a..a + |vals|] == vals
      && r.lyrics[a + |vals|..] == d.lyrics[b..]
  {
    var n := |d.lyrics|;
    var a, b := Start(lo, n), Stop(lo, hi, n);
    var r := d.lyrics[..a] + vals + d.lyrics[b..];
    assert r[..a] == d.lyrics[..a];
    assert r[a..a + |vals|] == vals;
    assert r[a + |vals|..] == d.lyrics[b..];
    Lrc(r, d.tags)
  }

  /** `del d[lo:hi]`: the lines of the slice are removed, and the lines
      before and after it close up in their order; what is removed and
      what is left together are the lines there were. */
  function DelSlice(d: Lrc, lo: Option<int>, hi: Option<int>): (r: Lrc)
    ensures r.tags == d.tags
    ensures |r.lyrics| == |d.lyrics| - |GetSlice(d, lo, hi)|
    ensures var a, b := Start(lo, |d.lyrics|), Stop(lo, hi, |d.lyrics|);
      r.lyrics[..a] == d.lyrics[..a] && r.lyrics[a..] == d.lyrics[b..]
    ensures multiset(r.lyrics) + multiset(GetSlice(d, lo, hi)) == multiset(d.lyrics)
  {
    var n := |d.lyrics|;
    var a, b := Start(lo, n), Stop(lo, hi, n);
    assert d.lyrics == d.lyrics[..a] + d.lyrics[a..b] + d.lyrics[b..];
    assert GetSlice(d, lo, hi) == d.lyrics[a..b];
    var r := d.lyrics[..a] + d.lyrics[b..];
    assert r[..a] == d.lyrics[..a] && r[a..] == d.lyrics[b..];
    Lrc(r, d.tags)
  }

  /** A negative index names the same line as that index plus the length. */
  lemma NegativeIndex(d: Lrc, i: int)
    requires 0 <= i < |d.lyrics|
    ensures GetItem(d, i - |d.lyrics|) == GetItem(d, i)
  {
  }

  /** Reading one line is reading the slice of that one line. */
  lemma GetItemIsSlice(d: Lrc, i: int)
    requires -|d.lyrics| <= i < |d.lyrics|
    ensures var p := Position(i, |d.lyrics|).value;
      GetSlice(d, Some(p), Some(p + 1)) == [GetItem(d, i).value]
  {
  }

  /** Assigning one line is assigning the slice of that one line. */
  lemma SetItemIsSlice(d: Lrc, i: int, v: LyricLine)
    requires -|d.lyrics| <= i < |d.lyrics|
    ensures var p := Position(i, |d.lyrics|).value;
      SetItem(d, i, v) == Ok(SetSlice(d, Some(p), Some(p + 1), [v]))
  {
    var p := Position(i, |d.lyrics|).value;
    var r := SetSlice(d, Some(p), Some(p + 1), [v]);
    assert r.lyrics == d.lyrics[p := v];
  }

  /** Deleting one line is deleting the slice of that one line. */
  lemma DelItemIsSlice(d: Lrc, i: int)
    requires -|d.lyrics| <= i < |d.lyrics|
    ensures var p := Position(i, |d.lyrics|).value;
      DelItem(d, i) == Ok(DelSlice(d, Some(p), Some(p + 1)))
  {
  }

  /** Deleting a slice is assigning it no lines. */
  lemma DelSliceIsEmptyAssign(d: Lrc, lo: Option<int>, hi: Option<int>)
    ensures DelSlice(d, lo, hi) == SetSlice(d, lo, hi, [])
  {
  }

  /** Putting back what a slice reads leaves the document as it was. */
  lemma SliceRestore(d: Lrc, lo: Option<int>, hi: Option<int>)
    ensures SetSlice(d, lo, hi, GetSlice(d, lo, hi)) == d
  {
    var n := |d.lyrics|;
    var a, b := Start(lo, n), Stop(lo, hi, n);
    assert GetSlice(d, lo, hi) == d.lyrics[a..b];
    assert d.lyrics[..a] + d.lyrics[a..b] + d.lyrics[b..] == d.lyrics;
  }

  /** Reading a slice after assigning it gives the lines assigned. */
  lemma SliceAssignRead(d: Lrc, lo: Option<int>, hi: Option<int>, vals: seq<LyricLine>)
    ensures var a := Start(lo, |d.lyrics|);
      GetSlice(SetSlice(d, lo, hi, vals), Some(a), Some(a + |vals|)) == vals
  {
  }
}
