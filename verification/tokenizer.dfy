/** The tokenizer: splitting LRC text into physical lines, finding the run of
    `[name:val]` groups that opens each line, cutting that run into tags and
    turning integer-named tags into timestamps. The regular expressions of
    the source are replaced by a scanner whose result is proved to be the
    match those expressions select. */
module Tokenizer {
  import opened Outcome
  import opened Decimal
  import opened Component

  /** The format errors the tokenizer raises (all `ValueError` in the
      source): no line of the text opens with a tag, a tag run without tags,
      a bracket without a name/value split, and a timestamp whose value is
      not a number. */
  datatype ParseError = NotLrc | NotTags | NotTag(text: string) | BadSecond(val: string)

  /** One matched line: the run of bracket groups and the rest of the line. */
  datatype Match = Match(run: string, lyric: string)

  /** A tokenized line: its tags in bracket order and its lyric text. */
  datatype TaggedLine = TaggedLine(lyric: string, tags: seq<Tag>)

  /** Where one `[name:val]` group sits in a string: its '[', the ':' that
      ends the name and the ']' that ends the value. */
  datatype Span = Span(open: nat, colon: nat, close: nat)

  // ---------------------------------------------------------------------
  // Physical lines

  /** The text between newlines, in order; a text ending in a newline has
      an empty last line. */
  function Lines(s: string): (r: seq<string>)
    ensures |r| >= 1
    ensures forall k :: 0 <= k < |r| ==> '\n' !in r[k]
    ensures Join(r) == s
    decreases |s|
  {
    var i := IndexOf(s, '\n');
    if i == |s| then
      [s]
    else
      var rest := Lines(s[i + 1..]);
      assert ([s[..i]] + rest)[1..] == rest;
      [s[..i]] + rest
  }

  /** The lines put back together with a newline between each two. */
  function Join(lines: seq<string>): string
    requires |lines| >= 1
  {
    if |lines| == 1 then lines[0] else lines[0] + "\n" + Join(lines[1..])
  }

  /** A line followed by a newline is split off as the first line. */
  lemma LinesCons(a: string, b: string)
    requires '\n' !in a
    ensures Lines(a + "\n" + b) == [a] + Lines(b)
  {
    var s := a + "\n" + b;
    assert s[|a|] == '\n';
    assert s[..|a|] == a;
    assert s[|a| + 1..] == b;
  }

  // ---------------------------------------------------------------------
  // One bracket group: the regular expression `\[.+?:.+?\]`

  /** `sp` is a match of `\[.+?:.+?\]` at `sp.open` in `s`, where '.' is any
      character but a newline: a '[', a name of at least one character, a
      ':', a value of at least one character, a ']'. */
  predicate IsGroup(s: string, sp: Span) {
    && sp.open + 2 <= sp.colon
    && sp.colon + 2 <= sp.close < |s|
    && s[sp.open] == '[' && s[sp.colon] == ':' && s[sp.close] == ']'
    && '\n' !in s[sp.open + 1..sp.close]
  }

  /** The order in which the lazy quantifiers try candidate matches: shorter
      names first and, for the same name, shorter values. */
  predicate Precedes(a: Span, b: Span) {
    a.colon < b.colon || (a.colon == b.colon && a.close <= b.close)
  }

  /** The first `c` at or after `j` that comes before the end of the line. */
  function Seek(s: string, c: char, j: nat): (r: Option<nat>)
    requires c != '\n'
    ensures r.Some? ==> j <= r.value < |s| && s[r.value] == c
    decreases |s| - j
  {
    if j >= |s| || s[j] == '\n' then None
    else if s[j] == c then Some(j)
    else Seek(s, c, j + 1)
  }

  /** What `Seek` passes over: neither `c` nor a newline. */
  lemma {:induction false} SeekSome(s: string, c: char, j: nat)
    requires c != '\n'
    requires Seek(s, c, j).Some?
    ensures forall k :: j <= k < Seek(s, c, j).value ==> s[k] != c && s[k] != '\n'
    decreases |s| - j
  {
    if s[j] != c {
      SeekSome(s, c, j + 1);
    }
  }

  /** When there is no `c` before the end of the line, every `c` further on
      comes after a newline. */
  lemma {:induction false} SeekNone(s: string, c: char, j: nat)
    requires c != '\n'
    requires Seek(s, c, j).None?
    ensures forall k :: j <= k < |s| && s[k] == c ==> exists m :: j <= m < k && s[m] == '\n'
    decreases |s| - j
  {
    if j < |s| && s[j] != '\n' {
      SeekNone(s, c, j + 1);
    }
  }

  /** The match of `\[.+?:.+?\]` at position `i`, if any: of all the groups
      that start there, the one the lazy quantifiers reach first. Trying a
      longer name never helps: if no ']' follows the first colon on the
      line, none follows a later one. */
  function MatchGroup(s: string, i: nat): (r: Option<Span>)
    ensures r.Some? ==> r.value.open == i && IsGroup(s, r.value)
  {
    if i + 1 < |s| && s[i] == '[' && s[i + 1] != '\n' then
      match Seek(s, ':', i + 2)
      case None => None
      case Some(c) =>
        if c + 1 < |s| && s[c + 1] != '\n' then
          match Seek(s, ']', c + 2)
          case None => None
          case Some(e) =>
            SeekSome(s, ':', i + 2);
            SeekSome(s, ']', c + 2);
            Some(Span(i, c, e))
        else
          None
    else
      None
  }

  /** `MatchGroup` finds a group wherever one starts, and the one it finds
      comes first in the lazy order. */
  lemma MatchGroupIsLeast(s: string, i: nat)
    ensures MatchGroup(s, i).Some? ==>
      forall c, e :: IsGroup(s, Span(i, c, e)) ==> Precedes(MatchGroup(s, i).value, Span(i, c, e))
    ensures MatchGroup(s, i).None? ==> forall c, e :: !IsGroup(s, Span(i, c, e))
  {
    if i + 1 < |s| && s[i] == '[' && s[i + 1] != '\n' {
      match Seek(s, ':', i + 2)
      case None => SeekNone(s, ':', i + 2);
      case Some(c) =>
        SeekSome(s, ':', i + 2);
        if c + 1 < |s| && s[c + 1] != '\n' {
          match Seek(s, ']', c + 2)
          case None => SeekNone(s, ']', c + 2);
          case Some(_) => SeekSome(s, ']', c + 2);
        }
    }
  }

  /** The tag a group spells, before any reclassification. */
  function TagOf(s: string, sp: Span): (t: Tag)
    requires IsGroup(s, sp)
    ensures t.Header?
  {
    Header(s[sp.open + 1..sp.colon], s[sp.colon + 1..sp.close])
  }

  /** A match the lazy order puts before every other match at its position
      is the one `MatchGroup` returns. */
  lemma LeastIsMatch(s: string, sp: Span)
    requires IsGroup(s, sp)
    requires forall c, e :: IsGroup(s, Span(sp.open, c, e)) ==> Precedes(sp, Span(sp.open, c, e))
    ensures MatchGroup(s, sp.open) == Some(sp)
  {
    var r := MatchGroup(s, sp.open);
    MatchGroupIsLeast(s, sp.open);
    assert IsGroup(s, Span(sp.open, sp.colon, sp.close));
    assert Precedes(r.value, sp);
    assert Precedes(sp, Span(sp.open, r.value.colon, r.value.close));
  }

  /** Matching inside a slice of a string: a group is a group of the slice
      exactly when it is a group of the whole string that ends inside the
      slice. */
  lemma IsGroupSlice(s: string, a: nat, b: nat, sp: Span)
    requires a <= b <= |s|
    ensures IsGroup(s[a..b], sp) <==>
      IsGroup(s, Span(a + sp.open, a + sp.colon, a + sp.close)) && a + sp.close < b
  {
    var t := s[a..b];
    var sp' := Span(a + sp.open, a + sp.colon, a + sp.close);
    if IsGroup(t, sp) {
      forall k | sp'.open < k < sp'.close
        ensures s[k] != '\n'
      {
        assert t[k - a] == s[k];
      }
    }
    if IsGroup(s, sp') && a + sp.close < b {
      forall k | sp.open < k < sp.close
        ensures t[k] != '\n'
      {
        assert s[a + k] == t[k];
      }
    }
  }

  /** The match in a slice is the match in the whole string, moved by the
      slice's start, provided it ends inside the slice. */
  lemma MatchGroupSlice(s: string, a: nat, b: nat, j: nat)
    requires a <= b <= |s|
    requires MatchGroup(s, a + j).Some? && MatchGroup(s, a + j).value.close < b
    ensures var sp := MatchGroup(s, a + j).value;
      MatchGroup(s[a..b], j) == Some(Span(j, sp.colon - a, sp.close - a))
  {
    var sp := MatchGroup(s, a + j).value;
    var moved := Span(j, sp.colon - a, sp.close - a);
    IsGroupSlice(s, a, b, moved);
    SliceLeast(s, a, b, sp, moved);
    LeastIsMatch(s[a..b], moved);
  }

  /** Every group of a slice at the position of a match, moved back into
      the whole string, comes after that match in the lazy order. */
  lemma SliceLeast(s: string, a: nat, b: nat, sp: Span, moved: Span)
    requires a <= b <= |s|
    requires MatchGroup(s, sp.open) == Some(sp)
    requires a <= sp.open && moved == Span(sp.open - a, sp.colon - a, sp.close - a)
    ensures forall c, e :: IsGroup(s[a..b], Span(moved.open, c, e)) ==> Precedes(moved, Span(moved.open, c, e))
  {
    MatchGroupIsLeast(s, sp.open);
    forall c, e | IsGroup(s[a..b], Span(moved.open, c, e))
      ensures Precedes(moved, Span(moved.open, c, e))
    {
      IsGroupSlice(s, a, b, Span(moved.open, c, e));
      assert IsGroup(s, Span(sp.open, a + c, a + e));
    }
  }

  /** A suffix of a string has a match exactly where the string has one. */
  lemma MatchGroupSuffix(s: string, a: nat, j: nat)
    requires a <= |s|
    ensures MatchGroup(s[a..], j).None? <==> MatchGroup(s, a + j).None?
  {
    if MatchGroup(s, a + j).Some? {
      assert s[a..] == s[a..|s|];
      MatchGroupSlice(s, a, |s|, j);
    }
    if MatchGroup(s[a..], j).Some? {
      var u := MatchGroup(s[a..], j).value;
      assert s[a..] == s[a..|s|];
      IsGroupSlice(s, a, |s|, u);
      MatchGroupIsLeast(s, a + j);
    }
  }

  // ---------------------------------------------------------------------
  // A line: the regular expression `^((?:\[.+?:.+?\])+)(.*)`

  /** Where a run of groups ends. */
  function End(i: nat, spans: seq<Span>): nat {
    if |spans| == 0 then i else spans[|spans| - 1].close + 1
  }

  /** `spans` are groups of `s` laid end to end from position `i`. */
  predicate Chain(s: string, i: nat, spans: seq<Span>)
    ensures Chain(s, i, spans) ==> forall k :: 0 <= k < |spans| ==> IsGroup(s, spans[k])
    decreases |spans|
  {
    |spans| == 0 ||
    (IsGroup(s, spans[0]) && spans[0].open == i && Chain(s, spans[0].close + 1, spans[1..]))
  }

  /** `spans` are the matches found one after another from position `i`:
      each is the match where the previous one ended. */
  predicate MatchChain(s: string, i: nat, spans: seq<Span>)
    ensures MatchChain(s, i, spans) ==> Chain(s, i, spans)
    decreases |spans|
  {
    |spans| == 0 ||
    (MatchGroup(s, i) == Some(spans[0]) && MatchChain(s, spans[0].close + 1, spans[1..]))
  }

  /** The greedy run of groups starting at `i`: each group is the match at
      the position where the previous one ended, and the run stops at the
      first position where no group matches. */
  function ScanRun(s: string, i: nat): (r: seq<Span>)
    ensures MatchChain(s, i, r)
    ensures MatchGroup(s, End(i, r)).None?
    ensures |r| > 0 ==> i < End(i, r) <= |s|
    decreases |s| - i
  {
    match MatchGroup(s, i)
    case None => []
    case Some(sp) =>
      var rest := ScanRun(s, sp.close + 1);
      assert End(i, [sp] + rest) == End(sp.close + 1, rest);
      [sp] + rest
  }

  /** Every group of a chain of matches is the match at its own position. */
  lemma {:induction false} ChainMatches(s: string, i: nat, spans: seq<Span>)
    requires MatchChain(s, i, spans)
    ensures forall k :: 0 <= k < |spans| ==> MatchGroup(s, spans[k].open) == Some(spans[k])
    decreases |spans|
  {
    if |spans| > 0 {
      var rest := spans[1..];
      ChainMatches(s, spans[0].close + 1, rest);
      assert forall k :: 1 <= k < |spans| ==> spans[k] == rest[k - 1];
    }
  }

  /** The tags a run spells, in bracket order, before reclassification. */
  function RawTags(s: string, spans: seq<Span>): (r: seq<Tag>)
    requires forall k :: 0 <= k < |spans| ==> IsGroup(s, spans[k])
    ensures |r| == |spans|
    ensures forall k :: 0 <= k < |r| ==> r[k].Header?
  {
    seq(|spans|, k requires 0 <= k < |spans| => TagOf(s, spans[k]))
  }

  /** The texts of plain tags, one after another. */
  function Brackets(tags: seq<Tag>): string
    requires forall k :: 0 <= k < |tags| ==> tags[k].Header?
  {
    if |tags| == 0 then "" else Bracketed(tags[0].name, tags[0].val) + Brackets(tags[1..])
  }

  /** A match of the line pattern on one physical line: the run of groups
      at the start of the line and the rest of the line as the lyric. */
  function MatchLine(line: string): (r: Option<Match>)
    ensures r.Some? <==> MatchGroup(line, 0).Some?
    ensures r.Some? ==> r.value.run + r.value.lyric == line
    ensures r.Some? ==> |r.value.run| > 0 && MatchGroup(r.value.lyric, 0).None?
  {
    var spans := ScanRun(line, 0);
    if |spans| == 0 then
      None
    else
      var e := End(0, spans);
      assert line[..e] + line[e..] == line;
      MatchGroupSuffix(line, e, 0);
      Some(Match(line[..e], line[e..]))
  }

  /** A tokenizer result that the line pattern produces on its own line. */
  predicate IsLineMatch(m: Match) {
    MatchLine(m.run + m.lyric) == Some(m)
  }

  /** `re.findall` of the line pattern: the lines that open with a group, in
      order; the others are skipped. */
  function Matches(lines: seq<string>): (r: seq<Match>)
    ensures |r| == 0 <==> forall line :: line in lines ==> MatchGroup(line, 0).None?
    ensures |r| <= |lines|
    ensures |lines| == 1 ==>
      r == (if MatchLine(lines[0]).Some? then [MatchLine(lines[0]).value] else [])
  {
    if |lines| == 0 then
      []
    else
      var rest := Matches(lines[1..]);
      var head := MatchLine(lines[0]);
      assert forall line :: line in lines <==> line == lines[0] || line in lines[1..];
      if head.None? then rest else [head.value] + rest
  }

  /** The matches of two stretches of lines, one after the other, are the
      matches of the first followed by those of the second: together with
      the one-line case of `Matches`, record k comes from the k-th line that
      opens with a group. */
  lemma {:induction false} MatchesAppend(a: seq<string>, b: seq<string>)
    ensures Matches(a + b) == Matches(a) + Matches(b)
  {
    if |a| > 0 {
      assert (a + b)[1..] == a[1..] + b;
      MatchesAppend(a[1..], b);
    } else {
      assert a + b == b;
    }
  }

  /** Every match is the line pattern's match on its own line. */
  lemma {:induction false} MatchesAreLineMatches(lines: seq<string>)
    ensures forall k :: 0 <= k < |Matches(lines)| ==> IsLineMatch(Matches(lines)[k])
  {
    if |lines| > 0 {
      MatchesAreLineMatches(lines[1..]);
      var head := MatchLine(lines[0]);
      if head.Some? {
        var m := head.value;
        assert m.run + m.lyric == lines[0];
        assert IsLineMatch(m);
      }
    }
  }

  /** Each match is made of one of the lines: its run and its lyric
      together are that line. */
  predicate FromLines(ms: seq<Match>, lines: seq<string>) {
    forall k :: 0 <= k < |ms| ==> ms[k].run + ms[k].lyric in lines
  }

  /** Every match found is made of one of the lines. */
  lemma {:induction false} MatchesFromLines(lines: seq<string>)
    ensures FromLines(Matches(lines), lines)
  {
    if |lines| > 0 {
      MatchesFromLines(lines[1..]);
      var head := MatchLine(lines[0]);
      var rest := Matches(lines[1..]);
      if head.Some? {
        assert head.value.run + head.value.lyric == lines[0];
        assert Matches(lines) == [head.value] + rest;
        FromLinesCons(head.value, rest, lines);
      } else {
        assert Matches(lines) == rest;
        FromLinesTail(rest, lines);
      }
    }
  }

  lemma FromLinesTail(ms: seq<Match>, lines: seq<string>)
    requires |lines| >= 1 && FromLines(ms, lines[1..])
    ensures FromLines(ms, lines)
  {
  }

  lemma FromLinesCons(m: Match, ms: seq<Match>, lines: seq<string>)
    requires |lines| >= 1 && m.run + m.lyric == lines[0] && FromLines(ms, lines[1..])
    ensures FromLines([m] + ms, lines)
  {
    forall k | 0 <= k < |[m] + ms|
      ensures ([m] + ms)[k].run + ([m] + ms)[k].lyric in lines
    {
      if k > 0 {
        assert ([m] + ms)[k] == ms[k - 1];
      }
    }
  }

  // ---------------------------------------------------------------------
  // Splitting a run into tags

  /** `re.findall` of the group pattern: scan from `i`, taking every match
      and skipping characters where none starts. */
  function FindAll(s: string, i: nat): (r: seq<string>)
    ensures forall k :: 0 <= k < |r| ==>
      |r[k]| >= 5 && r[k][0] == '[' && r[k][|r[k]| - 1] == ']' && '\n' !in r[k]
    decreases |s| - i
  {
    if i >= |s| then
      []
    else
      match MatchGroup(s, i)
      case Some(sp) =>
        assert s[i..sp.close + 1] == [s[i]] + s[i + 1..sp.close] + [s[sp.close]];
        [s[i..sp.close + 1]] + FindAll(s, sp.close + 1)
      case None => FindAll(s, i + 1)
  }

  /** The anchored match of `\[(.+?):(.+?)\]` on each found group, failing
      on the first that does not match. */
  function InsideAll(texts: seq<string>): (r: Result<seq<Tag>, ParseError>)
    ensures r.Ok? ==> |r.value| == |texts| && forall k :: 0 <= k < |r.value| ==> r.value[k].Header?
    ensures r.Err? ==> r.error.NotTag?
  {
    if |texts| == 0 then
      Ok([])
    else
      match MatchGroup(texts[0], 0)
      case None => Err(NotTag(texts[0]))
      case Some(sp) =>
        match InsideAll(texts[1..])
        case Err(e) => Err(e)
        case Ok(rest) => Ok([TagOf(texts[0], sp)] + rest)
  }

  /** A tag whose name is an integer becomes a timestamp of that many
      minutes and of the second its value denotes; any other tag stays as
      it is. A timestamp whose value is not a number is an error. */
  function Reclassify(raw: Tag): (r: Result<Tag, ParseError>)
    requires raw.Header?
    ensures r.Err? <==> IsInteger(raw.name) && ParseDecimal(raw.val).None?
    ensures r.Err? ==> r.error == BadSecond(raw.val)
    ensures r.Ok? && IsInteger(raw.name) ==>
      r.value.Time? && r.value.minute == ParseInt(raw.name) && ParseDecimal(raw.val) == Some(r.value.second)
    ensures !IsInteger(raw.name) ==> r == Ok(raw)
  {
    if IsInteger(raw.name) then
      match ParseDecimal(raw.val)
      case None => Err(BadSecond(raw.val))
      case Some(x) => Ok(Time(ParseInt(raw.name), x))
    else
      Ok(raw)
  }

  /** Reclassification of every tag of a line, failing on the first bad one. */
  function ReclassifyAll(raws: seq<Tag>): (r: Result<seq<Tag>, ParseError>)
    requires forall k :: 0 <= k < |raws| ==> raws[k].Header?
    ensures r.Ok? <==> forall k :: 0 <= k < |raws| ==> Reclassify(raws[k]).Ok?
    ensures r.Ok? ==> |r.value| == |raws| && forall k :: 0 <= k < |raws| ==> Reclassify(raws[k]) == Ok(r.value[k])
    ensures r.Err? ==> r.error.BadSecond?
  {
    if |raws| == 0 then
      Ok([])
    else
      match Reclassify(raws[0])
      case Err(e) => Err(e)
      case Ok(t) =>
        match ReclassifyAll(raws[1..])
        case Err(e) => Err(e)
        case Ok(rest) =>
          assert forall k :: 1 <= k < |raws| ==> raws[k] == raws[1..][k - 1];
          Ok([t] + rest)
  }

  /** `_splitTags`: the groups of a run as tags, integer-named ones turned
      into timestamps. */
  function SplitTags(run: string): (r: Result<seq<Tag>, ParseError>)
    ensures r.Ok? ==> |r.value| >= 1
    ensures r.Err? ==> !r.error.NotLrc?
  {
    var texts := FindAll(run, 0);
    if |texts| == 0 then
      Err(NotTags)
    else
      match InsideAll(texts)
      case Err(e) => Err(e)
      case Ok(raws) => ReclassifyAll(raws)
  }

  /** Tokenizing every matched line, failing on the first line that fails. */
  function ParseMatches(ms: seq<Match>): (r: Result<seq<TaggedLine>, ParseError>)
    ensures r.Ok? <==> forall k :: 0 <= k < |ms| ==> SplitTags(ms[k].run).Ok?
    ensures r.Err? ==> !r.error.NotLrc?
    ensures r.Ok? ==> |r.value| == |ms|
    ensures r.Ok? ==> forall k :: 0 <= k < |ms| ==>
      r.value[k].lyric == ms[k].lyric && SplitTags(ms[k].run) == Ok(r.value[k].tags)
  {
    if |ms| == 0 then
      Ok([])
    else
      match SplitTags(ms[0].run)
      case Err(e) => Err(e)
      case Ok(tags) =>
        match ParseMatches(ms[1..])
        case Err(e) => Err(e)
        case Ok(rest) =>
          assert forall k :: 1 <= k < |ms| ==> ms[k] == ms[1..][k - 1];
          Ok([TaggedLine(ms[0].lyric, tags)] + rest)
  }

  /** `_Line.makeLines`: the tokenized lines of a text. */
  function MakeLines(s: string): (r: Result<seq<TaggedLine>, ParseError>)
    ensures r == Err(NotLrc) <==> |Matches(Lines(s))| == 0
  {
    var lines := Lines(s);
    var ms := Matches(lines);
    if |ms| == 0 then
      Err(NotLrc)
    else
      ParseMatches(ms)
  }

  /** Tokenizing fails for want of tags exactly when no physical line opens
      with a `[name:val]` group; lines that do not are skipped silently. */
  lemma NotLrcIffNoTaggedLine(s: string)
    ensures MakeLines(s) == Err(NotLrc) <==>
      forall line :: line in Lines(s) ==> MatchGroup(line, 0).None?
  {
  }

  /** The only other way tokenizing fails is a timestamp whose value is not
      a number: the remaining format errors of `_splitTags` cannot happen.
      Every tokenized line has at least one tag. */
  lemma MakeLinesOutcome(s: string)
    ensures MakeLines(s).Err? ==> MakeLines(s).error.NotLrc? || MakeLines(s).error.BadSecond?
    ensures MakeLines(s).Ok? ==> |MakeLines(s).value| >= 1
    ensures MakeLines(s).Ok? ==> forall k :: 0 <= k < |MakeLines(s).value| ==> |MakeLines(s).value[k].tags| >= 1
  {
    var ms := Matches(Lines(s));
    if |ms| > 0 {
      var r := ParseMatches(ms);
      assert MakeLines(s) == r;
      MatchesAreLineMatches(Lines(s));
      ParseMatchesErrors(ms);
      if r.Ok? {
        forall k | 0 <= k < |r.value|
          ensures |r.value[k].tags| >= 1
        {
          assert SplitTags(ms[k].run) == Ok(r.value[k].tags);
        }
      }
    }
  }

  // ---------------------------------------------------------------------
  // What the scanner produces

  /** The text of each group of a run, in order. */
  function Texts(s: string, spans: seq<Span>): seq<string>
    requires forall k :: 0 <= k < |spans| ==> IsGroup(s, spans[k])
  {
    seq(|spans|, k requires 0 <= k < |spans| => Text(s, spans[k]))
  }

  /** The characters of one group, brackets included. */
  function Text(s: string, sp: Span): string
    requires IsGroup(s, sp)
  {
    s[sp.open..sp.close + 1]
  }

  /** `FindAll` over the characters a chain of matches covers re-finds
      exactly the groups of the chain. */
  lemma {:induction false} FindAllChain(s: string, i: nat, spans: seq<Span>)
    requires i <= |s| && MatchChain(s, i, spans)
    ensures i <= End(i, spans) <= |s|
    ensures FindAll(s[..End(i, spans)], i) == Texts(s, spans)
    decreases |spans|
  {
    if |spans| == 0 {
      assert Texts(s, spans) == [];
    } else {
      var sp, rest := spans[0], spans[1..];
      FindAllChain(s, sp.close + 1, rest);
      var e := End(sp.close + 1, rest);
      FindAllCons(s, sp, rest, e);
      assert spans == [sp] + rest;
      assert End(i, spans) == e;
    }
  }

  /** The inductive step of `FindAllChain`: one more match in front. */
  lemma FindAllCons(s: string, sp: Span, rest: seq<Span>, e: nat)
    requires MatchGroup(s, sp.open) == Some(sp)
    requires forall k :: 0 <= k < |rest| ==> IsGroup(s, rest[k])
    requires sp.close < e <= |s|
    requires FindAll(s[..e], sp.close + 1) == Texts(s, rest)
    ensures IsGroup(s, sp)
    ensures FindAll(s[..e], sp.open) == Texts(s, [sp] + rest)
  {
    FindAllStep(s, sp, e);
    TextsCons(s, sp, rest);
    assert FindAll(s[..e], sp.open) == [Text(s, sp)] + Texts(s, rest);
  }

  /** `FindAll` over a run re-finds exactly the groups of the run. */
  lemma FindAllRun(s: string, i: nat)
    requires i <= |s|
    ensures End(i, ScanRun(s, i)) <= |s|
    ensures FindAll(s[..End(i, ScanRun(s, i))], i) == Texts(s, ScanRun(s, i))
  {
    FindAllChain(s, i, ScanRun(s, i));
  }

  lemma TextsCons(s: string, sp: Span, rest: seq<Span>)
    requires IsGroup(s, sp)
    requires forall k :: 0 <= k < |rest| ==> IsGroup(s, rest[k])
    ensures Texts(s, [sp] + rest) == [Text(s, sp)] + Texts(s, rest)
  {
  }

  /** One step of `FindAll` over a prefix that contains the whole group. */
  lemma FindAllStep(s: string, sp: Span, e: nat)
    requires MatchGroup(s, sp.open) == Some(sp)
    requires sp.close < e <= |s|
    ensures IsGroup(s, sp)
    ensures FindAll(s[..e], sp.open) == [Text(s, sp)] + FindAll(s[..e], sp.close + 1)
  {
    var p := s[..e];
    MatchGroupPrefix(s, sp, e);
    FindAllMatch(p, sp);
    PrefixSlice(s, e, sp.open, sp.close + 1);
    assert p[sp.open..sp.close + 1] == Text(s, sp);
  }

  /** A prefix that contains a whole group still matches it. */
  lemma MatchGroupPrefix(s: string, sp: Span, e: nat)
    requires MatchGroup(s, sp.open) == Some(sp)
    requires sp.close < e <= |s|
    ensures MatchGroup(s[..e], sp.open) == Some(sp)
  {
    assert s[..e] == s[0..e];
    MatchGroupSlice(s, 0, e, sp.open);
  }

  lemma PrefixSlice(s: string, e: nat, a: nat, b: nat)
    requires a <= b <= e <= |s|
    ensures s[..e][a..b] == s[a..b]
  {
  }

  /** Where a group matches, `FindAll` takes it and goes on after it. */
  lemma FindAllMatch(p: string, sp: Span)
    requires MatchGroup(p, sp.open) == Some(sp)
    ensures FindAll(p, sp.open) == [p[sp.open..sp.close + 1]] + FindAll(p, sp.close + 1)
  {
  }

  /** A group cut out of its string matches again on its own and spells
      the same tag. */
  lemma InsideOne(s: string, sp: Span)
    requires MatchGroup(s, sp.open) == Some(sp)
    ensures IsGroup(s, sp)
    ensures MatchGroup(Text(s, sp), 0).Some?
    ensures TagOf(Text(s, sp), MatchGroup(Text(s, sp), 0).value) == TagOf(s, sp)
  {
    var inner := Span(0, sp.colon - sp.open, sp.close - sp.open);
    InsideOneMatch(s, sp);
    InsideOneTag(s, sp, inner);
  }

  /** The group cut out of its string is matched again at its start. */
  lemma InsideOneMatch(s: string, sp: Span)
    requires MatchGroup(s, sp.open) == Some(sp)
    ensures IsGroup(s, sp)
    ensures MatchGroup(Text(s, sp), 0) == Some(Span(0, sp.colon - sp.open, sp.close - sp.open))
  {
    assert MatchGroup(s, sp.open + 0) == Some(sp);
    MatchGroupSlice(s, sp.open, sp.close + 1, 0);
  }

  /** The group cut out of its string spells the same tag. */
  lemma InsideOneTag(s: string, sp: Span, inner: Span)
    requires IsGroup(s, sp)
    requires inner == Span(0, sp.colon - sp.open, sp.close - sp.open)
    requires IsGroup(Text(s, sp), inner)
    ensures TagOf(Text(s, sp), inner) == TagOf(s, sp)
  {
    SliceOfSlice(s, sp.open, sp.close + 1, 1, inner.colon);
    SliceOfSlice(s, sp.open, sp.close + 1, inner.colon + 1, inner.close);
  }

  lemma SliceSplit(s: string, a: nat, b: nat, c: nat)
    requires a <= b <= c <= |s|
    ensures s[a..c] == s[a..b] + s[b..c]
  {
  }

  lemma SliceOfSlice(s: string, a: nat, b: nat, lo: nat, hi: nat)
    requires a <= b <= |s| && lo <= hi <= b - a
    ensures s[a..b][lo..hi] == s[a + lo..a + hi]
  {
    assert forall k :: 0 <= k < hi - lo ==> s[a..b][lo..hi][k] == s[a + lo..a + hi][k];
  }

  lemma {:induction false} InsideAllTexts(s: string, spans: seq<Span>)
    requires forall k :: 0 <= k < |spans| ==> IsGroup(s, spans[k])
    requires forall k :: 0 <= k < |spans| ==> MatchGroup(s, spans[k].open) == Some(spans[k])
    ensures InsideAll(Texts(s, spans)) == Ok(RawTags(s, spans))
    decreases |spans|
  {
    if |spans| == 0 {
      assert Texts(s, spans) == [];
    } else {
      var sp, rest := spans[0], spans[1..];
      InsideAllTexts(s, rest);
      InsideAllCons(s, sp, rest);
      assert spans == [sp] + rest;
    }
  }

  /** The inductive step of `InsideAllTexts`: one more group in front. */
  lemma InsideAllCons(s: string, sp: Span, rest: seq<Span>)
    requires MatchGroup(s, sp.open) == Some(sp)
    requires forall k :: 0 <= k < |rest| ==> IsGroup(s, rest[k])
    requires InsideAll(Texts(s, rest)) == Ok(RawTags(s, rest))
    ensures IsGroup(s, sp)
    ensures InsideAll(Texts(s, [sp] + rest)) == Ok(RawTags(s, [sp] + rest))
  {
    InsideOne(s, sp);
    TextsCons(s, sp, rest);
    RunCons(s, sp, rest);
    var texts := Texts(s, [sp] + rest);
    assert texts[1..] == Texts(s, rest);
  }

  /** The defensive errors of `_splitTags` never fire on a run the line
      pattern matched: its groups are found again one by one, each splits
      into a name and a value, and only reclassification can fail. */
  lemma SplitTagsOfMatch(m: Match)
    requires IsLineMatch(m)
    ensures var line := m.run + m.lyric;
      SplitTags(m.run) == ReclassifyAll(RawTags(line, ScanRun(line, 0)))
  {
    var line := m.run + m.lyric;
    var spans := ScanRun(line, 0);
    FindAllRun(line, 0);
    ChainMatches(line, 0, spans);
    InsideAllTexts(line, spans);
  }

  lemma {:induction false} ParseMatchesErrors(ms: seq<Match>)
    requires forall k :: 0 <= k < |ms| ==> IsLineMatch(ms[k])
    ensures ParseMatches(ms).Err? ==> ParseMatches(ms).error.BadSecond?
    decreases |ms|
  {
    if |ms| > 0 {
      var rest := ms[1..];
      ParseMatchesErrors(rest);
      SplitTagsOfMatch(ms[0]);
    }
  }

  // ---------------------------------------------------------------------
  // The layout of a matched line, and lines built from tags

  /** A name the group pattern reads back whole: at least one character, no
      newline, and no colon after its first character. */
  predicate PlainName(n: string) {
    |n| >= 1 && '\n' !in n && forall k :: 1 <= k < |n| ==> n[k] != ':'
  }

  /** A value the group pattern reads back whole: at least one character,
      no newline, and no ']' after its first character. */
  predicate PlainVal(v: string) {
    |v| >= 1 && '\n' !in v && forall k :: 1 <= k < |v| ==> v[k] != ']'
  }

  /** The characters a chain of groups covers are the text forms of its
      tags, one after another. */
  lemma {:induction false} ChainIsBrackets(s: string, i: nat, spans: seq<Span>)
    requires i <= |s| && Chain(s, i, spans)
    ensures i <= End(i, spans) <= |s|
    ensures s[i..End(i, spans)] == Brackets(RawTags(s, spans))
    decreases |spans|
  {
    if |spans| == 0 {
      assert RawTags(s, spans) == [];
    } else {
      var sp, rest := spans[0], spans[1..];
      ChainIsBrackets(s, sp.close + 1, rest);
      var e := End(sp.close + 1, rest);
      assert spans == [sp] + rest;
      assert End(i, spans) == e;
      RunConsText(s, sp, rest, e);
    }
  }

  /** The characters of a run are the text forms of its tags, one after
      another. */
  lemma RunIsBrackets(s: string, i: nat)
    requires i <= |s|
    ensures i <= End(i, ScanRun(s, i)) <= |s|
    ensures s[i..End(i, ScanRun(s, i))] == Brackets(RawTags(s, ScanRun(s, i)))
  {
    ChainIsBrackets(s, i, ScanRun(s, i));
  }

  /** Every tag of a run has a name and a value the lazy pattern reads back
      whole. */
  lemma RunIsPlain(s: string, i: nat)
    ensures forall k :: 0 <= k < |ScanRun(s, i)| ==>
      PlainName(RawTags(s, ScanRun(s, i))[k].name) && PlainVal(RawTags(s, ScanRun(s, i))[k].val)
  {
    var r := ScanRun(s, i);
    ChainMatches(s, i, r);
    forall k | 0 <= k < |r|
      ensures PlainName(RawTags(s, r)[k].name) && PlainVal(RawTags(s, r)[k].val)
    {
      GroupPlain(s, r[k]);
    }
  }

  /** The text of a run that starts with one more group. */
  lemma RunConsText(s: string, sp: Span, rest: seq<Span>, e: nat)
    requires IsGroup(s, sp)
    requires forall k :: 0 <= k < |rest| ==> IsGroup(s, rest[k])
    requires sp.close + 1 <= e <= |s|
    requires s[sp.close + 1..e] == Brackets(RawTags(s, rest))
    ensures s[sp.open..e] == Brackets(RawTags(s, [sp] + rest))
  {
    GroupText(s, sp);
    RunCons(s, sp, rest);
    BracketsCons(TagOf(s, sp), RawTags(s, rest));
    SliceSplit(s, sp.open, sp.close + 1, e);
    assert s[sp.open..e] == Bracketed(TagOf(s, sp).name, TagOf(s, sp).val) + Brackets(RawTags(s, rest));
  }

  /** The tags of a run that starts with one more group. */
  lemma RunCons(s: string, sp: Span, rest: seq<Span>)
    requires IsGroup(s, sp)
    requires forall k :: 0 <= k < |rest| ==> IsGroup(s, rest[k])
    ensures RawTags(s, [sp] + rest) == [TagOf(s, sp)] + RawTags(s, rest)
  {
  }

  lemma BracketsCons(t: Tag, tags: seq<Tag>)
    requires t.Header? && forall k :: 0 <= k < |tags| ==> tags[k].Header?
    ensures Brackets([t] + tags) == Bracketed(t.name, t.val) + Brackets(tags)
  {
    assert ([t] + tags)[1..] == tags;
  }

  /** The characters of a group are the text form of the tag it spells. */
  lemma GroupText(s: string, sp: Span)
    requires IsGroup(s, sp)
    ensures s[sp.open..sp.close + 1] == Bracketed(TagOf(s, sp).name, TagOf(s, sp).val)
  {
    assert s[sp.open..sp.close + 1] ==
      [s[sp.open]] + s[sp.open + 1..sp.colon] + [s[sp.colon]] + s[sp.colon + 1..sp.close] + [s[sp.close]];
  }

  /** The lazy match reads a name with no colon after its first character
      and a value with no ']' after its first character. */
  lemma GroupPlain(s: string, sp: Span)
    requires MatchGroup(s, sp.open) == Some(sp)
    ensures IsGroup(s, sp)
    ensures PlainName(s[sp.open + 1..sp.colon]) && PlainVal(s[sp.colon + 1..sp.close])
  {
    MatchGroupIsLeast(s, sp.open);
    var n, v := s[sp.open + 1..sp.colon], s[sp.colon + 1..sp.close];
    forall k | 1 <= k < |n|
      ensures n[k] != ':'
    {
      // an earlier colon would have given a group that the lazy match prefers
      assert !Precedes(sp, Span(sp.open, sp.open + 1 + k, sp.close));
    }
    forall k | 1 <= k < |v|
      ensures v[k] != ']'
    {
      // an earlier ']' would have closed a group that the lazy match prefers
      assert !Precedes(sp, Span(sp.open, sp.colon, sp.colon + 1 + k));
    }
    var inner := s[sp.open + 1..sp.close];
    SliceOfSlice(s, sp.open + 1, sp.close, 0, |n|);
    SliceOfSlice(s, sp.open + 1, sp.close, |n| + 1, |inner|);
    NewlineFreeSlice(inner, 0, |n|);
    NewlineFreeSlice(inner, |n| + 1, |inner|);
  }

  lemma NewlineFreeSlice(x: string, lo: nat, hi: nat)
    requires lo <= hi <= |x| && '\n' !in x
    ensures '\n' !in x[lo..hi]
  {
  }

  /** The layout of a matched line: its run is the text forms of its tags
      one after another, in bracket order, each name and value as the lazy
      pattern reads them; the lyric is the rest of the line, untouched, and
      does not open with another group. */
  lemma LineMatchLayout(m: Match)
    requires IsLineMatch(m)
    ensures var line := m.run + m.lyric;
      var tags := RawTags(line, ScanRun(line, 0));
      && |tags| >= 1
      && m.run == Brackets(tags)
      && (forall k :: 0 <= k < |tags| ==> PlainName(tags[k].name) && PlainVal(tags[k].val))
      && MatchGroup(m.lyric, 0).None?
  {
    var line := m.run + m.lyric;
    RunIsBrackets(line, 0);
    RunIsPlain(line, 0);
    assert line[0..End(0, ScanRun(line, 0))] == m.run;
  }

  /** A line that starts with the text form of the tag `n`:`v`, followed
      by `rest`. */
  predicate HeadLayout(line: string, n: string, v: string, rest: string) {
    && |line| == |n| + |v| + 3 + |rest|
    && line[0] == '[' && line[|n| + 1] == ':' && line[|n| + |v| + 2] == ']'
    && line[1..|n| + 1] == n
    && line[|n| + 2..|n| + |v| + 2] == v
    && line[|n| + |v| + 3..] == rest
  }

  lemma HeadParts(n: string, v: string, rest: string)
    ensures var line := Bracketed(n, v) + rest;
      && HeadLayout(line, n, v, rest)
      && line[..|n| + |v| + 3] == Bracketed(n, v)
  {
  }

  /** The group pattern at the start of a tag's text form reads back exactly
      that tag's name and value. */
  lemma SingleTagGroup(line: string, n: string, v: string, rest: string)
    requires PlainName(n) && PlainVal(v)
    requires HeadLayout(line, n, v, rest)
    ensures MatchGroup(line, 0) == Some(Span(0, |n| + 1, |n| + |v| + 2))
  {
    var L, V := |n|, |v|;
    assert forall k :: 0 <= k < L ==> line[1 + k] == n[k];
    assert forall k :: 0 <= k < V ==> line[L + 2 + k] == v[k];
    var sp := Span(0, L + 1, L + V + 2);
    assert IsGroup(line, sp) by {
      forall k | 0 < k < L + V + 2
        ensures line[k] != '\n'
      {
        if k < L + 1 {
          assert line[k] == n[k - 1];
        } else if k > L + 1 {
          assert line[k] == v[k - L - 2];
        }
      }
    }
    forall k | 2 <= k < L + 1
      ensures line[k] != ':'
    {
      assert line[k] == n[k - 1];
    }
    forall k | L + 3 <= k < L + V + 2
      ensures line[k] != ']'
    {
      assert line[k] == v[k - L - 2];
    }
    LeastIsMatch(line, sp);
  }

  /** A run that stops after its first group is that one group. */
  lemma OneGroupRun(s: string, sp: Span)
    requires MatchGroup(s, 0) == Some(sp)
    requires MatchGroup(s, sp.close + 1).None?
    ensures ScanRun(s, 0) == [sp]
  {
    var rest := ScanRun(s, sp.close + 1);
    assert rest == [];
    assert [sp] + rest == [sp];
  }

  /** The run and the tag of a line made of one tag's text form and a lyric
      that does not open with a group. */
  lemma SingleTagRun(line: string, n: string, v: string, rest: string)
    requires PlainName(n) && PlainVal(v)
    requires MatchGroup(rest, 0).None?
    requires HeadLayout(line, n, v, rest)
    ensures ScanRun(line, 0) == [Span(0, |n| + 1, |n| + |v| + 2)]
    ensures RawTags(line, ScanRun(line, 0)) == [Header(n, v)]
  {
    var sp := Span(0, |n| + 1, |n| + |v| + 2);
    SingleTagGroup(line, n, v, rest);
    MatchGroupSuffix(line, |n| + |v| + 3, 0);
    OneGroupRun(line, sp);
  }

  /** Conversely, a line made of one tag's text form and a lyric that does
      not open with a group matches with that one tag and that lyric. */
  lemma SingleTagLine(n: string, v: string, rest: string)
    requires PlainName(n) && PlainVal(v)
    requires MatchGroup(rest, 0).None?
    ensures var line := Bracketed(n, v) + rest;
      && MatchLine(line) == Some(Match(Bracketed(n, v), rest))
      && RawTags(line, ScanRun(line, 0)) == [Header(n, v)]
  {
    var head := Bracketed(n, v);
    var line := head + rest;
    HeadParts(n, v, rest);
    SingleTagRun(line, n, v, rest);
    assert End(0, ScanRun(line, 0)) == |head|;
  }
}
