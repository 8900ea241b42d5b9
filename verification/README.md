# LRC lyrics files in Dafny

A model of the core of a small Python library that reads and writes LRC lyric files.

An LRC text is a sequence of lines. A line opens with a run of bracket tags such as `[ar:Someone]` or `[01:02.500]`, and the rest of the line is the lyric. The model covers four parts:

- **Tags** (`component.py`). A plain tag keeps its name and value strings. A timestamp (`TimeTag`) keeps a minute and a second, and computes its name and value strings on demand:
  - the name is `f'{minute:02}'`;
  - the value is `f'{int(second):02}.{ms:<03d}'`, where `ms` is the truncated millisecond count.
- **Lyric lines** (`component.py`). A `LyricLine` is a tag together with a lyric text.
- **Tokenizer** (`_Line` in `lrc.py`). It finds the lines that open with a run of `[name:val]` groups. It cuts each run into tags and turns every tag whose name is an integer into a timestamp.
- **Document** (`Lrc` in `lrc.py`). It sorts tokenized lines into lyric lines and plain tags (`loads`) and writes them back (`dumps`). It edits the lyric lines like a Python list, through `d[i]`, `d[lo:hi]`, assignment and `del`.

Files:

| file | module | contents |
|---|---|---|
| `outcome.dfy` | `Outcome` | `Option` and `Result` |
| `decimal.dfy` | `Decimal` | `str(int)`, the two integer format specifications, the accepted subsets of `int()` and `float()`, truncation toward zero |
| `component.dfy` | `Component` | `Tag`, `LyricLine`, name/value/text forms, `toTuple`, the millisecond field |
| `tokenizer.dfy` | `Tokenizer` | physical lines, the lazy `[name:val]` scanner, `re.findall`, `_splitTags`, `makeLines` |
| `document.dfy` | `Document` | `Lrc`: construction, `loads`, `dumps`, indexing and slicing, the round trip |

## How the regular expressions are modelled

- The group pattern `\[.+?:.+?\]` becomes the scanner `Tokenizer.MatchGroup`. It is proved to return exactly the group that the lazy quantifiers reach first. The predicate `IsGroup` describes every group that could match at a position, and the order `Precedes` says which one the lazy quantifiers try first.
- The line pattern `^((?:\[.+?:.+?\])+)(.*)` under `re.MULTILINE` is modelled in two steps:
  - the text is split on `'\n'` into physical lines;
  - on each line the lazy group matches are laid end to end from position 0, stopping at the first position where no group starts; that run is the tag part and the rest of the line is the lyric.
- `_splitTags` re-runs `re.findall` of the group pattern on the run. It then matches `\[(.+?):(.+?)\]` on each piece. Both steps are modelled as written. It is proved that on a matched run they give back the run's groups one by one, so the two "Not a string of tag(s)" errors never fire on text that reached them.

## What the model shows about the library

- **Millisecond field.** `{:<03d}` left-justifies the millisecond count and pads it with zeros, so 5 ms is written as `.500` and reads back as half a second. 50 ms does the same.
  - `Component.MillisFieldCollides` and `Component.FiveMillisExample` exhibit this.
  - `Component.RenderedExact` says exactly when a written timestamp denotes the stored second.
  - `Document.RoundTripExact` lifts that to whole documents: for a well-formed, non-empty document `d`, `loads(dumps(d)) == d` holds if and only if every timestamp lies on the millisecond grid with a millisecond count of 0 or of three digits.
- **Plain-tag lines.** `loads` keeps only the first tag of a line that opens with a plain tag. The lyric and any further tags of that line, timestamps included, are dropped. `Document.ClassifyMembers` states this exactly.
- **Trailing plain tags.** A plain tag that follows a timestamp on the same line becomes a lyric line of its own, because the source's `cast` checks nothing.

## Model

| member | source | states |
|---|---|---|
| Decimal.ZeroPad | mod/component.py:46 | `f'{i:0w}'` reads back with `int()` as `i`; for `i >= 0` it is all digits and `max(w, len(str(i)))` long |
| Decimal.LeftJustify | mod/component.py:53 | `f'{i:<0w}'` for `i >= 0` is all digits, at least `w` long, and reads as `i` times ten to the number of zeros appended |
| Decimal.Trunc | mod/component.py:51 | `int(x)` truncates toward zero: the result is within one of `x`, on the side of zero |
| Decimal.IntTextRoundTrip | mod/lrc.py:61-67 | `int(str(i)) == i`: the text of every integer passes the integer test and reads back as that integer |
| Decimal.ParseInt | mod/lrc.py:57 | on every text `str` writes (no sign or `-`, no leading zero), `str(int(s)) == s`; with `IntTextRoundTrip` the two are inverse |
| Decimal.FloatOfInteger | mod/lrc.py:57 | `float(s)` is `int(s)` as a number on every text the integer test accepts |
| Decimal.ParsePointThree | mod/lrc.py:57 | `float()` of digits, a point and three digits is the whole part plus the thousandths |
| Component.Millis | mod/component.py:51-52 | the millisecond count of a non-negative second is in 0..999, and the second lies in the millisecond interval it names |
| Component.Name | mod/component.py:43-46 | a plain tag's name is its stored name; a timestamp's name passes the integer test and reads back as its minute, and it is two digits for minutes 0..99 |
| Component.SecondTextLayout | mod/component.py:48-53 | a timestamp value is at least two digits of whole seconds, a point, and three digits that read as the left-justified millisecond count |
| Component.SecondTextParses | mod/component.py:48-53 | `float()` of the value text of a non-negative second gives the whole seconds plus the millisecond digits as shown |
| Component.ValParses | mod/component.py:48-53 | `float()` of a timestamp's value gives the whole seconds plus the millisecond digits as shown |
| Component.ToTuple | mod/component.py:20-21 | `toTuple` gives both strings of a plain tag and both numbers of a timestamp |
| Component.TupleRoundTrip | mod/component.py:55-57 | building a tag back from its tuple gives the tag, and the tuple of a tag built from a tuple is that tuple |
| Component.ShownMillisIsJustified | mod/component.py:53 | the three millisecond digits read as 0, 100·k, 10·k or k, for counts of 0, of one, two or three digits |
| Component.RenderedExact | mod/component.py:50-53 | a timestamp value denotes the stored second if and only if the second is on the millisecond grid and its count is 0 or at least 100 |
| Component.TruncatedToMillis | mod/component.py:51-52 | for such counts the value is the second cut down, never rounded, to whole milliseconds |
| Component.MillisFieldInjective | mod/component.py:53 | the millisecond field tells apart the counts 0 and 100..999 |
| Component.MillisFieldCollides | mod/component.py:53 | every count 1..99 is written like a different count: k like 100·k or 10·k |
| Component.FiveMillisExample | mod/component.py:51-53 | 5 ms is written `500` and reads back as 0.5 s |
| Component.TruncationExample | mod/component.py:51-53 | 2.9999 s is written with whole seconds `02` and field `999`, and reads back as 2.999 |
| Tokenizer.Lines | mod/lrc.py:11-12 | the physical lines hold no newline and join back into the text |
| Tokenizer.MatchGroup | mod/lrc.py:14 | a group found at `i` starts at `i` and is a `[`, a name, a `:`, a value and a `]` without a newline |
| Tokenizer.MatchGroupIsLeast | mod/lrc.py:14 | the group found is the first in the lazy order among all groups starting there, and none is found only when none exists |
| Tokenizer.LeastIsMatch | mod/lrc.py:14 | conversely, a group that comes first in the lazy order is the one found |
| Tokenizer.ScanRun | mod/lrc.py:12 | the run is a chain of adjacent matches starting at the position, and no further group follows it |
| Tokenizer.MatchLine | mod/lrc.py:11-12 | a line matches if and only if it opens with a group; the run and the lyric make up the line, and the lyric does not open with a group |
| Tokenizer.Matches | mod/lrc.py:24 | `findall` finds nothing exactly when no line opens with a group; on a single line it finds that line's match, or nothing when the line does not open with a group |
| Tokenizer.MatchesAppend | mod/lrc.py:24 | the matches of two stretches of lines are those of the first followed by those of the second, so with the one-line case record k comes from the k-th line that opens with a group, in order, the other lines skipped |
| Tokenizer.MatchesFromLines | mod/lrc.py:24 | the run and lyric of every match together are one of the lines of the text |
| Tokenizer.MatchesAreLineMatches | mod/lrc.py:24 | every match found is the line pattern's match on its own line |
| Tokenizer.InsideAll | mod/lrc.py:47-52 | splitting the found groups either gives one plain tag per group or fails with "Not a string of tag" |
| Tokenizer.Reclassify | mod/lrc.py:54-57 | an integer-named tag becomes a timestamp of that minute and of the value as `float` reads it; it fails exactly when that value is not a number; other tags stay as they are |
| Tokenizer.ReclassifyAll | mod/lrc.py:54-57 | all tags are reclassified in order, and the result fails exactly when one of them fails |
| Tokenizer.SplitTags | mod/lrc.py:40-59 | `_splitTags` gives at least one tag, or an error other than "Not a string of lrc" |
| Tokenizer.ParseMatches | mod/lrc.py:28-38 | the lines succeed exactly when every run splits; each line keeps its lyric and gets its run's tags (the source's two branches on the first tag's type append the same line) |
| Tokenizer.MakeLines | mod/lrc.py:22-26 | "Not a string of lrc" is raised exactly when no line matches |
| Tokenizer.NotLrcIffNoTaggedLine | mod/lrc.py:22-26 | `makeLines` rejects a text exactly when none of its physical lines opens with a `[name:val]` group |
| Tokenizer.MakeLinesOutcome | mod/lrc.py:22-59 | `makeLines` fails only for want of tags or for a timestamp value that is not a number, and every line it returns has a tag |
| Tokenizer.FindAll | mod/lrc.py:42 | every piece `findall` returns has the shape of a group: at least five characters, opening with `[`, closing with `]`, without a newline |
| Tokenizer.GroupText | mod/lrc.py:48-52 | the characters of a group are the text form of the plain tag the inner pattern reads from it |
| Tokenizer.FindAllRun | mod/lrc.py:42 | `findall` on a run finds again exactly the run's groups, in order |
| Tokenizer.InsideAllTexts | mod/lrc.py:47-52 | the anchored inner pattern reads each found group back as that group's name and value |
| Tokenizer.SplitTagsOfMatch | mod/lrc.py:41-52 | on a matched run `_splitTags` is just reclassification of the run's groups; its two format errors cannot fire |
| Tokenizer.ParseMatchesErrors | mod/lrc.py:28-31 | tokenizing matched lines fails only on a timestamp value that is not a number |
| Tokenizer.RunIsBrackets | mod/lrc.py:12 | the text of a run is the text forms of its tags, one after another |
| Tokenizer.RunIsPlain | mod/lrc.py:14 | every tag of a run has a name without a later `:` and a value without a later `]` |
| Tokenizer.LineMatchLayout | mod/lrc.py:11-12 | a matched line's run is the text forms of its tags, and its lyric does not open with a group |
| Tokenizer.SingleTagLine | mod/lrc.py:11-12 | a line made of one tag's text form and a lyric that opens with no group matches with exactly that tag and lyric |
| Document.New | mod/lrc.py:71-73 | the lyric lines are kept; a missing or empty tag list gives no tags, and any other is kept |
| Document.Classify | mod/lrc.py:79-91 | the document has at least one entry per line and only plain tags among its tags; one line that opens with a timestamp gives one lyric line per tag, in tag order, each with the line's lyric, and no tag; one line that opens with a plain tag gives exactly that tag and no lyric line |
| Document.ClassifyAppend | mod/lrc.py:81-89 | sorting lines one after another gives the two results one after another |
| Document.SpreadMembers | mod/lrc.py:84-87 | a line opening with a timestamp gives one lyric line per tag, the k-th pairing the k-th tag with the line's lyric, so its lyric lines are exactly those that pair one of its tags with its lyric |
| Document.ClassifyMembers | mod/lrc.py:81-89 | a lyric line is in the document if and only if some line opening with a timestamp carries its tag and lyric; a plain tag is there if and only if it opens some line |
| Document.Loads | mod/lrc.py:75-91 | `loads` fails only with "Not a string of lrc" or a bad timestamp value, and otherwise gives a document with at least one entry |
| Document.LoadsNotLrc | mod/lrc.py:75-77 | `loads` rejects a text as not LRC exactly when no physical line opens with a group |
| Document.Dumps | mod/lrc.py:93-102 | `dumps` is empty exactly for the document with no tags and no lyric lines, and otherwise ends with a newline |
| Document.DumpsLines | mod/lrc.py:93-102 | `dumps` writes one line per plain tag and then one per lyric line, each ended by a newline |
| Document.SplitTagsOfStr | mod/component.py:23-24 | a readable tag's `str` is tokenized back into that tag, with a timestamp's second as its value text denotes |
| Document.RoundTrip | mod/lrc.py:75-102 | `loads(dumps(d))` gives back a well-formed `d` with timestamps as written, and rejects the empty document |
| Document.RoundTripExact | mod/lrc.py:75-102 | for a well-formed, non-empty document, `loads(dumps(d)) == d` if and only if every timestamp is on the millisecond grid with a count of 0 or of three digits |
| Document.Position | mod/lrc.py:118-119 | a list index is valid exactly from `-n` to `n-1`, and names itself or itself plus `n` |
| Document.GetItem | mod/lrc.py:118-119 | `d[i]` is the `i`-th line, counted from the end for negative `i`, or an `IndexError` outside `-n..n-1` |
| Document.SetItem | mod/lrc.py:127-128 | `d[i] = v` fails exactly outside `-n..n-1`; otherwise `d[i]` is `v` afterwards and every other line and the tags are kept |
| Document.DelItem | mod/lrc.py:130-131 | `del d[i]` fails exactly outside `-n..n-1`; otherwise the lines before stay and the ones after move up by one |
| Document.Clamp | mod/lrc.py:118-131 | a missing slice bound takes its default; a bound in `0..n` is kept, one in `-n..-1` is counted from the end, one above `n` becomes `n` and one below `-n` becomes 0 |
| Document.GetSlice | mod/lrc.py:118-119 | `d[lo:hi]` is the lines from the clipped start up to the clipped stop |
| Document.SetSlice | mod/lrc.py:127-128 | `d[lo:hi] = vals` keeps the lines before the start and after the stop, with `vals` in between, and keeps the tags |
| Document.DelSlice | mod/lrc.py:130-131 | `del d[lo:hi]` leaves the tags and the lines before the clipped start, moves the lines from the clipped stop on up to the start in their order, and what it removes and what it leaves are, together, the lines there were |
| Document.DelSliceIsEmptyAssign | mod/lrc.py:127-131 | `del d[lo:hi]` is the same as `d[lo:hi] = []` |
| Document.NegativeIndex | mod/lrc.py:118-119 | index `i - n` names the same line as `i` |
| Document.GetItemIsSlice | mod/lrc.py:118-119 | reading one line is reading the one-line slice at its position |
| Document.SetItemIsSlice | mod/lrc.py:127-128 | assigning one line is assigning the one-line slice at its position |
| Document.DelItemIsSlice | mod/lrc.py:130-131 | deleting one line is deleting the one-line slice at its position |
| Document.SliceRestore | mod/lrc.py:118-128 | assigning a slice what it reads leaves the document unchanged |
| Document.SliceAssignRead | mod/lrc.py:118-128 | reading back the slice just assigned gives the lines assigned |

## Left out

- Python `float` arithmetic: seconds are exact reals. In the library, `(second - int(second)) * 1000` can fall just below a whole number and lose a millisecond, for example 1.001 s written as `01.000`. The model does not have that loss.
- Decimal.IsInteger: accepts an optional sign and ASCII digits only. Python's `int()` also accepts surrounding whitespace, `_` between digits and non-ASCII digits. Tag names of those forms are treated as plain tags here, where the library would make them timestamps. In the other direction, Python 3.11 and later refuse `int()` of a decimal text longer than 4300 digits (`sys.int_info.default_max_str_digits`), so the library keeps a tag with such a name plain, where the model makes it a timestamp.
- Decimal.ParseDecimal: accepts an optional sign, digits and one optional point only. Python's `float()` also accepts exponents, `inf`, `nan`, whitespace, `_` between digits and non-ASCII decimal digits. Those timestamp values are errors here.
- `re.IGNORECASE`: the patterns contain no letters, so the flag changes nothing.
- `Tag.__hash__` and `TimeTag.__hash__` are left out. They hash the tuple of the two fields, and Python's hash function is not part of this model.
- Sharing: `Lrc` keeps the caller's list object, so the library's in-place edits are visible to the caller. The model's document is a value, and each edit returns a new one.
- Extended slices `d[lo:hi:step]` with a step other than 1 are left out, together with their length check on assignment.
- Document.SetItem, Document.SetSlice: the values are typed as lyric lines. The library stores whatever object it is given.
- Document.RoundTrip: stated for well-formed documents only. That means the tag list holds only plain tags, each with a non-integer name and a value the lazy pattern reads whole; every lyric line is under a timestamp whose second is not negative; and every lyric has no newline and opens with no group. A document `loads` itself returns can fail this: `loads("[00:01.000][ar:x]hi\n")` holds a lyric line under the plain tag `ar:x`, which `dumps` writes as `[ar:x]hi` and `loads` then reads as a plain tag with the lyric dropped. A negative second with a non-zero millisecond count is written as an unreadable value, for example −0.5 as `00.-500`, and `loads` rejects it. All negative seconds are left out of the lemma, though one with a count of 0, such as −1.0 written `-1.000`, reads back.
- The `objprint` demonstration in `__init__.py` reads a file and prints the result. It is I/O and is left out.
