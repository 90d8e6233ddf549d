# TextGrid and MLF in Dafny

A functional model of the `textgrid` package, a Python library for Praat
TextGrid annotation files and HTK master label files (MLF). The model
follows the package's single module, `textgrid/textgrid.py`. It has five layers.

- **Temporal primitives** (`Primitives`). A `Point` is a time with a mark. An
  `Interval` is a subset type of `Span`, so a value of it always satisfies
  `minTime < maxTime`, which is the invariant the `Interval` constructor enforces. Python's
  duck-typed comparison operators become explicit functions over an
  `Operand`: a number, a `Point` or an `Interval`. A strict interval comparison
  returns `Conflict(existing, new)` when the intervals overlap.
- **Tiers** (`PointTiers`, `IntervalTiers`, `Bisection`). A tier is an immutable record of a name,
  `minTime`, an optional `maxTime` and a sequence of elements. Insertion
  runs `bisect_left` as written (`Bisection.BisectLeft`). Every comparison
  the bisection makes goes through the library's `__lt__`, so a strict comparison
  that raises on overlap ends the search. This is how `addInterval` finds
  conflicts. `_fillInTheGaps` is `IntervalTiers.FillGaps`.
- **The grid** (`Grids`). A user-ordered list of tiers with `getFirst`,
  `getList`, `getNames`, `append`, `extend` and `pop`.
- **The Praat long text format** (`Text`, `Marks`, `Fields`, `Reader`,
  `Writer`, `RoundTrip`). A file is its decoded text, one `string`.
  `Text.ReadLine` plays the role of `readline()`: it returns the next line,
  including its newline, and the rest. `_getMark`, `_formatMark`, `parse_line`,
  `parse_header`, `TextGrid.read`/`write` and the standalone tier
  `read`/`write` are pure functions that pass the unread input along. Numbers are printed and parsed
  by an opaque `NumberFormat(show, parse)`. `RoundTrip` proves that reading a
  written grid gives back each interval tier gap-filled and each point tier's
  points.
- **MLF** (`Mlf`). `MLF.read` is a state machine over alignment records.
  It is proved against two independent specifications: the phones the records
  carry (`PhoneSpans`) and the words they delimit (`WordsAfter`). The
  output-file naming of `MLF.write` is also modelled. The conversion of frame counts to seconds
  is a `Clock` parameter.

Errors are a single `Primitives.Error` datatype, returned in
`Wrappers.Result`. Each Python exception the code can raise on a path maps to a
constructor. Examples: `TooEarly`, `TooLate`, `Conflict`, `DuplicatePoint`,
`NotInList`, `NoSuchIndex`, `BadEntry`, `UnexpectedEof`, `NullDuration`.

Where a docstring or the tests disagree with the code, the model follows the code.
There are three such places, under "Findings". The model keeps the as-written
behaviour and adds a corrected definition next to it.

## Model

| member | source | states |
|---|---|---|
| Primitives.MakeInterval | textgrid/textgrid.py:185-191 | `Interval(min, max, mark)` succeeds exactly when min < max, with those fields; otherwise it is the duration error carrying both bounds |
| Primitives.Duration | textgrid/textgrid.py:198-202 | the duration is positive and is exactly the distance from start to end |
| Primitives.OverlapsSymmetric | textgrid/textgrid.py:265-271 | `overlaps` is symmetric, and every interval overlaps itself |
| Primitives.OverlapsIffSharedInstant | textgrid/textgrid.py:265-271 | two intervals overlap exactly when some instant lies strictly inside both |
| Primitives.TouchingDoNotOverlap | textgrid/textgrid.py:265-271 | intervals that only share an endpoint (e.g. [0,2] and [2,2.5]) do not overlap, in either order |
| Primitives.PointEqualityVersusContainment | textgrid/textgrid.py:134-140 | a Point equals an Interval, from either side, only when strictly inside it; containment is inclusive, so the two differ exactly at the endpoints; a Point and its time are contained alike |
| Primitives.IntervalOrderIsTotalOnDisjoint | textgrid/textgrid.py:204-222 | on non-overlapping intervals `<` and `>` never raise, exactly one of a<b and b<a holds, and a>b is b<a; strict overlapping ones raise `Conflict(a, b)` from both operators |
| Primitives.IntervalLtTransitive | textgrid/textgrid.py:204-212 | strict interval `<` is transitive on intervals that do not overlap |
| Primitives.ComparisonExamples | textgrid/textgrid.py:118-140 | the point and interval comparisons on concrete values: Point(4) equals [3,5] but Point(3) does not, although 3 and Point(3) are inside it; [0,2] and [2,2.5] do not overlap; a zero-length interval is refused |
| Bisection.BisectLeft | textgrid/textgrid.py:439 | `bisect_left`: either an insertion index within the range, or the probe position whose comparison raised |
| Bisection.BisectLeftCorrect | textgrid/textgrid.py:439 | on a partitioned sequence, the index found splits it into elements below the key and the rest; if any element's comparison would raise, the search raises |
| Bisection.BisectAgreesWithScan | textgrid/textgrid.py:439 | the logarithmic search and a left-to-right linear scan find the same index |
| PointTiers.PointSearch | textgrid/textgrid.py:330 | on ascending points, `bisect_left` by time returns the first index whose time is not below the new time |
| PointTiers.AddPointCorrect | textgrid/textgrid.py:325-333 | on a valid tier, `addPoint` succeeds iff the time is in bounds and not yet present; too early, too late only when `maxTime` is truthy, and a duplicate time give their own errors; on success the tier stays strictly ascending and in bounds, is one longer, and holds exactly the old points plus the new one |
| PointTiers.RemovePointCorrect | textgrid/textgrid.py:341-342 | `removePoint` succeeds iff a point with that time exists, whatever its mark; it removes exactly that point, keeps the tier valid, and otherwise fails with the not-in-list error |
| PointTiers.AddPointExample | textgrid/textgrid.py:319-333 | adding points at 4 then 2 to an empty tier gives them in time order |
| IntervalTiers.AddSpan | textgrid/textgrid.py:428-431 | `add(min, max, mark)` fails with the duration error when min >= max and otherwise is `addInterval` of that interval |
| IntervalTiers.StrictSearch | textgrid/textgrid.py:439 | on an overlap-free sorted tier, a strict `bisect_left` raises at an interval overlapping the new one whenever one exists; otherwise every interval before the index it returns ends before the new one starts, and every one after starts after it ends |
| IntervalTiers.LenientSearch | textgrid/textgrid.py:439 | with strict off, the search never raises and splits the tier by start time |
| IntervalTiers.AddIntervalStrict | textgrid/textgrid.py:433-443 | strict `addInterval` succeeds iff the interval is in bounds and overlaps nothing; bound errors come first; an overlap fails carrying an existing interval that overlaps the new one; on success the tier stays sorted, overlap-free and in bounds, one longer, and holds exactly the old intervals plus the new one |
| IntervalTiers.AddIntervalLenient | textgrid/textgrid.py:433-443 | with strict off, only bounds and an exact-bounds duplicate are refused, and a duplicate error carries the existing interval with the same bounds; on success the tier stays sorted by start and holds the old intervals plus the new one |
| IntervalTiers.LenientAdmitsDuplicate | textgrid/textgrid.py:439-441 | with strict off, the same bounds can be added twice when `bisect_left` lands next to an interval with different bounds |
| IntervalTiers.RemoveIntervalCorrect | textgrid/textgrid.py:448-449 | `removeInterval` succeeds iff an interval with identical bounds exists, whatever its mark; it removes that one, keeps the tier valid, and otherwise fails with the not-in-list error |
| IntervalTiers.IndexContainingCorrect | textgrid/textgrid.py:451-461 | for a number t on an overlap-free tier, `indexContaining` never raises; it returns the lowest index whose inclusive bounds contain t, and None exactly when none does |
| IntervalTiers.IndexContainingPoint | textgrid/textgrid.py:451-461 | a Point argument raises `Incomparable` unless every interval ends before the point, and then the answer is None: a Point is never found |
| IntervalTiers.IntervalContainingMissesFirst | textgrid/textgrid.py:463-471 | when the first interval contains t, `indexContaining` gives 0 but `intervalContaining` gives None |
| IntervalTiers.IntervalContainingTestCase | textgrid/textgrid.py:463-471 | on the tier [0,1] and [2,2.5], `intervalContaining(0.5)` is None as written and [0,1] when corrected, while 2.25 finds [2,2.5] |
| IntervalTiers.IntervalContainingFixedCorrect | textgrid/textgrid.py:463-471 | the corrected lookup returns an interval of the tier that contains t exactly when one exists |
| IntervalTiers.AddIntervalConflictExample | textgrid/textgrid.py:204-208 | adding [1,3] to the tier [0,1] and [2,2.5] fails with `Conflict([2,2.5], [1,3])` |
| IntervalTiers.FillGapsCovers | textgrid/textgrid.py:494-508 | the gap-filled sequence is contiguous, starts at the tier's `minTime`, ends at `maxTime` when it is set and not before the last interval, and has at most 2n+1 entries |
| IntervalTiers.FillGapsMembers | textgrid/textgrid.py:494-508 | every interval of the tier appears in the output, and every other entry is a null-marked filler that overlaps no interval |
| IntervalTiers.FillGapsIdempotent | textgrid/textgrid.py:494-508 | filling the gaps of an already gap-filled tier changes nothing |
| IntervalTiers.FillGapsExample | textgrid/textgrid.py:494-508 | bar [1.3,2.4] and baz [2.7,3.3] with `maxTime` 3.5 fill to [0,1.3,null], bar, [2.4,2.7,null], baz, [3.3,3.5,null] |
| Grids.GetNames | textgrid/textgrid.py:632-637 | one name per tier, in tier order |
| Grids.FirstNamed | textgrid/textgrid.py:614-620 | `getFirst`'s scan returns a tier with the name, and nothing exactly when no tier has it |
| Grids.AllNamed | textgrid/textgrid.py:622-630 | `getList`'s scan keeps exactly the tiers with the name |
| Grids.AllNamedIsFilter | textgrid/textgrid.py:622-630 | `getList` is the in-order filter: the list for two runs of tiers is the first run's list followed by the second's, so order and repetitions are kept |
| Grids.AllNamedSingle | textgrid/textgrid.py:622-630 | a single tier is listed exactly when it has the name; with the previous row this fixes `getList` on every grid |
| Grids.FirstIsHeadOfList | textgrid/textgrid.py:614-630 | `getFirst` is the head of `getList`, and finds nothing exactly when `getList` is empty |
| Grids.LookupAgreesWithNames | textgrid/textgrid.py:614-637 | `getFirst` finds a tier iff the name is in `getNames`, and it finds the tier at the first such position; `getList` has as many tiers as `getNames` has copies of the name |
| Grids.MinOfMinTimes | textgrid/textgrid.py:648 | `min` of the tier starts is one of them and no larger than any |
| Grids.MaxOfMinTimes | textgrid/textgrid.py:650 | `max` of the tier starts is one of them and no smaller than any |
| Grids.Append | textgrid/textgrid.py:639-645 | `append` refuses a tier only when both maxTimes are set and the tier's is later; otherwise it adds the tier at the end, with the grid's strictness pushed onto it |
| Grids.WithStrict | textgrid/textgrid.py:642-644 | an interval tier gets the grid's strictness and keeps its name, bounds and intervals; a point tier is unchanged |
| Grids.AppendKeepsBounded | textgrid/textgrid.py:639-645 | `append` keeps every tier ending within the grid, leaves the earlier tiers alone, and the new last tier has the given name and the grid's strictness |
| Grids.ExtendAsWritten | textgrid/textgrid.py:647-652 | `extend` succeeds iff the list is non-empty, no tier starts before the grid, and, when the grid's maxTime is truthy, no tier STARTS after it; the tiers are added at the end as given |
| Grids.ExtendIgnoresTierEnds | textgrid/textgrid.py:647-652 | a tier ending at 5 passes `extend` into a grid ending at 1, leaving the grid unbounded, while `append` refuses the same tier |
| Grids.ExtendFixedKeepsBounded | textgrid/textgrid.py:647-652 | `extend` with `append`'s end check succeeds iff every tier starts in the grid and `append` would accept it, and it keeps the grid bounded |
| Grids.PopAtInverse | textgrid/textgrid.py:659 | `list.pop(i)` succeeds iff -n <= i < n; it returns the tier at i (counted from the end when negative), and putting it back restores the list |
| Grids.PopZeroPopsLast | textgrid/textgrid.py:654-659 | `pop(0)` on two distinct tiers returns the second one, not the first |
| Grids.PopFixedCorrect | textgrid/textgrid.py:654-659 | pop as documented succeeds iff the index is in range (by default iff a tier exists), returns that tier, and putting it back restores the grid |
| Grids.PopAgreesExceptAtZero | textgrid/textgrid.py:654-659 | the as-written and documented pops agree on every argument except 0 on a grid with more than one tier |
| Grids.GridExample | textgrid/textgrid.py:614-652 | extending an empty grid with tiers bar and baz and appending bar again gives names bar, baz, bar, and `getFirst`/`getList` of bar give the first bar and both bars |
| Text.LStrip | textgrid/textgrid.py:548 | stripping removes only leading whitespace and stops at a visible character |
| Text.RStrip | textgrid/textgrid.py:548 | stripping removes only trailing whitespace and stops at a visible character |
| Text.FormatMark | textgrid/textgrid.py:75-76 | `_formatMark` doubles every quote: the output has twice the quotes and grows by one character per quote |
| Text.UnescapeFormatMark | textgrid/textgrid.py:72-76 | undoing `""` after `_formatMark` gives back the original text, for every string |
| Text.FormatMarkEvenPrefix | textgrid/textgrid.py:58-59 | every prefix of a formatted mark that ends on a non-quote character has an even number of quotes, so no line inside an entry can end `_getMark`'s loop early |
| Text.SplitWords | textgrid/textgrid.py:678 | `split()` yields non-empty words without whitespace, and no word exactly when the text is all whitespace |
| Text.SplitPadded | textgrid/textgrid.py:678 | `split()` skips any leading whitespace, takes the next word whole up to the following whitespace, and splits the rest; with the all-whitespace case this fixes `split()` on every text |
| Text.SplitJoin | textgrid/textgrid.py:678 | splitting words joined by single spaces gives the words back |
| Text.ParseInt | textgrid/textgrid.py:676-678 | `int()` of a text succeeds exactly when the stripped text is an optional sign followed by one or more decimal digits |
| Text.ParseIntNatText | textgrid/textgrid.py:676-678 | `int()` of a printed natural number gives the number back |
| Text.Trunc | textgrid/textgrid.py:690 | `int()` of a float truncates toward zero |
| Marks.Accumulate | textgrid/textgrid.py:58-65 | the accumulated entry is the first line plus exactly the lines consumed, and it has an even number of quotes |
| Marks.ClosingCaptureIsLazyMatch | textgrid/textgrid.py:66-70 | the captured group is the shortest prefix closed by a quote followed only by whitespace, and it exists exactly when such a closing exists |
| Marks.GetMarkRoundTrip | textgrid/textgrid.py:45-76 | for every string s and whitespace indent, a `text = "` or `mark = "` entry of `_formatMark(s)` reads back as s and consumes exactly the entry's lines, whatever follows |
| Marks.GetMarkRoundTripShort | textgrid/textgrid.py:45-76 | the same for the short format's `"..."` entry |
| Marks.GetMarkErrors | textgrid/textgrid.py:52-63 | a long-format first line without the `text = "` / `mark = "` prefix is a bad-entry error, and an odd quote count that no later line can fix ends in the end-of-file error |
| Marks.AccumulateRunsOut | textgrid/textgrid.py:59-63 | with an odd count and no quote left in the input, the loop reaches end of file and fails |
| Fields.ParseNumber | textgrid/textgrid.py:552-557 | a number field is the format's parse of its text, and a text it cannot parse is an error naming that text |
| Fields.ParseLine | textgrid/textgrid.py:547-557 | a line parses to a quoted value exactly when it holds a quote; every short-format quoted line parses; any number comes from the format's parser |
| Fields.ParseLineBare | textgrid/textgrid.py:547-557 | `key = t` parses to the number t denotes, whatever the key is, or fails naming t |
| Fields.ParseLineQuoted | textgrid/textgrid.py:547-555 | `key = "v"` parses to v, for any v on one line, quotes included |
| Fields.ParseLineShortQuoted | textgrid/textgrid.py:549-551 | a short-format line `"v"` parses to v |
| Fields.ParseLineShortNumber | textgrid/textgrid.py:549-552 | a short-format line holding a printed number parses back to that number |
| Fields.FileTypeToken | textgrid/textgrid.py:562 | the matched token is a non-empty run of word characters between the quotes of `File type = "..."` at the start of the line |
| Fields.ParseHeaderRoundTrip | textgrid/textgrid.py:560-569 | the written header with class c parses as (c, long format) and consumes exactly its three lines |
| Reader.ReadField | textgrid/textgrid.py:547-557 | reading a field consumes one line and parses it |
| Reader.ReadNumber | textgrid/textgrid.py:672-673 | a time field succeeds exactly when its line parses to a number |
| Reader.ReadCount | textgrid/textgrid.py:690 | an element count is the truncation of the number on its line |
| Reader.AddIfPositive | textgrid/textgrid.py:697-698 | a zero- or negative-length entry is dropped silently; any other is `addInterval`ed |
| Reader.ReadIntervals | textgrid/textgrid.py:690-698 | reading a tier's entries changes only its intervals |
| Reader.ReadPoints | textgrid/textgrid.py:705-710 | reading n points adds exactly n points and changes nothing else |
| Reader.ReadTier | textgrid/textgrid.py:684-711 | a point tier is rebuilt as `PointTier(name)` (from 0, no end) whatever bounds the file gives; an interval tier gets the grid's strictness and the file's end |
| Reader.ReadTiers | textgrid/textgrid.py:681-711 | reading m tiers appends exactly m tiers after the ones the grid held and changes nothing else |
| Reader.ReadTierCount | textgrid/textgrid.py:675-678 | the tier-count line is consumed |
| Reader.ReadTextGrid | textgrid/textgrid.py:661-711 | a read grid keeps its name and strictness and gets the file's end |
| Reader.ReadGridBody | textgrid/textgrid.py:672-711 | the body keeps the grid's name and strictness, sets its end, and appends tiers after the existing ones |
| Reader.ReadIntervalTierFile | textgrid/textgrid.py:473-492 | `IntervalTier.read` keeps the name and appends entries after the existing intervals, without validation |
| Reader.ReadPointTierFile | textgrid/textgrid.py:344-362 | `PointTier.read` keeps the name and appends points after the existing ones, without validation |
| Reader.ReadRawIntervals | textgrid/textgrid.py:484-492 | a tier file's n entries give n intervals |
| Reader.ReadRawPoints | textgrid/textgrid.py:355-362 | a tier file's n entries give n points |
| Writer.TiersEndIsMax | textgrid/textgrid.py:724-727 | the computed `maxT` exists iff every tier has an end; it is one of those ends and no smaller than any; otherwise the error is the first failing tier's |
| Writer.TierEndCoversIntervals | textgrid/textgrid.py:726 | a valid strict interval tier's end is no earlier than any of its intervals |
| Writer.WriteTextGrid | textgrid/textgrid.py:713-762 | `TextGrid.write` fails exactly when no `maxT` can be found |
| Writer.WriteIntervalTierFile | textgrid/textgrid.py:510-532 | `IntervalTier.write` fails exactly when the tier has no end |
| Writer.WritePointTierFile | textgrid/textgrid.py:364-383 | `PointTier.write` fails exactly when the tier has no end |
| RoundTrip.IntervalTierFileRoundTrip | textgrid/textgrid.py:473-532 | reading a written interval tier file gives the tier's bounds and its gap-filled intervals, appended to the reader's existing intervals |
| RoundTrip.PointTierFileRoundTrip | textgrid/textgrid.py:344-383 | reading a written point tier file gives the tier's bounds and exactly its points |
| RoundTrip.ReadIntervalTierOf | textgrid/textgrid.py:684-699 | the block `TextGrid.write` prints for an interval tier reads back as the gap-filled tier ending at `maxT`, with the reader's strictness |
| RoundTrip.ReadPointTierOf | textgrid/textgrid.py:700-711 | the block printed for a point tier reads back as `PointTier(name)` with exactly its points |
| RoundTrip.GridRoundTrip | textgrid/textgrid.py:661-762 | when `maxT` exists and every tier can be reread, reading a written grid gives the grid's start, `maxT` as its end, and every tier reread in order, after the reader's own tiers |
| RoundTrip.GridRoundTripTiers | textgrid/textgrid.py:661-762 | the same, for any tier index k: the read grid has one tier per written tier after its own; interval tier k comes back as `_fillInTheGaps(null)` of itself, from its own start to the grid's end; point tier k comes back as its points, from 0 with no end |
| RoundTrip.IntervalTierRereadable | textgrid/textgrid.py:494-508 | an overlap-free tier starting no later than its first interval, with all ends at most `maxT`, can be reread when its name is on one line and its numbers print back |
| RoundTrip.PointTierRereadable | textgrid/textgrid.py:325-333 | a valid point tier starting at or after 0 can be reread when its name is on one line and its times print back |
| Mlf.QuotedLabel | textgrid/textgrid.py:810-812 | a label is found exactly when the line starts with a quote that a later quote closes; the label runs to the LAST quote |
| Mlf.QuotedLabelOf | textgrid/textgrid.py:810-812 | a quoted name followed by quote-free text reads as that name |
| Mlf.Seconds | textgrid/textgrid.py:822-823 | a time field is the clock's reading of it, and an unreadable one is an error naming it |
| Mlf.ParseRecord | textgrid/textgrid.py:820-834 | a 3- or 4-field line is a record exactly when both times read; the phone is the third field and a word exists iff there are four fields |
| Mlf.Step | textgrid/textgrid.py:821-843 | a record changes only the intervals of the two tiers |
| Mlf.Finish | textgrid/textgrid.py:844-847 | the closing line changes only the intervals of the two tiers |
| Mlf.ReadRecordsRuns | textgrid/textgrid.py:819-847 | reading an utterance's lines amounts to running the state machine over the records read |
| Mlf.RunPhones | textgrid/textgrid.py:821-843 | the phones tier stays valid and holds exactly its previous phones plus those the records carry: every 4-field record, and every 3-field record of nonzero length that is not `sp` |
| Mlf.RunPhonesPositive | textgrid/textgrid.py:824-826 | after a successful run every phone-carrying record has positive length |
| Mlf.RunWords | textgrid/textgrid.py:827-845 | the words tier stays valid and holds exactly the words the records delimit: each 4-field record or nonzero `sp` opens a word, later records extend it, the next opener or the end closes it, and the last word is added even when unmarked |
| Mlf.UtteranceContents | textgrid/textgrid.py:810-849 | one utterance's grid holds phones then words, each overlap-free, with exactly the phones and words its records specify, and every phone positive |
| Mlf.ReadUtterances | textgrid/textgrid.py:809-852 | every grid read is from 0 with no end, strict, named, and holds a `phones` then a `words` tier |
| Mlf.ReadUtterancesChain | textgrid/textgrid.py:809-852 | the outer loop reads exactly the grids of a chain of labelled utterances: one grid per quoted label line, in file order, grid k named after label k, ending at the first line that is not a quoted label |
| Mlf.ReadMlf | textgrid/textgrid.py:805-852 | after the header line, every grid of the file has that shape |
| Mlf.ReadMlfContents | textgrid/textgrid.py:805-852 | after the header line the file is a chain of labelled utterances, and grid k holds exactly the phones and words of the records under label k, overlap-free |
| Mlf.UtteranceGrid | textgrid/textgrid.py:813-849 | `TextGrid(name)` with phones then words appended, both strict |
| Mlf.UtteranceGridEnd | textgrid/textgrid.py:724-727 | an MLF grid has a `maxT` exactly when both its tiers are non-empty |
| Mlf.UtteranceWritable | textgrid/textgrid.py:845-849 | an MLF grid can be written exactly when its phones tier is non-empty; the words tier never is empty, because the closing line always adds a word |
| Mlf.ExamplePhones | textgrid/textgrid.py:821-843 | sil, F (opening FIND), AY and a trailing sp give the phones sil, F and AY |
| Mlf.ExampleWords | textgrid/textgrid.py:827-845 | the same records give the words sil, FIND (extended to the end of AY) and sp |
| Mlf.UnmarkedUtteranceExample | textgrid/textgrid.py:843-845 | an utterance with no words still gets one unmarked word covering it |
| Mlf.MapResults | textgrid/textgrid.py:865-869 | the loop over grids succeeds iff every grid succeeds; it gives one result per grid in order, or else an error of one of them |
| Mlf.Output | textgrid/textgrid.py:865-869 | a grid's file is produced exactly when it has a name and can be written |
| Mlf.WriteMlf | textgrid/textgrid.py:854-870 | one output per grid |
| Mlf.WriteMlfFiles | textgrid/textgrid.py:854-870 | `MLF.write` succeeds iff every grid is named and writable, and output k is grid k's text at the path derived from its name |
| Mlf.BaseName | textgrid/textgrid.py:866 | `os.path.split`'s tail is the slash-free suffix after the last slash |
| Mlf.BaseNameOf | textgrid/textgrid.py:866 | the tail of a directory plus a slash-free name is that name |
| Mlf.StripExt | textgrid/textgrid.py:867 | `splitext`'s root is a prefix of the name |
| Mlf.StripExtOf | textgrid/textgrid.py:867 | `root.ext` loses exactly `.ext` when the root is not all dots |
| Mlf.LeadingDotIsNoExtension | textgrid/textgrid.py:867 | a leading dot does not start an extension: `.lab` is its own root |
| Mlf.JoinDir | textgrid/textgrid.py:868 | the directory part starts with the prefix and adds at most one character: a slash after a non-empty prefix not ending in one; it is empty exactly when the prefix is |
| Mlf.OutputPathShape | textgrid/textgrid.py:866-868 | the output file's name is the label's root plus `.TextGrid`, with no directory part |
| Mlf.OutputPathOf | textgrid/textgrid.py:866-868 | `dir/root.ext` becomes the prefix directory plus `root.TextGrid` |

## Left out

- File I/O: `detectEncoding`, `codecs.open`, `open` and closing files. A file is its decoded text, and `MLF.write` returns (path, text) pairs rather than creating files.
- Floating point: `float()`, `round()` and printing. Times are `real`. `Fields.NumberFormat` is an opaque printer/parser pair, and the round trips assume it reproduces the values that are printed. The MLF conversion `round(float(t) / samplerate, 5)` is the opaque `Mlf.Clock`.
- Text.ParseInt: accepts ASCII digits only. Python's `int()` also takes `_` between digits and non-ASCII decimal digits, which the printed files never contain.
- Fields.FileTypeToken: `\w` is narrowed to ASCII letters, digits and `_`. On text, Python's `\w` also matches every other Unicode letter and digit, so a header such as `File type = "ooTextFileé"` passes `parse_header` but is a `BadHeader` here.
- Objects are modelled as values. `TextGrid.read` assigns the grid's bounds and appends tiers to the caller's grid before a later tier can raise, leaving it half read; the model returns an error and no grid. `append` sets `strict` on the caller's own tier object and its intervals, and `extend` shares tier objects between grids; this aliasing is not modelled.
- Line splitting: `Text.ReadLine` breaks lines only at `\n`. The `readline` of a `codecs` stream also breaks at `\r` and the other Unicode line separators.
- Methods no operator reaches: `__cmp__`, the misspelled `__gte__`/`__lte__`, and `__iadd__`/`__isub__`, which return None and skip validation. `__repr__`/`__str__`, `bounds`, `fromFile` and `__iter__`/`__len__`/`__getitem__` are omitted too, since the last three are plain sequence access. `decode` is the identity and is applied implicitly.
- The older top-level module `textgrid.py` is replaced by the package and is not part of this model.
- Short-format writing is omitted because the library has none. Short-format reading is modelled. Round trips are proved for the long format only, the one the library writes.
- Strictness is kept per tier, not per interval. `append` and `addInterval` push the tier's flag onto every interval, and the model assumes they all agree.
- Python's dynamic types: a field that the code would take as a number but which holds a quoted value (or the reverse) is an error (`NotANumber` and similar), where Python would compare or add a string.
- Reader.ReadTextGrid, Reader.ReadGridBody, Reader.ReadTiers, Reader.ReadTier and Reader.ReadIntervals: these contracts state only what the reader keeps and appends. What it reads from a written grid is stated by RoundTrip.GridRoundTrip and RoundTrip.GridRoundTripTiers. For arbitrary text there is no independent specification beyond the code.
- Reader.ReadIntervalTierFile and Reader.ReadPointTierFile: their contracts state only the frame. The content of a written file is stated by RoundTrip.IntervalTierFileRoundTrip and RoundTrip.PointTierFileRoundTrip.
- Reader.ReadTierCount: states only what it consumes. Its value on a written grid is part of RoundTrip.GridRoundTrip.
- Writer.WriteTextGrid, Writer.WriteIntervalTierFile and Writer.WritePointTierFile: their contracts state when writing fails. The text written is characterised by the round-trip lemmas, not by an independent printer.
- Mlf.Step and Mlf.Finish: these contracts state only the frame. What the tiers hold is stated by Mlf.RunPhones and Mlf.RunWords.
- Mlf.ReadUtterances and Mlf.ReadMlf: these contracts state the shape of each grid only. The labels and contents are stated by Mlf.ReadUtterancesChain and Mlf.ReadMlfContents.
- Mlf.WriteMlf: states the count only. The contents are stated by Mlf.WriteMlfFiles.
- Fields.ParseHeader: this contract states only that input is consumed. Its value on a written header is Fields.ParseHeaderRoundTrip.

## Findings

| source | as written | input that shows it | evidently intended | confidence | as-written member | corrected member |
|---|---|---|---|---|---|---|
| textgrid/textgrid.py:463-471 | `if i:` treats index 0 like None | a tier [0,1], [2,2.5] and time 0.5: the first interval contains it, yet the result is None | return the interval whenever `indexContaining` finds one (`if i is not None`) | high; not executed | IntervalTiers.IntervalContaining (IntervalTiers.IntervalContainingMissesFirst, IntervalTiers.IntervalContainingTestCase) | IntervalTiers.IntervalContainingFixed (IntervalTiers.IntervalContainingFixedCorrect) |
| textgrid/textgrid.py:654-659 | `if i` treats 0 like None, so `pop(0)` pops the last tier | a grid with two distinct tiers and `pop(0)`: the second tier is returned | pop the tier at index i, the last only when i is omitted | high; not executed | Grids.Pop (Grids.PopZeroPopsLast) | Grids.PopFixed (Grids.PopFixedCorrect, Grids.PopAgreesExceptAtZero) |
| textgrid/textgrid.py:647-652 | the upper check compares the latest tier START with the grid's maxTime | a grid ending at 1 and a tier from 0 to 5: `extend` accepts it, although `append` refuses it, leaving a tier that ends after the grid | check each tier's end as `append` does | medium; not executed | Grids.Extend (Grids.ExtendIgnoresTierEnds, Grids.ExtendAsWritten) | Grids.ExtendFixed (Grids.ExtendFixedKeepsBounded) |
