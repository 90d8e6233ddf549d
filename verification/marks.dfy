/** Reading a quoted mark (`_getMark`): Praat writes a mark between double
    quotes with inner quotes doubled, and a mark may span several lines, so
    the reader keeps reading lines while the quote count is odd. */
module Marks {
  import opened Wrappers
  import opened Primitives
  import opened Text

  /** `^\s*(text|mark) = "` matches at the start of the line. */
  predicate HasEntryPrefix(line: string) {
    var l := LStrip(line);
    |l| >= 8 && (l[..8] == "text = \"" || l[..8] == "mark = \"")
  }

  /** The loop of _getMark: while the text read so far holds an odd number
      of quotes, append the next line; the end of input is an error that
      quotes the first 20 characters read. */
  function Accumulate(line: string, src: string): (r: Result<(string, string), Error>)
    ensures r.Ok? ==> r.value.0 + r.value.1 == line + src && CountQuotes(r.value.0) % 2 == 0
    decreases |src|
  {
    if CountQuotes(line) % 2 == 0 then Ok((line, src))
    else
      var (next, rest) := ReadLine(src);
      if next == "" then Err(UnexpectedEof(line[..if |line| < 20 then |line| else 20]))
      else
        assert (line + next) + rest == line + src;
        Accumulate(line + next, rest)
  }

  /** `"(.*?)"\s*$` (DOTALL) on the text after the opening quote: the lazy
      group stops at the only quote followed by nothing but whitespace,
      which is the last character once trailing whitespace is removed. */
  function ClosingCapture(r: string): Option<string> {
    var t := RStrip(r);
    if |t| > 0 && t[|t| - 1] == '"' then Some(t[..|t| - 1]) else None
  }

  /** The quote that closes a lazy `"(.*?)"\s*$`. */
  predicate ClosesAt(r: string, j: nat) {
    j < |r| && r[j] == '"' && forall k :: j < k < |r| ==> IsSpace(r[k])
  }

  /** The regular expression's reading: a capture exists exactly when some
      quote is followed only by whitespace, and the capture stops at the
      first such quote. */
  lemma ClosingCaptureIsLazyMatch(r: string)
    ensures ClosingCapture(r).Some? <==> exists j: nat :: ClosesAt(r, j)
    ensures ClosingCapture(r).Some? ==>
      var c := ClosingCapture(r).value;
      ClosesAt(r, |c|) && c == r[..|c|] && forall j: nat :: j < |c| ==> !ClosesAt(r, j)
  {
    var t := RStrip(r);
    if exists j: nat :: ClosesAt(r, j) {
      var j: nat :| ClosesAt(r, j);
      assert !IsSpace(r[j]);
      assert j < |t|;
      assert |t| > 0 && !IsSpace(r[|t| - 1]);
      assert |t| - 1 == j;
    }
    if |t| > 0 && t[|t| - 1] == '"' {
      assert !IsSpace(r[|t| - 1]);
      assert ClosesAt(r, |t| - 1);
    }
  }

  /** What follows the opening quote, when the entry has one. */
  function Opening(full: string, short: bool): Option<string> {
    if short then (if |full| > 0 && full[0] == '"' then Some(full[1..]) else None)
    else if HasEntryPrefix(full) then Some(LStrip(full)[8..]) else None
  }

  /** The final match of _getMark: `^"(.*?)"\s*$` in the short format,
      `^\s*(text|mark) = "(.*?)"\s*$` in the long one. */
  function MatchEntry(full: string, short: bool): Result<string, Error> {
    match Opening(full, short)
    case None => Err(NoMatch(full))
    case Some(r) =>
      match ClosingCapture(r)
      case None => Err(NoMatch(full))
      case Some(c) => Ok(c)
  }

  /** _getMark: the mark read from the remaining text, and what remains. */
  function GetMark(src: string, short: bool): Result<(string, string), Error> {
    var (line, rest) := ReadLine(src);
    if !short && !HasEntryPrefix(line) then Err(BadEntry(line))
    else
      var acc :- Accumulate(line, rest);
      var cap :- MatchEntry(acc.0, short);
      Ok((Unescape(cap), acc.1))
  }

  /** The text print('<indent>key = "' + _formatMark(s) + '"') writes. */
  function EntryText(indent: string, key: string, s: string): string {
    indent + key + " = \"" + FormatMark(s) + "\"\n"
  }

  /** The short format's entry: the escaped mark between quotes. */
  function ShortEntryText(s: string): string {
    "\"" + FormatMark(s) + "\"\n"
  }

  /** A newline inside an entry, before its last line, follows an odd
      number of quotes. */
  lemma EntryNewlineOdd(e: string, pre: string, s: string, p: nat)
    requires e == pre + FormatMark(s) + "\"\n"
    requires CountQuotes(pre) == 1 && '\n' !in pre
    requires 0 < p < |e| && e[p - 1] == '\n'
    ensures CountQuotes(e[..p]) % 2 == 1
  {
    var fm := FormatMark(s);
    assert forall i :: 0 <= i < |pre| ==> e[i] == pre[i];
    assert e[|e| - 2] == '"';
    var j := p - 1 - |pre|;
    assert 0 <= j < |fm| && fm[j] == e[p - 1];
    FormatMarkEvenPrefix(s, j);
    assert e[..p] == pre + fm[..j + 1];
    CountQuotesConcat(pre, fm[..j + 1]);
    OddCount(CountQuotes(e[..p]), CountQuotes(pre), CountQuotes(fm[..j + 1]));
  }

  /** One quote and an even number of quotes make an odd count. */
  lemma OddCount(c: nat, a: nat, b: nat)
    requires a == 1 && b % 2 == 0 && c == a + b
    ensures c % 2 == 1
  {
  }

  /** A whole entry holds an even number of quotes. */
  lemma EntryEven(e: string, pre: string, s: string)
    requires e == pre + FormatMark(s) + "\"\n"
    requires CountQuotes(pre) == 1
    ensures CountQuotes(e) % 2 == 0
  {
    EntryQuotes(e, pre, FormatMark(s));
    EvenCount(CountQuotes(e), CountQuotes(pre), CountQuotes(s));
  }

  /** One quote, 2n quotes and one more make an even count. */
  lemma EvenCount(c: nat, a: nat, n: nat)
    requires a == 1 && c == a + 2 * n + 1
    ensures c % 2 == 0
  {
  }

  /** The quotes of an entry: the opening ones, the mark's, the closing one. */
  lemma EntryQuotes(e: string, pre: string, fm: string)
    requires e == pre + fm + "\"\n"
    ensures CountQuotes(e) == CountQuotes(pre) + CountQuotes(fm) + 1
  {
    CountQuotesConcat3(pre, fm, "\"\n");
    ClosingQuotes();
  }

  lemma CountQuotesConcat3(a: string, b: string, c: string)
    ensures CountQuotes(a + b + c) == CountQuotes(a) + CountQuotes(b) + CountQuotes(c)
  {
    CountQuotesConcat(a + b, c);
    CountQuotesConcat(a, b);
  }

  /** The closing quote and newline of an entry hold one quote. */
  lemma ClosingQuotes()
    ensures CountQuotes("\"\n") == 1
  {
    assert "\"\n"[1..] == "\n";
  }

  /** Reading on from a point inside a text that ends with a newline takes
      the next line of that text, whatever follows it. */
  lemma NextLineWithin(e: string, p: nat, rest: string)
    requires p < |e| && e[|e| - 1] == '\n'
    ensures var l := ReadLine(e[p..]).0;
      && 0 < |l| && p + |l| <= |e| && e[p + |l| - 1] == '\n'
      && ReadLine(e[p..] + rest) == (e[p..p + |l|], e[p + |l|..] + rest)
  {
    var x := e[p..];
    assert x[|x| - 1] == '\n';
    var (l, r) := ReadLine(x);
    assert l[|l| - 1] == '\n';
    ReadLineAppend(x, rest);
    assert l == x[..|l|] == e[p..p + |l|];
    assert r == x[|l|..] == e[p + |l|..];
  }

  /** Starting right after any newline of an entry, the loop reads up to
      the end of the entry and not further: every newline inside the
      escaped mark leaves an odd quote count, the closing quote makes it
      even. */
  lemma {:induction false} AccumulateEntry(e: string, pre: string, s: string, p: nat, rest: string)
    requires e == pre + FormatMark(s) + "\"\n"
    requires CountQuotes(pre) == 1 && '\n' !in pre
    requires 0 < p <= |e| && e[p - 1] == '\n'
    ensures Accumulate(e[..p], e[p..] + rest) == Ok((e, rest))
    decreases |e| - p
  {
    if p == |e| {
      EntryEven(e, pre, s);
      assert e[..p] == e && e[p..] + rest == rest;
      AccumulateDone(e, rest);
    } else {
      var p' := AccumulateEntryStep(e, pre, s, p, rest);
      AccumulateEntry(e, pre, s, p', rest);
    }
  }

  /** One pass of the loop inside an entry: the next line up to the next
      newline is appended. */
  lemma AccumulateEntryStep(e: string, pre: string, s: string, p: nat, rest: string) returns (p': nat)
    requires e == pre + FormatMark(s) + "\"\n"
    requires CountQuotes(pre) == 1 && '\n' !in pre
    requires 0 < p < |e| && e[p - 1] == '\n'
    ensures p < p' <= |e| && e[p' - 1] == '\n'
    ensures Accumulate(e[..p], e[p..] + rest) == Accumulate(e[..p'], e[p'..] + rest)
  {
    EntryNewlineOdd(e, pre, s, p);
    NextLineWithin(e, p, rest);
    var l := ReadLine(e[p..]).0;
    p' := p + |l|;
    AccumulateStep(e[..p], e[p..] + rest, e[p..p'], e[p'..] + rest);
    assert e[..p] + e[p..p'] == e[..p'];
  }

  /** The loop stops once the quote count is even. */
  lemma AccumulateDone(line: string, src: string)
    requires CountQuotes(line) % 2 == 0
    ensures Accumulate(line, src) == Ok((line, src))
  {
  }

  /** While the count is odd, the loop appends the next line. */
  lemma AccumulateStep(line: string, src: string, next: string, rest: string)
    requires CountQuotes(line) % 2 == 1
    requires ReadLine(src) == (next, rest) && next != ""
    ensures Accumulate(line, src) == Accumulate(line + next, rest)
  {
  }

  /** The first line read from an entry reaches past the opening quote. */
  lemma FirstLineOfEntry(e: string, pre: string, rest: string)
    requires '\n' !in pre && |pre| <= |e| && e[..|pre|] == pre
    requires |e| > 0 && e[|e| - 1] == '\n'
    ensures var l := ReadLine(e).0;
      && |pre| < |l| <= |e| && l == e[..|l|] && e[|l| - 1] == '\n' && ReadLine(e).1 == e[|l|..]
    ensures ReadLine(e + rest) == (ReadLine(e).0, ReadLine(e).1 + rest)
  {
    var l := ReadLine(e).0;
    assert l[|l| - 1] == '\n';
    assert forall i :: 0 <= i < |pre| ==> e[i] != '\n' by {
      forall i | 0 <= i < |pre| ensures e[i] != '\n' {
        assert e[i] == pre[i];
      }
    }
    assert e[|l| - 1] == '\n';
    ReadLineAppend(e, rest);
  }

  /** Reading a whole entry, whatever follows it: the first line, then
      the loop up to the entry's end. */
  lemma ReadEntry(e: string, pre: string, s: string, rest: string)
    requires e == pre + FormatMark(s) + "\"\n"
    requires CountQuotes(pre) == 1 && '\n' !in pre
    ensures var l := ReadLine(e + rest).0; |pre| < |l| <= |e| && l == e[..|l|]
    ensures Accumulate(ReadLine(e + rest).0, ReadLine(e + rest).1) == Ok((e, rest))
  {
    EntryShape(e, pre, FormatMark(s));
    FirstLineOfEntry(e, pre, rest);
    AccumulateEntry(e, pre, s, |ReadLine(e).0|, rest);
  }

  /** An entry starts with its opening and ends with a newline. */
  lemma EntryShape(e: string, pre: string, fm: string)
    requires e == pre + fm + "\"\n"
    ensures |pre| < |e| && e[..|pre|] == pre && e[|e| - 1] == '\n'
  {
    assert e == pre + (fm + "\"\n");
  }

  /** _getMark's happy path, step by step. */
  lemma GetMarkSteps(src: string, short: bool, acc: (string, string), cap: string)
    requires short || HasEntryPrefix(ReadLine(src).0)
    requires Accumulate(ReadLine(src).0, ReadLine(src).1) == Ok(acc)
    requires MatchEntry(acc.0, short) == Ok(cap)
    ensures GetMark(src, short) == Ok((Unescape(cap), acc.1))
  {
  }

  /** The text of a long-format entry after its indentation. */
  lemma EntryPrefix(indent: string, key: string, x: string)
    requires AllSpace(indent)
    requires key == "text" || key == "mark"
    ensures HasEntryPrefix(indent + key + " = \"" + x)
    ensures LStrip(indent + key + " = \"" + x)[8..] == x
  {
    var body := key + " = \"" + x;
    assert indent + key + " = \"" + x == indent + body;
    KeyBody(key, x);
    LStripPadded(indent, body);
  }

  /** `text = "` and `mark = "` are the eight characters the prefix test
      looks for, and the first is not a space. */
  lemma KeyBody(key: string, x: string)
    requires key == "text" || key == "mark"
    ensures var b := key + " = \"" + x;
      && |b| >= 8 && !IsSpace(b[0]) && b[8..] == x
      && (b[..8] == "text = \"" || b[..8] == "mark = \"")
  {
    var open := key + " = \"";
    assert |open| == 8;
    assert (open + x)[..8] == open && (open + x)[8..] == x;
  }

  /** The closing quote of an entry ends the capture. */
  lemma ClosingOfEntry(fm: string)
    ensures ClosingCapture(fm + "\"\n") == Some(fm)
  {
    assert fm + "\"\n" == (fm + "\"") + "\n";
    RStripPadded(fm + "\"", "\n");
  }

  /** The quotes before a long-format entry's mark: just the opening one. */
  lemma LongPrefixQuotes(indent: string, key: string)
    requires AllSpace(indent)
    requires key == "text" || key == "mark"
    ensures CountQuotes(indent + key + " = \"") == 1
  {
    assert indent + key + " = \"" == indent + ((key + " = ") + "\"");
    CountQuotesConcat(indent, (key + " = ") + "\"");
    CountQuotesAllSpace(indent);
    CountQuotesOneClosing(key + " = ");
  }

  /** The first line of a long-format entry passes the prefix test and the
      loop reads exactly the entry. */
  lemma LongEntryReads(indent: string, key: string, s: string, rest: string)
    requires AllSpace(indent) && '\n' !in indent
    requires key == "text" || key == "mark"
    ensures var (l, r) := ReadLine(EntryText(indent, key, s) + rest);
      HasEntryPrefix(l) && Accumulate(l, r) == Ok((EntryText(indent, key, s), rest))
  {
    var e := EntryText(indent, key, s);
    var pre := indent + key + " = \"";
    assert e == pre + FormatMark(s) + "\"\n";
    LongPrefixSingleLine(indent, key);
    ReadEntry(e, pre, s, rest);
    assert e[..|pre|] == pre;
    LongFirstLine(indent, key, e, ReadLine(e + rest).0);
  }

  /** A first line that starts a long-format entry passes the prefix test. */
  lemma LongFirstLine(indent: string, key: string, e: string, l: string)
    requires AllSpace(indent)
    requires key == "text" || key == "mark"
    requires |indent + key + " = \""| < |l| <= |e| && l == e[..|l|]
    requires e[..|indent + key + " = \""|] == indent + key + " = \""
    ensures HasEntryPrefix(l)
  {
    var pre := indent + key + " = \"";
    assert l[..|pre|] == pre by {
      assert l[..|pre|] == e[..|l|][..|pre|];
    }
    assert l == pre + l[|pre|..];
    EntryPrefix(indent, key, l[|pre|..]);
  }

  /** The opening of a long-format entry holds one quote and no newline. */
  lemma LongPrefixSingleLine(indent: string, key: string)
    requires AllSpace(indent) && '\n' !in indent
    requires key == "text" || key == "mark"
    ensures CountQuotes(indent + key + " = \"") == 1 && '\n' !in indent + key + " = \""
  {
    LongPrefixQuotes(indent, key);
  }

  /** The final match on a whole long-format entry captures the escaped mark. */
  lemma LongEntryMatches(indent: string, key: string, s: string)
    requires AllSpace(indent)
    requires key == "text" || key == "mark"
    ensures MatchEntry(EntryText(indent, key, s), false) == Ok(FormatMark(s))
  {
    var fm := FormatMark(s);
    assert EntryText(indent, key, s) == indent + key + " = \"" + (fm + "\"\n");
    EntryPrefix(indent, key, fm + "\"\n");
    ClosingOfEntry(fm);
  }

  /** Writing a mark on a long-format `text = "..."` or `mark = "..."`
      line, however many lines the mark spans, and reading it back gives
      the mark and consumes exactly the entry's lines. */
  lemma GetMarkRoundTrip(indent: string, key: string, s: string, rest: string)
    requires AllSpace(indent) && '\n' !in indent
    requires key == "text" || key == "mark"
    ensures GetMark(EntryText(indent, key, s) + rest, false) == Ok((s, rest))
  {
    var e := EntryText(indent, key, s);
    LongEntryReads(indent, key, s, rest);
    LongEntryMatches(indent, key, s);
    GetMarkSteps(e + rest, false, (e, rest), FormatMark(s));
    UnescapeFormatMark(s);
  }

  /** The same for the short format's `"..."` entries. */
  lemma GetMarkRoundTripShort(s: string, rest: string)
    ensures GetMark(ShortEntryText(s) + rest, true) == Ok((s, rest))
  {
    var e := ShortEntryText(s);
    var fm := FormatMark(s);
    assert e == "\"" + fm + "\"\n";
    CountQuotesOneClosing("");
    ReadEntry(e, "\"", s, rest);
    assert e[1..] == fm + "\"\n";
    assert Opening(e, true) == Some(fm + "\"\n");
    ClosingOfEntry(fm);
    GetMarkSteps(e + rest, true, (e, rest), fm);
    UnescapeFormatMark(s);
  }

  /** Once the quote count is odd and no quote is left in the input, the
      loop runs to the end of the input and fails. */
  lemma {:induction false} AccumulateRunsOut(line: string, src: string)
    requires CountQuotes(line) % 2 == 1 && CountQuotes(src) == 0
    ensures Accumulate(line, src).Err? && Accumulate(line, src).error.UnexpectedEof?
    decreases |src|
  {
    var (next, rest) := ReadLine(src);
    if next != "" {
      CountQuotesConcat(next, rest);
      CountQuotesConcat(line, next);
      AccumulateRunsOut(line + next, rest);
    }
  }

  /** _getMark's two errors: a long-format first line without the
      `text = "` / `mark = "` prefix, and an entry whose quotes never
      balance before the input ends. */
  lemma GetMarkErrors(src: string, short: bool)
    ensures !short && !HasEntryPrefix(ReadLine(src).0) ==>
      GetMark(src, short) == Err(BadEntry(ReadLine(src).0))
    ensures ((short || HasEntryPrefix(ReadLine(src).0))
      && CountQuotes(ReadLine(src).0) % 2 == 1 && CountQuotes(ReadLine(src).1) == 0) ==>
      GetMark(src, short).Err? && GetMark(src, short).error.UnexpectedEof?
  {
    var (line, rest) := ReadLine(src);
    if CountQuotes(line) % 2 == 1 && CountQuotes(rest) == 0 {
      AccumulateRunsOut(line, rest);
    }
  }
}
