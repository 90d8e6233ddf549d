/** HTK master label files. MLF.read turns each quoted label, and the
    alignment records under it, into a TextGrid with a `phones` and a
    `words` tier; MLF.write names each grid's output file after its label.
    The conversion of a frame count to seconds (float(), the sample rate,
    round()) is a parameter. */
module Mlf {
  import opened Wrappers
  import opened Primitives
  import opened Text
  import opened IntervalTiers
  import opened Grids
  import opened Fields
  import opened Writer
  import opened Seqs

  /** round(float(t) / samplerate, round_digits) for one time field; None
      where float() raises. */
  type Clock = string -> Option<real>

  /** One alignment line in seconds: start, end, phone, and the word a
      4-field line begins. */
  datatype Record = Record(start: real, end: real, phone: string, word: Option<string>)

  /** The word being collected: wmrk, wsrt and wend. */
  datatype Pending = Pending(mark: string, start: real, end: real)

  /** The locals of one utterance: phon, word and the pending word. */
  datatype Builder = Builder(phones: IntervalTier, words: IntervalTier, pending: Pending)

  /** At each label: two empty strict tiers from 0 with no end, and no word. */
  const Start: Builder := Builder(
    EmptyIntervalTier(Some("phones"), 0.0, None),
    EmptyIntervalTier(Some("words"), 0.0, None),
    Pending("", 0.0, 0.0))

  // ---------------------------------------------------------------------
  // Labels and records

  /** re.match('"(.*)"', l): an opening quote at the start and, the group
      being greedy, everything up to the last quote after it. */
  function QuotedLabel(l: string): (r: Option<string>)
    ensures r.Some? <==> |l| >= 2 && l[0] == '"' && '"' in l[1..]
    ensures r.Some? ==> exists tail :: l == "\"" + r.value + "\"" + tail && '"' !in tail
  {
    if |l| == 0 || l[0] != '"' then None
    else
      match LastIndexOf(l[1..], '"')
      case None => None
      case Some(q) =>
        var tail := l[q + 2..];
        assert l == "\"" + l[1..q + 1] + "\"" + tail;
        assert forall j :: 0 <= j < |tail| ==> tail[j] == l[1..][q + 1 + j];
        Some(l[1..q + 1])
  }

  /** The greedy match reaches the last quote: a label printed between
      quotes, followed by text without a quote, is read back whole, even
      when it holds quotes itself. */
  lemma QuotedLabelOf(name: string, tail: string)
    requires '"' !in tail
    ensures QuotedLabel("\"" + name + "\"" + tail) == Some(name)
  {
    var l := "\"" + name + "\"" + tail;
    var s := l[1..];
    assert s == name + "\"" + tail;
    var q := |name|;
    assert s[q] == '"';
    forall j | q < j < |s| ensures s[j] != '"' {
      assert s[j] == tail[j - q - 1];
    }
    assert LastIndexOf(s, '"') == Some(q);
    assert l[1..q + 1] == name;
  }

  /** One time field in seconds. */
  function Seconds(t: string, clock: Clock): (r: Result<real, Error>)
    ensures r.Ok? <==> clock(t).Some?
    ensures r.Ok? ==> r.value == clock(t).value
    ensures r.Err? ==> r.error == BadNumber(t)
  {
    match clock(t)
    case None => Err(BadNumber(t))
    case Some(x) => Ok(x)
  }

  /** The fields of a 3- or 4-field line; both times are converted first. */
  function ParseRecord(fields: seq<string>, clock: Clock): (r: Result<Record, Error>)
    requires |fields| == 3 || |fields| == 4
    ensures r.Ok? <==> clock(fields[0]).Some? && clock(fields[1]).Some?
    ensures r.Ok? ==> r.value.phone == fields[2] && (r.value.word.Some? <==> |fields| == 4)
  {
    var lo :- Seconds(fields[0], clock);
    var hi :- Seconds(fields[1], clock);
    Ok(Record(lo, hi, fields[2], if |fields| == 4 then Some(fields[3]) else None))
  }

  // ---------------------------------------------------------------------
  // The record state machine

  /** Only the tiers' intervals change: names, bounds and strictness stay. */
  predicate KeepsTiers(b: Builder, b': Builder) {
    && b'.phones.(intervals := b.phones.intervals) == b.phones
    && b'.words.(intervals := b.words.intervals) == b.words
  }

  /** `if wmrk: word.add(wsrt, wend, wmrk)`. */
  function Flush(words: IntervalTier, p: Pending): (r: Result<IntervalTier, Error>)
    ensures r.Ok? ==> r.value.(intervals := words.intervals) == words
  {
    if p.mark != "" then AddSpan(words, p.start, p.end, p.mark) else Ok(words)
  }

  /** One record: a 4-field record must have positive length, adds its phone
      and opens its word; a 3-field `sp` of positive length opens an `sp`
      word; any other 3-field record adds its phone when it has positive
      length; every 3-field record moves the pending word's end. */
  function Step(b: Builder, r: Record): (r': Result<Builder, Error>)
    ensures r'.Ok? ==> KeepsTiers(b, r'.value)
  {
    if r.word.Some? then
      if r.start == r.end then Err(NullDuration)
      else
        var phones :- AddSpan(b.phones, r.start, r.end, r.phone);
        var words :- Flush(b.words, b.pending);
        Ok(Builder(phones, words, Pending(r.word.value, r.start, r.end)))
    else if r.phone == "sp" && r.start != r.end then
      var words :- Flush(b.words, b.pending);
      Ok(Builder(b.phones, words, Pending("sp", r.start, r.end)))
    else if r.start != r.end then
      var phones :- AddSpan(b.phones, r.start, r.end, r.phone);
      Ok(b.(phones := phones, pending := b.pending.(end := r.end)))
    else
      Ok(b.(pending := b.pending.(end := r.end)))
  }

  /** The line that ends an utterance: the pending word is added whatever
      its mark, even the empty one. */
  function Finish(b: Builder): (r: Result<Builder, Error>)
    ensures r.Ok? ==> KeepsTiers(b, r.value)
  {
    var words :- AddSpan(b.words, b.pending.start, b.pending.end, b.pending.mark);
    Ok(b.(words := words))
  }

  /** The records of one utterance in order, then its final line. */
  function Run(b: Builder, recs: seq<Record>): Result<Builder, Error>
    decreases |recs|
  {
    if |recs| == 0 then Finish(b)
    else
      var b' :- Step(b, recs[0]);
      Run(b', recs[1..])
  }

  // ---------------------------------------------------------------------
  // Reading

  /** The inner `while 1` of MLF.read: lines of 3 or 4 fields are records,
      converted and applied as they are read; any other line, the empty
      one at the end of the file included, ends the utterance. Also
      returns the records read. */
  function ReadRecords(b: Builder, src: string, clock: Clock): (r: Result<(Builder, seq<Record>, string), Error>)
    ensures r.Ok? ==> |r.value.2| <= |src| && KeepsTiers(b, r.value.0)
    decreases |src|
  {
    var (line, rest) := ReadLine(src);
    var fields := SplitWords(RStrip(line));
    if |fields| == 3 || |fields| == 4 then
      var rec :- ParseRecord(fields, clock);
      var b' :- Step(b, rec);
      var u :- ReadRecords(b', rest, clock);
      Ok((u.0, [rec] + u.1, u.2))
    else
      var b' :- Finish(b);
      Ok((b', [], rest))
  }

  /** TextGrid(name), then append(phon) and append(word): the grid has no
      end, so both appends succeed. */
  function UtteranceGrid(name: string, b: Builder): (g: TextGrid)
    ensures g == TextGrid(Some(name), 0.0, None,
      [Intervals(b.phones.(strict := true)), Intervals(b.words.(strict := true))], true)
  {
    var g0 := EmptyTextGrid(Some(name));
    var g1 := Append(g0, Intervals(b.phones)).value;
    Append(g1, Intervals(b.words)).value
  }

  /** The shape of every grid MLF.read builds: named after its label, from 0
      with no end, strict, holding a `phones` then a `words` interval tier,
      each from 0 with no end. */
  predicate IsUtteranceGrid(g: TextGrid) {
    && g.name.Some? && g.minTime == 0.0 && g.maxTime.None? && g.strict
    && |g.tiers| == 2
    && g.tiers[0].Intervals? && g.tiers[0].it.name == Some("phones")
    && g.tiers[1].Intervals? && g.tiers[1].it.name == Some("words")
    && (forall k :: 0 <= k < 2 ==>
         g.tiers[k].it.minTime == 0.0 && g.tiers[k].it.maxTime.None? && g.tiers[k].it.strict)
  }

  /** One label's utterance: its records, then its grid. */
  function ReadUtterance(name: string, src: string, clock: Clock): (r: Result<(TextGrid, seq<Record>, string), Error>)
    ensures r.Ok? ==> |r.value.2| <= |src| && IsUtteranceGrid(r.value.0) && r.value.0.name == Some(name)
  {
    var u :- ReadRecords(Start, src, clock);
    Ok((UtteranceGrid(name, u.0), u.1, u.2))
  }

  /** The outer `while True` of MLF.read: a line that is not a quoted label
      (the empty one at the end of the file included) ends the file. */
  function ReadUtterances(src: string, clock: Clock): (r: Result<seq<TextGrid>, Error>)
    ensures r.Ok? ==> forall k :: 0 <= k < |r.value| ==> IsUtteranceGrid(r.value[k])
    decreases |src|
  {
    var (line, rest) := ReadLine(src);
    match QuotedLabel(RStrip(line))
    case None => Ok([])
    case Some(name) =>
      assert |line| > 0 && |rest| < |src|;
      var u :- ReadUtterance(name, rest, clock);
      var more :- ReadUtterances(u.2, clock);
      Ok([u.0] + more)
  }

  /** MLF.read: the header line is skipped. */
  function ReadMlf(src: string, clock: Clock): (r: Result<seq<TextGrid>, Error>)
    ensures r.Ok? ==> forall k :: 0 <= k < |r.value| ==> IsUtteranceGrid(r.value[k])
  {
    ReadUtterances(ReadLine(src).1, clock)
  }

  // ---------------------------------------------------------------------
  // What an utterance's tiers hold

  /** The records that put a phone in the phones tier: every 4-field one,
      and a 3-field one of nonzero length that is not an `sp`. */
  predicate CarriesPhone(r: Record) {
    r.word.Some? || (r.start != r.end && r.phone != "sp")
  }

  /** The phones of the records, in record order. */
  function PhoneSpans(recs: seq<Record>): seq<Span> {
    if |recs| == 0 then []
    else
      (if CarriesPhone(recs[0]) then [Span(recs[0].start, recs[0].end, recs[0].phone)] else [])
      + PhoneSpans(recs[1..])
  }

  /** The word a record opens: a 4-field record its own, a 3-field `sp` of
      nonzero length an `sp` word. */
  function Opens(r: Record): Option<string> {
    if r.word.Some? then r.word
    else if r.phone == "sp" && r.start != r.end then Some("sp")
    else None
  }

  /** The position of the first record that opens a word (|recs| if none). */
  function NextOpener(recs: seq<Record>): (j: nat)
    ensures j <= |recs|
    ensures forall k :: 0 <= k < j ==> Opens(recs[k]).None?
    ensures j < |recs| ==> Opens(recs[j]).Some?
  {
    if |recs| == 0 || Opens(recs[0]).Some? then 0 else 1 + NextOpener(recs[1..])
  }

  /** The words recorded when word w is open and recs follow until the
      utterance ends, segment by segment: w reaches the end of the last
      record before the next opener; it is recorded when it has a mark, and
      always at the end of the utterance; then the opener's word is open. */
  function WordsAfter(w: Pending, recs: seq<Record>): (r: seq<Span>)
    ensures |r| > 0
    decreases |recs|
  {
    var j := NextOpener(recs);
    var closed := Span(w.start, if j == 0 then w.end else recs[j - 1].end, w.mark);
    if j == |recs| then [closed]
    else
      (if w.mark != "" then [closed] else [])
      + WordsAfter(Pending(Opens(recs[j]).value, recs[j].start, recs[j].end), recs[j + 1..])
  }

  /** A record that opens a word closes the open one where it stood. */
  lemma WordsAfterOpener(w: Pending, recs: seq<Record>)
    requires |recs| > 0 && Opens(recs[0]).Some?
    ensures WordsAfter(w, recs)
      == (if w.mark != "" then [Span(w.start, w.end, w.mark)] else [])
         + WordsAfter(Pending(Opens(recs[0]).value, recs[0].start, recs[0].end), recs[1..])
  {
  }

  /** Any other record only carries the open word's end to its own. */
  lemma WordsAfterSkip(w: Pending, recs: seq<Record>)
    requires |recs| > 0 && Opens(recs[0]).None?
    ensures WordsAfter(w, recs) == WordsAfter(w.(end := recs[0].end), recs[1..])
  {
    var j := NextOpener(recs);
    var tail := recs[1..];
    assert NextOpener(tail) == j - 1;
    if j < |recs| {
      assert recs[j + 1..] == tail[j..];
    }
  }

  /** Reading the lines applies the records read, in order. */
  lemma {:induction false} ReadRecordsRuns(b: Builder, src: string, clock: Clock)
    requires ReadRecords(b, src, clock).Ok?
    ensures var u := ReadRecords(b, src, clock).value; Run(b, u.1) == Ok(u.0)
    decreases |src|
  {
    var (line, rest) := ReadLine(src);
    var fields := SplitWords(RStrip(line));
    if |fields| == 3 || |fields| == 4 {
      var rec := ParseRecord(fields, clock).value;
      var b' := Step(b, rec).value;
      ReadRecordsRuns(b', rest, clock);
      var u := ReadRecords(b', rest, clock).value;
      assert ([rec] + u.1)[1..] == u.1;
    }
  }

  /** What a successful step does to the phones: a record that carries a
      phone has positive length and adds it; any other leaves them. */
  lemma StepPhones(b: Builder, r: Record)
    requires b.phones.strict && ValidIntervalTier(b.phones)
    requires Step(b, r).Ok?
    ensures var p := Step(b, r).value.phones;
      && ValidIntervalTier(p)
      && multiset(p.intervals) == multiset(b.phones.intervals) + multiset(PhoneSpans([r]))
      && (CarriesPhone(r) ==> r.start < r.end)
  {
    assert PhoneSpans([r]) == (if CarriesPhone(r) then [Span(r.start, r.end, r.phone)] else []) + PhoneSpans([]);
    if CarriesPhone(r) {
      assert AddSpan(b.phones, r.start, r.end, r.phone).Ok?;
      AddIntervalStrict(b.phones, Span(r.start, r.end, r.phone));
    }
  }

  /** On success the phones tier stays overlap-free and gains exactly the
      phones of the records. */
  lemma {:induction false} RunPhones(b: Builder, recs: seq<Record>)
    requires b.phones.strict && ValidIntervalTier(b.phones)
    requires Run(b, recs).Ok?
    ensures var p := Run(b, recs).value.phones;
      && ValidIntervalTier(p)
      && multiset(p.intervals) == multiset(b.phones.intervals) + multiset(PhoneSpans(recs))
    decreases |recs|
  {
    if |recs| > 0 {
      RunCons(b, recs);
      StepPhones(b, recs[0]);
      RunPhones(Step(b, recs[0]).value, recs[1..]);
      PhoneSpansCons(recs);
    }
  }

  /** A run that succeeds takes its first step and runs the rest. */
  lemma RunCons(b: Builder, recs: seq<Record>)
    requires |recs| > 0 && Run(b, recs).Ok?
    ensures Step(b, recs[0]).Ok? && Run(b, recs) == Run(Step(b, recs[0]).value, recs[1..])
  {
  }

  lemma PhoneSpansCons(recs: seq<Record>)
    requires |recs| > 0
    ensures multiset(PhoneSpans(recs)) == multiset(PhoneSpans([recs[0]])) + multiset(PhoneSpans(recs[1..]))
  {
    assert PhoneSpans(recs) == PhoneSpans([recs[0]]) + PhoneSpans(recs[1..]);
  }

  /** On success every record that carries a phone has positive length:
      a 4-field record of zero length raises, and a 3-field one of
      negative length fails to make its interval. */
  lemma {:induction false} RunPhonesPositive(b: Builder, recs: seq<Record>)
    requires b.phones.strict && ValidIntervalTier(b.phones)
    requires Run(b, recs).Ok?
    ensures forall k :: 0 <= k < |recs| && CarriesPhone(recs[k]) ==> recs[k].start < recs[k].end
    decreases |recs|
  {
    if |recs| > 0 {
      StepPhones(b, recs[0]);
      RunPhonesPositive(Step(b, recs[0]).value, recs[1..]);
      assert forall k :: 1 <= k < |recs| ==> recs[k] == recs[1..][k - 1];
    }
  }

  /** What a successful step does to the words: an opener flushes the open
      word and opens its own; any other record moves the open word's end. */
  lemma StepShape(b: Builder, r: Record)
    requires Step(b, r).Ok?
    ensures var b' := Step(b, r).value;
      && (Opens(r).Some? ==>
           Flush(b.words, b.pending) == Ok(b'.words) && b'.pending == Pending(Opens(r).value, r.start, r.end))
      && (Opens(r).None? ==> b'.words == b.words && b'.pending == b.pending.(end := r.end))
  {
  }

  /** A successful flush of a strict tier adds the open word when it has a mark. */
  lemma FlushAdds(words: IntervalTier, p: Pending)
    requires words.strict && ValidIntervalTier(words)
    requires Flush(words, p).Ok?
    ensures ValidIntervalTier(Flush(words, p).value)
    ensures multiset(Flush(words, p).value.intervals)
      == multiset(words.intervals) + multiset(if p.mark != "" then [Span(p.start, p.end, p.mark)] else [])
  {
    if p.mark != "" {
      AddIntervalStrict(words, Span(p.start, p.end, p.mark));
    }
  }

  /** One record moves words between the open segment and the tier. */
  lemma StepWords(b: Builder, recs: seq<Record>)
    requires b.words.strict && ValidIntervalTier(b.words)
    requires |recs| > 0 && Step(b, recs[0]).Ok?
    ensures var b' := Step(b, recs[0]).value;
      && ValidIntervalTier(b'.words)
      && multiset(b'.words.intervals) + multiset(WordsAfter(b'.pending, recs[1..]))
         == multiset(b.words.intervals) + multiset(WordsAfter(b.pending, recs))
  {
    StepShape(b, recs[0]);
    if Opens(recs[0]).Some? {
      WordsAfterOpener(b.pending, recs);
      FlushAdds(b.words, b.pending);
    } else {
      WordsAfterSkip(b.pending, recs);
    }
  }

  /** On success the words tier stays overlap-free and gains exactly the
      words the segments of the records make. */
  lemma {:induction false} RunWords(b: Builder, recs: seq<Record>)
    requires b.words.strict && ValidIntervalTier(b.words)
    requires Run(b, recs).Ok?
    ensures var w := Run(b, recs).value.words;
      && ValidIntervalTier(w)
      && multiset(w.intervals) == multiset(b.words.intervals) + multiset(WordsAfter(b.pending, recs))
    decreases |recs|
  {
    if |recs| == 0 {
      var p := b.pending;
      AddIntervalStrict(b.words, Span(p.start, p.end, p.mark));
    } else {
      StepWords(b, recs);
      RunWords(Step(b, recs[0]).value, recs[1..]);
    }
  }

  /** A grid of MLF.read's shape holds its records: a phones tier of
      exactly their phones and a words tier of exactly their words, both
      overlap-free, every phone of positive length. */
  predicate HoldsRecords(g: TextGrid, recs: seq<Record>) {
    && IsUtteranceGrid(g)
    && Disjoint(g.tiers[0].it.intervals)
    && multiset(g.tiers[0].it.intervals) == multiset(PhoneSpans(recs))
    && Disjoint(g.tiers[1].it.intervals)
    && multiset(g.tiers[1].it.intervals) == multiset(WordsAfter(Pending("", 0.0, 0.0), recs))
    && (forall k :: 0 <= k < |recs| && CarriesPhone(recs[k]) ==> recs[k].start < recs[k].end)
  }

  /** What MLF.read makes of one label: a phones tier holding exactly the
      phones of its records and a words tier holding exactly their words,
      both overlap-free, every phone of positive length. */
  lemma UtteranceContents(name: string, src: string, clock: Clock)
    requires ReadUtterance(name, src, clock).Ok?
    ensures var (g, recs, _) := ReadUtterance(name, src, clock).value; HoldsRecords(g, recs)
  {
    ReadRecordsRuns(Start, src, clock);
    var u := ReadRecords(Start, src, clock).value;
    RunPhones(Start, u.1);
    RunPhonesPositive(Start, u.1);
    RunWords(Start, u.1);
  }

  // ---------------------------------------------------------------------
  // A whole file

  /** The text at src opens with a quoted label line, and the utterance
      under it reads as grid g, named after the label, from records recs,
      leaving rest. */
  predicate LabelledUtterance(src: string, clock: Clock, g: TextGrid, recs: seq<Record>, rest: string) {
    var name := QuotedLabel(RStrip(ReadLine(src).0));
    && name.Some? && g.name == name
    && ReadUtterance(name.value, ReadLine(src).1, clock) == Ok((g, recs, rest))
  }

  /** src splits into the utterances of grids gs, one per quoted label in
      order: utterance k starts at rests[k] and ends where utterance k + 1
      starts, and the line at rests[|gs|] is not a quoted label. */
  predicate UtteranceChain(src: string, clock: Clock, gs: seq<TextGrid>, recs: seq<seq<Record>>, rests: seq<string>) {
    && |recs| == |gs| && |rests| == |gs| + 1 && rests[0] == src
    && (forall k :: 0 <= k < |gs| ==> LabelledUtterance(rests[k], clock, gs[k], recs[k], rests[k + 1]))
    && QuotedLabel(RStrip(ReadLine(rests[|gs|]).0)).None?
  }

  /** The outer loop of MLF.read reads exactly the grids of a chain of
      labelled utterances: one grid per label, grid k named after label k. */
  lemma ReadUtterancesChain(src: string, clock: Clock, gs: seq<TextGrid>)
    ensures ReadUtterances(src, clock) == Ok(gs) <==>
      exists recs: seq<seq<Record>>, rests: seq<string> :: UtteranceChain(src, clock, gs, recs, rests)
  {
    if ReadUtterances(src, clock) == Ok(gs) {
      var recs, rests := ChainOfRead(src, clock);
      assert UtteranceChain(src, clock, gs, recs, rests);
    }
    if exists recs: seq<seq<Record>>, rests: seq<string> :: UtteranceChain(src, clock, gs, recs, rests) {
      var recs: seq<seq<Record>>, rests: seq<string> :| UtteranceChain(src, clock, gs, recs, rests);
      ReadOfChain(src, clock, gs, recs, rests);
    }
  }

  lemma {:induction false} ChainOfRead(src: string, clock: Clock) returns (recs: seq<seq<Record>>, rests: seq<string>)
    requires ReadUtterances(src, clock).Ok?
    ensures UtteranceChain(src, clock, ReadUtterances(src, clock).value, recs, rests)
    decreases |src|
  {
    var gs := ReadUtterances(src, clock).value;
    if QuotedLabel(RStrip(ReadLine(src).0)).None? {
      ReadUtterancesEnd(src, clock);
      recs, rests := [], [src];
    } else {
      var u := ReadUtterancesOpens(src, clock);
      ReadUtterancesStep(src, clock, u.0, u.1, u.2);
      var recs', rests' := ChainOfRead(u.2, clock);
      var more := ReadUtterances(u.2, clock).value;
      assert gs == [u.0] + more;
      ChainCons(src, clock, u.0, u.1, u.2, more, recs', rests');
      recs, rests := [u.1] + recs', [src] + rests';
    }
  }

  /** A file read whole that opens with a label opens with a labelled utterance. */
  lemma ReadUtterancesOpens(src: string, clock: Clock) returns (u: (TextGrid, seq<Record>, string))
    requires ReadUtterances(src, clock).Ok?
    requires QuotedLabel(RStrip(ReadLine(src).0)).Some?
    ensures LabelledUtterance(src, clock, u.0, u.1, u.2)
  {
    var name := QuotedLabel(RStrip(ReadLine(src).0)).value;
    u := ReadUtterance(name, ReadLine(src).1, clock).value;
  }

  lemma {:induction false} ReadOfChain(src: string, clock: Clock, gs: seq<TextGrid>, recs: seq<seq<Record>>, rests: seq<string>)
    requires UtteranceChain(src, clock, gs, recs, rests)
    ensures ReadUtterances(src, clock) == Ok(gs)
    decreases |src|
  {
    if |gs| == 0 {
      ReadUtterancesEnd(src, clock);
    } else {
      ChainTail(src, clock, gs, recs, rests);
      ReadUtterancesStep(src, clock, gs[0], recs[0], rests[1]);
      ReadOfChain(rests[1], clock, gs[1..], recs[1..], rests[1..]);
      HeadTail(gs);
      ReadUtterancesCons(src, clock, gs[0], recs[0], rests[1], gs[1..], gs);
    }
  }

  /** A line that is not a quoted label ends the file. */
  lemma ReadUtterancesEnd(src: string, clock: Clock)
    requires QuotedLabel(RStrip(ReadLine(src).0)).None?
    ensures ReadUtterances(src, clock) == Ok([])
  {
  }

  /** A labelled utterance is read, then the rest of the file. */
  lemma ReadUtterancesStep(src: string, clock: Clock, g: TextGrid, recs: seq<Record>, rest: string)
    requires LabelledUtterance(src, clock, g, recs, rest)
    ensures |rest| < |src|
    ensures ReadUtterances(rest, clock).Ok? ==> ReadUtterances(src, clock) == Ok([g] + ReadUtterances(rest, clock).value)
    ensures ReadUtterances(rest, clock).Err? ==> ReadUtterances(src, clock) == ReadUtterances(rest, clock)
  {
    var (line, r) := ReadLine(src);
    assert |r| < |src|;
  }

  lemma ReadUtterancesCons(src: string, clock: Clock, g: TextGrid, recs: seq<Record>, rest: string,
                           more: seq<TextGrid>, gs: seq<TextGrid>)
    requires LabelledUtterance(src, clock, g, recs, rest)
    requires ReadUtterances(rest, clock) == Ok(more) && gs == [g] + more
    ensures ReadUtterances(src, clock) == Ok(gs)
  {
    ReadUtterancesStep(src, clock, g, recs, rest);
  }

  /** A labelled utterance followed by a chain is a chain. */
  lemma ChainCons(src: string, clock: Clock, g: TextGrid, rs: seq<Record>, rest: string,
                  gs: seq<TextGrid>, recs: seq<seq<Record>>, rests: seq<string>)
    requires LabelledUtterance(src, clock, g, rs, rest)
    requires UtteranceChain(rest, clock, gs, recs, rests)
    ensures UtteranceChain(src, clock, [g] + gs, [rs] + recs, [src] + rests)
  {
    var gs', recs', rests' := [g] + gs, [rs] + recs, [src] + rests;
    forall k | 0 <= k < |gs'| ensures LabelledUtterance(rests'[k], clock, gs'[k], recs'[k], rests'[k + 1]) {
      if k > 0 {
        assert rests'[k] == rests[k - 1] && rests'[k + 1] == rests[k] && gs'[k] == gs[k - 1] && recs'[k] == recs[k - 1];
      }
    }
    assert rests'[|gs'|] == rests[|gs|];
  }

  /** A non-empty chain is a labelled utterance followed by a chain. */
  lemma ChainTail(src: string, clock: Clock, gs: seq<TextGrid>, recs: seq<seq<Record>>, rests: seq<string>)
    requires UtteranceChain(src, clock, gs, recs, rests) && |gs| > 0
    ensures LabelledUtterance(src, clock, gs[0], recs[0], rests[1])
    ensures UtteranceChain(rests[1], clock, gs[1..], recs[1..], rests[1..])
  {
    forall k | 0 <= k < |gs[1..]|
      ensures LabelledUtterance(rests[1..][k], clock, gs[1..][k], recs[1..][k], rests[1..][k + 1])
    {
      assert LabelledUtterance(rests[k + 1], clock, gs[k + 1], recs[k + 1], rests[k + 2]);
    }
    assert rests[1..][|gs[1..]|] == rests[|gs|];
  }

  /** MLF.read as a whole: after the header line, the file is a chain of
      labelled utterances, grid k named after label k and holding exactly
      the phones and words of the records under that label. */
  lemma ReadMlfContents(src: string, clock: Clock)
    requires ReadMlf(src, clock).Ok?
    ensures var gs := ReadMlf(src, clock).value;
      exists recs: seq<seq<Record>>, rests: seq<string> ::
        && UtteranceChain(ReadLine(src).1, clock, gs, recs, rests)
        && forall k :: 0 <= k < |gs| ==> HoldsRecords(gs[k], recs[k])
  {
    var body := ReadLine(src).1;
    var gs := ReadMlf(src, clock).value;
    ReadUtterancesChain(body, clock, gs);
    var recs: seq<seq<Record>>, rests: seq<string> :| UtteranceChain(body, clock, gs, recs, rests);
    forall k | 0 <= k < |gs| ensures HoldsRecords(gs[k], recs[k]) {
      assert LabelledUtterance(rests[k], clock, gs[k], recs[k], rests[k + 1]);
      var name := QuotedLabel(RStrip(ReadLine(rests[k]).0)).value;
      UtteranceContents(name, ReadLine(rests[k]).1, clock);
    }
  }

  /** The end TextGrid.write computes for a grid of this shape exists
      exactly when both tiers have a last interval. */
  lemma UtteranceGridEnd(g: TextGrid)
    requires IsUtteranceGrid(g)
    ensures GridEnd(g).Ok? <==> |g.tiers[0].it.intervals| > 0 && |g.tiers[1].it.intervals| > 0
  {
    TiersEndIsMax(g.tiers);
    assert TierEnd(g.tiers[0]).Ok? <==> |g.tiers[0].it.intervals| > 0;
    assert TierEnd(g.tiers[1]).Ok? <==> |g.tiers[1].it.intervals| > 0;
  }

  /** A grid MLF.read builds can be written exactly when its phones tier
      is not empty: neither tier has an end, so each contributes its last
      interval's end, and the words tier always has one. */
  lemma UtteranceWritable(name: string, src: string, clock: Clock, nf: NumberFormat, nullMark: string)
    requires ReadUtterance(name, src, clock).Ok?
    ensures var g := ReadUtterance(name, src, clock).value.0;
      WriteTextGrid(g, nf, nullMark).Ok? <==> |g.tiers[0].it.intervals| > 0
  {
    UtteranceContents(name, src, clock);
    var u := ReadUtterance(name, src, clock).value;
    var words := u.0.tiers[1].it.intervals;
    assert |multiset(words)| == |WordsAfter(Pending("", 0.0, 0.0), u.1)| > 0;
    UtteranceGridEnd(u.0);
  }

  /** The start of the second utterance of the library's own test file,
      in seconds. */
  function ExampleRecords(): seq<Record> {
    [ Record(0.0, 0.5, "sil", Some("sil")),
      Record(0.5, 0.7, "F", Some("FIND")),
      Record(0.7, 1.3, "AY", None),
      Record(1.3, 1.3, "sp", None),
      Record(1.3, 1.5, "sp", None) ]
  }

  /** `sp` records carry no phone. */
  lemma ExamplePhones()
    ensures PhoneSpans(ExampleRecords())
      == [Span(0.0, 0.5, "sil"), Span(0.5, 0.7, "F"), Span(0.7, 1.3, "AY")]
  {
    var recs := ExampleRecords();
    assert PhoneSpans(recs[4..]) == [];
    assert PhoneSpans(recs[3..]) == [];
    assert PhoneSpans(recs[2..]) == [Span(0.7, 1.3, "AY")];
    assert PhoneSpans(recs[1..]) == [Span(0.5, 0.7, "F"), Span(0.7, 1.3, "AY")];
  }

  /** From the second word of the example on: the word reaches over the
      records that open none, up to the pause. */
  lemma ExampleWordsTail()
    ensures WordsAfter(Pending("FIND", 0.5, 0.7), ExampleRecords()[2..])
      == [Span(0.5, 1.3, "FIND"), Span(1.3, 1.5, "sp")]
  {
    var recs := ExampleRecords();
    WordsAfterSkip(Pending("FIND", 0.5, 0.7), recs[2..]);
    WordsAfterSkip(Pending("FIND", 0.5, 1.3), recs[3..]);
    assert recs[2..][1..] == recs[3..] && recs[3..][1..] == recs[4..];
  }

  /** A zero-length `sp` opens no word, a pause `sp` opens an `sp` word, and
      a word reaches the end of the last record before the next begins. */
  lemma ExampleWords()
    ensures WordsAfter(Pending("", 0.0, 0.0), ExampleRecords())
      == [Span(0.0, 0.5, "sil"), Span(0.5, 1.3, "FIND"), Span(1.3, 1.5, "sp")]
  {
    var recs := ExampleRecords();
    ExampleWordsTail();
    WordsAfterOpener(Pending("sil", 0.0, 0.5), recs[1..]);
    assert recs[1..][1..] == recs[2..];
    WordsAfterOpener(Pending("", 0.0, 0.0), recs);
  }

  /** An utterance with no word at all still gets one, unmarked, from 0 to
      the last record's end. */
  lemma UnmarkedUtteranceExample()
    ensures WordsAfter(Pending("", 0.0, 0.0), [Record(0.0, 0.5, "sil", None), Record(0.5, 0.9, "AH", None)])
      == [Span(0.0, 0.9, "")]
  {
  }

  // ---------------------------------------------------------------------
  // MLF.write

  /** os.path.split(p)[1]: what follows the last '/'. */
  function BaseName(p: string): (r: string)
    ensures '/' !in r
    ensures |r| <= |p| && p[|p| - |r|..] == r
    ensures |r| < |p| ==> p[|p| - |r| - 1] == '/'
  {
    match LastIndexOf(p, '/')
    case None => p
    case Some(i) =>
      assert forall j :: i + 1 <= j < |p| ==> p[i + 1..][j - i - 1] == p[j];
      p[i + 1..]
  }

  predicate AllDots(s: string) {
    forall k :: 0 <= k < |s| ==> s[k] == '.'
  }

  /** os.path.splitext(t)[0] for a t without '/': the text before the last
      '.', unless only dots precede that '.' (a leading-dot name has no
      extension). */
  function StripExt(t: string): (r: string)
    ensures |r| <= |t| && t[..|r|] == r
  {
    match LastIndexOf(t, '.')
    case None => t
    case Some(i) => if AllDots(t[..i]) then t else t[..i]
  }

  /** The directory part os.path.join(prefix, f) puts before an f that
      does not start with '/': the prefix, with a '/' added unless it is
      empty or already ends in one. */
  function JoinDir(prefix: string): (d: string)
    ensures d == "" || d[|d| - 1] == '/'
    ensures prefix <= d && |d| <= |prefix| + 1
    ensures d == "" <==> prefix == ""
  {
    if prefix == "" || prefix[|prefix| - 1] == '/' then prefix else prefix + "/"
  }

  /** The file MLF.write writes a grid with this name to. */
  function OutputPath(name: string, prefix: string): string {
    JoinDir(prefix) + (StripExt(BaseName(name)) + ".TextGrid")
  }

  /** One grid's file name and text; a grid without a name has no file
      name (os.path.split raises). */
  function Output(g: TextGrid, prefix: string, nf: NumberFormat, nullMark: string): (r: Result<(string, string), Error>)
    ensures g.name.Some? ==> (r.Ok? <==> WriteTextGrid(g, nf, nullMark).Ok?)
    ensures g.name.None? ==> r == Err(Unnamed)
  {
    if g.name.None? then Err(Unnamed)
    else
      var text :- WriteTextGrid(g, nf, nullMark);
      Ok((OutputPath(g.name.value, prefix), text))
  }

  /** f applied to each element in order; the first failure stops it. */
  function MapResults<T, U>(xs: seq<T>, f: T -> Result<U, Error>): (r: Result<seq<U>, Error>)
    ensures r.Ok? <==> forall k :: 0 <= k < |xs| ==> f(xs[k]).Ok?
    ensures r.Ok? ==> |r.value| == |xs| && forall k :: 0 <= k < |xs| ==> f(xs[k]) == Ok(r.value[k])
    ensures r.Err? ==> exists k :: 0 <= k < |xs| && f(xs[k]) == Err(r.error)
  {
    if |xs| == 0 then Ok([])
    else
      var y :- f(xs[0]);
      var ys :- MapResults(xs[1..], f);
      assert forall k :: 1 <= k < |xs| ==> xs[k] == xs[1..][k - 1];
      Ok([y] + ys)
  }

  /** MLF.write(prefix): every grid in order, each with its file name and
      text; the first grid that cannot be written stops it. */
  function WriteMlf(grids: seq<TextGrid>, prefix: string, nf: NumberFormat, nullMark: string)
    : (r: Result<seq<(string, string)>, Error>)
    ensures r.Ok? ==> |r.value| == |grids|
  {
    MapResults(grids, (g: TextGrid) => Output(g, prefix, nf, nullMark))
  }

  /** MLF.write succeeds exactly when every grid is named and writable; it
      then writes one file per grid, the k-th grid's text under the name
      taken from its label. */
  lemma WriteMlfFiles(grids: seq<TextGrid>, prefix: string, nf: NumberFormat, nullMark: string)
    ensures WriteMlf(grids, prefix, nf, nullMark).Ok? <==>
      forall k :: 0 <= k < |grids| ==> grids[k].name.Some? && WriteTextGrid(grids[k], nf, nullMark).Ok?
    ensures WriteMlf(grids, prefix, nf, nullMark).Ok? ==> forall k :: 0 <= k < |grids| ==>
      WriteMlf(grids, prefix, nf, nullMark).value[k]
        == (OutputPath(grids[k].name.value, prefix), WriteTextGrid(grids[k], nf, nullMark).value)
  {
    var f := (g: TextGrid) => Output(g, prefix, nf, nullMark);
    assert forall k :: 0 <= k < |grids| ==> f(grids[k]) == Output(grids[k], prefix, nf, nullMark);
  }

  /** The base name of a path is its part after the last directory. */
  lemma BaseNameOf(dir: string, base: string)
    requires '/' !in base
    requires dir == "" || dir[|dir| - 1] == '/'
    ensures BaseName(dir + base) == base
  {
    var p := dir + base;
    if dir != "" {
      assert p[|dir| - 1] == '/';
    }
    forall j | |dir| <= j < |p| ensures p[j] != '/' {
      assert p[j] == base[j - |dir|];
    }
    assert p[|p| - |base|..] == base;
  }

  /** splitext drops the last extension of a name that is not all dots before it. */
  lemma StripExtOf(root: string, ext: string)
    requires '.' !in ext && !AllDots(root)
    ensures StripExt(root + "." + ext) == root
  {
    var t := root + "." + ext;
    assert t[|root|] == '.';
    forall j | |root| < j < |t| ensures t[j] != '.' {
      assert t[j] == ext[j - |root| - 1];
    }
    assert t[..|root|] == root;
  }

  /** A name without '.' has no extension. */
  lemma StripExtNoDot(t: string)
    requires '.' !in t
    ensures StripExt(t) == t
  {
  }

  /** The written file sits directly in the prefix directory and is named
      after the label's base name without its extension: no directory of
      the label survives. */
  lemma OutputPathShape(name: string, prefix: string)
    ensures '/' !in StripExt(BaseName(name)) + ".TextGrid"
    ensures BaseName(OutputPath(name, prefix)) == StripExt(BaseName(name)) + ".TextGrid"
  {
    var base := BaseName(name);
    var root := StripExt(base);
    var f := root + ".TextGrid";
    forall j | 0 <= j < |f| ensures f[j] != '/' {
      if j < |root| {
        assert f[j] == base[j];
      }
    }
    BaseNameOf(JoinDir(prefix), f);
  }

  /** A label `dir/root.ext` is written to `root.TextGrid` in the prefix
      directory, whatever directory the label names. */
  lemma OutputPathOf(dir: string, root: string, ext: string, prefix: string)
    requires dir == "" || dir[|dir| - 1] == '/'
    requires '/' !in root && '/' !in ext && '.' !in ext && !AllDots(root)
    ensures OutputPath(dir + (root + "." + ext), prefix) == JoinDir(prefix) + (root + ".TextGrid")
  {
    var base := root + "." + ext;
    assert '/' !in base by {
      forall j | 0 <= j < |base| ensures base[j] != '/' {
        if j < |root| { assert base[j] == root[j]; }
        else if j > |root| { assert base[j] == ext[j - |root| - 1]; }
      }
    }
    BaseNameOf(dir, base);
    StripExtOf(root, ext);
  }

  /** A name of only a leading dot and an extension keeps it: splitext
      does not treat a leading dot as an extension. */
  lemma LeadingDotIsNoExtension()
    ensures StripExt(".lab") == ".lab"
  {
    assert ".lab"[..0] == "";
  }
}
