/** What the writers print, the readers read back. For the standalone
    IntervalTier and TextTier files the reader returns the written entries
    as they are (gap fillers included); for a TextGrid it rebuilds every
    tier through addInterval / addPoint and append, which succeed on
    whatever a consistent tier printed. Numbers are assumed to survive
    their printing (RoundTrips), counts to be read back exactly
    (CountsParse), and tier names to fit on one line. */
module RoundTrip {
  import opened Wrappers
  import opened Primitives
  import opened Text
  import opened Marks
  import opened Fields
  import opened PointTiers
  import opened IntervalTiers
  import opened Grids
  import opened Reader
  import opened Writer
  import opened Bisection
  import opened Seqs

  // ---------------------------------------------------------------------
  // Single lines

  /** Digits are neither whitespace, quotes nor line breaks. */
  lemma DigitsArePlain(s: string)
    requires AllDigits(s)
    ensures NoSpace(s) && '"' !in s && '\n' !in s
  {
    forall k | 0 <= k < |s| ensures !IsSpace(s[k]) && s[k] != '"' && s[k] != '\n' {
      assert IsDigit(s[k]);
    }
  }

  /** A token without whitespace holds no line break. */
  lemma NoSpaceNoBreak(t: string)
    requires NoSpace(t)
    ensures '\n' !in t
  {
    forall k | 0 <= k < |t| ensures t[k] != '\n' {
      assert !IsSpace(t[k]);
    }
  }

  /** A readline() whose line is ignored consumes exactly one printed line. */
  lemma SkipLine(l: string, rest: string)
    requires '\n' !in l
    ensures Skip(Line(l) + rest) == rest
  {
    ReadLineOfLine(l, rest);
  }

  /** The keys the writers print before ` = `. */
  lemma NumberKeys()
    ensures PlainKey("xmin") && PlainKey("xmax") && PlainKey("time")
  {
  }

  lemma SizeKeys()
    ensures PlainKey("intervals: size") && PlainKey("points: size")
  {
    var a, b := "intervals: size", "points: size";
    assert forall i :: 0 <= i < |a| ==> a[i] != '=' && a[i] != '"' && a[i] != '\n';
    assert forall i :: 0 <= i < |b| ==> b[i] != '=' && b[i] != '"' && b[i] != '\n';
  }

  lemma NameKeys()
    ensures PlainKey("class") && PlainKey("name")
  {
  }

  /** A number printed after a key reads back as itself. */
  lemma ReadNumberLine(indent: string, key: string, x: real, rest: string, nf: NumberFormat)
    requires AllSpace(indent) && '\n' !in indent && PlainKey(key) && RoundTrips(nf, x)
    ensures ReadNumber(BareLine(indent, key, nf.show(x)) + rest, false, nf) == Ok((x, rest))
  {
    var t := nf.show(x);
    NoSpaceNoBreak(t);
    ReadLineOfLine(indent + key + " = " + t, rest);
    ParseLineBare(indent, key, t, nf);
  }

  /** The same line read as any field (as a point tier's bounds are). */
  lemma ReadBareFieldLine(indent: string, key: string, x: real, rest: string, nf: NumberFormat)
    requires AllSpace(indent) && '\n' !in indent && PlainKey(key) && RoundTrips(nf, x)
    ensures ReadField(BareLine(indent, key, nf.show(x)) + rest, false, nf) == Ok((Number(x), rest))
  {
    ReadNumberLine(indent, key, x, rest, nf);
  }

  /** A printed count reads back through int(parse_line(...)). */
  lemma ReadCountLine(indent: string, key: string, n: nat, rest: string, nf: NumberFormat)
    requires AllSpace(indent) && '\n' !in indent && PlainKey(key) && CountsParse(nf)
    ensures ReadCount(BareLine(indent, key, NatText(n)) + rest, false, nf) == Ok((n, rest))
  {
    var t := NatText(n);
    DigitsArePlain(t);
    assert nf.parse(t) == Some(n as real);
    ReadLineOfLine(indent + key + " = " + t, rest);
    ParseLineBare(indent, key, t, nf);
  }

  /** A quoted value printed after a key reads back as itself. */
  lemma ReadQuotedLine(indent: string, key: string, v: string, rest: string, nf: NumberFormat)
    requires AllSpace(indent) && '\n' !in indent && PlainKey(key) && '\n' !in v
    ensures ReadField(QuotedLine(indent, key, v) + rest, false, nf) == Ok((Quoted(v), rest))
  {
    assert '\n' !in QuotedText(indent, key, v);
    ReadLineOfLine(QuotedText(indent, key, v), rest);
    ParseLineQuoted(indent, key, v, nf);
  }

  // ---------------------------------------------------------------------
  // Entries

  lemma AppendEmpty(s: string)
    ensures s + "" == s
  {
  }

  lemma ConsSplit<T>(s: seq<T>)
    requires |s| > 0
    ensures [s[0]] + s[1..] == s
  {
  }

  /** A layout whose lines each stay one line. */
  predicate GoodLayout(lay: Layout) {
    AllSpace(lay.indent) && '\n' !in lay.indent && '\n' !in lay.head && '\n' !in lay.close
  }

  lemma LayoutsGood()
    ensures GoodLayout(GridIntervals) && GoodLayout(GridPoints)
    ensures GoodLayout(FileIntervals) && GoodLayout(FilePoints)
  {
  }

  /** An entry's `intervals [j]` / `points [k]` line is one line. */
  lemma EntryHeadLine(lay: Layout, j: nat)
    requires GoodLayout(lay)
    ensures '\n' !in lay.head + NatText(j) + lay.close
  {
    DigitsArePlain(NatText(j));
  }

  /** Both bounds of an interval survive printing. */
  predicate BoundsRoundTrip(nf: NumberFormat, x: Interval) {
    RoundTrips(nf, x.minTime) && RoundTrips(nf, x.maxTime)
  }

  predicate AllBoundsRoundTrip(nf: NumberFormat, xs: seq<Interval>) {
    forall k :: 0 <= k < |xs| ==> BoundsRoundTrip(nf, xs[k])
  }

  predicate AllTimesRoundTrip(nf: NumberFormat, ps: seq<Point>) {
    forall k :: 0 <= k < |ps| ==> RoundTrips(nf, ps[k].time)
  }

  /** The fields of a printed interval entry, after its header line, read
      back as its bounds and mark. */
  lemma IntervalFields(lay: Layout, x: Interval, rest: string, nf: NumberFormat)
    requires GoodLayout(lay) && BoundsRoundTrip(nf, x)
    ensures var a := BareLine(lay.indent, "xmin", nf.show(x.minTime));
      var b := BareLine(lay.indent, "xmax", nf.show(x.maxTime));
      var e := EntryText(lay.indent, "text", x.mark);
      && ReadNumber(a + (b + (e + rest)), false, nf) == Ok((x.minTime, b + (e + rest)))
      && ReadNumber(b + (e + rest), false, nf) == Ok((x.maxTime, e + rest))
      && GetMark(e + rest, false) == Ok((x.mark, rest))
  {
    var b := BareLine(lay.indent, "xmax", nf.show(x.maxTime));
    var e := EntryText(lay.indent, "text", x.mark);
    NumberKeys();
    ReadNumberLine(lay.indent, "xmin", x.minTime, b + (e + rest), nf);
    ReadNumberLine(lay.indent, "xmax", x.maxTime, e + rest, nf);
    GetMarkRoundTrip(lay.indent, "text", x.mark, rest);
  }

  /** The text of an interval entry, split where the reader splits it. */
  lemma IntervalTextSplit(lay: Layout, j: nat, x: Interval, rest: string, nf: NumberFormat)
    ensures IntervalText(lay, j, x, nf) + rest
      == Line(lay.head + NatText(j) + lay.close)
        + (BareLine(lay.indent, "xmin", nf.show(x.minTime))
        + (BareLine(lay.indent, "xmax", nf.show(x.maxTime))
        + (EntryText(lay.indent, "text", x.mark) + rest)))
  {
  }

  /** One entry of an IntervalTier file reads back as the interval printed. */
  lemma ReadRawIntervalOf(lay: Layout, j: nat, x: Interval, rest: string, nf: NumberFormat)
    requires GoodLayout(lay) && BoundsRoundTrip(nf, x)
    ensures ReadRawInterval(IntervalText(lay, j, x, nf) + rest, false, nf) == Ok((x, rest))
  {
    var a := BareLine(lay.indent, "xmin", nf.show(x.minTime));
    var b := BareLine(lay.indent, "xmax", nf.show(x.maxTime));
    var e := EntryText(lay.indent, "text", x.mark);
    IntervalTextSplit(lay, j, x, rest, nf);
    EntryHeadLine(lay, j);
    SkipLine(lay.head + NatText(j) + lay.close, a + (b + (e + rest)));
    IntervalFields(lay, x, rest, nf);
  }

  /** The entries of an IntervalTier file read back as printed, in order. */
  lemma {:induction false} ReadRawIntervalsOf(lay: Layout, xs: seq<Interval>, j: nat, rest: string, nf: NumberFormat)
    requires GoodLayout(lay) && AllBoundsRoundTrip(nf, xs)
    ensures ReadRawIntervals(|xs|, IntervalsText(lay, xs, j, nf) + rest, false, nf) == Ok((xs, rest))
    decreases |xs|
  {
    if |xs| > 0 {
      ReadRawIntervalsOf(lay, xs[1..], j + 1, rest, nf);
      ReadRawIntervalsStep(lay, xs, j, rest, nf);
    } else {
      assert IntervalsText(lay, xs, j, nf) + rest == rest;
    }
  }

  /** One more entry in front of entries that read back. */
  lemma ReadRawIntervalsStep(lay: Layout, xs: seq<Interval>, j: nat, rest: string, nf: NumberFormat)
    requires GoodLayout(lay) && |xs| > 0 && BoundsRoundTrip(nf, xs[0])
    requires ReadRawIntervals(|xs| - 1, IntervalsText(lay, xs[1..], j + 1, nf) + rest, false, nf) == Ok((xs[1..], rest))
    ensures ReadRawIntervals(|xs|, IntervalsText(lay, xs, j, nf) + rest, false, nf) == Ok((xs, rest))
  {
    var mid := IntervalsText(lay, xs[1..], j + 1, nf) + rest;
    IntervalsTextCons(lay, xs, j, rest, nf);
    ReadRawIntervalOf(lay, j, xs[0], mid, nf);
    ReadRawIntervalsCons(|xs|, IntervalText(lay, j, xs[0], nf) + mid, mid, xs, rest, nf);
  }

  lemma IntervalsTextCons(lay: Layout, xs: seq<Interval>, j: nat, rest: string, nf: NumberFormat)
    requires |xs| > 0
    ensures IntervalsText(lay, xs, j, nf) + rest
      == IntervalText(lay, j, xs[0], nf) + (IntervalsText(lay, xs[1..], j + 1, nf) + rest)
  {
  }

  lemma ReadRawIntervalsCons(n: int, src: string, mid: string, xs: seq<Interval>, rest: string, nf: NumberFormat)
    requires n > 0 && |xs| > 0
    requires ReadRawInterval(src, false, nf) == Ok((xs[0], mid))
    requires ReadRawIntervals(n - 1, mid, false, nf) == Ok((xs[1..], rest))
    ensures ReadRawIntervals(n, src, false, nf) == Ok((xs, rest))
  {
    ConsSplit(xs);
  }

  /** The text of a point entry, split where the reader splits it. */
  lemma PointTextSplit(lay: Layout, k: nat, p: Point, rest: string, nf: NumberFormat)
    ensures PointText(lay, k, p, nf) + rest
      == Line(lay.head + NatText(k) + lay.close)
        + (BareLine(lay.indent, "time", nf.show(p.time))
        + (EntryText(lay.indent, "mark", p.mark) + rest))
  {
  }

  /** The fields of a printed point entry, after its header line, read back
      as its time and mark. */
  lemma PointFields(lay: Layout, p: Point, rest: string, nf: NumberFormat)
    requires GoodLayout(lay) && RoundTrips(nf, p.time)
    ensures var e := EntryText(lay.indent, "mark", p.mark);
      && ReadNumber(BareLine(lay.indent, "time", nf.show(p.time)) + (e + rest), false, nf) == Ok((p.time, e + rest))
      && GetMark(e + rest, false) == Ok((p.mark, rest))
  {
    var e := EntryText(lay.indent, "mark", p.mark);
    NumberKeys();
    ReadNumberLine(lay.indent, "time", p.time, e + rest, nf);
    GetMarkRoundTrip(lay.indent, "mark", p.mark, rest);
  }

  /** One point entry: its header line is skipped, time and mark read back. */
  lemma PointEntryReads(lay: Layout, k: nat, p: Point, rest: string, nf: NumberFormat)
    requires GoodLayout(lay) && RoundTrips(nf, p.time)
    ensures var e := EntryText(lay.indent, "mark", p.mark);
      && ReadNumber(Skip(PointText(lay, k, p, nf) + rest), false, nf) == Ok((p.time, e + rest))
      && GetMark(e + rest, false) == Ok((p.mark, rest))
  {
    var t := BareLine(lay.indent, "time", nf.show(p.time));
    var e := EntryText(lay.indent, "mark", p.mark);
    PointTextSplit(lay, k, p, rest, nf);
    EntryHeadLine(lay, k);
    SkipLine(lay.head + NatText(k) + lay.close, t + (e + rest));
    PointFields(lay, p, rest, nf);
  }

  /** One point of a TextTier file reads back as the point printed. */
  lemma ReadRawPointOf(lay: Layout, k: nat, p: Point, rest: string, nf: NumberFormat)
    requires GoodLayout(lay) && RoundTrips(nf, p.time)
    ensures ReadRawPoint(PointText(lay, k, p, nf) + rest, false, nf) == Ok((p, rest))
  {
    PointEntryReads(lay, k, p, rest, nf);
  }

  /** The points of a TextTier file read back as printed, in order. */
  lemma {:induction false} ReadRawPointsOf(lay: Layout, ps: seq<Point>, k: nat, rest: string, nf: NumberFormat)
    requires GoodLayout(lay) && AllTimesRoundTrip(nf, ps)
    ensures ReadRawPoints(|ps|, PointsText(lay, ps, k, nf) + rest, false, nf) == Ok((ps, rest))
    decreases |ps|
  {
    if |ps| > 0 {
      ReadRawPointsOf(lay, ps[1..], k + 1, rest, nf);
      ReadRawPointsStep(lay, ps, k, rest, nf);
    } else {
      assert PointsText(lay, ps, k, nf) + rest == rest;
    }
  }

  /** One more point in front of points that read back. */
  lemma ReadRawPointsStep(lay: Layout, ps: seq<Point>, k: nat, rest: string, nf: NumberFormat)
    requires GoodLayout(lay) && |ps| > 0 && RoundTrips(nf, ps[0].time)
    requires ReadRawPoints(|ps| - 1, PointsText(lay, ps[1..], k + 1, nf) + rest, false, nf) == Ok((ps[1..], rest))
    ensures ReadRawPoints(|ps|, PointsText(lay, ps, k, nf) + rest, false, nf) == Ok((ps, rest))
  {
    var mid := PointsText(lay, ps[1..], k + 1, nf) + rest;
    PointsTextCons(lay, ps, k, rest, nf);
    ReadRawPointOf(lay, k, ps[0], mid, nf);
    ReadRawPointsCons(|ps|, PointText(lay, k, ps[0], nf) + mid, mid, ps, rest, nf);
  }

  lemma PointsTextCons(lay: Layout, ps: seq<Point>, k: nat, rest: string, nf: NumberFormat)
    requires |ps| > 0
    ensures PointsText(lay, ps, k, nf) + rest
      == PointText(lay, k, ps[0], nf) + (PointsText(lay, ps[1..], k + 1, nf) + rest)
  {
  }

  lemma ReadRawPointsCons(n: int, src: string, mid: string, ps: seq<Point>, rest: string, nf: NumberFormat)
    requires n > 0 && |ps| > 0
    requires ReadRawPoint(src, false, nf) == Ok((ps[0], mid))
    requires ReadRawPoints(n - 1, mid, false, nf) == Ok((ps[1..], rest))
    ensures ReadRawPoints(n, src, false, nf) == Ok((ps, rest))
  {
    ConsSplit(ps);
  }

  // ---------------------------------------------------------------------
  // The standalone tier files

  /** IntervalTier.write, then IntervalTier.read into tier0: the file's
      bounds become the tier's (minTime and the xmax written), and the
      written entries, that is the gap-filled intervals, follow the
      intervals tier0 already held. */
  lemma IntervalTierFileRoundTrip(tier0: IntervalTier, t: IntervalTier, nf: NumberFormat, nullMark: string)
    requires TierEnd(Intervals(t)).Ok?
    requires CountsParse(nf) && RoundTrips(nf, t.minTime) && RoundTrips(nf, TierEnd(Intervals(t)).value)
    requires AllBoundsRoundTrip(nf, FillGaps(t, nullMark))
    ensures WriteIntervalTierFile(t, nf, nullMark).Ok?
    ensures ReadIntervalTierFile(tier0, WriteIntervalTierFile(t, nf, nullMark).value, nf)
      == Ok(tier0.(minTime := t.minTime, maxTime := Some(TierEnd(Intervals(t)).value),
                   intervals := tier0.intervals + FillGaps(t, nullMark)))
  {
    var xmax := TierEnd(Intervals(t)).value;
    var out := FillGaps(t, nullMark);
    var body := IntervalsText(FileIntervals, out, 1, nf);
    var c := BareLine("", "intervals: size", NatText(|out|)) + body;
    var b := BareLine("", "xmax", nf.show(xmax)) + c;
    var a := BareLine("", "xmin", nf.show(t.minTime)) + b;
    assert WriteIntervalTierFile(t, nf, nullMark).value == HeaderText("IntervalTier") + a;
    ParseHeaderRoundTrip("IntervalTier", a, nf);
    NumberKeys();
    SizeKeys();
    ReadNumberLine("", "xmin", t.minTime, b, nf);
    ReadNumberLine("", "xmax", xmax, c, nf);
    ReadCountLine("", "intervals: size", |out|, body, nf);
    LayoutsGood();
    ReadRawIntervalsOf(FileIntervals, out, 1, "", nf);
    AppendEmpty(body);
    IntervalTierFileSteps(tier0, HeaderText("IntervalTier") + a, nf, a, t.minTime, b, xmax, c, |out|, body, out);
  }

  /** IntervalTier.read over input whose header, bounds, count and entries
      each read as given. */
  lemma IntervalTierFileSteps(tier0: IntervalTier, src: string, nf: NumberFormat,
                              s1: string, lo: real, s2: string, hi: real, s3: string, n: int, s4: string, xs: seq<Interval>)
    requires ParseHeader(src, nf) == Ok(("IntervalTier", false, s1))
    requires ReadNumber(s1, false, nf) == Ok((lo, s2))
    requires ReadNumber(s2, false, nf) == Ok((hi, s3))
    requires ReadCount(s3, false, nf) == Ok((n, s4))
    requires ReadRawIntervals(n, s4, false, nf).Ok? && ReadRawIntervals(n, s4, false, nf).value.0 == xs
    ensures ReadIntervalTierFile(tier0, src, nf) == Ok(tier0.(minTime := lo, maxTime := Some(hi), intervals := tier0.intervals + xs))
  {
  }

  /** PointTier.write, then PointTier.read into tier0: the file's bounds
      become the tier's, and the points follow those tier0 already held. */
  lemma PointTierFileRoundTrip(tier0: PointTier, t: PointTier, nf: NumberFormat)
    requires PointTierEnd(t).Ok?
    requires CountsParse(nf) && RoundTrips(nf, t.minTime) && RoundTrips(nf, PointTierEnd(t).value)
    requires AllTimesRoundTrip(nf, t.points)
    ensures WritePointTierFile(t, nf).Ok?
    ensures ReadPointTierFile(tier0, WritePointTierFile(t, nf).value, nf)
      == Ok(tier0.(minTime := t.minTime, maxTime := Some(PointTierEnd(t).value), points := tier0.points + t.points))
  {
    var xmax := PointTierEnd(t).value;
    var body := PointsText(FilePoints, t.points, 1, nf);
    var c := BareLine("", "points: size", NatText(|t.points|)) + body;
    var b := BareLine("", "xmax", nf.show(xmax)) + c;
    var a := BareLine("", "xmin", nf.show(t.minTime)) + b;
    assert WritePointTierFile(t, nf).value == HeaderText("TextTier") + a;
    ParseHeaderRoundTrip("TextTier", a, nf);
    NumberKeys();
    SizeKeys();
    ReadNumberLine("", "xmin", t.minTime, b, nf);
    ReadNumberLine("", "xmax", xmax, c, nf);
    ReadCountLine("", "points: size", |t.points|, body, nf);
    LayoutsGood();
    ReadRawPointsOf(FilePoints, t.points, 1, "", nf);
    AppendEmpty(body);
    PointTierFileSteps(tier0, HeaderText("TextTier") + a, nf, a, t.minTime, b, xmax, c, |t.points|, body, t.points);
  }

  /** PointTier.read over input whose header, bounds, count and points
      each read as given. */
  lemma PointTierFileSteps(tier0: PointTier, src: string, nf: NumberFormat,
                           s1: string, lo: real, s2: string, hi: real, s3: string, n: int, s4: string, ps: seq<Point>)
    requires ParseHeader(src, nf) == Ok(("TextTier", false, s1))
    requires ReadNumber(s1, false, nf) == Ok((lo, s2))
    requires ReadNumber(s2, false, nf) == Ok((hi, s3))
    requires ReadCount(s3, false, nf) == Ok((n, s4))
    requires ReadRawPoints(n, s4, false, nf).Ok? && ReadRawPoints(n, s4, false, nf).value.0 == ps
    ensures ReadPointTierFile(tier0, src, nf) == Ok(tier0.(minTime := lo, maxTime := Some(hi), points := tier0.points + ps))
  {
  }

  // ---------------------------------------------------------------------
  // Rebuilding tiers through addInterval and addPoint

  /** Positions in a sequence extended by one element. */
  lemma SnocIndex<T>(s: seq<T>, x: T)
    ensures forall k :: 0 <= k < |s| ==> (s + [x])[k] == s[k]
    ensures (s + [x])[|s|] == x
  {
  }

  /** A prefix of an overlap-free sequence is overlap-free. */
  lemma DisjointPrefix(ivs: seq<Interval>, x: Interval)
    requires Disjoint(ivs + [x])
    ensures Disjoint(ivs)
    ensures forall k :: 0 <= k < |ivs| ==> ivs[k].maxTime <= x.minTime
  {
    SnocIndex(ivs, x);
    forall i, j | 0 <= i < j < |ivs| ensures ivs[i].maxTime <= ivs[j].minTime {
      assert (ivs + [x])[i].maxTime <= (ivs + [x])[j].minTime;
    }
    forall k | 0 <= k < |ivs| ensures ivs[k].maxTime <= x.minTime {
      assert (ivs + [x])[k].maxTime <= (ivs + [x])[|ivs|].minTime;
    }
  }

  /** Inserting at the end is appending. */
  lemma InsertAtEnd<T>(s: seq<T>, x: T)
    ensures InsertAt(s, |s|, x) == s + [x]
  {
    assert s[..|s|] == s;
  }

  /** addInterval of an in-bounds interval that starts no earlier than
      every interval of the tier ends appends it, strict or not: bisect_left
      stops after all of them. */
  lemma AddIntervalAtEnd(tier: IntervalTier, x: Interval)
    requires Disjoint(tier.intervals + [x]) && IntervalInBounds(tier, x)
    ensures AddInterval(tier, x) == Ok(tier.(intervals := tier.intervals + [x]))
  {
    var ivs := tier.intervals;
    DisjointPrefix(ivs, x);
    var f := BisectLeft(IntervalProbe(ivs, Iv(x), tier.strict), 0, |ivs|);
    if |ivs| > 0 {
      assert ivs[|ivs| - 1].maxTime <= x.minTime;
    }
    if tier.strict {
      StrictSearch(ivs, x);
      assert f.At?;
      assert f.index == |ivs|;
    } else {
      LenientSearch(ivs, x);
      assert f.index == |ivs|;
    }
    InsertAtEnd(ivs, x);
  }

  /** A sequence of points with ascending times, extended by one. */
  lemma AscendingPrefix(ps: seq<Point>, p: Point)
    requires Ascending(ps + [p])
    ensures Ascending(ps)
    ensures forall k :: 0 <= k < |ps| ==> ps[k].time < p.time
  {
    SnocIndex(ps, p);
    forall i, j | 0 <= i < j < |ps| ensures ps[i].time < ps[j].time {
      assert (ps + [p])[i].time < (ps + [p])[j].time;
    }
    forall k | 0 <= k < |ps| ensures ps[k].time < p.time {
      assert (ps + [p])[k].time < (ps + [p])[|ps|].time;
    }
  }

  /** addPoint of an in-bounds point later than every point of the tier
      appends it. */
  lemma AddPointAtEnd(tier: PointTier, p: Point)
    requires Ascending(tier.points + [p]) && PointInBounds(tier, p.time)
    ensures AddPoint(tier, p) == Ok(tier.(points := tier.points + [p]))
  {
    var ps := tier.points;
    AscendingPrefix(ps, p);
    PointSearch(ps, p.time);
    var i := BisectLeft(PointProbe(ps, p.time), 0, |ps|).index;
    if |ps| > 0 {
      assert ps[|ps| - 1].time < p.time;
    }
    assert i == |ps|;
    InsertAtEnd(ps, p);
  }

  /** ReadInterval over input whose header, bounds and mark read as given. */
  lemma ReadIntervalSteps(tier: IntervalTier, src: string, nf: NumberFormat,
                          s1: string, x: Interval, s2: string, s3: string, rest: string, tier': IntervalTier)
    requires Skip(src) == s1
    requires ReadNumber(s1, false, nf) == Ok((x.minTime, s2))
    requires ReadNumber(s2, false, nf) == Ok((x.maxTime, s3))
    requires GetMark(s3, false) == Ok((x.mark, rest))
    requires AddInterval(tier, x) == Ok(tier')
    ensures ReadInterval(tier, src, false, nf) == Ok((tier', rest))
  {
  }

  /** One interval entry of a TextGrid, printed after intervals that all
      end by its start, is read and appended. */
  lemma ReadIntervalOf(lay: Layout, tier: IntervalTier, j: nat, x: Interval, rest: string, nf: NumberFormat)
    requires GoodLayout(lay) && BoundsRoundTrip(nf, x)
    requires Disjoint(tier.intervals + [x]) && IntervalInBounds(tier, x)
    ensures ReadInterval(tier, IntervalText(lay, j, x, nf) + rest, false, nf)
      == Ok((tier.(intervals := tier.intervals + [x]), rest))
  {
    var a := BareLine(lay.indent, "xmin", nf.show(x.minTime));
    var b := BareLine(lay.indent, "xmax", nf.show(x.maxTime));
    var e := EntryText(lay.indent, "text", x.mark);
    IntervalTextSplit(lay, j, x, rest, nf);
    EntryHeadLine(lay, j);
    SkipLine(lay.head + NatText(j) + lay.close, a + (b + (e + rest)));
    IntervalFields(lay, x, rest, nf);
    AddIntervalAtEnd(tier, x);
    ReadIntervalSteps(tier, IntervalText(lay, j, x, nf) + rest, nf, a + (b + (e + rest)), x, b + (e + rest), e + rest, rest,
      tier.(intervals := tier.intervals + [x]));
  }

  /** Entries that all lie within the tier's bounds. */
  predicate AllInBounds(tier: IntervalTier, xs: seq<Interval>) {
    forall k :: 0 <= k < |xs| ==> IntervalInBounds(tier, xs[k])
  }

  /** The intervals of a TextGrid tier, printed in an order addInterval
      accepts at the end each time, are read back as printed. */
  lemma {:induction false} ReadIntervalsOf(lay: Layout, tier: IntervalTier, xs: seq<Interval>, j: nat, rest: string, nf: NumberFormat)
    requires GoodLayout(lay) && AllBoundsRoundTrip(nf, xs)
    requires Disjoint(tier.intervals + xs) && AllInBounds(tier, xs)
    ensures ReadIntervals(tier, |xs|, IntervalsText(lay, xs, j, nf) + rest, false, nf)
      == Ok((tier.(intervals := tier.intervals + xs), rest))
    decreases |xs|
  {
    if |xs| > 0 {
      var tier' := tier.(intervals := tier.intervals + [xs[0]]);
      ShiftFirst(tier.intervals, xs);
      assert AllInBounds(tier', xs[1..]);
      ReadIntervalsOf(lay, tier', xs[1..], j + 1, rest, nf);
      ReadIntervalsStep(lay, tier, xs, j, rest, nf);
    } else {
      assert IntervalsText(lay, xs, j, nf) + rest == rest;
      assert tier.intervals + xs == tier.intervals;
    }
  }

  /** Moving the first element across the join. */
  lemma ShiftFirst(a: seq<Interval>, xs: seq<Interval>)
    requires |xs| > 0 && Disjoint(a + xs)
    ensures (a + [xs[0]]) + xs[1..] == a + xs
    ensures Disjoint(a + [xs[0]])
  {
    assert (a + [xs[0]]) + xs[1..] == a + xs;
    var b := a + [xs[0]];
    forall i, j | 0 <= i < j < |b| ensures b[i].maxTime <= b[j].minTime {
      assert b[i] == (a + xs)[i] && b[j] == (a + xs)[j];
    }
  }

  lemma ReadIntervalsStep(lay: Layout, tier: IntervalTier, xs: seq<Interval>, j: nat, rest: string, nf: NumberFormat)
    requires GoodLayout(lay) && |xs| > 0 && BoundsRoundTrip(nf, xs[0])
    requires Disjoint(tier.intervals + [xs[0]]) && IntervalInBounds(tier, xs[0])
    requires (tier.intervals + [xs[0]]) + xs[1..] == tier.intervals + xs
    requires var tier' := tier.(intervals := tier.intervals + [xs[0]]);
      ReadIntervals(tier', |xs| - 1, IntervalsText(lay, xs[1..], j + 1, nf) + rest, false, nf)
        == Ok((tier'.(intervals := tier'.intervals + xs[1..]), rest))
    ensures ReadIntervals(tier, |xs|, IntervalsText(lay, xs, j, nf) + rest, false, nf)
      == Ok((tier.(intervals := tier.intervals + xs), rest))
  {
    var mid := IntervalsText(lay, xs[1..], j + 1, nf) + rest;
    IntervalsTextCons(lay, xs, j, rest, nf);
    ReadIntervalOf(lay, tier, j, xs[0], mid, nf);
  }

  /** ReadPoint over input whose header, time and mark read as given. */
  lemma ReadPointSteps(tier: PointTier, src: string, nf: NumberFormat, s2: string, p: Point, rest: string, tier': PointTier)
    requires ReadNumber(Skip(src), false, nf) == Ok((p.time, s2))
    requires GetMark(s2, false) == Ok((p.mark, rest))
    requires AddPoint(tier, p) == Ok(tier')
    ensures ReadPoint(tier, src, false, nf) == Ok((tier', rest))
  {
  }

  /** One point entry of a TextGrid, later than the points before it, is
      read and appended. */
  lemma ReadPointOf(lay: Layout, tier: PointTier, k: nat, p: Point, rest: string, nf: NumberFormat)
    requires GoodLayout(lay) && RoundTrips(nf, p.time)
    requires Ascending(tier.points + [p]) && PointInBounds(tier, p.time)
    ensures ReadPoint(tier, PointText(lay, k, p, nf) + rest, false, nf) == Ok((tier.(points := tier.points + [p]), rest))
  {
    PointEntryReads(lay, k, p, rest, nf);
    AddPointAtEnd(tier, p);
    ReadPointSteps(tier, PointText(lay, k, p, nf) + rest, nf, EntryText(lay.indent, "mark", p.mark) + rest, p, rest,
      tier.(points := tier.points + [p]));
  }

  predicate AllPointsInBounds(tier: PointTier, ps: seq<Point>) {
    forall k :: 0 <= k < |ps| ==> PointInBounds(tier, ps[k].time)
  }

  /** The points of a TextGrid tier, printed in ascending order, are read
      back as printed. */
  lemma {:induction false} ReadPointsOf(lay: Layout, tier: PointTier, ps: seq<Point>, k: nat, rest: string, nf: NumberFormat)
    requires GoodLayout(lay) && AllTimesRoundTrip(nf, ps)
    requires Ascending(tier.points + ps) && AllPointsInBounds(tier, ps)
    ensures ReadPoints(tier, |ps|, PointsText(lay, ps, k, nf) + rest, false, nf)
      == Ok((tier.(points := tier.points + ps), rest))
    decreases |ps|
  {
    if |ps| > 0 {
      var tier' := tier.(points := tier.points + [ps[0]]);
      ShiftFirstPoint(tier.points, ps);
      PointsTail(lay, tier, ps, nf);
      ReadPointsOf(lay, tier', ps[1..], k + 1, rest, nf);
      ReadPointsStep(lay, tier, ps, k, rest, nf);
    } else {
      assert PointsText(lay, ps, k, nf) + rest == rest;
      assert tier.points + ps == tier.points;
    }
  }

  /** What the points after the first still satisfy once it is read. */
  lemma PointsTail(lay: Layout, tier: PointTier, ps: seq<Point>, nf: NumberFormat)
    requires |ps| > 0 && AllTimesRoundTrip(nf, ps) && AllPointsInBounds(tier, ps)
    ensures AllTimesRoundTrip(nf, ps[1..]) && RoundTrips(nf, ps[0].time) && PointInBounds(tier, ps[0].time)
    ensures AllPointsInBounds(tier.(points := tier.points + [ps[0]]), ps[1..])
  {
    var tail := ps[1..];
    forall k | 0 <= k < |tail| ensures RoundTrips(nf, tail[k].time) && PointInBounds(tier, tail[k].time) {
      assert tail[k] == ps[k + 1];
    }
  }

  lemma ShiftFirstPoint(a: seq<Point>, ps: seq<Point>)
    requires |ps| > 0 && Ascending(a + ps)
    ensures (a + [ps[0]]) + ps[1..] == a + ps
    ensures Ascending(a + [ps[0]])
  {
    assert (a + [ps[0]]) + ps[1..] == a + ps;
    var b := a + [ps[0]];
    forall i, j | 0 <= i < j < |b| ensures b[i].time < b[j].time {
      assert b[i] == (a + ps)[i] && b[j] == (a + ps)[j];
    }
  }

  lemma ReadPointsStep(lay: Layout, tier: PointTier, ps: seq<Point>, k: nat, rest: string, nf: NumberFormat)
    requires GoodLayout(lay) && |ps| > 0 && RoundTrips(nf, ps[0].time)
    requires Ascending(tier.points + [ps[0]]) && PointInBounds(tier, ps[0].time)
    requires (tier.points + [ps[0]]) + ps[1..] == tier.points + ps
    requires var tier' := tier.(points := tier.points + [ps[0]]);
      ReadPoints(tier', |ps[1..]|, PointsText(lay, ps[1..], k + 1, nf) + rest, false, nf)
        == Ok((tier'.(points := tier'.points + ps[1..]), rest))
    ensures ReadPoints(tier, |ps|, PointsText(lay, ps, k, nf) + rest, false, nf)
      == Ok((tier.(points := tier.points + ps), rest))
  {
    var mid := PointsText(lay, ps[1..], k + 1, nf) + rest;
    PointsTextCons(lay, ps, k, rest, nf);
    ReadPointOf(lay, tier, k, ps[0], mid, nf);
  }

  // ---------------------------------------------------------------------
  // Tiers of a TextGrid

  /** The interval tier TextGrid.read rebuilds from what TextGrid.write
      printed: the name as printed, the tier's own start, the grid's end,
      the gap-filled intervals, and the reading grid's strictness. */
  function RereadIntervalTier(it: IntervalTier, maxT: real, strict: bool, nullMark: string): IntervalTier {
    IntervalTier(Some(NameText(it.name)), it.minTime, Some(maxT), FillGaps(it, nullMark), strict)
  }

  /** The point tier it rebuilds: PointTier(name) holding the printed
      points; the printed bounds are read and dropped. */
  function RereadPointTier(pt: PointTier): PointTier {
    PointTier(Some(NameText(pt.name)), 0.0, None, pt.points)
  }

  function Reread(t: Tier, maxT: real, strict: bool, nullMark: string): Tier {
    match t
    case Intervals(it) => Intervals(RereadIntervalTier(it, maxT, strict, nullMark))
    case Points(pt) => Points(RereadPointTier(pt))
  }

  function RereadAll(ts: seq<Tier>, maxT: real, strict: bool, nullMark: string): seq<Tier>
    decreases |ts|
  {
    if |ts| == 0 then [] else [Reread(ts[0], maxT, strict, nullMark)] + RereadAll(ts[1..], maxT, strict, nullMark)
  }

  /** What TextGrid.write prints for t can be read back: the name fits on
      one line, the printed numbers survive, and the tier rebuilt is valid
      (overlap-free for intervals, ascending from 0 for points), so every
      addInterval / addPoint of the reader appends. */
  predicate Rereadable(t: Tier, maxT: real, nf: NumberFormat, nullMark: string) {
    match t
    case Intervals(it) =>
      && '\n' !in NameText(it.name) && RoundTrips(nf, it.minTime)
      && AllBoundsRoundTrip(nf, FillGaps(it, nullMark))
      && ValidIntervalTier(RereadIntervalTier(it, maxT, true, nullMark))
    case Points(pt) =>
      && '\n' !in NameText(pt.name) && RoundTrips(nf, pt.minTime)
      && AllTimesRoundTrip(nf, pt.points)
      && ValidPointTier(RereadPointTier(pt))
  }

  lemma TierIndent()
    ensures AllSpace("\t\t") && '\n' !in "\t\t"
  {
  }

  /** The `\titem [i]:` line is one line. */
  lemma ItemHeadLine(i: nat)
    ensures '\n' !in "\titem [" + NatText(i) + "]:"
  {
    DigitsArePlain(NatText(i));
  }

  /** The text of an interval tier, split where the reader splits it. */
  lemma IntervalTierTextSplit(i: nat, it: IntervalTier, maxT: real, nf: NumberFormat, nullMark: string, rest: string)
    ensures var out := FillGaps(it, nullMark);
      TierText(i, Intervals(it), maxT, nf, nullMark) + rest
      == Line("\titem [" + NatText(i) + "]:")
        + (QuotedLine("\t\t", "class", "IntervalTier")
        + (QuotedLine("\t\t", "name", NameText(it.name))
        + (BareLine("\t\t", "xmin", nf.show(it.minTime))
        + (BareLine("\t\t", "xmax", nf.show(maxT))
        + (BareLine("\t\t", "intervals: size", NatText(|out|))
        + (IntervalsText(GridIntervals, out, 1, nf) + rest))))))
  {
  }

  /** ReadTier over input whose class line says IntervalTier and whose
      name, bounds, count and intervals read as given. */
  lemma ReadIntervalTierSteps(g: TextGrid, src: string, nf: NumberFormat,
                              s1: string, s2: string, name: string, s3: string, lo: real, s4: string, hi: real,
                              s5: string, n: int, s6: string, body: IntervalTier, rest: string)
    requires ReadField(Skip(src), false, nf) == Ok((Quoted("IntervalTier"), s1))
    requires ReadField(s1, false, nf) == Ok((Quoted(name), s2))
    requires ReadNumber(s2, false, nf) == Ok((lo, s3)) && s3 == s4
    requires ReadNumber(s4, false, nf) == Ok((hi, s5))
    requires ReadCount(s5, false, nf) == Ok((n, s6))
    requires ReadIntervals(IntervalTier(Some(name), lo, Some(hi), [], g.strict), n, s6, false, nf) == Ok((body, rest))
    ensures ReadTier(g, src, false, nf) == Ok((Intervals(body), rest))
  {
  }

  /** An interval tier printed by TextGrid.write reads back as the tier
      rebuilt from it. */
  lemma ReadIntervalTierOf(g: TextGrid, i: nat, it: IntervalTier, maxT: real, rest: string, nf: NumberFormat, nullMark: string)
    requires RoundTrips(nf, maxT) && CountsParse(nf) && Rereadable(Intervals(it), maxT, nf, nullMark)
    ensures ReadTier(g, TierText(i, Intervals(it), maxT, nf, nullMark) + rest, false, nf)
      == Ok((Intervals(RereadIntervalTier(it, maxT, g.strict, nullMark)), rest))
  {
    var out := FillGaps(it, nullMark);
    var name := NameText(it.name);
    var s6 := IntervalsText(GridIntervals, out, 1, nf) + rest;
    var s5 := BareLine("\t\t", "intervals: size", NatText(|out|)) + s6;
    var s4 := BareLine("\t\t", "xmax", nf.show(maxT)) + s5;
    var s3 := BareLine("\t\t", "xmin", nf.show(it.minTime)) + s4;
    var s2 := QuotedLine("\t\t", "name", name) + s3;
    var s1 := QuotedLine("\t\t", "class", "IntervalTier") + s2;
    IntervalTierTextSplit(i, it, maxT, nf, nullMark, rest);
    ItemHeadLine(i);
    SkipLine("\titem [" + NatText(i) + "]:", s1);
    IntervalTierFieldsRead(name, it.minTime, maxT, |out|, s6, nf);
    IntervalTierEntriesRead(g, it, maxT, rest, nf, nullMark);
    ReadIntervalTierSteps(g, TierText(i, Intervals(it), maxT, nf, nullMark) + rest, nf,
      s2, s3, name, s4, it.minTime, s4, maxT, s5, |out|, s6, RereadIntervalTier(it, maxT, g.strict, nullMark), rest);
  }

  /** The class, name, bounds and count lines of a printed interval tier
      read back as printed. */
  lemma IntervalTierFieldsRead(name: string, lo: real, hi: real, n: nat, s6: string, nf: NumberFormat)
    requires '\n' !in name && RoundTrips(nf, lo) && RoundTrips(nf, hi) && CountsParse(nf)
    ensures var s5 := BareLine("\t\t", "intervals: size", NatText(n)) + s6;
      var s4 := BareLine("\t\t", "xmax", nf.show(hi)) + s5;
      var s3 := BareLine("\t\t", "xmin", nf.show(lo)) + s4;
      var s2 := QuotedLine("\t\t", "name", name) + s3;
      && ReadField(QuotedLine("\t\t", "class", "IntervalTier") + s2, false, nf) == Ok((Quoted("IntervalTier"), s2))
      && ReadField(s2, false, nf) == Ok((Quoted(name), s3))
      && ReadNumber(s3, false, nf) == Ok((lo, s4))
      && ReadNumber(s4, false, nf) == Ok((hi, s5))
      && ReadCount(s5, false, nf) == Ok((n, s6))
  {
    var s5 := BareLine("\t\t", "intervals: size", NatText(n)) + s6;
    var s4 := BareLine("\t\t", "xmax", nf.show(hi)) + s5;
    var s3 := BareLine("\t\t", "xmin", nf.show(lo)) + s4;
    var s2 := QuotedLine("\t\t", "name", name) + s3;
    TierIndent();
    NameKeys();
    NumberKeys();
    SizeKeys();
    ReadQuotedLine("\t\t", "class", "IntervalTier", s2, nf);
    ReadQuotedLine("\t\t", "name", name, s3, nf);
    ReadNumberLine("\t\t", "xmin", lo, s4, nf);
    ReadNumberLine("\t\t", "xmax", hi, s5, nf);
    ReadCountLine("\t\t", "intervals: size", n, s6, nf);
  }

  /** The gap-filled entries of a printed interval tier are read into the
      empty tier TextGrid.read starts from, giving the rebuilt tier. */
  lemma IntervalTierEntriesRead(g: TextGrid, it: IntervalTier, maxT: real, rest: string, nf: NumberFormat, nullMark: string)
    requires Rereadable(Intervals(it), maxT, nf, nullMark)
    ensures var out := FillGaps(it, nullMark);
      ReadIntervals(IntervalTier(Some(NameText(it.name)), it.minTime, Some(maxT), [], g.strict), |out|,
                    IntervalsText(GridIntervals, out, 1, nf) + rest, false, nf)
        == Ok((RereadIntervalTier(it, maxT, g.strict, nullMark), rest))
  {
    var out := FillGaps(it, nullMark);
    var empty := IntervalTier(Some(NameText(it.name)), it.minTime, Some(maxT), [], g.strict);
    assert empty.intervals + out == out;
    assert AllInBounds(empty, out) by {
      assert forall k :: 0 <= k < |out| ==> IntervalInBounds(RereadIntervalTier(it, maxT, true, nullMark), out[k]);
    }
    LayoutsGood();
    ReadIntervalsOf(GridIntervals, empty, out, 1, rest, nf);
  }

  /** The text of a point tier, split where the reader splits it. */
  lemma PointTierTextSplit(i: nat, pt: PointTier, maxT: real, nf: NumberFormat, nullMark: string, rest: string)
    ensures TierText(i, Points(pt), maxT, nf, nullMark) + rest
      == Line("\titem [" + NatText(i) + "]:")
        + (QuotedLine("\t\t", "class", "TextTier")
        + (QuotedLine("\t\t", "name", NameText(pt.name))
        + (BareLine("\t\t", "xmin", nf.show(pt.minTime))
        + (BareLine("\t\t", "xmax", nf.show(maxT))
        + (BareLine("\t\t", "points: size", NatText(|pt.points|))
        + (PointsText(GridPoints, pt.points, 1, nf) + rest))))))
  {
  }

  /** ReadTier over input whose class line is not IntervalTier and whose
      name, bounds, count and points read as given. */
  lemma ReadPointTierSteps(g: TextGrid, src: string, nf: NumberFormat,
                           s1: string, s2: string, name: string, s3: string, lo: real, s4: string, hi: real,
                           s5: string, n: int, s6: string, body: PointTier, rest: string)
    requires ReadField(Skip(src), false, nf) == Ok((Quoted("TextTier"), s1))
    requires ReadField(s1, false, nf) == Ok((Quoted(name), s2))
    requires ReadField(s2, false, nf) == Ok((Number(lo), s3)) && s3 == s4
    requires ReadField(s4, false, nf) == Ok((Number(hi), s5))
    requires ReadCount(s5, false, nf) == Ok((n, s6))
    requires ReadPoints(EmptyPointTier(Some(name)), n, s6, false, nf) == Ok((body, rest))
    ensures ReadTier(g, src, false, nf) == Ok((Points(body), rest))
  {
    assert Quoted("TextTier") != Quoted("IntervalTier") by {
      assert |"TextTier"| != |"IntervalTier"|;
    }
  }

  /** A point tier printed by TextGrid.write reads back as the tier rebuilt
      from it. */
  lemma ReadPointTierOf(g: TextGrid, i: nat, pt: PointTier, maxT: real, rest: string, nf: NumberFormat, nullMark: string)
    requires RoundTrips(nf, maxT) && CountsParse(nf) && Rereadable(Points(pt), maxT, nf, nullMark)
    ensures ReadTier(g, TierText(i, Points(pt), maxT, nf, nullMark) + rest, false, nf)
      == Ok((Points(RereadPointTier(pt)), rest))
  {
    var name := NameText(pt.name);
    var s6 := PointsText(GridPoints, pt.points, 1, nf) + rest;
    var s5 := BareLine("\t\t", "points: size", NatText(|pt.points|)) + s6;
    var s4 := BareLine("\t\t", "xmax", nf.show(maxT)) + s5;
    var s3 := BareLine("\t\t", "xmin", nf.show(pt.minTime)) + s4;
    var s2 := QuotedLine("\t\t", "name", name) + s3;
    var s1 := QuotedLine("\t\t", "class", "TextTier") + s2;
    PointTierTextSplit(i, pt, maxT, nf, nullMark, rest);
    ItemHeadLine(i);
    SkipLine("\titem [" + NatText(i) + "]:", s1);
    PointTierFieldsRead(name, pt.minTime, maxT, |pt.points|, s6, nf);
    PointTierEntriesRead(pt, rest, nf);
    ReadPointTierSteps(g, TierText(i, Points(pt), maxT, nf, nullMark) + rest, nf,
      s2, s3, name, s4, pt.minTime, s4, maxT, s5, |pt.points|, s6, RereadPointTier(pt), rest);
  }

  /** The class, name, bounds and count lines of a printed point tier read
      back as printed. */
  lemma PointTierFieldsRead(name: string, lo: real, hi: real, n: nat, s6: string, nf: NumberFormat)
    requires '\n' !in name && RoundTrips(nf, lo) && RoundTrips(nf, hi) && CountsParse(nf)
    ensures var s5 := BareLine("\t\t", "points: size", NatText(n)) + s6;
      var s4 := BareLine("\t\t", "xmax", nf.show(hi)) + s5;
      var s3 := BareLine("\t\t", "xmin", nf.show(lo)) + s4;
      var s2 := QuotedLine("\t\t", "name", name) + s3;
      && ReadField(QuotedLine("\t\t", "class", "TextTier") + s2, false, nf) == Ok((Quoted("TextTier"), s2))
      && ReadField(s2, false, nf) == Ok((Quoted(name), s3))
      && ReadField(s3, false, nf) == Ok((Number(lo), s4))
      && ReadField(s4, false, nf) == Ok((Number(hi), s5))
      && ReadCount(s5, false, nf) == Ok((n, s6))
  {
    var s5 := BareLine("\t\t", "points: size", NatText(n)) + s6;
    var s4 := BareLine("\t\t", "xmax", nf.show(hi)) + s5;
    var s3 := BareLine("\t\t", "xmin", nf.show(lo)) + s4;
    var s2 := QuotedLine("\t\t", "name", name) + s3;
    TierIndent();
    NameKeys();
    NumberKeys();
    SizeKeys();
    ReadQuotedLine("\t\t", "class", "TextTier", s2, nf);
    ReadQuotedLine("\t\t", "name", name, s3, nf);
    ReadBareFieldLine("\t\t", "xmin", lo, s4, nf);
    ReadBareFieldLine("\t\t", "xmax", hi, s5, nf);
    ReadCountLine("\t\t", "points: size", n, s6, nf);
  }

  /** The printed points of a point tier are read into PointTier(name),
      giving the rebuilt tier. */
  lemma PointTierEntriesRead(pt: PointTier, rest: string, nf: NumberFormat)
    requires AllTimesRoundTrip(nf, pt.points) && ValidPointTier(RereadPointTier(pt))
    ensures ReadPoints(EmptyPointTier(Some(NameText(pt.name))), |pt.points|, PointsText(GridPoints, pt.points, 1, nf) + rest, false, nf)
      == Ok((RereadPointTier(pt), rest))
  {
    var empty := EmptyPointTier(Some(NameText(pt.name)));
    assert empty.points + pt.points == pt.points;
    assert AllPointsInBounds(empty, pt.points) by {
      assert forall k :: 0 <= k < |pt.points| ==> PointInBounds(RereadPointTier(pt), pt.points[k].time);
    }
    LayoutsGood();
    ReadPointsOf(GridPoints, empty, pt.points, 1, rest, nf);
  }

  /** Any tier printed by TextGrid.write reads back as its rebuilt form. */
  lemma ReadTierOf(g: TextGrid, i: nat, t: Tier, maxT: real, rest: string, nf: NumberFormat, nullMark: string)
    requires RoundTrips(nf, maxT) && CountsParse(nf) && Rereadable(t, maxT, nf, nullMark)
    ensures ReadTier(g, TierText(i, t, maxT, nf, nullMark) + rest, false, nf)
      == Ok((Reread(t, maxT, g.strict, nullMark), rest))
  {
    match t
    case Intervals(it) => ReadIntervalTierOf(g, i, it, maxT, rest, nf, nullMark);
    case Points(pt) => ReadPointTierOf(g, i, pt, maxT, rest, nf, nullMark);
  }

  /** One pass of the reading loop over a printed tier: the rebuilt tier
      ends no later than the grid, so append takes it as it is. */
  lemma ReadNextTierOf(g: TextGrid, i: nat, t: Tier, maxT: real, rest: string, nf: NumberFormat, nullMark: string)
    requires g.maxTime == Some(maxT)
    requires RoundTrips(nf, maxT) && CountsParse(nf) && Rereadable(t, maxT, nf, nullMark)
    ensures ReadNextTier(g, TierText(i, t, maxT, nf, nullMark) + rest, false, nf)
      == Ok((g.(tiers := g.tiers + [Reread(t, maxT, g.strict, nullMark)]), rest))
  {
    ReadTierOf(g, i, t, maxT, rest, nf, nullMark);
    var r := Reread(t, maxT, g.strict, nullMark);
    assert WithStrict(r, g.strict) == r;
    assert EndsInGrid(g, r);
  }

  /** Every tier Rereadable at maxT. */
  predicate AllRereadable(ts: seq<Tier>, maxT: real, nf: NumberFormat, nullMark: string) {
    forall k :: 0 <= k < |ts| ==> Rereadable(ts[k], maxT, nf, nullMark)
  }

  /** The tiers printed by TextGrid.write, read by the loop of TextGrid.read
      into a grid ending at maxT, are appended in order, each rebuilt. */
  lemma {:induction false} ReadTiersOf(g: TextGrid, ts: seq<Tier>, i: nat, maxT: real, rest: string, nf: NumberFormat, nullMark: string)
    requires g.maxTime == Some(maxT) && RoundTrips(nf, maxT) && CountsParse(nf)
    requires AllRereadable(ts, maxT, nf, nullMark)
    ensures ReadTiers(g, |ts|, TiersText(ts, i, maxT, nf, nullMark) + rest, false, nf)
      == Ok((g.(tiers := g.tiers + RereadAll(ts, maxT, g.strict, nullMark)), rest))
    decreases |ts|
  {
    if |ts| == 0 {
      assert TiersText(ts, i, maxT, nf, nullMark) + rest == rest;
      assert g.tiers + RereadAll(ts, maxT, g.strict, nullMark) == g.tiers;
    } else {
      var g' := g.(tiers := g.tiers + [Reread(ts[0], maxT, g.strict, nullMark)]);
      assert AllRereadable(ts[1..], maxT, nf, nullMark) by {
        forall k | 0 <= k < |ts[1..]| ensures Rereadable(ts[1..][k], maxT, nf, nullMark) {
          assert ts[1..][k] == ts[k + 1];
        }
      }
      ReadTiersOf(g', ts[1..], i + 1, maxT, rest, nf, nullMark);
      ReadTiersStep(g, ts, i, maxT, rest, nf, nullMark);
    }
  }

  lemma ReadTiersStep(g: TextGrid, ts: seq<Tier>, i: nat, maxT: real, rest: string, nf: NumberFormat, nullMark: string)
    requires |ts| > 0 && g.maxTime == Some(maxT) && RoundTrips(nf, maxT) && CountsParse(nf)
    requires Rereadable(ts[0], maxT, nf, nullMark)
    requires var g' := g.(tiers := g.tiers + [Reread(ts[0], maxT, g.strict, nullMark)]);
      ReadTiers(g', |ts[1..]|, TiersText(ts[1..], i + 1, maxT, nf, nullMark) + rest, false, nf)
        == Ok((g'.(tiers := g'.tiers + RereadAll(ts[1..], maxT, g.strict, nullMark)), rest))
    ensures ReadTiers(g, |ts|, TiersText(ts, i, maxT, nf, nullMark) + rest, false, nf)
      == Ok((g.(tiers := g.tiers + RereadAll(ts, maxT, g.strict, nullMark)), rest))
  {
    var mid := TiersText(ts[1..], i + 1, maxT, nf, nullMark) + rest;
    var r0 := Reread(ts[0], maxT, g.strict, nullMark);
    TiersTextCons(ts, i, maxT, nf, nullMark, rest);
    var g' := g.(tiers := g.tiers + [r0]);
    ReadNextTierOf(g, i, ts[0], maxT, mid, nf, nullMark);
    var more := RereadAll(ts[1..], maxT, g.strict, nullMark);
    RereadAllCons(ts, maxT, g.strict, nullMark);
    assert |ts| == |ts[1..]| + 1;
    ReadTiersGlue(g, |ts|, |ts[1..]|, TiersText(ts, i, maxT, nf, nullMark) + rest, TierText(i, ts[0], maxT, nf, nullMark),
      mid, nf, r0, more, RereadAll(ts, maxT, g.strict, nullMark), rest);
  }

  lemma RereadAllCons(ts: seq<Tier>, maxT: real, strict: bool, nullMark: string)
    requires |ts| > 0
    ensures RereadAll(ts, maxT, strict, nullMark) == [Reread(ts[0], maxT, strict, nullMark)] + RereadAll(ts[1..], maxT, strict, nullMark)
  {
  }

  /** Reading the first tier and then the others reads them all. */
  lemma ReadTiersGlue(g: TextGrid, m: int, n: int, src: string, head: string, mid: string, nf: NumberFormat,
                      r0: Tier, more: seq<Tier>, all: seq<Tier>, rest: string)
    requires m > 0 && m == n + 1 && src == head + mid && all == [r0] + more
    requires ReadNextTier(g, head + mid, false, nf) == Ok((g.(tiers := g.tiers + [r0]), mid))
    requires var g' := g.(tiers := g.tiers + [r0]);
      ReadTiers(g', n, mid, false, nf) == Ok((g'.(tiers := g'.tiers + more), rest))
    ensures ReadTiers(g, m, src, false, nf) == Ok((g.(tiers := g.tiers + all), rest))
  {
    var g' := g.(tiers := g.tiers + [r0]);
    ReadTiersCons(g, m, src, nf, g', mid, g'.(tiers := g'.tiers + more), rest);
    ConcatAssoc(g.tiers, [r0], more);
  }

  lemma TiersTextCons(ts: seq<Tier>, i: nat, maxT: real, nf: NumberFormat, nullMark: string, rest: string)
    requires |ts| > 0
    ensures TiersText(ts, i, maxT, nf, nullMark) + rest
      == TierText(i, ts[0], maxT, nf, nullMark) + (TiersText(ts[1..], i + 1, maxT, nf, nullMark) + rest)
  {
    var x := TierText(i, ts[0], maxT, nf, nullMark);
    var y := TiersText(ts[1..], i + 1, maxT, nf, nullMark);
    assert TiersText(ts, i, maxT, nf, nullMark) == x + y;
    ConcatAssoc(x, y, rest);
  }

  /** One pass of the reading loop, then the remaining passes. */
  lemma ReadTiersCons(g: TextGrid, m: int, src: string, nf: NumberFormat, g': TextGrid, mid: string, r: TextGrid, rest: string)
    requires m > 0
    requires ReadNextTier(g, src, false, nf) == Ok((g', mid))
    requires ReadTiers(g', m - 1, mid, false, nf) == Ok((r, rest))
    ensures ReadTiers(g, m, src, false, nf) == Ok((r, rest))
  {
  }

  // ---------------------------------------------------------------------
  // A whole TextGrid

  /** The `size = N` line of the grid yields N as the tier count. */
  lemma ReadTierCountOf(n: nat, rest: string)
    ensures ReadTierCount(BareLine("", "size", NatText(n)) + rest, false) == Ok((n, rest))
  {
    var t := NatText(n);
    var core := "size" + " = " + t;
    SizeLineRead(t, rest);
    ParseIntNatText(n);
    ReadTierCountSteps(BareLine("", "size", t) + rest, Line(core), ["size", "=", t], n, rest);
  }

  /** The `size = t` line, for a digit string t, reads back whole and
      splits into its three words. */
  lemma SizeLineRead(t: string, rest: string)
    requires |t| > 0 && AllDigits(t)
    ensures var core := "size" + " = " + t;
      && ReadLine(BareLine("", "size", t) + rest) == (Line(core), rest)
      && SplitWords(Strip(Line(core))) == ["size", "=", t]
  {
    var core := "size" + " = " + t;
    assert BareLine("", "size", t) == Line(core) by {
      assert "" + "size" == "size";
    }
    DigitsArePlain(t);
    assert '\n' !in core by {
      assert '\n' !in "size" && '\n' !in " = ";
    }
    ReadLineOfLine(core, rest);
    assert core[0] == 's' && core[|core| - 1] == t[|t| - 1];
    assert !IsSpace(t[|t| - 1]);
    StripLine("", core);
    assert "" + core == core;
    SizeWords(t);
  }

  /** ReadTierCount over a line whose third word reads as n. */
  lemma ReadTierCountSteps(src: string, l: string, ws: seq<string>, n: int, rest: string)
    requires ReadLine(src) == (l, rest)
    requires SplitWords(Strip(l)) == ws && |ws| >= 3 && ParseInt(ws[2]) == Some(n)
    ensures ReadTierCount(src, false) == Ok((n, rest))
  {
  }

  /** split() of three words joined by single spaces. */
  lemma SplitThree(a: string, b: string, c: string)
    requires |a| > 0 && |b| > 0 && |c| > 0 && NoSpace(a) && NoSpace(b) && NoSpace(c)
    ensures SplitWords(a + " " + b + " " + c) == [a, b, c]
  {
    var ws := [a, b, c];
    assert ws[1..] == [b, c];
    assert JoinSpaced([c]) == c;
    assert JoinSpaced([b, c]) == b + " " + c by {
      assert [b, c][1..] == [c];
    }
    assert JoinSpaced(ws) == a + " " + (b + " " + c);
    assert a + " " + (b + " " + c) == a + " " + b + " " + c;
    SplitJoin(ws);
  }

  /** The first two words of the `size = N` line hold no whitespace. */
  lemma SizeLineWords()
    ensures NoSpace("size") && NoSpace("=")
  {
  }

  lemma EqualsSpaced(key: string, t: string)
    ensures key + " " + "=" + " " + t == key + " = " + t
  {
    assert " " + "=" + " " == " = ";
    assert key + " " + "=" + " " + t == key + (" " + "=" + " ") + t;
  }

  /** split() of the `size = N` line. */
  lemma SizeWords(t: string)
    requires |t| > 0 && NoSpace(t)
    ensures SplitWords("size" + " = " + t) == ["size", "=", t]
  {
    var x := "size" + " " + "=" + " " + t;
    SizeLineWords();
    SplitThree("size", "=", t);
    EqualsSpaced("size", t);
    assert x == "size" + " = " + t;
  }

  /** The lines of a printed grid, split where the reader splits them. */
  lemma GridTextSplit(g: TextGrid, maxT: real, body: string, nf: NumberFormat)
    ensures var d := BareLine("", "size", NatText(|g.tiers|)) + (Line("item []:") + body);
      var b := BareLine("", "xmax", nf.show(maxT)) + (Line("tiers? <exists>") + d);
      GridHead(g, maxT, nf) + body == HeaderText("TextGrid") + (BareLine("", "xmin", nf.show(g.minTime)) + b)
  {
  }

  /** TextGrid.read over input whose header, bounds, skipped line, count,
      `item []:` line and tiers read as given. */
  lemma ReadTextGridSteps(g0: TextGrid, src: string, nf: NumberFormat, s1: string, lo: real, s2: string, hi: real,
                          s3: string, n: int, s4: string, g1: TextGrid)
    requires ParseHeader(src, nf) == Ok(("TextGrid", false, s1))
    requires ReadNumber(s1, false, nf) == Ok((lo, s2))
    requires ReadNumber(s2, false, nf) == Ok((hi, s3))
    requires ReadTierCount(Skip(s3), false) == Ok((n, s4))
    requires ReadTiers(g0.(minTime := lo, maxTime := Some(hi)), n, Skip(s4), false, nf).Ok?
    requires ReadTiers(g0.(minTime := lo, maxTime := Some(hi)), n, Skip(s4), false, nf).value.0 == g1
    ensures ReadTextGrid(g0, src, nf) == Ok(g1)
  {
  }

  /** The bound lines of a printed grid read back as printed. */
  lemma GridBoundsRead(lo: real, hi: real, c: string, nf: NumberFormat)
    requires RoundTrips(nf, lo) && RoundTrips(nf, hi)
    ensures var b := BareLine("", "xmax", nf.show(hi)) + c;
      && ReadNumber(BareLine("", "xmin", nf.show(lo)) + b, false, nf) == Ok((lo, b))
      && ReadNumber(b, false, nf) == Ok((hi, c))
  {
    NumberKeys();
    ReadNumberLine("", "xmin", lo, BareLine("", "xmax", nf.show(hi)) + c, nf);
    ReadNumberLine("", "xmax", hi, c, nf);
  }

  /** The two grid lines the reader skips are one line each. */
  lemma GridHeadLines()
    ensures '\n' !in "tiers? <exists>" && '\n' !in "item []:"
  {
  }

  /** After them, a skipped line, the tier count and the skipped
      `item []:` line, which leave the tiers. */
  lemma GridCountRead(n: nat, body: string)
    ensures var e := Line("item []:") + body;
      && ReadTierCount(Skip(Line("tiers? <exists>") + (BareLine("", "size", NatText(n)) + e)), false) == Ok((n, e))
      && Skip(e) == body
  {
    var e := Line("item []:") + body;
    GridHeadLines();
    SkipLine("tiers? <exists>", BareLine("", "size", NatText(n)) + e);
    ReadTierCountOf(n, e);
    SkipLine("item []:", body);
  }

  /** The header of a printed grid names the TextGrid class. */
  lemma GridHeaderRead(rest: string, nf: NumberFormat)
    ensures ParseHeader(HeaderText("TextGrid") + rest, nf) == Ok(("TextGrid", false, rest))
  {
    ParseHeaderRoundTrip("TextGrid", rest, nf);
  }

  /** The lines before the first tier read back as the grid's bounds and
      tier count, leaving the tiers to the loop. */
  lemma GridHeadRead(g0: TextGrid, g: TextGrid, maxT: real, body: string, nf: NumberFormat)
    requires RoundTrips(nf, g.minTime) && RoundTrips(nf, maxT)
    ensures var g1 := g0.(minTime := g.minTime, maxTime := Some(maxT));
      ReadTiers(g1, |g.tiers|, body, false, nf).Ok? ==>
        ReadTextGrid(g0, GridHead(g, maxT, nf) + body, nf) == Ok(ReadTiers(g1, |g.tiers|, body, false, nf).value.0)
  {
    var e := Line("item []:") + body;
    var d := BareLine("", "size", NatText(|g.tiers|)) + e;
    var c := Line("tiers? <exists>") + d;
    var b := BareLine("", "xmax", nf.show(maxT)) + c;
    var a := BareLine("", "xmin", nf.show(g.minTime)) + b;
    var g1 := g0.(minTime := g.minTime, maxTime := Some(maxT));
    if ReadTiers(g1, |g.tiers|, body, false, nf).Ok? {
      GridTextSplit(g, maxT, body, nf);
      GridHeaderRead(a, nf);
      GridBoundsRead(g.minTime, maxT, c, nf);
      GridCountRead(|g.tiers|, body);
      ReadTextGridSteps(g0, HeaderText("TextGrid") + a, nf, a, g.minTime, b, maxT, c, |g.tiers|, e,
        ReadTiers(g1, |g.tiers|, body, false, nf).value.0);
    }
  }

  /** TextGrid.write, then TextGrid.read into g0: the grid takes the
      written bounds (the grid's start and the end write computed), and
      after the tiers g0 held come the written tiers, each rebuilt: an
      interval tier with its gaps filled and the grid's end, a point tier
      with its points. */
  lemma GridRoundTrip(g0: TextGrid, g: TextGrid, nf: NumberFormat, nullMark: string)
    requires GridEnd(g).Ok?
    requires CountsParse(nf) && RoundTrips(nf, g.minTime) && RoundTrips(nf, GridEnd(g).value)
    requires AllRereadable(g.tiers, GridEnd(g).value, nf, nullMark)
    ensures WriteTextGrid(g, nf, nullMark).Ok?
    ensures ReadTextGrid(g0, WriteTextGrid(g, nf, nullMark).value, nf)
      == Ok(g0.(minTime := g.minTime, maxTime := Some(GridEnd(g).value),
                tiers := g0.tiers + RereadAll(g.tiers, GridEnd(g).value, g0.strict, nullMark)))
  {
    var maxT := GridEnd(g).value;
    var body := TiersText(g.tiers, 1, maxT, nf, nullMark);
    var g1 := g0.(minTime := g.minTime, maxTime := Some(maxT));
    assert WriteTextGrid(g, nf, nullMark).value == GridHead(g, maxT, nf) + body;
    ReadTiersOf(g1, g.tiers, 1, maxT, "", nf, nullMark);
    AppendEmpty(body);
    GridHeadRead(g0, g, maxT, body, nf);
  }

  // ---------------------------------------------------------------------
  // What is read back, tier by tier

  lemma {:induction false} RereadAllAt(ts: seq<Tier>, maxT: real, strict: bool, nullMark: string)
    ensures |RereadAll(ts, maxT, strict, nullMark)| == |ts|
    ensures forall k :: 0 <= k < |ts| ==> RereadAll(ts, maxT, strict, nullMark)[k] == Reread(ts[k], maxT, strict, nullMark)
    decreases |ts|
  {
    if |ts| > 0 {
      RereadAllAt(ts[1..], maxT, strict, nullMark);
      var r := RereadAll(ts, maxT, strict, nullMark);
      forall k | 0 < k < |ts| ensures r[k] == Reread(ts[k], maxT, strict, nullMark) {
        assert r[k] == RereadAll(ts[1..], maxT, strict, nullMark)[k - 1];
        assert ts[1..][k - 1] == ts[k];
      }
    }
  }

  /** Reading a written grid yields, after the tiers the reading grid held,
      one tier per written tier and in the same order: for the interval
      tier at index k, its gap-filled intervals between its own start and
      the grid's end; for a point tier, its points. */
  lemma GridRoundTripTiers(g0: TextGrid, g: TextGrid, nf: NumberFormat, nullMark: string, k: nat)
    requires GridEnd(g).Ok?
    requires CountsParse(nf) && RoundTrips(nf, g.minTime) && RoundTrips(nf, GridEnd(g).value)
    requires AllRereadable(g.tiers, GridEnd(g).value, nf, nullMark)
    requires k < |g.tiers|
    ensures WriteTextGrid(g, nf, nullMark).Ok?
    ensures var r := ReadTextGrid(g0, WriteTextGrid(g, nf, nullMark).value, nf);
      && r.Ok? && |r.value.tiers| == |g0.tiers| + |g.tiers| && r.value.tiers[..|g0.tiers|] == g0.tiers
      && (g.tiers[k].Intervals? ==>
            var it := g.tiers[k].it;
            r.value.tiers[|g0.tiers| + k] == Intervals(IntervalTier(Some(NameText(it.name)), it.minTime,
                                                                    Some(GridEnd(g).value), FillGaps(it, nullMark), g0.strict)))
      && (g.tiers[k].Points? ==>
            var pt := g.tiers[k].pt;
            r.value.tiers[|g0.tiers| + k] == Points(PointTier(Some(NameText(pt.name)), 0.0, None, pt.points)))
  {
    GridRoundTrip(g0, g, nf, nullMark);
    var maxT := GridEnd(g).value;
    var tiers := g0.tiers + RereadAll(g.tiers, maxT, g0.strict, nullMark);
    RereadTierAt(tiers, g0.tiers, g.tiers, maxT, g0.strict, nullMark, k);
    var t := ReadTextGrid(g0, WriteTextGrid(g, nf, nullMark).value, nf).value.tiers;
    assert t == tiers;
    assert t[|g0.tiers| + k] == Reread(g.tiers[k], maxT, g0.strict, nullMark);
  }

  /** The tier at index k after the reading grid's own. */
  lemma RereadTierAt(tiers: seq<Tier>, t0: seq<Tier>, ts: seq<Tier>, maxT: real, strict: bool, nullMark: string, k: nat)
    requires tiers == t0 + RereadAll(ts, maxT, strict, nullMark)
    requires k < |ts|
    ensures |tiers| == |t0| + |ts| && tiers[..|t0|] == t0
    ensures tiers[|t0| + k] == Reread(ts[k], maxT, strict, nullMark)
  {
    RereadAllAt(ts, maxT, strict, nullMark);
    assert tiers[..|t0|] == t0;
    assert tiers[|t0| + k] == RereadAll(ts, maxT, strict, nullMark)[k];
  }

  /** An interval tier can be written into a grid ending at maxT and read
      back when it is overlap-free, starts no earlier than its minTime, and
      neither its intervals nor its maxTime reach past maxT (and its name
      and numbers print faithfully). */
  lemma IntervalTierRereadable(it: IntervalTier, maxT: real, nf: NumberFormat, nullMark: string)
    requires Disjoint(it.intervals) && (|it.intervals| > 0 ==> it.minTime <= it.intervals[0].minTime)
    requires forall k :: 0 <= k < |it.intervals| ==> it.intervals[k].maxTime <= maxT
    requires it.maxTime.Some? ==> it.maxTime.value <= maxT
    requires '\n' !in NameText(it.name) && RoundTrips(nf, it.minTime) && AllBoundsRoundTrip(nf, FillGaps(it, nullMark))
    ensures Rereadable(Intervals(it), maxT, nf, nullMark)
  {
    var r := FillGaps(it, nullMark);
    FillGapsCovers(it, nullMark);
    ContiguousIsDisjoint(r);
    if |r| > 0 {
      FillGapsEnd(it, maxT, nullMark);
      forall k | 0 <= k < |r| ensures it.minTime <= r[k].minTime && r[k].maxTime <= maxT {
        if k > 0 { assert r[0].maxTime <= r[k].minTime; }
        if k < |r| - 1 { assert r[k].maxTime <= r[|r| - 1].minTime; }
      }
    }
    var t := RereadIntervalTier(it, maxT, true, nullMark);
    assert forall k :: 0 <= k < |r| ==> IntervalInBounds(t, r[k]);
  }

  /** The filled tier ends no later than maxT. */
  lemma FillGapsEnd(it: IntervalTier, maxT: real, nullMark: string)
    requires Disjoint(it.intervals) && (|it.intervals| > 0 ==> it.minTime <= it.intervals[0].minTime)
    requires forall k :: 0 <= k < |it.intervals| ==> it.intervals[k].maxTime <= maxT
    requires it.maxTime.Some? ==> it.maxTime.value <= maxT
    requires |FillGaps(it, nullMark)| > 0
    ensures var r := FillGaps(it, nullMark); r[|r| - 1].maxTime <= maxT
  {
    var ivs := it.intervals;
    var body := FillFrom(it.minTime, ivs, nullMark);
    var last := LastEnd(it.minTime, ivs);
    FillFromContiguous(it.minTime, ivs, nullMark);
    if !(it.maxTime.Some? && last < it.maxTime.value) {
      assert FillGaps(it, nullMark) == body;
      assert |ivs| > 0;
    }
  }

  /** A point tier can be written and read back when it is valid and
      starts no earlier than 0, the start of the PointTier the reader
      builds (and its name and times print faithfully). */
  lemma PointTierRereadable(pt: PointTier, maxT: real, nf: NumberFormat, nullMark: string)
    requires ValidPointTier(pt) && 0.0 <= pt.minTime
    requires '\n' !in NameText(pt.name) && RoundTrips(nf, pt.minTime) && AllTimesRoundTrip(nf, pt.points)
    ensures Rereadable(Points(pt), maxT, nf, nullMark)
  {
    assert forall k :: 0 <= k < |pt.points| ==> PointInBounds(RereadPointTier(pt), pt.points[k].time) by {
      assert forall k :: 0 <= k < |pt.points| ==> PointInBounds(pt, pt.points[k].time);
    }
  }
}
