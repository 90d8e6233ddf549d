/** Reading the Praat text formats: TextGrid.read, and the standalone
    IntervalTier.read and PointTier.read. The input is the decoded file
    text; each reader passes what it has not consumed along. */
module Reader {
  import opened Wrappers
  import opened Primitives
  import opened Text
  import opened Marks
  import opened Fields
  import opened PointTiers
  import opened IntervalTiers
  import opened Grids

  /** The rest of the input after one readline() whose line is ignored. */
  function Skip(src: string): (r: string)
    ensures |r| <= |src| && (src != "" ==> |r| < |src|)
  {
    ReadLine(src).1
  }

  /** parse_line(source.readline(), ...). */
  function ReadField(src: string, short: bool, nf: NumberFormat): (r: Result<(Field, string), Error>)
    ensures r.Ok? <==> ParseLine(ReadLine(src).0, short, nf).Ok?
    ensures r.Ok? ==> r.value.0 == ParseLine(ReadLine(src).0, short, nf).value && r.value.1 == Skip(src)
  {
    var f :- ParseLine(ReadLine(src).0, short, nf);
    Ok((f, Skip(src)))
  }

  /** A field used as a time: a quoted value there is rejected. */
  function ReadNumber(src: string, short: bool, nf: NumberFormat): (r: Result<(real, string), Error>)
    ensures r.Ok? <==> ReadField(src, short, nf).Ok? && ReadField(src, short, nf).value.0.Number?
    ensures r.Ok? ==> r.value == (ReadField(src, short, nf).value.0.x, Skip(src))
  {
    var f :- ReadField(src, short, nf);
    match f.0
    case Quoted(s) => Err(NotANumber(s))
    case Number(x) => Ok((x, f.1))
  }

  /** A field used as a tier name: a bare number there is rejected. */
  function ReadName(src: string, short: bool, nf: NumberFormat): (r: Result<(Option<string>, string), Error>)
    ensures r.Ok? <==> ReadField(src, short, nf).Ok? && ReadField(src, short, nf).value.0.Quoted?
    ensures r.Ok? ==> r.value == (Some(ReadField(src, short, nf).value.0.s), Skip(src))
  {
    var f :- ReadField(src, short, nf);
    match f.0
    case Quoted(s) => Ok((Some(s), f.1))
    case Number(x) => Err(NotAString(x))
  }

  /** int(parse_line(...)): a number is truncated toward zero, a text is
      parsed as a decimal integer. */
  function ReadCount(src: string, short: bool, nf: NumberFormat): (r: Result<(int, string), Error>)
    ensures r.Ok? ==> r.value.1 == Skip(src)
    ensures ReadField(src, short, nf).Ok? && ReadField(src, short, nf).value.0.Number? ==>
      r == Ok((Trunc(ReadField(src, short, nf).value.0.x), Skip(src)))
  {
    var f :- ReadField(src, short, nf);
    match f.0
    case Number(x) => Ok((Trunc(x), f.1))
    case Quoted(s) =>
      match ParseInt(s)
      case None => Err(BadNumber(s))
      case Some(n) => Ok((n, f.1))
  }

  /** The entries of an interval tier inside a TextGrid: a header line in
      the long format, xmin, xmax and the mark; an entry of positive
      duration is added through addInterval, any other is dropped. */
  function ReadIntervals(tier: IntervalTier, n: int, src: string, short: bool, nf: NumberFormat)
    : (r: Result<(IntervalTier, string), Error>)
    ensures r.Ok? ==> r.value.0.(intervals := tier.intervals) == tier
    decreases if n > 0 then n else 0
  {
    if n <= 0 then Ok((tier, src))
    else
      var next :- ReadInterval(tier, src, short, nf);
      ReadIntervals(next.0, n - 1, next.1, short, nf)
  }

  /** One interval entry: a header line in the long format, xmin, xmax and
      the mark. */
  function ReadInterval(tier: IntervalTier, src: string, short: bool, nf: NumberFormat)
    : (r: Result<(IntervalTier, string), Error>)
    ensures r.Ok? ==> r.value.0.(intervals := tier.intervals) == tier
  {
    var s1 := if short then src else Skip(src);
    var lo :- ReadNumber(s1, short, nf);
    var hi :- ReadNumber(lo.1, short, nf);
    var m :- GetMark(hi.1, short);
    var next :- AddIfPositive(tier, lo.0, hi.0, m.0);
    Ok((next, m.1))
  }

  /** The entry becomes an interval through addInterval when its duration
      is positive; otherwise it is dropped without a word. */
  function AddIfPositive(tier: IntervalTier, lo: real, hi: real, mark: string): (r: Result<IntervalTier, Error>)
    ensures r.Ok? ==> r.value.(intervals := tier.intervals) == tier
    ensures lo >= hi ==> r == Ok(tier)
    ensures lo < hi ==> r == AddInterval(tier, Span(lo, hi, mark))
  {
    if lo < hi then AddInterval(tier, Span(lo, hi, mark)) else Ok(tier)
  }

  /** The points of a point tier inside a TextGrid: a header line (skipped
      in both formats), the time and the mark, added through addPoint. */
  function ReadPoints(tier: PointTier, n: int, src: string, short: bool, nf: NumberFormat)
    : (r: Result<(PointTier, string), Error>)
    ensures r.Ok? ==> r.value.0.(points := tier.points) == tier
    ensures r.Ok? ==> |r.value.0.points| == |tier.points| + (if n > 0 then n else 0)
    decreases if n > 0 then n else 0
  {
    if n <= 0 then Ok((tier, src))
    else
      var next :- ReadPoint(tier, src, short, nf);
      ReadPoints(next.0, n - 1, next.1, short, nf)
  }

  /** One point entry: a skipped header line, the time, the mark. */
  function ReadPoint(tier: PointTier, src: string, short: bool, nf: NumberFormat)
    : (r: Result<(PointTier, string), Error>)
    ensures r.Ok? ==> r.value.0.(points := tier.points) == tier
    ensures r.Ok? ==> |r.value.0.points| == |tier.points| + 1
  {
    var t :- ReadNumber(Skip(src), short, nf);
    var m :- GetMark(t.1, short);
    var next :- AddPoint(tier, Point(t.0, m.0));
    Ok((next, m.1))
  }

  /** One tier of a TextGrid: a class of "IntervalTier" makes an interval
      tier with the file's name and bounds and the grid's strictness; any
      other class makes PointTier(name), whose bounds are read and
      discarded. */
  function ReadTier(g: TextGrid, src: string, short: bool, nf: NumberFormat): (r: Result<(Tier, string), Error>)
    ensures r.Ok? && r.value.0.Points? ==> r.value.0.pt.minTime == 0.0 && r.value.0.pt.maxTime.None?
    ensures r.Ok? && r.value.0.Intervals? ==> r.value.0.it.strict == g.strict && r.value.0.it.maxTime.Some?
  {
    var s0 := if short then src else Skip(src);
    var c :- ReadField(s0, short, nf);
    var nm :- ReadName(c.1, short, nf);
    if c.0 == Quoted("IntervalTier") then
      var lo :- ReadNumber(nm.1, short, nf);
      var hi :- ReadNumber(lo.1, short, nf);
      var cnt :- ReadCount(hi.1, short, nf);
      var body :- ReadIntervals(IntervalTier(nm.0, lo.0, Some(hi.0), [], g.strict), cnt.0, cnt.1, short, nf);
      Ok((Intervals(body.0), body.1))
    else
      var lo :- ReadField(nm.1, short, nf);
      var hi :- ReadField(lo.1, short, nf);
      var cnt :- ReadCount(hi.1, short, nf);
      var body :- ReadPoints(EmptyPointTier(nm.0), cnt.0, cnt.1, short, nf);
      Ok((Points(body.0), body.1))
  }

  /** The loop over the tiers: each is read, then appended to the grid.
      Reading only appends: the tiers the grid held stay in front. */
  function ReadTiers(g: TextGrid, m: int, src: string, short: bool, nf: NumberFormat)
    : (r: Result<(TextGrid, string), Error>)
    ensures r.Ok? ==> r.value.0.(tiers := g.tiers) == g
    ensures r.Ok? ==> |r.value.0.tiers| == |g.tiers| + (if m > 0 then m else 0)
    ensures r.Ok? ==> r.value.0.tiers[..|g.tiers|] == g.tiers
    decreases if m > 0 then m else 0
  {
    if m <= 0 then Ok((g, src))
    else
      var next :- ReadNextTier(g, src, short, nf);
      var r :- ReadTiers(next.0, m - 1, next.1, short, nf);
      PrefixTrans(g.tiers, next.0.tiers, r.0.tiers);
      Ok(r)
  }

  /** One pass of the loop: read a tier and append it. */
  function ReadNextTier(g: TextGrid, src: string, short: bool, nf: NumberFormat)
    : (r: Result<(TextGrid, string), Error>)
    ensures r.Ok? ==> r.value.0.(tiers := g.tiers) == g
    ensures r.Ok? ==> |r.value.0.tiers| == |g.tiers| + 1 && r.value.0.tiers[..|g.tiers|] == g.tiers
  {
    var t :- ReadTier(g, src, short, nf);
    var next :- Append(g, t.0);
    assert next.tiers[..|g.tiers|] == g.tiers;
    Ok((next, t.1))
  }

  lemma PrefixTrans<T>(a: seq<T>, b: seq<T>, c: seq<T>)
    requires |b| <= |c| && c[..|b|] == b && |a| <= |b| && b[..|a|] == a
    ensures c[..|a|] == a
  {
    assert c[..|a|] == c[..|b|][..|a|];
  }

  /** The tier count: the whole stripped line in the short format, the
      third word of `size = N` in the long one. */
  function ReadTierCount(src: string, short: bool): (r: Result<(int, string), Error>)
    ensures r.Ok? ==> r.value.1 == Skip(src)
  {
    var l := Strip(ReadLine(src).0);
    var t := if short then Some(l)
             else var ws := SplitWords(l); if |ws| < 3 then None else Some(ws[2]);
    match t
    case None => Err(NoSuchIndex)
    case Some(w) =>
      match ParseInt(w)
      case None => Err(BadNumber(w))
      case Some(n) => Ok((n, Skip(src)))
  }

  /** TextGrid.read into g: a TextGrid header, then the body. */
  function ReadTextGrid(g: TextGrid, src: string, nf: NumberFormat): (r: Result<TextGrid, Error>)
    ensures r.Ok? ==> r.value.name == g.name && r.value.strict == g.strict && r.value.maxTime.Some?
  {
    var h :- ParseHeader(src, nf);
    if h.0 != "TextGrid" then Err(BadHeader) else ReadGridBody(g, h.2, h.1, nf)
  }

  /** What follows the header: the bounds (which replace the grid's), a
      skipped line, the tier count, in the long format a skipped
      `item []:` line, then the tiers, appended after any tiers g already
      holds. */
  function ReadGridBody(g: TextGrid, src: string, short: bool, nf: NumberFormat): (r: Result<TextGrid, Error>)
    ensures r.Ok? ==> r.value.name == g.name && r.value.strict == g.strict && r.value.maxTime.Some?
    ensures r.Ok? ==> |r.value.tiers| >= |g.tiers| && r.value.tiers[..|g.tiers|] == g.tiers
  {
    var lo :- ReadNumber(src, short, nf);
    var hi :- ReadNumber(lo.1, short, nf);
    ReadGridTiers(g.(minTime := lo.0, maxTime := Some(hi.0)), Skip(hi.1), short, nf)
  }

  /** The tier count line and the tiers it announces, appended to g. */
  function ReadGridTiers(g: TextGrid, src: string, short: bool, nf: NumberFormat): (r: Result<TextGrid, Error>)
    ensures r.Ok? ==> r.value.(tiers := g.tiers) == g
    ensures r.Ok? ==> |r.value.tiers| >= |g.tiers| && r.value.tiers[..|g.tiers|] == g.tiers
  {
    var cnt :- ReadTierCount(src, short);
    ReadCountedTiers(g, cnt.0, cnt.1, short, nf)
  }

  /** After the count: in the long format the `item []:` line, then the
      tiers; what follows them is ignored. */
  function ReadCountedTiers(g: TextGrid, n: int, src: string, short: bool, nf: NumberFormat): (r: Result<TextGrid, Error>)
    ensures r.Ok? ==> r.value.(tiers := g.tiers) == g
    ensures r.Ok? ==> |r.value.tiers| >= |g.tiers| && r.value.tiers[..|g.tiers|] == g.tiers
  {
    var r :- ReadTiers(g, n, if short then src else Skip(src), short, nf);
    Ok(r.0)
  }

  // ---------------------------------------------------------------------
  // The standalone tier files

  /** The entries of an IntervalTier file: always a header line, then
      xmin, xmax and the mark; each becomes an Interval (which rejects a
      non-positive duration) appended as it comes, without validation. */
  function ReadRawIntervals(n: int, src: string, short: bool, nf: NumberFormat): (r: Result<(seq<Interval>, string), Error>)
    ensures r.Ok? ==> |r.value.0| == (if n > 0 then n else 0)
    decreases if n > 0 then n else 0
  {
    if n <= 0 then Ok(([], src))
    else
      var x :- ReadRawInterval(src, short, nf);
      var rest :- ReadRawIntervals(n - 1, x.1, short, nf);
      Ok(([x.0] + rest.0, rest.1))
  }

  /** One entry of an IntervalTier file: a header line, xmin, xmax, the
      mark. */
  function ReadRawInterval(src: string, short: bool, nf: NumberFormat): (r: Result<(Interval, string), Error>)
  {
    var lo :- ReadNumber(Skip(src), short, nf);
    var hi :- ReadNumber(lo.1, short, nf);
    var m :- GetMark(hi.1, short);
    var x :- MakeInterval(lo.0, hi.0, m.0);
    Ok((x, m.1))
  }

  /** The points of a TextTier file, appended as they come. */
  function ReadRawPoints(n: int, src: string, short: bool, nf: NumberFormat): (r: Result<(seq<Point>, string), Error>)
    ensures r.Ok? ==> |r.value.0| == (if n > 0 then n else 0)
    decreases if n > 0 then n else 0
  {
    if n <= 0 then Ok(([], src))
    else
      var p :- ReadRawPoint(src, short, nf);
      var rest :- ReadRawPoints(n - 1, p.1, short, nf);
      Ok(([p.0] + rest.0, rest.1))
  }

  /** One point of a TextTier file: a header line, the time, the mark. */
  function ReadRawPoint(src: string, short: bool, nf: NumberFormat): Result<(Point, string), Error> {
    var t :- ReadNumber(Skip(src), short, nf);
    var m :- GetMark(t.1, short);
    Ok((Point(t.0, m.0), m.1))
  }

  /** IntervalTier.read: an IntervalTier header, the bounds (which replace
      the tier's), the count, then the entries after any the tier holds. */
  function ReadIntervalTierFile(tier: IntervalTier, src: string, nf: NumberFormat): (r: Result<IntervalTier, Error>)
    ensures r.Ok? ==> r.value.name == tier.name && r.value.strict == tier.strict
    ensures r.Ok? ==> |r.value.intervals| >= |tier.intervals| && r.value.intervals[..|tier.intervals|] == tier.intervals
  {
    var h :- ParseHeader(src, nf);
    var (cls, short, s1) := h;
    if cls != "IntervalTier" then Err(BadHeader)
    else
      var lo :- ReadNumber(s1, short, nf);
      var hi :- ReadNumber(lo.1, short, nf);
      var cnt :- ReadCount(hi.1, short, nf);
      var body :- ReadRawIntervals(cnt.0, cnt.1, short, nf);
      assert (tier.intervals + body.0)[..|tier.intervals|] == tier.intervals;
      Ok(tier.(minTime := lo.0, maxTime := Some(hi.0), intervals := tier.intervals + body.0))
  }

  /** PointTier.read: a TextTier header, the bounds, the count, then the
      points after any the tier holds. */
  function ReadPointTierFile(tier: PointTier, src: string, nf: NumberFormat): (r: Result<PointTier, Error>)
    ensures r.Ok? ==> r.value.name == tier.name
    ensures r.Ok? ==> |r.value.points| >= |tier.points| && r.value.points[..|tier.points|] == tier.points
  {
    var h :- ParseHeader(src, nf);
    var (cls, short, s1) := h;
    if cls != "TextTier" then Err(BadHeader)
    else
      var lo :- ReadNumber(s1, short, nf);
      var hi :- ReadNumber(lo.1, short, nf);
      var cnt :- ReadCount(hi.1, short, nf);
      var body :- ReadRawPoints(cnt.0, cnt.1, short, nf);
      assert (tier.points + body.0)[..|tier.points|] == tier.points;
      Ok(tier.(minTime := lo.0, maxTime := Some(hi.0), points := tier.points + body.0))
  }
}
