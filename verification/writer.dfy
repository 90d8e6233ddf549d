/** Writing the Praat long text format: TextGrid.write, and the standalone
    IntervalTier.write and PointTier.write. Each writer returns the text it
    prints; numbers go through the given NumberFormat, counts and indices
    are printed in decimal, names unescaped, marks through _formatMark. */
module Writer {
  import opened Wrappers
  import opened Primitives
  import opened Text
  import opened Marks
  import opened Fields
  import opened PointTiers
  import opened IntervalTiers
  import opened Grids

  /** '{0}'.format(name): a missing name prints as None. */
  function NameText(name: Option<string>): string {
    match name
    case None => "None"
    case Some(s) => s
  }

  // ---------------------------------------------------------------------
  // The end written as xmax

  /** What `t.maxTime if t.maxTime else t[-1].maxTime` gives for one tier:
      its own end when truthy, else its last interval's end; an empty tier
      has no last element (IndexError) and a point has no maxTime
      (AttributeError). */
  function TierEnd(t: Tier): Result<real, Error> {
    match t
    case Intervals(it) =>
      if Truthy(it.maxTime) then Ok(it.maxTime.value)
      else if |it.intervals| == 0 then Err(NoSuchIndex)
      else Ok(it.intervals[|it.intervals| - 1].maxTime)
    case Points(pt) =>
      if Truthy(pt.maxTime) then Ok(pt.maxTime.value)
      else if |pt.points| == 0 then Err(NoSuchIndex)
      else Err(NoMaxTime)
  }

  /** max() over the list of tier ends, built left to right, so the first
      tier that fails decides the error. */
  function TiersEnd(ts: seq<Tier>): Result<real, Error>
    requires |ts| > 0
  {
    var a :- TierEnd(ts[0]);
    if |ts| == 1 then Ok(a)
    else
      var b :- TiersEnd(ts[1..]);
      Ok(if a >= b then a else b)
  }

  /** maxT of TextGrid.write: the grid's maxTime when truthy, else the
      largest tier end; max() of no tiers is a ValueError. */
  function GridEnd(g: TextGrid): Result<real, Error> {
    if Truthy(g.maxTime) then Ok(g.maxTime.value)
    else if |g.tiers| == 0 then Err(EmptyTierList)
    else TiersEnd(g.tiers)
  }

  /** The ends list max() runs over succeeds exactly when every tier has an
      end; the result is one of them and no smaller than any; otherwise the
      error is the first failing tier's. */
  lemma {:induction false} TiersEndIsMax(ts: seq<Tier>)
    requires |ts| > 0
    ensures TiersEnd(ts).Ok? <==> forall k :: 0 <= k < |ts| ==> TierEnd(ts[k]).Ok?
    ensures TiersEnd(ts).Ok? ==>
      && (exists k :: 0 <= k < |ts| && TierEnd(ts[k]) == TiersEnd(ts))
      && (forall k :: 0 <= k < |ts| ==> TierEnd(ts[k]).value <= TiersEnd(ts).value)
    ensures TiersEnd(ts).Err? ==>
      exists k :: 0 <= k < |ts| && TierEnd(ts[k]).Err? && TierEnd(ts[k]).error == TiersEnd(ts).error
        && forall j :: 0 <= j < k ==> TierEnd(ts[j]).Ok?
  {
    if |ts| > 1 && TierEnd(ts[0]).Ok? {
      var tail := ts[1..];
      TiersEndIsMax(tail);
      assert forall k :: 1 <= k < |ts| ==> ts[k] == tail[k - 1];
      if TiersEnd(tail).Ok? {
        var k' :| 0 <= k' < |tail| && TierEnd(tail[k']) == TiersEnd(tail);
        if TierEnd(ts[0]).value < TiersEnd(tail).value {
          assert TierEnd(ts[k' + 1]) == TiersEnd(ts);
        } else {
          assert TierEnd(ts[0]) == TiersEnd(ts);
        }
      } else {
        var k' :| 0 <= k' < |tail| && TierEnd(tail[k']).Err? && TierEnd(tail[k']).error == TiersEnd(tail).error
          && forall j :: 0 <= j < k' ==> TierEnd(tail[j]).Ok?;
        assert TierEnd(ts[k' + 1]).Err?;
        assert forall j :: 0 <= j < k' + 1 ==> TierEnd(ts[j]).Ok? by {
          forall j | 0 < j < k' + 1 ensures TierEnd(ts[j]).Ok? {
            assert ts[j] == tail[j - 1];
          }
        }
      }
    } else if |ts| == 1 {
      assert TierEnd(ts[0]) == TiersEnd(ts);
    } else {
      assert TierEnd(ts[0]).Err?;
    }
  }

  /** A well-formed strict interval tier always has an end, and no
      interval ends after it: with maxTime truthy the bound holds it,
      otherwise the last interval ends latest. (A lenient tier may hold an
      earlier, longer interval.) */
  lemma TierEndCoversIntervals(it: IntervalTier)
    requires it.strict && ValidIntervalTier(it) && |it.intervals| > 0
    ensures TierEnd(Intervals(it)).Ok?
    ensures forall k :: 0 <= k < |it.intervals| ==> it.intervals[k].maxTime <= TierEnd(Intervals(it)).value
  {
    var ivs := it.intervals;
    if !Truthy(it.maxTime) {
      forall k | 0 <= k < |ivs| ensures ivs[k].maxTime <= ivs[|ivs| - 1].maxTime {
        if k < |ivs| - 1 {
          assert ivs[k].maxTime <= ivs[|ivs| - 1].minTime;
        }
      }
    } else {
      forall k | 0 <= k < |ivs| ensures ivs[k].maxTime <= it.maxTime.value {
        assert IntervalInBounds(it, ivs[k]);
      }
    }
  }

  // ---------------------------------------------------------------------
  // Entries

  /** How a writer lays out the entries of a tier: the header line is
      head + index + close, the fields are indented by indent. */
  datatype Layout = Layout(head: string, close: string, indent: string)

  const GridIntervals := Layout("\t\t\tintervals [", "]:", "\t\t\t\t")
  const GridPoints := Layout("\t\t\tpoints [", "]:", "\t\t\t\t")
  const FileIntervals := Layout("intervals [", "]", "\t")
  const FilePoints := Layout("points [", "]:", "\t")

  /** An interval entry: header, xmin, xmax, then the escaped mark. */
  function IntervalText(lay: Layout, j: nat, x: Interval, nf: NumberFormat): string {
    Line(lay.head + NatText(j) + lay.close)
      + (BareLine(lay.indent, "xmin", nf.show(x.minTime))
      + (BareLine(lay.indent, "xmax", nf.show(x.maxTime))
      + EntryText(lay.indent, "text", x.mark)))
  }

  /** The entries enumerate(xs, j) prints. */
  function IntervalsText(lay: Layout, xs: seq<Interval>, j: nat, nf: NumberFormat): string
    decreases |xs|
  {
    if |xs| == 0 then "" else IntervalText(lay, j, xs[0], nf) + IntervalsText(lay, xs[1..], j + 1, nf)
  }

  /** A point entry: header, time, then the escaped mark. */
  function PointText(lay: Layout, k: nat, p: Point, nf: NumberFormat): string {
    Line(lay.head + NatText(k) + lay.close)
      + (BareLine(lay.indent, "time", nf.show(p.time))
      + EntryText(lay.indent, "mark", p.mark))
  }

  function PointsText(lay: Layout, ps: seq<Point>, k: nat, nf: NumberFormat): string
    decreases |ps|
  {
    if |ps| == 0 then "" else PointText(lay, k, ps[0], nf) + PointsText(lay, ps[1..], k + 1, nf)
  }

  // ---------------------------------------------------------------------
  // TextGrid.write

  /** One `item [i]:` of a TextGrid: class, unescaped name, the tier's
      minTime, the grid's maxT, then the gap-filled intervals or the
      points. */
  function TierText(i: nat, t: Tier, maxT: real, nf: NumberFormat, nullMark: string): string {
    match t
    case Intervals(it) =>
      var out := FillGaps(it, nullMark);
      Line("\titem [" + NatText(i) + "]:")
        + (QuotedLine("\t\t", "class", "IntervalTier")
        + (QuotedLine("\t\t", "name", NameText(it.name))
        + (BareLine("\t\t", "xmin", nf.show(it.minTime))
        + (BareLine("\t\t", "xmax", nf.show(maxT))
        + (BareLine("\t\t", "intervals: size", NatText(|out|))
        + IntervalsText(GridIntervals, out, 1, nf))))))
    case Points(pt) =>
      Line("\titem [" + NatText(i) + "]:")
        + (QuotedLine("\t\t", "class", "TextTier")
        + (QuotedLine("\t\t", "name", NameText(pt.name))
        + (BareLine("\t\t", "xmin", nf.show(pt.minTime))
        + (BareLine("\t\t", "xmax", nf.show(maxT))
        + (BareLine("\t\t", "points: size", NatText(|pt.points|))
        + PointsText(GridPoints, pt.points, 1, nf))))))
  }

  function TiersText(ts: seq<Tier>, i: nat, maxT: real, nf: NumberFormat, nullMark: string): string
    decreases |ts|
  {
    if |ts| == 0 then "" else TierText(i, ts[0], maxT, nf, nullMark) + TiersText(ts[1..], i + 1, maxT, nf, nullMark)
  }

  /** The lines before the first tier. */
  function GridHead(g: TextGrid, maxT: real, nf: NumberFormat): string {
    HeaderText("TextGrid")
      + (BareLine("", "xmin", nf.show(g.minTime))
      + (BareLine("", "xmax", nf.show(maxT))
      + (Line("tiers? <exists>")
      + (BareLine("", "size", NatText(|g.tiers|))
      + Line("item []:")))))
  }

  /** TextGrid.write(f, null): fails only where maxT cannot be found. */
  function WriteTextGrid(g: TextGrid, nf: NumberFormat, nullMark: string): (r: Result<string, Error>)
    ensures r.Ok? <==> GridEnd(g).Ok?
  {
    var maxT :- GridEnd(g);
    Ok(GridHead(g, maxT, nf) + TiersText(g.tiers, 1, maxT, nf, nullMark))
  }

  // ---------------------------------------------------------------------
  // IntervalTier.write and PointTier.write

  /** IntervalTier.write(f, null): the tier's own bounds, then the
      gap-filled intervals. */
  function WriteIntervalTierFile(tier: IntervalTier, nf: NumberFormat, nullMark: string): (r: Result<string, Error>)
    ensures r.Ok? <==> TierEnd(Intervals(tier)).Ok?
  {
    var xmax :- TierEnd(Intervals(tier));
    var out := FillGaps(tier, nullMark);
    Ok(HeaderText("IntervalTier")
      + (BareLine("", "xmin", nf.show(tier.minTime))
      + (BareLine("", "xmax", nf.show(xmax))
      + (BareLine("", "intervals: size", NatText(|out|))
      + IntervalsText(FileIntervals, out, 1, nf)))))
  }

  /** `self.maxTime if self.maxTime else self.points[-1].time`. */
  function PointTierEnd(tier: PointTier): Result<real, Error> {
    if Truthy(tier.maxTime) then Ok(tier.maxTime.value)
    else if |tier.points| == 0 then Err(NoSuchIndex)
    else Ok(tier.points[|tier.points| - 1].time)
  }

  /** PointTier.write(f). */
  function WritePointTierFile(tier: PointTier, nf: NumberFormat): (r: Result<string, Error>)
    ensures r.Ok? <==> PointTierEnd(tier).Ok?
  {
    var xmax :- PointTierEnd(tier);
    Ok(HeaderText("TextTier")
      + (BareLine("", "xmin", nf.show(tier.minTime))
      + (BareLine("", "xmax", nf.show(xmax))
      + (BareLine("", "points: size", NatText(|tier.points|))
      + PointsText(FilePoints, tier.points, 1, nf)))))
  }
}
