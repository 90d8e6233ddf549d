/** PointTier (a Praat TextTier): named, bounded, time-ordered points,
    changed only through the validating `addPoint` and `removePoint`. */
module PointTiers {
  import opened Wrappers
  import opened Primitives
  import opened Bisection
  import opened Seqs

  datatype PointTier = PointTier(name: Option<string>, minTime: real, maxTime: Option<real>, points: seq<Point>)

  /** PointTier(name): minTime 0 and no maxTime by default. */
  function EmptyPointTier(name: Option<string>): PointTier {
    PointTier(name, 0.0, None, [])
  }

  /** Times strictly ascending, hence no two points share a time. */
  predicate Ascending(pts: seq<Point>) {
    forall i, j :: 0 <= i < j < |pts| ==> pts[i].time < pts[j].time
  }

  /** A time addPoint accepts as far as the bounds go: not before minTime,
      and not after maxTime when maxTime is truthy. */
  predicate PointInBounds(tier: PointTier, t: real) {
    tier.minTime <= t && (!Truthy(tier.maxTime) || t <= tier.maxTime.value)
  }

  /** The invariant every sequence of successful addPoint/removePoint keeps. */
  predicate ValidPointTier(tier: PointTier) {
    && Ascending(tier.points)
    && forall k :: 0 <= k < |tier.points| ==> PointInBounds(tier, tier.points[k].time)
  }

  predicate HasTime(pts: seq<Point>, t: real) {
    exists k :: 0 <= k < |pts| && pts[k].time == t
  }

  /** bisect_left's question at position k: is points[k] < Point(t)? */
  function PointProbe(pts: seq<Point>, t: real): nat -> Probe {
    (k: nat) => if k < |pts| && PointLt(pts[k], Num(t)) then Below else NotBelow
  }

  /** PointTier.addPoint: bounds checks, bisect_left, duplicate-time check, insert. */
  function AddPoint(tier: PointTier, p: Point): (r: Result<PointTier, Error>)
    ensures r.Ok? ==> r.value.name == tier.name && r.value.minTime == tier.minTime && r.value.maxTime == tier.maxTime
    ensures r.Ok? ==> |r.value.points| == |tier.points| + 1
  {
    if p.time < tier.minTime then Err(TooEarly(tier.minTime))
    else if Truthy(tier.maxTime) && p.time > tier.maxTime.value then Err(TooLate(tier.maxTime.value))
    else
      var i := BisectLeft(PointProbe(tier.points, p.time), 0, |tier.points|).index;
      if i < |tier.points| && tier.points[i].time == p.time then Err(DuplicatePoint(p))
      else Ok(tier.(points := InsertAt(tier.points, i, p)))
  }

  /** The position list.remove finds: the first point equal to Point(t),
      i.e. the first with that time, whatever its mark. */
  function IndexOfTime(pts: seq<Point>, t: real): (r: Option<nat>)
    ensures r.None? <==> !HasTime(pts, t)
    ensures r.Some? ==> r.value < |pts| && pts[r.value].time == t
    ensures r.Some? ==> forall j :: 0 <= j < r.value ==> pts[j].time != t
  {
    if |pts| == 0 then None
    else if pts[0].time == t then Some(0)
    else match IndexOfTime(pts[1..], t)
      case None => None
      case Some(k) => Some(k + 1)
  }

  /** PointTier.removePoint: list.remove of the point, compared by time. */
  function RemovePoint(tier: PointTier, p: Point): (r: Result<PointTier, Error>)
    ensures r.Ok? ==> r.value.name == tier.name && r.value.minTime == tier.minTime && r.value.maxTime == tier.maxTime
  {
    match IndexOfTime(tier.points, p.time)
    case None => Err(NotInList)
    case Some(k) => Ok(tier.(points := DeleteAt(tier.points, k)))
  }

  /** bisect_left over an ascending tier returns the number of points
      earlier than t: every point before the index is earlier, every point
      from it on is not. */
  lemma PointSearch(pts: seq<Point>, t: real)
    requires Ascending(pts)
    ensures var i := BisectLeft(PointProbe(pts, t), 0, |pts|).index;
      && i <= |pts|
      && (forall k :: 0 <= k < i ==> pts[k].time < t)
      && (forall k :: i <= k < |pts| ==> pts[k].time >= t)
  {
    var probe := PointProbe(pts, t);
    assert Partitioned(probe, |pts|);
    BisectLeftCorrect(probe, |pts|);
    var i := BisectLeft(probe, 0, |pts|).index;
    forall k | 0 <= k < i ensures pts[k].time < t {
      assert probe(k) == Below;
    }
    forall k | i <= k < |pts| ensures pts[k].time >= t {
      assert probe(k) == NotBelow;
    }
  }

  /** Inserting a point between the earlier and the later ones keeps the
      times ascending. */
  lemma InsertAscending(pts: seq<Point>, i: nat, p: Point)
    requires Ascending(pts) && i <= |pts|
    requires forall k :: 0 <= k < i ==> pts[k].time < p.time
    requires forall k :: i <= k < |pts| ==> pts[k].time > p.time
    ensures Ascending(InsertAt(pts, i, p))
  {
    var r := InsertAt(pts, i, p);
    forall a, b | 0 <= a < b < |r| ensures r[a].time < r[b].time {
      if b < i {
        assert r[a] == pts[a] && r[b] == pts[b];
      } else if a > i {
        assert r[a] == pts[a - 1] && r[b] == pts[b - 1];
      } else if a < i {
        assert r[a] == pts[a];
      } else {
        assert r[b] == pts[b - 1];
      }
    }
  }

  /** addPoint on a valid tier rejects a time before minTime, a time after a
      truthy maxTime and a time already present, each with its own error;
      otherwise it inserts the point, keeping the tier valid, one longer and
      with the same points besides the new one. */
  lemma AddPointCorrect(tier: PointTier, p: Point)
    requires ValidPointTier(tier)
    ensures AddPoint(tier, p).Ok? <==> PointInBounds(tier, p.time) && !HasTime(tier.points, p.time)
    ensures p.time < tier.minTime ==> AddPoint(tier, p) == Err(TooEarly(tier.minTime))
    ensures tier.minTime <= p.time && Truthy(tier.maxTime) && p.time > tier.maxTime.value ==>
      AddPoint(tier, p) == Err(TooLate(tier.maxTime.value))
    ensures PointInBounds(tier, p.time) && HasTime(tier.points, p.time) ==> AddPoint(tier, p) == Err(DuplicatePoint(p))
    ensures AddPoint(tier, p).Ok? ==>
      var r := AddPoint(tier, p).value;
      && ValidPointTier(r)
      && |r.points| == |tier.points| + 1
      && multiset(r.points) == multiset(tier.points) + multiset{p}
  {
    var pts := tier.points;
    if PointInBounds(tier, p.time) {
      PointSearch(pts, p.time);
      var i := BisectLeft(PointProbe(pts, p.time), 0, |pts|).index;
      if HasTime(pts, p.time) {
        var k :| 0 <= k < |pts| && pts[k].time == p.time;
        assert i <= k;
        ghost var atI := pts[i];
      } else {
        if i < |pts| {
          assert pts[i].time != p.time;
        }
        InsertAscending(pts, i, p);
        var r := InsertAt(pts, i, p);
        forall j | 0 <= j < |r| ensures PointInBounds(tier, r[j].time) {
          if j < i { assert r[j] == pts[j]; } else if j > i { assert r[j] == pts[j - 1]; }
        }
      }
    }
  }

  /** Deleting a position keeps the times ascending and leaves exactly the
      points at other times. */
  lemma DeleteAscending(pts: seq<Point>, k: nat)
    requires Ascending(pts) && k < |pts|
    ensures Ascending(DeleteAt(pts, k))
    ensures forall q :: q in DeleteAt(pts, k) <==> q in pts && q.time != pts[k].time
  {
    var r := DeleteAt(pts, k);
    forall a, b | 0 <= a < b < |r| ensures r[a].time < r[b].time {
      var a', b' := if a < k then a else a + 1, if b < k then b else b + 1;
      assert r[a] == pts[a'] && r[b] == pts[b'];
    }
    forall q ensures q in r <==> q in pts && q.time != pts[k].time {
      DeleteAtMembers(pts, k, q);
    }
  }

  /** removePoint on a valid tier succeeds exactly when some point has that
      time, and then removes exactly the point with that time, whatever its
      mark, keeping the tier valid and one shorter. */
  lemma RemovePointCorrect(tier: PointTier, p: Point)
    requires ValidPointTier(tier)
    ensures RemovePoint(tier, p).Ok? <==> HasTime(tier.points, p.time)
    ensures RemovePoint(tier, p).Err? ==> RemovePoint(tier, p).error == NotInList
    ensures RemovePoint(tier, p).Ok? ==>
      var r := RemovePoint(tier, p).value;
      && ValidPointTier(r)
      && |r.points| == |tier.points| - 1
      && (forall q :: q in r.points <==> q in tier.points && q.time != p.time)
  {
    var pts := tier.points;
    match IndexOfTime(pts, p.time)
    case None =>
    case Some(k) =>
      DeleteAscending(pts, k);
      var r := DeleteAt(pts, k);
      forall j | 0 <= j < |r| ensures PointInBounds(tier, r[j].time) {
        var j' := if j < k then j else j + 1;
        assert r[j] == pts[j'];
      }
  }

  /** The library's own example: adding 4.0 then 2.0 yields [2.0, 4.0]. */
  lemma AddPointExample()
    ensures AddPoint(EmptyPointTier(Some("foo")), Point(4.0, "bar")).Ok?
    ensures AddPoint(AddPoint(EmptyPointTier(Some("foo")), Point(4.0, "bar")).value, Point(2.0, "baz"))
      == Ok(PointTier(Some("foo"), 0.0, None, [Point(2.0, "baz"), Point(4.0, "bar")]))
  {
    var t0 := EmptyPointTier(Some("foo"));
    assert BisectLeft(PointProbe([], 4.0), 0, 0) == At(0);
    var t1 := AddPoint(t0, Point(4.0, "bar")).value;
    assert t1.points == [Point(4.0, "bar")];
    assert BisectLeft(PointProbe(t1.points, 2.0), 0, 1) == At(0);
    var r := InsertAt(t1.points, 0, Point(2.0, "baz"));
    assert r == [Point(2.0, "baz"), Point(4.0, "bar")];
  }
}
