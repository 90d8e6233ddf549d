/** IntervalTier: named, bounded intervals ordered by start, changed only
    through the validating `addInterval` and `removeInterval`. Whether an
    overlap is an error is the tier's `strict` flag, which the tier hands
    to every interval it holds. */
module IntervalTiers {
  import opened Wrappers
  import opened Primitives
  import opened Bisection
  import opened Seqs

  datatype IntervalTier = IntervalTier(
    name: Option<string>,
    minTime: real,
    maxTime: Option<real>,
    intervals: seq<Interval>,
    strict: bool)

  /** IntervalTier(name, minTime, maxTime): empty and strict. */
  function EmptyIntervalTier(name: Option<string>, minTime: real, maxTime: Option<real>): IntervalTier {
    IntervalTier(name, minTime, maxTime, [], true)
  }

  /** Each interval ends no later than any later one starts. */
  predicate Disjoint(ivs: seq<Interval>) {
    forall i, j :: 0 <= i < j < |ivs| ==> ivs[i].maxTime <= ivs[j].minTime
  }

  /** Starts non-decreasing: all that a non-strict tier maintains. */
  predicate SortedByStart(ivs: seq<Interval>) {
    forall i, j :: 0 <= i < j < |ivs| ==> ivs[i].minTime <= ivs[j].minTime
  }

  /** An interval addInterval accepts as far as the bounds go: not starting
      before minTime, not ending after maxTime when maxTime is truthy. */
  predicate IntervalInBounds(tier: IntervalTier, x: Interval) {
    tier.minTime <= x.minTime && (!Truthy(tier.maxTime) || x.maxTime <= tier.maxTime.value)
  }

  /** The invariant successful insertions and removals keep: in bounds, and
      overlap-free when strict, merely sorted by start when not. */
  predicate ValidIntervalTier(tier: IntervalTier) {
    && (forall k :: 0 <= k < |tier.intervals| ==> IntervalInBounds(tier, tier.intervals[k]))
    && (if tier.strict then Disjoint(tier.intervals) else SortedByStart(tier.intervals))
  }

  predicate OverlapsSome(ivs: seq<Interval>, x: Interval) {
    exists k :: 0 <= k < |ivs| && Overlaps(ivs[k], x)
  }

  predicate HasBounds(ivs: seq<Interval>, x: Interval) {
    exists k :: 0 <= k < |ivs| && SameBounds(ivs[k], x)
  }

  /** A comparison as bisect_left sees it: true, false, or raised. */
  function AsProbe(c: Result<bool, Error>): Probe {
    match c
    case Err(_) => Clash
    case Ok(b) => if b then Below else NotBelow
  }

  /** bisect_left's question at position k: intervals[k] < o, where the
      interval at k compares with the tier's strictness. */
  function IntervalProbe(ivs: seq<Interval>, o: Operand, strict: bool): nat -> Probe {
    (k: nat) => if k < |ivs| then AsProbe(IntervalLt(ivs[k], o, strict)) else NotBelow
  }

  /** IntervalTier.addInterval: bounds checks, bisect_left (which raises on a
      strict overlap it probes), the identical-bounds check, insert. */
  function AddInterval(tier: IntervalTier, x: Interval): (r: Result<IntervalTier, Error>)
    ensures r.Ok? ==> r.value.(intervals := tier.intervals) == tier
  {
    var ivs := tier.intervals;
    if x.minTime < tier.minTime then Err(TooEarly(tier.minTime))
    else if Truthy(tier.maxTime) && x.maxTime > tier.maxTime.value then Err(TooLate(tier.maxTime.value))
    else
      match BisectLeft(IntervalProbe(ivs, Iv(x), tier.strict), 0, |ivs|)
      case ClashAt(k) => Err(Conflict(ivs[k], x))
      case At(i) =>
        if i != |ivs| && SameBounds(ivs[i], x) then Err(DuplicateInterval(ivs[i]))
        else Ok(tier.(intervals := InsertAt(ivs, i, x)))
  }

  /** IntervalTier.add(minTime, maxTime, mark): construct, then addInterval. */
  function AddSpan(tier: IntervalTier, minTime: real, maxTime: real, mark: string): (r: Result<IntervalTier, Error>)
    ensures minTime >= maxTime ==> r == Err(BadDuration(minTime, maxTime))
    ensures minTime < maxTime ==> r == AddInterval(tier, Span(minTime, maxTime, mark))
  {
    var x :- MakeInterval(minTime, maxTime, mark);
    AddInterval(tier, x)
  }

  /** The position list.remove finds: the first interval equal to x, that
      is with the same bounds, whatever its mark. */
  function IndexOfBounds(ivs: seq<Interval>, x: Interval): (r: Option<nat>)
    ensures r.None? <==> !HasBounds(ivs, x)
    ensures r.Some? ==> r.value < |ivs| && SameBounds(ivs[r.value], x)
    ensures r.Some? ==> forall j :: 0 <= j < r.value ==> !SameBounds(ivs[j], x)
  {
    if |ivs| == 0 then None
    else if SameBounds(ivs[0], x) then Some(0)
    else match IndexOfBounds(ivs[1..], x)
      case None => None
      case Some(k) => Some(k + 1)
  }

  /** IntervalTier.removeInterval: list.remove, comparing bounds only. */
  function RemoveInterval(tier: IntervalTier, x: Interval): (r: Result<IntervalTier, Error>)
    ensures r.Ok? ==> r.value.(intervals := tier.intervals) == tier
  {
    match IndexOfBounds(tier.intervals, x)
    case None => Err(NotInList)
    case Some(k) => Ok(tier.(intervals := DeleteAt(tier.intervals, k)))
  }

  /** IntervalTier.indexContaining: bisect_left with the argument, then an
      inclusive test of the interval found. Only a number gets that far: a
      Point (or Interval) argument makes `minTime <= time` raise TypeError. */
  function IndexContaining(tier: IntervalTier, o: Operand): (r: Result<Option<nat>, Error>)
    ensures r.Ok? && r.value.Some? ==> r.value.value < |tier.intervals|
  {
    var ivs := tier.intervals;
    match BisectLeft(IntervalProbe(ivs, o, tier.strict), 0, |ivs|)
    case ClashAt(k) => Err(IntervalLt(ivs[k], o, tier.strict).error)
    case At(i) =>
      if i == |ivs| then Ok(None)
      else match o
        case Num(t) => if ivs[i].minTime <= t <= ivs[i].maxTime then Ok(Some(i)) else Ok(None)
        case _ => Err(Incomparable)
  }

  /** IntervalTier.intervalContaining as written: `if i:` also discards the
      index 0, so the first interval is never returned. */
  function IntervalContaining(tier: IntervalTier, o: Operand): Result<Option<Interval>, Error> {
    var i :- IndexContaining(tier, o);
    if i.Some? && i.value != 0 then Ok(Some(tier.intervals[i.value])) else Ok(None)
  }

  /** intervalContaining as its docstring and tests intend: `if i is not None`. */
  function IntervalContainingFixed(tier: IntervalTier, o: Operand): Result<Option<Interval>, Error> {
    var i :- IndexContaining(tier, o);
    if i.Some? then Ok(Some(tier.intervals[i.value])) else Ok(None)
  }

  // ---------------------------------------------------------------------
  // Ordering facts

  /** The reference reading of a strict tier's invariant: sorted by start
      and no two intervals overlap. */
  lemma DisjointIffSortedAndOverlapFree(ivs: seq<Interval>)
    ensures Disjoint(ivs) <==>
      SortedByStart(ivs) && forall i, j :: 0 <= i < j < |ivs| ==> !Overlaps(ivs[i], ivs[j])
  {
  }

  /** Under a strict, overlap-free tier, bisect_left either stops at a
      position splitting the intervals wholly before x from those wholly
      after it, or raises on an interval overlapping x; and whenever some
      interval overlaps x, the probes are sure to hit one. */
  lemma StrictSearch(ivs: seq<Interval>, x: Interval)
    requires Disjoint(ivs)
    ensures var f := BisectLeft(IntervalProbe(ivs, Iv(x), true), 0, |ivs|);
      && (f.ClashAt? ==> f.index < |ivs| && Overlaps(ivs[f.index], x))
      && (f.At? ==>
          && f.index <= |ivs|
          && (forall k :: 0 <= k < f.index ==> ivs[k].maxTime <= x.minTime)
          && (forall k :: f.index <= k < |ivs| ==> x.maxTime <= ivs[k].minTime))
      && (OverlapsSome(ivs, x) ==> f.ClashAt?)
  {
    var probe := IntervalProbe(ivs, Iv(x), true);
    forall j: nat, k: nat | j <= k < |ivs|
      ensures (probe(k) == Below ==> probe(j) == Below) && (probe(j) == NotBelow ==> probe(k) == NotBelow)
    {
      if j < k {
        assert ivs[j].maxTime <= ivs[k].minTime;
      }
    }
    BisectLeftCorrect(probe, |ivs|);
    var f := BisectLeft(probe, 0, |ivs|);
    if f.At? {
      forall k | 0 <= k < f.index ensures ivs[k].maxTime <= x.minTime {
        assert probe(k) == Below;
      }
      forall k | f.index <= k < |ivs| ensures x.maxTime <= ivs[k].minTime {
        assert probe(k) == NotBelow;
      }
    }
    if OverlapsSome(ivs, x) {
      var c :| 0 <= c < |ivs| && Overlaps(ivs[c], x);
      assert probe(c) == Clash;
    }
  }

  /** Without strictness bisect_left only compares starts: it stops after
      the intervals starting before x and before those starting with or
      after it. */
  lemma LenientSearch(ivs: seq<Interval>, x: Interval)
    requires SortedByStart(ivs)
    ensures var f := BisectLeft(IntervalProbe(ivs, Iv(x), false), 0, |ivs|);
      && f.At? && f.index <= |ivs|
      && (forall k :: 0 <= k < f.index ==> ivs[k].minTime < x.minTime)
      && (forall k :: f.index <= k < |ivs| ==> x.minTime <= ivs[k].minTime)
  {
    var probe := IntervalProbe(ivs, Iv(x), false);
    assert Partitioned(probe, |ivs|);
    BisectLeftCorrect(probe, |ivs|);
    var f := BisectLeft(probe, 0, |ivs|);
    forall k | 0 <= k < f.index ensures ivs[k].minTime < x.minTime {
      assert probe(k) == Below;
    }
    forall k | f.index <= k < |ivs| ensures x.minTime <= ivs[k].minTime {
      assert probe(k) == NotBelow;
    }
  }

  lemma InsertDisjoint(ivs: seq<Interval>, i: nat, x: Interval)
    requires Disjoint(ivs) && i <= |ivs|
    requires forall k :: 0 <= k < i ==> ivs[k].maxTime <= x.minTime
    requires forall k :: i <= k < |ivs| ==> x.maxTime <= ivs[k].minTime
    ensures Disjoint(InsertAt(ivs, i, x))
  {
    var r := InsertAt(ivs, i, x);
    forall a, b | 0 <= a < b < |r| ensures r[a].maxTime <= r[b].minTime {
      if b < i {
        assert r[a] == ivs[a] && r[b] == ivs[b];
      } else if a > i {
        assert r[a] == ivs[a - 1] && r[b] == ivs[b - 1];
      } else if a < i {
        assert r[a] == ivs[a];
      } else {
        assert r[b] == ivs[b - 1];
      }
    }
  }

  lemma InsertSorted(ivs: seq<Interval>, i: nat, x: Interval)
    requires SortedByStart(ivs) && i <= |ivs|
    requires forall k :: 0 <= k < i ==> ivs[k].minTime <= x.minTime
    requires forall k :: i <= k < |ivs| ==> x.minTime <= ivs[k].minTime
    ensures SortedByStart(InsertAt(ivs, i, x))
  {
    var r := InsertAt(ivs, i, x);
    forall a, b | 0 <= a < b < |r| ensures r[a].minTime <= r[b].minTime {
      if b < i {
        assert r[a] == ivs[a] && r[b] == ivs[b];
      } else if a > i {
        assert r[a] == ivs[a - 1] && r[b] == ivs[b - 1];
      } else if a < i {
        assert r[a] == ivs[a];
      } else {
        assert r[b] == ivs[b - 1];
      }
    }
  }

  lemma InsertInBounds(tier: IntervalTier, i: nat, x: Interval)
    requires i <= |tier.intervals|
    requires forall k :: 0 <= k < |tier.intervals| ==> IntervalInBounds(tier, tier.intervals[k])
    requires IntervalInBounds(tier, x)
    ensures var r := InsertAt(tier.intervals, i, x);
      forall k :: 0 <= k < |r| ==> IntervalInBounds(tier, r[k])
  {
    var r := InsertAt(tier.intervals, i, x);
    forall k | 0 <= k < |r| ensures IntervalInBounds(tier, r[k]) {
      if k < i { assert r[k] == tier.intervals[k]; }
      else if k > i { assert r[k] == tier.intervals[k - 1]; }
    }
  }

  // ---------------------------------------------------------------------
  // Insertion and removal

  /** addInterval on a strict, valid tier: it rejects an interval starting
      before minTime or ending after a truthy maxTime; otherwise it fails,
      carrying (existing, new), exactly when the new interval overlaps an
      interval of the tier; and on success the tier stays valid, gains
      exactly the new interval and grows by one. */
  lemma AddIntervalStrict(tier: IntervalTier, x: Interval)
    requires tier.strict && ValidIntervalTier(tier)
    ensures AddInterval(tier, x).Ok? <==> IntervalInBounds(tier, x) && !OverlapsSome(tier.intervals, x)
    ensures x.minTime < tier.minTime ==> AddInterval(tier, x) == Err(TooEarly(tier.minTime))
    ensures tier.minTime <= x.minTime && Truthy(tier.maxTime) && x.maxTime > tier.maxTime.value ==>
      AddInterval(tier, x) == Err(TooLate(tier.maxTime.value))
    ensures IntervalInBounds(tier, x) && AddInterval(tier, x).Err? ==>
      var e := AddInterval(tier, x).error;
      e.Conflict? && e.added == x && e.existing in tier.intervals && Overlaps(e.existing, x)
    ensures AddInterval(tier, x).Ok? ==>
      var r := AddInterval(tier, x).value;
      && ValidIntervalTier(r)
      && |r.intervals| == |tier.intervals| + 1
      && multiset(r.intervals) == multiset(tier.intervals) + multiset{x}
  {
    var ivs := tier.intervals;
    if IntervalInBounds(tier, x) {
      StrictSearch(ivs, x);
      var f := BisectLeft(IntervalProbe(ivs, Iv(x), true), 0, |ivs|);
      if f.At? {
        var i := f.index;
        if i != |ivs| {
          assert x.maxTime <= ivs[i].minTime;
        }
        InsertDisjoint(ivs, i, x);
        InsertInBounds(tier, i, x);
      }
    }
  }

  /** addInterval on a non-strict tier sorted by start: within bounds it
      fails only on an interval with identical bounds (the one at the
      insertion point), always succeeds when no interval has those bounds,
      and on success keeps the tier sorted and gains the new interval. */
  lemma AddIntervalLenient(tier: IntervalTier, x: Interval)
    requires !tier.strict && ValidIntervalTier(tier)
    ensures !IntervalInBounds(tier, x) ==> AddInterval(tier, x).Err?
    ensures IntervalInBounds(tier, x) && !HasBounds(tier.intervals, x) ==> AddInterval(tier, x).Ok?
    ensures IntervalInBounds(tier, x) && AddInterval(tier, x).Err? ==>
      var e := AddInterval(tier, x).error;
      e.DuplicateInterval? && e.existing in tier.intervals && SameBounds(e.existing, x)
    ensures AddInterval(tier, x).Ok? ==>
      var r := AddInterval(tier, x).value;
      && ValidIntervalTier(r)
      && |r.intervals| == |tier.intervals| + 1
      && multiset(r.intervals) == multiset(tier.intervals) + multiset{x}
  {
    var ivs := tier.intervals;
    if IntervalInBounds(tier, x) {
      LenientSearch(ivs, x);
      var i := BisectLeft(IntervalProbe(ivs, Iv(x), false), 0, |ivs|).index;
      forall k | 0 <= k < i ensures ivs[k].minTime <= x.minTime {
      }
      InsertSorted(ivs, i, x);
      InsertInBounds(tier, i, x);
    }
  }

  /** Without strictness only the interval at the insertion point is checked
      for identical bounds, so a duplicate further along slips in: adding
      [0, 2] to [[0, 1], [0, 2]] succeeds. */
  lemma LenientAdmitsDuplicate()
    ensures var tier := IntervalTier(None, 0.0, None, [Span(0.0, 1.0, ""), Span(0.0, 2.0, "")], false);
      && ValidIntervalTier(tier)
      && AddInterval(tier, Span(0.0, 2.0, "")).Ok?
      && AddInterval(tier, Span(0.0, 2.0, "")).value.intervals[0] == Span(0.0, 2.0, "")
      && AddInterval(tier, Span(0.0, 2.0, "")).value.intervals[2] == Span(0.0, 2.0, "")
  {
    var ivs: seq<Interval> := [Span(0.0, 1.0, ""), Span(0.0, 2.0, "")];
    var probe := IntervalProbe(ivs, Iv(Span(0.0, 2.0, "")), false);
    assert probe(0) == NotBelow;
    assert BisectLeft(probe, 0, 2) == BisectLeft(probe, 0, 1);
    assert BisectLeft(probe, 0, 1) == BisectLeft(probe, 0, 0);
  }

  /** Deleting a position of an overlap-free sequence keeps it overlap-free
      and leaves exactly the intervals with other bounds. */
  lemma DeleteDisjoint(ivs: seq<Interval>, k: nat)
    requires Disjoint(ivs) && k < |ivs|
    ensures Disjoint(DeleteAt(ivs, k))
    ensures forall y :: y in DeleteAt(ivs, k) <==> y in ivs && !SameBounds(y, ivs[k])
  {
    var r := DeleteAt(ivs, k);
    forall a, b | 0 <= a < b < |r| ensures r[a].maxTime <= r[b].minTime {
      var a', b' := if a < k then a else a + 1, if b < k then b else b + 1;
      assert r[a] == ivs[a'] && r[b] == ivs[b'];
    }
    forall y ensures y in r <==> y in ivs && !SameBounds(y, ivs[k]) {
      DeleteAtMembers(ivs, k, y);
      if y in ivs && !SameBounds(y, ivs[k]) {
        var j :| 0 <= j < |ivs| && ivs[j] == y;
        assert j != k;
      }
      if exists j :: 0 <= j < |ivs| && j != k && ivs[j] == y {
        var j :| 0 <= j < |ivs| && j != k && ivs[j] == y;
        if j < k { assert ivs[j].maxTime <= ivs[k].minTime; }
        else { assert ivs[k].maxTime <= ivs[j].minTime; }
      }
    }
  }

  /** removeInterval on a strict, valid tier succeeds exactly when some
      interval has the given bounds, and removes exactly that interval,
      whatever its mark, keeping the tier valid and one shorter. */
  lemma RemoveIntervalCorrect(tier: IntervalTier, x: Interval)
    requires tier.strict && ValidIntervalTier(tier)
    ensures RemoveInterval(tier, x).Ok? <==> HasBounds(tier.intervals, x)
    ensures RemoveInterval(tier, x).Err? ==> RemoveInterval(tier, x).error == NotInList
    ensures RemoveInterval(tier, x).Ok? ==>
      var r := RemoveInterval(tier, x).value;
      && ValidIntervalTier(r)
      && |r.intervals| == |tier.intervals| - 1
      && (forall y :: y in r.intervals <==> y in tier.intervals && !SameBounds(y, x))
  {
    var ivs := tier.intervals;
    match IndexOfBounds(ivs, x)
    case None =>
    case Some(k) =>
      DeleteDisjoint(ivs, k);
      var r := DeleteAt(ivs, k);
      forall j | 0 <= j < |r| ensures IntervalInBounds(tier, r[j]) {
        var j' := if j < k then j else j + 1;
        assert r[j] == ivs[j'];
      }
  }

  // ---------------------------------------------------------------------
  // Lookup by time

  /** indexContaining(t) on an overlap-free tier returns the lowest index
      whose inclusive [minTime, maxTime] contains t, and None exactly when
      no interval contains t. */
  lemma IndexContainingCorrect(tier: IntervalTier, t: real)
    requires Disjoint(tier.intervals)
    ensures IndexContaining(tier, Num(t)).Ok?
    ensures IndexContaining(tier, Num(t)).value.None? <==>
      forall k :: 0 <= k < |tier.intervals| ==> !Contains(tier.intervals[k], Num(t))
    ensures IndexContaining(tier, Num(t)).value.Some? ==>
      var i := IndexContaining(tier, Num(t)).value.value;
      && Contains(tier.intervals[i], Num(t))
      && forall k :: 0 <= k < i ==> !Contains(tier.intervals[k], Num(t))
  {
    var ivs := tier.intervals;
    var probe := IntervalProbe(ivs, Num(t), tier.strict);
    forall j: nat, k: nat | j <= k < |ivs|
      ensures (probe(k) == Below ==> probe(j) == Below) && (probe(j) == NotBelow ==> probe(k) == NotBelow)
    {
      if j < k {
        assert ivs[j].maxTime <= ivs[k].minTime;
      }
    }
    BisectLeftCorrect(probe, |ivs|);
    var i := BisectLeft(probe, 0, |ivs|).index;
    forall k | 0 <= k < i ensures ivs[k].maxTime < t {
      assert probe(k) == Below;
    }
    if i < |ivs| {
      assert probe(i) == NotBelow;
      forall k | i < k < |ivs| ensures ivs[i].maxTime <= ivs[k].minTime {
      }
    }
  }

  /** With a Point argument indexContaining raises TypeError unless the
      point lies after every interval, where it returns None. */
  lemma IndexContainingPoint(tier: IntervalTier, p: Point)
    requires Disjoint(tier.intervals)
    ensures IndexContaining(tier, Pt(p)).Ok? <==>
      forall k :: 0 <= k < |tier.intervals| ==> tier.intervals[k].maxTime < p.time
    ensures IndexContaining(tier, Pt(p)).Ok? ==> IndexContaining(tier, Pt(p)).value.None?
    ensures IndexContaining(tier, Pt(p)).Err? ==> IndexContaining(tier, Pt(p)).error == Incomparable
  {
    var ivs := tier.intervals;
    var probe := IntervalProbe(ivs, Pt(p), tier.strict);
    forall j: nat, k: nat | j <= k < |ivs|
      ensures (probe(k) == Below ==> probe(j) == Below) && (probe(j) == NotBelow ==> probe(k) == NotBelow)
    {
      if j < k {
        assert ivs[j].maxTime <= ivs[k].minTime;
      }
    }
    BisectLeftCorrect(probe, |ivs|);
    var i := BisectLeft(probe, 0, |ivs|).index;
    forall k | 0 <= k < i ensures ivs[k].maxTime < p.time {
      assert probe(k) == Below;
    }
    if i < |ivs| {
      assert probe(i) == NotBelow;
    }
  }

  /** Finding: intervalContaining as written never returns the first
      interval, even when it is the one containing t. */
  lemma IntervalContainingMissesFirst(tier: IntervalTier, t: real)
    requires Disjoint(tier.intervals)
    requires |tier.intervals| > 0 && Contains(tier.intervals[0], Num(t))
    ensures IndexContaining(tier, Num(t)) == Ok(Some(0))
    ensures IntervalContaining(tier, Num(t)) == Ok(None)
  {
    IndexContainingCorrect(tier, t);
  }

  /** The library's own case: [0, 1] and [2, 2.5]; intervalContaining(0.5)
      is None as written, where its test expects Interval(0.0, 1.0, bar). */
  lemma IntervalContainingTestCase()
    ensures var tier := IntervalTier(Some("foo"), 0.0, None, [Span(0.0, 1.0, "bar"), Span(2.0, 2.5, "baz")], true);
      && IntervalContaining(tier, Num(0.5)) == Ok(None)
      && IntervalContainingFixed(tier, Num(0.5)) == Ok(Some(Span(0.0, 1.0, "bar")))
      && IntervalContaining(tier, Num(2.25)) == Ok(Some(Span(2.0, 2.5, "baz")))
  {
    var tier := IntervalTier(Some("foo"), 0.0, None, [Span(0.0, 1.0, "bar"), Span(2.0, 2.5, "baz")], true);
    IndexContainingCorrect(tier, 0.5);
    IndexContainingCorrect(tier, 2.25);
    assert Contains(tier.intervals[0], Num(0.5));
    assert !Contains(tier.intervals[0], Num(2.25)) && Contains(tier.intervals[1], Num(2.25));
  }

  /** The corrected intervalContaining returns an interval containing t
      whenever one exists, the first such, and None only when none does. */
  lemma IntervalContainingFixedCorrect(tier: IntervalTier, t: real)
    requires Disjoint(tier.intervals)
    ensures IntervalContainingFixed(tier, Num(t)).Ok?
    ensures IntervalContainingFixed(tier, Num(t)).value.Some? <==>
      exists k :: 0 <= k < |tier.intervals| && Contains(tier.intervals[k], Num(t))
    ensures IntervalContainingFixed(tier, Num(t)).value.Some? ==>
      var iv := IntervalContainingFixed(tier, Num(t)).value.value;
      iv in tier.intervals && Contains(iv, Num(t))
  {
    IndexContainingCorrect(tier, t);
  }

  /** The library's own conflict case: adding [1, 3] to [0, 1], [2, 2.5]
      probes position 1 first and fails with ([2, 2.5], [1, 3]). */
  lemma AddIntervalConflictExample()
    ensures var tier := IntervalTier(Some("foo"), 0.0, None, [Span(0.0, 1.0, "bar"), Span(2.0, 2.5, "baz")], true);
      AddInterval(tier, Span(1.0, 3.0, "baz")) == Err(Conflict(Span(2.0, 2.5, "baz"), Span(1.0, 3.0, "baz")))
  {
    var ivs: seq<Interval> := [Span(0.0, 1.0, "bar"), Span(2.0, 2.5, "baz")];
    assert BisectLeft(IntervalProbe(ivs, Iv(Span(1.0, 3.0, "baz")), true), 0, 2) == ClashAt(1);
  }

  // ---------------------------------------------------------------------
  // Filling the gaps

  /** Consecutive entries meet: each ends where the next begins. */
  predicate Contiguous(ivs: seq<Interval>) {
    forall k :: 0 < k < |ivs| ==> ivs[k - 1].maxTime == ivs[k].minTime
  }

  /** Where the loop of _fillInTheGaps leaves prev_t: the end of the last
      interval, or the starting value when there is none. */
  function LastEnd(prev: real, ivs: seq<Interval>): real {
    if |ivs| == 0 then prev else ivs[|ivs| - 1].maxTime
  }

  /** The loop of _fillInTheGaps from prev_t == prev: a null-marked filler
      before each interval that starts later than prev_t, then the interval. */
  function FillFrom(prev: real, ivs: seq<Interval>, nullMark: string): seq<Interval>
    decreases |ivs|
  {
    if |ivs| == 0 then []
    else
      var filler: seq<Interval> := if prev < ivs[0].minTime then [Span(prev, ivs[0].minTime, nullMark)] else [];
      filler + [ivs[0]] + FillFrom(ivs[0].maxTime, ivs[1..], nullMark)
  }

  /** IntervalTier._fillInTheGaps(nullMark): the loop, then a final filler up to
      maxTime when maxTime is not None and lies beyond the last end. */
  function FillGaps(tier: IntervalTier, nullMark: string): seq<Interval> {
    var body := FillFrom(tier.minTime, tier.intervals, nullMark);
    var last := LastEnd(tier.minTime, tier.intervals);
    if tier.maxTime.Some? && last < tier.maxTime.value then body + [Span(last, tier.maxTime.value, nullMark)]
    else body
  }

  /** A filler: null-marked and overlapping none of the given intervals. */
  predicate IsFiller(ivs: seq<Interval>, y: Interval, nullMark: string) {
    y.mark == nullMark && !OverlapsSome(ivs, y)
  }

  /** The loop's output is contiguous from prev to the last end, and no
      more than twice as long as its input. */
  lemma {:induction false} FillFromContiguous(prev: real, ivs: seq<Interval>, nullMark: string)
    requires Disjoint(ivs)
    requires |ivs| > 0 ==> prev <= ivs[0].minTime
    ensures var r := FillFrom(prev, ivs, nullMark);
      && (|r| == 0 <==> |ivs| == 0)
      && |r| <= 2 * |ivs|
      && Contiguous(r)
      && (|r| > 0 ==> r[0].minTime == prev && r[|r| - 1].maxTime == LastEnd(prev, ivs))
    decreases |ivs|
  {
    if |ivs| > 0 {
      var tail := ivs[1..];
      assert Disjoint(tail);
      if |tail| > 0 {
        assert ivs[0].maxTime <= ivs[1].minTime;
      }
      FillFromContiguous(ivs[0].maxTime, tail, nullMark);
      var filler: seq<Interval> := if prev < ivs[0].minTime then [Span(prev, ivs[0].minTime, nullMark)] else [];
      var rest := FillFrom(ivs[0].maxTime, tail, nullMark);
      var r := FillFrom(prev, ivs, nullMark);
      assert r == filler + [ivs[0]] + rest;
      forall k | 0 < k < |r| ensures r[k - 1].maxTime == r[k].minTime {
        if k > |filler| + 1 {
          assert r[k - 1] == rest[k - 1 - |filler| - 1] && r[k] == rest[k - |filler| - 1];
        }
      }
      if |rest| > 0 {
        assert r[|r| - 1] == rest[|rest| - 1];
      }
    }
  }

  /** Every interval the loop is given appears in its output. */
  lemma {:induction false} FillFromKeeps(prev: real, ivs: seq<Interval>, nullMark: string)
    ensures forall k :: 0 <= k < |ivs| ==> ivs[k] in FillFrom(prev, ivs, nullMark)
    decreases |ivs|
  {
    if |ivs| > 0 {
      var tail := ivs[1..];
      FillFromKeeps(ivs[0].maxTime, tail, nullMark);
      forall k | 0 <= k < |ivs| ensures ivs[k] in FillFrom(prev, ivs, nullMark) {
        if k > 0 { assert ivs[k] == tail[k - 1]; }
      }
    }
  }

  /** Everything else in the loop's output is a filler after prev. */
  lemma {:induction false} FillFromOnlyFillers(prev: real, ivs: seq<Interval>, nullMark: string)
    requires Disjoint(ivs)
    requires |ivs| > 0 ==> prev <= ivs[0].minTime
    ensures forall y :: y in FillFrom(prev, ivs, nullMark) ==>
      y in ivs || (IsFiller(ivs, y, nullMark) && prev <= y.minTime)
    decreases |ivs|
  {
    if |ivs| > 0 {
      var tail := ivs[1..];
      assert Disjoint(tail);
      if |tail| > 0 {
        assert ivs[0].maxTime <= ivs[1].minTime;
      }
      FillFromOnlyFillers(ivs[0].maxTime, tail, nullMark);
      var filler: seq<Interval> := if prev < ivs[0].minTime then [Span(prev, ivs[0].minTime, nullMark)] else [];
      var rest := FillFrom(ivs[0].maxTime, tail, nullMark);
      assert FillFrom(prev, ivs, nullMark) == filler + [ivs[0]] + rest;
      forall y | y in rest && y !in ivs ensures IsFiller(ivs, y, nullMark) && prev <= y.minTime {
        forall k | 0 <= k < |ivs| ensures !Overlaps(ivs[k], y) {
          if k > 0 { assert ivs[k] == tail[k - 1]; }
        }
      }
      forall y | y in filler ensures IsFiller(ivs, y, nullMark) {
        forall k | 0 <= k < |ivs| ensures !Overlaps(ivs[k], y) {
          if k > 0 { assert ivs[0].maxTime <= ivs[k].minTime; }
        }
      }
    }
  }

  /** No interval of an overlap-free sequence ends after the last one. */
  lemma LastEndBounds(prev: real, ivs: seq<Interval>)
    requires Disjoint(ivs)
    ensures forall k :: 0 <= k < |ivs| ==> ivs[k].maxTime <= LastEnd(prev, ivs)
  {
    forall k | 0 <= k < |ivs| ensures ivs[k].maxTime <= LastEnd(prev, ivs) {
      if k < |ivs| - 1 { assert ivs[k].maxTime <= ivs[|ivs| - 1].minTime; }
    }
  }

  /** On an overlap-free tier whose intervals start no earlier than its
      minTime, _fillInTheGaps yields a gapless cover: contiguous, starting
      at minTime, and reaching maxTime when that is not None and not
      exceeded by the last interval. */
  lemma FillGapsCovers(tier: IntervalTier, nullMark: string)
    requires Disjoint(tier.intervals)
    requires |tier.intervals| > 0 ==> tier.minTime <= tier.intervals[0].minTime
    ensures var r := FillGaps(tier, nullMark);
      && Contiguous(r)
      && (|r| > 0 ==> r[0].minTime == tier.minTime)
      && (tier.maxTime.Some? && LastEnd(tier.minTime, tier.intervals) <= tier.maxTime.value && tier.minTime < tier.maxTime.value ==>
            |r| > 0 && r[|r| - 1].maxTime == tier.maxTime.value)
      && |r| <= 2 * |tier.intervals| + 1
  {
    var ivs := tier.intervals;
    FillFromContiguous(tier.minTime, ivs, nullMark);
    var body := FillFrom(tier.minTime, ivs, nullMark);
    var last := LastEnd(tier.minTime, ivs);
    if tier.maxTime.Some? && last < tier.maxTime.value {
      var r := FillGaps(tier, nullMark);
      assert r == body + [Span(last, tier.maxTime.value, nullMark)];
      forall k | 0 < k < |r| ensures r[k - 1].maxTime == r[k].minTime {
        if k < |body| { assert r[k - 1] == body[k - 1] && r[k] == body[k]; }
      }
    }
  }

  /** The filled tier holds every interval of the tier, and otherwise only
      null-marked fillers overlapping none of them. */
  lemma FillGapsMembers(tier: IntervalTier, nullMark: string)
    requires Disjoint(tier.intervals)
    requires |tier.intervals| > 0 ==> tier.minTime <= tier.intervals[0].minTime
    ensures var r := FillGaps(tier, nullMark);
      && (forall k :: 0 <= k < |tier.intervals| ==> tier.intervals[k] in r)
      && (forall y :: y in r ==> y in tier.intervals || IsFiller(tier.intervals, y, nullMark))
  {
    var ivs := tier.intervals;
    FillFromKeeps(tier.minTime, ivs, nullMark);
    FillFromOnlyFillers(tier.minTime, ivs, nullMark);
    var body := FillFrom(tier.minTime, ivs, nullMark);
    var last := LastEnd(tier.minTime, ivs);
    if tier.maxTime.Some? && last < tier.maxTime.value {
      LastEndBounds(tier.minTime, ivs);
      var y: Interval := Span(last, tier.maxTime.value, nullMark);
      assert FillGaps(tier, nullMark) == body + [y];
      assert !OverlapsSome(ivs, y);
    }
  }

  /** Contiguous intervals of positive duration are overlap-free. */
  lemma {:induction false} ContiguousIsDisjoint(ivs: seq<Interval>)
    requires Contiguous(ivs)
    ensures Disjoint(ivs)
    decreases |ivs|
  {
    if |ivs| > 1 {
      var init := ivs[..|ivs| - 1];
      assert Contiguous(init);
      ContiguousIsDisjoint(init);
      forall i, j | 0 <= i < j < |ivs| ensures ivs[i].maxTime <= ivs[j].minTime {
        if j < |ivs| - 1 {
          assert ivs[i] == init[i] && ivs[j] == init[j];
        } else if i < j - 1 {
          assert init[i].maxTime <= init[j - 1].minTime;
        }
      }
    }
  }

  /** Filling gaps a second time adds nothing: the filled tier already has
      no gap (from minTime, between entries, or up to maxTime). */
  lemma FillGapsIdempotent(tier: IntervalTier, nullMark: string)
    requires Disjoint(tier.intervals)
    requires |tier.intervals| > 0 ==> tier.minTime <= tier.intervals[0].minTime
    ensures FillGaps(tier.(intervals := FillGaps(tier, nullMark)), nullMark) == FillGaps(tier, nullMark)
  {
    FillGapsCovers(tier, nullMark);
    var r := FillGaps(tier, nullMark);
    ContiguousIsDisjoint(r);
    ContiguousFillsNothing(tier.minTime, r, nullMark);
    FillFromContiguous(tier.minTime, tier.intervals, nullMark);
    var last := LastEnd(tier.minTime, tier.intervals);
    if tier.maxTime.Some? && last < tier.maxTime.value {
      assert r[|r| - 1].maxTime == tier.maxTime.value;
    } else if |r| > 0 {
      assert r == FillFrom(tier.minTime, tier.intervals, nullMark);
    }
  }

  /** From the start of a contiguous sequence, the loop inserts no filler. */
  lemma {:induction false} ContiguousFillsNothing(prev: real, ivs: seq<Interval>, nullMark: string)
    requires Contiguous(ivs)
    requires |ivs| > 0 ==> ivs[0].minTime == prev
    ensures FillFrom(prev, ivs, nullMark) == ivs
    decreases |ivs|
  {
    if |ivs| > 0 {
      assert Contiguous(ivs[1..]);
      if |ivs| > 1 {
        assert ivs[1].minTime == ivs[0].maxTime;
      }
      ContiguousFillsNothing(ivs[0].maxTime, ivs[1..], nullMark);
      assert [ivs[0]] + ivs[1..] == ivs;
    }
  }

  /** The library's own case: [1.3, 2.4] and [2.7, 3.3] in a tier from 0 to
      3.5 are filled with [0, 1.3], [2.4, 2.7] and [3.3, 3.5]. */
  lemma FillGapsExample()
    ensures var tier := IntervalTier(Some("foo"), 0.0, Some(3.5), [Span(1.3, 2.4, "bar"), Span(2.7, 3.3, "baz")], true);
      FillGaps(tier, "") == [Span(0.0, 1.3, ""), Span(1.3, 2.4, "bar"), Span(2.4, 2.7, ""), Span(2.7, 3.3, "baz"), Span(3.3, 3.5, "")]
  {
    var ivs: seq<Interval> := [Span(1.3, 2.4, "bar"), Span(2.7, 3.3, "baz")];
    assert ivs[1..] == [Span(2.7, 3.3, "baz")];
    assert FillFrom(2.4, ivs[1..], "") == [Span(2.4, 2.7, ""), Span(2.7, 3.3, "baz")];
  }
}
