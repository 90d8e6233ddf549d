/** Temporal primitives of a TextGrid: marked points and marked intervals,
    and the comparisons the library overloads on them. The duck-typed
    operand of those comparisons (a bare number, a Point or an Interval)
    becomes the closed variant `Operand`. */
module Primitives {
  import opened Wrappers

  /** An instantaneous annotated event. */
  datatype Point = Point(time: real, mark: string)

  /** A raw marked span; only spans of positive duration are Intervals. */
  datatype Span = Span(minTime: real, maxTime: real, mark: string)

  /** The constructor invariant: an Interval has positive duration. */
  type Interval = s: Span | s.minTime < s.maxTime witness Span(0.0, 1.0, "")

  /** The right-hand side of a comparison or containment test. */
  datatype Operand = Num(x: real) | Pt(p: Point) | Iv(i: Interval)

  /** Every exception the modelled code raises, with the data it carries. */
  datatype Error =
    | BadDuration(minTime: real, maxTime: real)     // Interval(min, max) with min >= max
    | Conflict(existing: Interval, added: Interval) // strict comparison of overlapping intervals
    | TooEarly(minBound: real)                      // insertion before the tier's (grid's) minTime
    | TooLate(maxBound: real)                       // insertion after the tier's (grid's) maxTime
    | DuplicatePoint(point: Point)                  // a point already sits at that time
    | DuplicateInterval(existing: Interval)         // non-strict insertion of identical bounds
    | NotInList                                     // list.remove of an absent element
    | NoSuchIndex                                   // list.pop out of range
    | EmptyTierList                                 // min() of an empty list of tiers
    | Incomparable                                  // a number compared with a Point (TypeError)
    | BadEntry(line: string)                        // a mark line without its `text = "` prefix
    | UnexpectedEof(start: string)                  // input ended inside a quoted mark
    | NoMatch(text: string)                         // a regular expression did not match
    | BadNumber(text: string)                       // float() / int() could not parse the text
    | NotAString(x: real)                           // a bare number where a quoted value belongs
    | NotANumber(text: string)                      // a quoted value where a number belongs
    | BadHeader                                     // missing `ooTextFile` or wrong object class
    | NullDuration                                  // MLF record with equal start and end
    | NoMaxTime                                     // the writer cannot determine the grid's end
    | Unnamed                                       // a file name taken from a grid without a name

  /** Interval(minTime, maxTime, mark): fails exactly for a non-positive duration. */
  function MakeInterval(minTime: real, maxTime: real, mark: string): (r: Result<Interval, Error>)
    ensures r.Ok? <==> minTime < maxTime
    ensures r.Ok? ==> r.value.minTime == minTime && r.value.maxTime == maxTime && r.value.mark == mark
    ensures r.Err? ==> r.error == BadDuration(minTime, maxTime)
  {
    if minTime >= maxTime then Err(BadDuration(minTime, maxTime))
    else Ok(Span(minTime, maxTime, mark))
  }

  /** Interval.duration: the positive length of the interval. */
  function Duration(i: Interval): (d: real)
    ensures d > 0.0
    ensures i.minTime + d == i.maxTime
  {
    i.maxTime - i.minTime
  }

  /** Interval.overlaps: the two spans share more than a boundary. */
  predicate Overlaps(a: Interval, b: Interval) {
    b.minTime < a.maxTime && a.minTime < b.maxTime
  }

  /** Two intervals with the same bounds, whatever their marks (Interval.__eq__). */
  predicate SameBounds(a: Interval, b: Interval) {
    a.minTime == b.minTime && a.maxTime == b.maxTime
  }

  /** Interval.__contains__: inclusive for numbers and points, nesting for intervals. */
  predicate Contains(i: Interval, o: Operand) {
    match o
    case Num(x) => i.minTime <= x <= i.maxTime
    case Pt(p) => i.minTime <= p.time <= i.maxTime
    case Iv(j) => i.minTime <= j.minTime && j.maxTime <= i.maxTime
  }

  /** The instant t lies strictly inside the interval. */
  predicate Inside(i: Interval, t: real) {
    i.minTime < t < i.maxTime
  }

  /** Point.__eq__: by time for points and numbers, strictly inside for intervals. */
  predicate PointEq(p: Point, o: Operand) {
    match o
    case Num(x) => p.time == x
    case Pt(q) => p.time == q.time
    case Iv(i) => Inside(i, p.time)
  }

  /** Point.__lt__: an interval is compared with its start. */
  predicate PointLt(p: Point, o: Operand) {
    match o
    case Num(x) => p.time < x
    case Pt(q) => p.time < q.time
    case Iv(i) => p.time < i.minTime
  }

  /** Point.__gt__: an interval is compared with its end. */
  predicate PointGt(p: Point, o: Operand) {
    match o
    case Num(x) => p.time > x
    case Pt(q) => p.time > q.time
    case Iv(i) => p.time > i.maxTime
  }

  /** Interval.__eq__: identical bounds for intervals, strictly inside for
      points, never equal to a bare number. */
  predicate IntervalEq(a: Interval, o: Operand) {
    match o
    case Num(_) => false
    case Pt(p) => Inside(a, p.time)
    case Iv(b) => SameBounds(a, b)
  }

  /** Interval.__lt__: between intervals it orders by start, but under
      `strict` an overlap raises an error carrying (self, other). */
  function IntervalLt(a: Interval, o: Operand, strict: bool): Result<bool, Error> {
    match o
    case Num(x) => Ok(a.maxTime < x)
    case Pt(p) => Ok(a.maxTime < p.time)
    case Iv(b) =>
      if strict && Overlaps(a, b) then Err(Conflict(a, b)) else Ok(a.minTime < b.minTime)
  }

  /** Interval.__gt__: between intervals it orders by end, with the same
      overlap error as IntervalLt. */
  function IntervalGt(a: Interval, o: Operand, strict: bool): Result<bool, Error> {
    match o
    case Num(x) => Ok(a.minTime > x)
    case Pt(p) => Ok(a.minTime > p.time)
    case Iv(b) =>
      if strict && Overlaps(a, b) then Err(Conflict(a, b)) else Ok(a.maxTime > b.maxTime)
  }

  /** Python truthiness of an optional bound: None and 0 both read as unset,
      which is how the tiers' upper-bound checks test `maxTime`. */
  predicate Truthy(bound: Option<real>) {
    bound.Some? && bound.value != 0.0
  }

  /** Overlap is symmetric, and an interval always overlaps itself. */
  lemma OverlapsSymmetric(a: Interval, b: Interval)
    ensures Overlaps(a, b) == Overlaps(b, a)
    ensures Overlaps(a, a)
  {
  }

  /** Overlap means a shared interior instant: the reference definition of
      overlapping as "some time lies strictly inside both". */
  lemma OverlapsIffSharedInstant(a: Interval, b: Interval)
    ensures Overlaps(a, b) <==> exists t: real :: Inside(a, t) && Inside(b, t)
  {
    if Overlaps(a, b) {
      var lo := if a.minTime < b.minTime then b.minTime else a.minTime;
      var hi := if a.maxTime < b.maxTime then a.maxTime else b.maxTime;
      var t := (lo + hi) / 2.0;
      assert Inside(a, t) && Inside(b, t);
    }
  }

  /** Touching intervals do not overlap, e.g. [0, 2] and [2, 2.5]. */
  lemma TouchingDoNotOverlap(a: Interval, b: Interval)
    requires a.maxTime == b.minTime
    ensures !Overlaps(a, b) && !Overlaps(b, a)
  {
  }

  /** A Point equals an Interval only strictly inside it, while containment
      is inclusive: equality implies containment, and the converse fails
      exactly at the two boundaries. */
  lemma PointEqualityVersusContainment(p: Point, i: Interval)
    ensures PointEq(p, Iv(i)) == IntervalEq(i, Pt(p))
    ensures PointEq(p, Iv(i)) ==> Contains(i, Pt(p))
    ensures Contains(i, Pt(p)) && !PointEq(p, Iv(i)) <==> p.time == i.minTime || p.time == i.maxTime
    ensures Contains(i, Pt(p)) == Contains(i, Num(p.time))
  {
  }

  /** Between intervals that do not overlap the strict comparison never
      fails and is a strict total order: exactly one of a < b and b < a
      holds, and `>` agrees with the reversed `<`. Between overlapping
      intervals the strict comparison always fails with (self, other). */
  lemma IntervalOrderIsTotalOnDisjoint(a: Interval, b: Interval, strict: bool)
    ensures !Overlaps(a, b) ==>
      && IntervalLt(a, Iv(b), strict).Ok? && IntervalLt(b, Iv(a), strict).Ok?
      && (IntervalLt(a, Iv(b), strict).value <==> !IntervalLt(b, Iv(a), strict).value)
      && IntervalGt(a, Iv(b), strict) == IntervalLt(b, Iv(a), strict)
    ensures strict && Overlaps(a, b) ==>
      IntervalLt(a, Iv(b), strict) == Err(Conflict(a, b)) && IntervalGt(a, Iv(b), strict) == Err(Conflict(a, b))
  {
  }

  /** The strict interval order is transitive where it is defined. */
  lemma IntervalLtTransitive(a: Interval, b: Interval, c: Interval)
    requires IntervalLt(a, Iv(b), true) == Ok(true)
    requires IntervalLt(b, Iv(c), true) == Ok(true)
    requires !Overlaps(a, c)
    ensures IntervalLt(a, Iv(c), true) == Ok(true)
  {
  }

  /** The comparisons exercised by the library's tests: Point(3) < Point(4),
      Point(3) == Point(3) whatever the mark, Point(4) == Interval(3, 5) but
      Point(3) != Interval(3, 5), while 3 and Point(3) are inside it. */
  lemma ComparisonExamples()
    ensures PointLt(Point(3.0, "foo"), Pt(Point(4.0, "bar")))
    ensures PointEq(Point(3.0, "foo"), Pt(Point(3.0, "baz")))
    ensures PointEq(Point(4.0, "bar"), Iv(Span(3.0, 5.0, "baz")))
    ensures !PointEq(Point(3.0, "foo"), Iv(Span(3.0, 5.0, "baz")))
    ensures !PointLt(Point(3.0, "foo"), Iv(Span(3.0, 5.0, "baz")))
    ensures Contains(Span(3.0, 5.0, "baz"), Num(3.0)) && Contains(Span(3.0, 5.0, "baz"), Pt(Point(3.0, "foo")))
    ensures !Overlaps(Span(0.0, 2.0, "bar"), Span(2.0, 2.5, "baz"))
    ensures MakeInterval(2.5, 2.5, "bar").Err?
  {
  }
}
