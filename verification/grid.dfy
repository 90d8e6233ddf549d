/** TextGrid: a user-ordered list of tiers (point or interval), with
    optional bounds, and the list operations the library provides. */
module Grids {
  import opened Wrappers
  import opened Primitives
  import opened Seqs
  import opened PointTiers
  import opened IntervalTiers

  /** A tier of either kind. */
  datatype Tier = Points(pt: PointTier) | Intervals(it: IntervalTier)
  {
    function Name(): Option<string> {
      match this
      case Points(t) => t.name
      case Intervals(t) => t.name
    }
    function MinTime(): real {
      match this
      case Points(t) => t.minTime
      case Intervals(t) => t.minTime
    }
    function MaxTime(): Option<real> {
      match this
      case Points(t) => t.maxTime
      case Intervals(t) => t.maxTime
    }
  }

  datatype TextGrid = TextGrid(
    name: Option<string>,
    minTime: real,
    maxTime: Option<real>,
    tiers: seq<Tier>,
    strict: bool)

  /** TextGrid(name): minTime 0, no maxTime, strict, no tiers. */
  function EmptyTextGrid(name: Option<string>): TextGrid {
    TextGrid(name, 0.0, None, [], true)
  }

  /** The tier's maxTime does not exceed the grid's, where both are set:
      the condition append enforces. */
  predicate EndsInGrid(g: TextGrid, t: Tier) {
    g.maxTime.None? || t.MaxTime().None? || t.MaxTime().value <= g.maxTime.value
  }

  predicate GridBounded(g: TextGrid) {
    forall k :: 0 <= k < |g.tiers| ==> EndsInGrid(g, g.tiers[k])
  }

  /** TextGrid.getNames. */
  function GetNames(g: TextGrid): (r: seq<Option<string>>)
    ensures |r| == |g.tiers|
    ensures forall k :: 0 <= k < |r| ==> r[k] == g.tiers[k].Name()
  {
    seq(|g.tiers|, k requires 0 <= k < |g.tiers| => g.tiers[k].Name())
  }

  /** The loop of getFirst over the remaining tiers. */
  function FirstNamed(ts: seq<Tier>, name: Option<string>): (r: Option<Tier>)
    ensures r.None? <==> forall k :: 0 <= k < |ts| ==> ts[k].Name() != name
    ensures r.Some? ==> r.value in ts && r.value.Name() == name
  {
    if |ts| == 0 then None
    else if ts[0].Name() == name then Some(ts[0])
    else FirstNamed(ts[1..], name)
  }

  /** TextGrid.getFirst: the first tier with the name, None if there is none. */
  function GetFirst(g: TextGrid, name: Option<string>): Option<Tier> {
    FirstNamed(g.tiers, name)
  }

  /** The loop of getList over the remaining tiers. */
  function AllNamed(ts: seq<Tier>, name: Option<string>): (r: seq<Tier>)
    ensures |r| <= |ts|
    ensures forall t :: t in r <==> t in ts && t.Name() == name
  {
    if |ts| == 0 then []
    else if ts[0].Name() == name then [ts[0]] + AllNamed(ts[1..], name)
    else AllNamed(ts[1..], name)
  }

  /** TextGrid.getList: all tiers with the name, in grid order. */
  function GetList(g: TextGrid, name: Option<string>): seq<Tier> {
    AllNamed(g.tiers, name)
  }

  /** What append does to a tier: the grid's strictness is pushed onto it
      and onto its elements (an interval tier keeps strictness per tier). */
  function WithStrict(t: Tier, strict: bool): (r: Tier)
    ensures r.Name() == t.Name() && r.MinTime() == t.MinTime() && r.MaxTime() == t.MaxTime()
    ensures t.Points? ==> r == t
    ensures t.Intervals? ==> r.Intervals? && r.it.intervals == t.it.intervals && r.it.strict == strict
  {
    match t
    case Points(p) => Points(p)
    case Intervals(i) => Intervals(i.(strict := strict))
  }

  /** TextGrid.append: rejects a tier ending after the grid only when both
      ends are set; never checks the tier's start. */
  function Append(g: TextGrid, t: Tier): (r: Result<TextGrid, Error>)
    ensures r.Ok? <==> EndsInGrid(g, t)
    ensures r.Err? ==> r.error == TooLate(g.maxTime.value)
    ensures r.Ok? ==> r.value == g.(tiers := g.tiers + [WithStrict(t, g.strict)])
  {
    if g.maxTime.Some? && t.MaxTime().Some? && t.MaxTime().value > g.maxTime.value then Err(TooLate(g.maxTime.value))
    else Ok(g.(tiers := g.tiers + [WithStrict(t, g.strict)]))
  }

  function MinOfMinTimes(ts: seq<Tier>): (m: real)
    requires |ts| > 0
    ensures forall k :: 0 <= k < |ts| ==> m <= ts[k].MinTime()
    ensures exists k :: 0 <= k < |ts| && m == ts[k].MinTime()
  {
    if |ts| == 1 then ts[0].MinTime()
    else
      var m := MinOfMinTimes(ts[1..]);
      assert forall k :: 1 <= k < |ts| ==> ts[k] == ts[1..][k - 1];
      if ts[0].MinTime() <= m then ts[0].MinTime() else m
  }

  function MaxOfMinTimes(ts: seq<Tier>): (m: real)
    requires |ts| > 0
    ensures forall k :: 0 <= k < |ts| ==> ts[k].MinTime() <= m
    ensures exists k :: 0 <= k < |ts| && m == ts[k].MinTime()
  {
    if |ts| == 1 then ts[0].MinTime()
    else
      var m := MaxOfMinTimes(ts[1..]);
      assert forall k :: 1 <= k < |ts| ==> ts[k] == ts[1..][k - 1];
      if ts[0].MinTime() >= m then ts[0].MinTime() else m
  }

  /** TextGrid.extend as written: min() of an empty list raises; the
      earliest tier start is checked against the grid's start, and, when
      the grid's maxTime is truthy, the LATEST tier START against it; the
      tiers are added without pushing strictness. */
  function Extend(g: TextGrid, ts: seq<Tier>): Result<TextGrid, Error> {
    if |ts| == 0 then Err(EmptyTierList)
    else if MinOfMinTimes(ts) < g.minTime then Err(TooEarly(g.minTime))
    else if Truthy(g.maxTime) && MaxOfMinTimes(ts) > g.maxTime.value then Err(TooLate(g.maxTime.value))
    else Ok(g.(tiers := g.tiers + ts))
  }

  /** extend with the upper check append makes: each tier's END against the
      grid's maxTime, where both are set. */
  function ExtendFixed(g: TextGrid, ts: seq<Tier>): Result<TextGrid, Error> {
    if |ts| == 0 then Err(EmptyTierList)
    else if MinOfMinTimes(ts) < g.minTime then Err(TooEarly(g.minTime))
    else if exists k :: 0 <= k < |ts| && !EndsInGrid(g, ts[k]) then Err(TooLate(g.maxTime.value))
    else Ok(g.(tiers := g.tiers + ts))
  }

  /** list.pop(i): negative positions count from the end; out of range
      (including any position of an empty list) raises IndexError. */
  function PopAt(ts: seq<Tier>, i: int): Result<(Tier, seq<Tier>), Error> {
    var k := if i < 0 then i + |ts| else i;
    if 0 <= k < |ts| then Ok((ts[k], DeleteAt(ts, k))) else Err(NoSuchIndex)
  }

  /** TextGrid.pop(i) as written: `if i` sends both None and 0 to pop(),
      which removes the LAST tier. */
  function Pop(g: TextGrid, i: Option<int>): Result<(Tier, TextGrid), Error> {
    var popped :- if i.Some? && i.value != 0 then PopAt(g.tiers, i.value) else PopAt(g.tiers, -1);
    Ok((popped.0, g.(tiers := popped.1)))
  }

  /** pop as documented: the tier at index i, the last one only by default. */
  function PopFixed(g: TextGrid, i: Option<int>): Result<(Tier, TextGrid), Error> {
    var popped :- if i.Some? then PopAt(g.tiers, i.value) else PopAt(g.tiers, -1);
    Ok((popped.0, g.(tiers := popped.1)))
  }

  // ---------------------------------------------------------------------
  // Lookup

  /** getFirst is the head of getList: None exactly when getList is empty. */
  lemma {:induction false} FirstIsHeadOfList(ts: seq<Tier>, name: Option<string>)
    ensures FirstNamed(ts, name).None? <==> AllNamed(ts, name) == []
    ensures FirstNamed(ts, name).Some? ==> FirstNamed(ts, name).value == AllNamed(ts, name)[0]
  {
    if |ts| > 0 && ts[0].Name() != name {
      FirstIsHeadOfList(ts[1..], name);
    }
  }

  /** getFirst returns the tier at the first position getNames lists the
      name at, and getList has one entry per such position. */
  lemma LookupAgreesWithNames(g: TextGrid, name: Option<string>)
    ensures GetFirst(g, name).Some? <==> name in GetNames(g)
    ensures GetFirst(g, name).Some? ==>
      exists k :: 0 <= k < |g.tiers| && GetNames(g)[k] == name && GetFirst(g, name) == Some(g.tiers[k])
        && forall j :: 0 <= j < k ==> GetNames(g)[j] != name
    ensures |GetList(g, name)| == multiset(GetNames(g))[name]
  {
    FirstAtFirstPosition(g.tiers, name);
    ListCountsNames(g.tiers, name);
    NamesOfIndex(g.tiers);
    assert GetNames(g) == NamesOf(g.tiers);
  }

  /** getList is the in-order filter of the tiers: the scan of two runs of
      tiers, one after the other, lists the first run's tiers before the
      second's; with AllNamedSingle this fixes the list for every grid. */
  lemma {:induction false} AllNamedIsFilter(s: seq<Tier>, t: seq<Tier>, name: Option<string>)
    ensures AllNamed(s + t, name) == AllNamed(s, name) + AllNamed(t, name)
    decreases |s|
  {
    if |s| == 0 {
      assert s + t == t;
    } else {
      var u := s + t;
      var head := if s[0].Name() == name then [s[0]] else [];
      AllNamedCons(s, name);
      AllNamedCons(u, name);
      assert u[0] == s[0] && u[1..] == s[1..] + t;
      AllNamedIsFilter(s[1..], t, name);
      ConcatAssoc(head, AllNamed(s[1..], name), AllNamed(t, name));
    }
  }

  /** A single tier is listed exactly when it has the name. */
  lemma AllNamedSingle(x: Tier, name: Option<string>)
    ensures AllNamed([x], name) == (if x.Name() == name then [x] else [])
  {
  }

  lemma AllNamedCons(ts: seq<Tier>, name: Option<string>)
    requires |ts| > 0
    ensures AllNamed(ts, name) == (if ts[0].Name() == name then [ts[0]] else []) + AllNamed(ts[1..], name)
  {
  }

  function NamesOf(ts: seq<Tier>): seq<Option<string>> {
    if |ts| == 0 then [] else [ts[0].Name()] + NamesOf(ts[1..])
  }

  lemma {:induction false} FirstAtFirstPosition(ts: seq<Tier>, name: Option<string>)
    ensures FirstNamed(ts, name).Some? ==>
      exists k :: 0 <= k < |ts| && ts[k].Name() == name && FirstNamed(ts, name) == Some(ts[k])
        && forall j :: 0 <= j < k ==> ts[j].Name() != name
  {
    if |ts| > 0 && ts[0].Name() != name {
      FirstAtFirstPosition(ts[1..], name);
      if FirstNamed(ts, name).Some? {
        var k :| 0 <= k < |ts[1..]| && ts[1..][k].Name() == name && FirstNamed(ts[1..], name) == Some(ts[1..][k])
          && forall j :: 0 <= j < k ==> ts[1..][j].Name() != name;
        assert ts[k + 1] == ts[1..][k];
        forall j | 0 <= j < k + 1 ensures ts[j].Name() != name {
          if j > 0 { assert ts[j] == ts[1..][j - 1]; }
        }
      }
    }
  }

  lemma {:induction false} ListCountsNames(ts: seq<Tier>, name: Option<string>)
    ensures |AllNamed(ts, name)| == multiset(NamesOf(ts))[name]
  {
    if |ts| > 0 {
      ListCountsNames(ts[1..], name);
      assert multiset(NamesOf(ts)) == multiset{ts[0].Name()} + multiset(NamesOf(ts[1..]));
    }
  }

  lemma {:induction false} NamesOfIndex(ts: seq<Tier>)
    ensures |NamesOf(ts)| == |ts|
    ensures forall k :: 0 <= k < |ts| ==> NamesOf(ts)[k] == ts[k].Name()
  {
    if |ts| > 0 {
      NamesOfIndex(ts[1..]);
    }
  }

  // ---------------------------------------------------------------------
  // Growing the grid

  /** append keeps every tier within the grid's end (where both are set),
      adds exactly one tier at the end, and gives it the grid's strictness. */
  lemma AppendKeepsBounded(g: TextGrid, t: Tier)
    requires GridBounded(g)
    ensures Append(g, t).Ok? ==>
      var r := Append(g, t).value;
      && GridBounded(r)
      && r.tiers[..|g.tiers|] == g.tiers
      && r.tiers[|g.tiers|].Name() == t.Name()
      && (r.tiers[|g.tiers|].Intervals? ==> r.tiers[|g.tiers|].it.strict == g.strict)
  {
    if Append(g, t).Ok? {
      var r := Append(g, t).value;
      assert r.tiers[..|g.tiers|] == g.tiers;
      forall k | 0 <= k < |r.tiers| ensures EndsInGrid(r, r.tiers[k]) {
        if k < |g.tiers| { assert r.tiers[k] == g.tiers[k]; }
      }
    }
  }

  /** extend as written: it fails on an empty list, and otherwise succeeds
      exactly when no tier starts before the grid and, under a truthy
      maxTime, no tier STARTS after it. */
  lemma ExtendAsWritten(g: TextGrid, ts: seq<Tier>)
    ensures Extend(g, ts).Ok? <==>
      && |ts| > 0
      && (forall k :: 0 <= k < |ts| ==> g.minTime <= ts[k].MinTime())
      && (Truthy(g.maxTime) ==> forall k :: 0 <= k < |ts| ==> ts[k].MinTime() <= g.maxTime.value)
    ensures Extend(g, ts).Ok? ==> Extend(g, ts).value.tiers == g.tiers + ts
  {
  }

  /** Finding: extend lets through a tier that ends after the grid, which
      append of the same tier rejects, breaking the bound append keeps. */
  lemma ExtendIgnoresTierEnds()
    ensures var g := TextGrid(None, 0.0, Some(1.0), [], true);
      var t := Intervals(IntervalTier(Some("late"), 0.0, Some(5.0), [], true));
      && GridBounded(g)
      && Extend(g, [t]).Ok?
      && !GridBounded(Extend(g, [t]).value)
      && Append(g, t).Err?
  {
    var g := TextGrid(None, 0.0, Some(1.0), [], true);
    var t := Intervals(IntervalTier(Some("late"), 0.0, Some(5.0), [], true));
    assert Extend(g, [t]).value.tiers[0] == t;
  }

  /** The corrected extend accepts a non-empty list exactly when every tier
      starts within the grid and passes append's end check, and keeps the
      grid bounded. */
  lemma ExtendFixedKeepsBounded(g: TextGrid, ts: seq<Tier>)
    requires GridBounded(g)
    ensures ExtendFixed(g, ts).Ok? <==>
      && |ts| > 0
      && (forall k :: 0 <= k < |ts| ==> g.minTime <= ts[k].MinTime() && Append(g, ts[k]).Ok?)
    ensures ExtendFixed(g, ts).Ok? ==>
      GridBounded(ExtendFixed(g, ts).value) && ExtendFixed(g, ts).value.tiers == g.tiers + ts
  {
    if ExtendFixed(g, ts).Ok? {
      var r := ExtendFixed(g, ts).value;
      forall k | 0 <= k < |r.tiers| ensures EndsInGrid(r, r.tiers[k]) {
        if k < |g.tiers| { assert r.tiers[k] == g.tiers[k]; }
        else { assert r.tiers[k] == ts[k - |g.tiers|]; }
      }
    }
  }

  // ---------------------------------------------------------------------
  // Popping

  /** Python's list.pop(i): the tier at the normalised index comes out, and
      putting it back there restores the list. */
  lemma PopAtInverse(ts: seq<Tier>, i: int)
    ensures PopAt(ts, i).Ok? <==> -|ts| <= i < |ts|
    ensures PopAt(ts, i).Ok? ==>
      var k := if i < 0 then i + |ts| else i;
      && PopAt(ts, i).value.0 == ts[k]
      && InsertAt(PopAt(ts, i).value.1, k, PopAt(ts, i).value.0) == ts
  {
    if -|ts| <= i < |ts| {
      var k := if i < 0 then i + |ts| else i;
      InsertDeleted(ts, k);
    }
  }

  /** Finding: pop(0) on a grid of two tiers returns the second tier, not
      the first. */
  lemma PopZeroPopsLast(a: Tier, b: Tier)
    requires a != b
    ensures var g := TextGrid(None, 0.0, None, [a, b], true);
      && Pop(g, Some(0)) == Ok((b, g.(tiers := [a])))
      && Pop(g, Some(0)).value.0 != g.tiers[0]
  {
    var g := TextGrid(None, 0.0, None, [a, b], true);
    assert DeleteAt(g.tiers, 1) == [a];
  }

  /** The corrected pop removes exactly the tier at index i (counting from
      the end when negative), the last one by default, and reinserting it
      there restores the grid. */
  lemma PopFixedCorrect(g: TextGrid, i: Option<int>)
    ensures PopFixed(g, i).Ok? <==> if i.Some? then -|g.tiers| <= i.value < |g.tiers| else |g.tiers| > 0
    ensures PopFixed(g, i).Err? ==> PopFixed(g, i).error == NoSuchIndex
    ensures PopFixed(g, i).Ok? ==>
      var k := if i.None? then |g.tiers| - 1 else if i.value < 0 then i.value + |g.tiers| else i.value;
      var (t, r) := PopFixed(g, i).value;
      && 0 <= k < |g.tiers|
      && t == g.tiers[k]
      && r.(tiers := g.tiers) == g
      && InsertAt(r.tiers, k, t) == g.tiers
  {
    PopAtInverse(g.tiers, if i.Some? then i.value else -1);
  }

  /** As written, pop agrees with the corrected pop except at index 0 of a
      grid with more than one tier. */
  lemma PopAgreesExceptAtZero(g: TextGrid, i: Option<int>)
    requires i != Some(0) || |g.tiers| <= 1
    ensures Pop(g, i) == PopFixed(g, i)
  {
  }

  // ---------------------------------------------------------------------
  // The library's own example

  /** A grid extended with [bar, baz] and then given bar again lists the
      names [bar, baz, bar], keeps minTime 0 and no maxTime, finds the first
      bar first and both bars by getList. */
  lemma GridExample(bar: PointTier, baz: IntervalTier)
    requires bar.name == Some("bar") && baz.name == Some("baz")
    requires bar.minTime == 0.0 && baz.minTime == 0.0
    ensures var g := EmptyTextGrid(Some("foo"));
      && Extend(g, [Points(bar), Intervals(baz)]).Ok?
      && Append(Extend(g, [Points(bar), Intervals(baz)]).value, Points(bar)).Ok?
      && var g2 := Append(Extend(g, [Points(bar), Intervals(baz)]).value, Points(bar)).value;
        && GetNames(g2) == [Some("bar"), Some("baz"), Some("bar")]
        && g2.minTime == 0.0 && g2.maxTime == None
        && GetFirst(g2, Some("bar")) == Some(Points(bar))
        && GetList(g2, Some("bar")) == [Points(bar), Points(bar)]
  {
    var g := EmptyTextGrid(Some("foo"));
    var ts := [Points(bar), Intervals(baz)];
    assert MinOfMinTimes(ts) == 0.0;
    var g1 := Extend(g, ts).value;
    var g2 := Append(g1, Points(bar)).value;
    assert g2.tiers == [Points(bar), Intervals(baz), Points(bar)];
    assert g2.tiers[1..] == [Intervals(baz), Points(bar)];
    assert g2.tiers[1..][1..] == [Points(bar)];
    assert GetNames(g2) == [Some("bar"), Some("baz"), Some("bar")];
    assert AllNamed([Points(bar)], Some("bar")) == [Points(bar)];
    assert AllNamed(g2.tiers[1..], Some("bar")) == [Points(bar)];
  }
}
