/** Python's `bisect.bisect_left`, abstracted over the comparison it makes.
    The library calls it on lists whose `<` may raise (a strict Interval
    comparison of overlapping intervals), so each probe of position k
    answers `a[k] < x` (Below), its negation (NotBelow), or raises (Clash). */
module Bisection {

  datatype Probe = Below | NotBelow | Clash

  /** The insertion point found, or the position whose comparison raised. */
  datatype Found = At(index: nat) | ClashAt(index: nat)

  /** bisect_left(a, x, lo, hi): halve [lo, hi) with mid = (lo + hi) // 2. */
  function BisectLeft(probe: nat -> Probe, lo: nat, hi: nat): (r: Found)
    requires lo <= hi
    ensures r.At? ==> lo <= r.index <= hi
    ensures r.ClashAt? ==> lo <= r.index < hi && probe(r.index) == Clash
    decreases hi - lo
  {
    if lo < hi then
      var mid := (lo + hi) / 2;
      match probe(mid)
      case Below => BisectLeft(probe, mid + 1, hi)
      case NotBelow => BisectLeft(probe, lo, mid)
      case Clash => ClashAt(mid)
    else
      At(lo)
  }

  /** The linear reference: scan from k for the first position that is not
      Below, reporting it as the insertion point or as the clash. */
  function ScanLeft(probe: nat -> Probe, k: nat, n: nat): (r: Found)
    requires k <= n
    decreases n - k
  {
    if k < n then
      match probe(k)
      case Below => ScanLeft(probe, k + 1, n)
      case NotBelow => At(k)
      case Clash => ClashAt(k)
    else
      At(n)
  }

  /** The answers over [0, n) come in the order Below..., Clash..., NotBelow...:
      Below is closed downwards and NotBelow upwards. */
  ghost predicate Partitioned(probe: nat -> Probe, n: nat) {
    forall j: nat, k: nat :: j <= k < n ==>
      (probe(k) == Below ==> probe(j) == Below) && (probe(j) == NotBelow ==> probe(k) == NotBelow)
  }

  /** The insertion point i splits [0, n) into Below before it and NotBelow after. */
  ghost predicate SplitsAt(probe: nat -> Probe, n: nat, i: nat) {
    && i <= n
    && (forall k: nat :: k < i ==> probe(k) == Below)
    && (forall k: nat :: i <= k < n ==> probe(k) == NotBelow)
  }

  lemma {:induction false} BisectSplitsFrom(probe: nat -> Probe, lo: nat, hi: nat, n: nat)
    requires lo <= hi <= n
    requires Partitioned(probe, n)
    requires forall k: nat :: k < lo ==> probe(k) == Below
    requires forall k: nat :: hi <= k < n ==> probe(k) == NotBelow
    ensures BisectLeft(probe, lo, hi).At? ==> SplitsAt(probe, n, BisectLeft(probe, lo, hi).index)
    decreases hi - lo
  {
    if lo < hi {
      var mid := (lo + hi) / 2;
      match probe(mid)
      case Below =>
        forall k: nat | k < mid + 1 ensures probe(k) == Below {
          if k < mid { assert probe(mid) == Below; }
        }
        BisectSplitsFrom(probe, mid + 1, hi, n);
      case NotBelow =>
        forall k: nat | mid <= k < n ensures probe(k) == NotBelow {
          assert probe(mid) == NotBelow;
        }
        BisectSplitsFrom(probe, lo, mid, n);
      case Clash =>
    }
  }

  /** On partitioned answers binary search is exact: an insertion point it
      returns splits Below from NotBelow, and if any position clashes the
      O(log n) probes are guaranteed to hit a clashing one. */
  lemma BisectLeftCorrect(probe: nat -> Probe, n: nat)
    requires Partitioned(probe, n)
    ensures BisectLeft(probe, 0, n).At? ==> SplitsAt(probe, n, BisectLeft(probe, 0, n).index)
    ensures forall c: nat :: c < n && probe(c) == Clash ==> BisectLeft(probe, 0, n).ClashAt?
  {
    BisectSplitsFrom(probe, 0, n, n);
  }

  lemma {:induction false} ScanSplitsFrom(probe: nat -> Probe, k: nat, n: nat)
    requires k <= n
    requires Partitioned(probe, n)
    requires forall j: nat :: j < k ==> probe(j) == Below
    ensures ScanLeft(probe, k, n).At? ==> SplitsAt(probe, n, ScanLeft(probe, k, n).index)
    ensures ScanLeft(probe, k, n).ClashAt? ==> ScanLeft(probe, k, n).index < n && probe(ScanLeft(probe, k, n).index) == Clash
    decreases n - k
  {
    if k < n {
      match probe(k)
      case Below =>
        ScanSplitsFrom(probe, k + 1, n);
      case NotBelow =>
        forall j: nat | k <= j < n ensures probe(j) == NotBelow {
          assert probe(k) == NotBelow;
        }
      case Clash =>
    }
  }

  /** Binary search agrees with the linear scan: both find the same
      insertion point, or both report a clash. */
  lemma BisectAgreesWithScan(probe: nat -> Probe, n: nat)
    requires Partitioned(probe, n)
    ensures BisectLeft(probe, 0, n).At? <==> ScanLeft(probe, 0, n).At?
    ensures BisectLeft(probe, 0, n).At? ==> BisectLeft(probe, 0, n) == ScanLeft(probe, 0, n)
  {
    BisectLeftCorrect(probe, n);
    ScanSplitsFrom(probe, 0, n);
    var b := BisectLeft(probe, 0, n);
    var s := ScanLeft(probe, 0, n);
    if b.At? && s.At? {
      SplitsAtUnique(probe, n, b.index, s.index);
    } else {
      // a clash seen by one search is a term the other's split contradicts
      var clashed := if b.ClashAt? then probe(b.index) else probe(s.index);
    }
  }

  lemma SplitsAtUnique(probe: nat -> Probe, n: nat, i: nat, j: nat)
    requires SplitsAt(probe, n, i) && SplitsAt(probe, n, j)
    ensures i == j
  {
    var atI, atJ := probe(i), probe(j);
  }
}
