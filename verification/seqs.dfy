/** Positional insertion and deletion on sequences, as Python's
    list.insert and list.remove/pop perform them. */
module Seqs {

  /** list.insert(i, x). */
  function InsertAt<T>(s: seq<T>, i: nat, x: T): (r: seq<T>)
    requires i <= |s|
    ensures |r| == |s| + 1 && r[i] == x
    ensures forall j :: 0 <= j < i ==> r[j] == s[j]
    ensures forall j :: i < j < |r| ==> r[j] == s[j - 1]
    ensures multiset(r) == multiset(s) + multiset{x}
  {
    assert s == s[..i] + s[i..];
    s[..i] + [x] + s[i..]
  }

  /** del s[k]. */
  function DeleteAt<T>(s: seq<T>, k: nat): (r: seq<T>)
    requires k < |s|
    ensures |r| == |s| - 1
    ensures forall j :: 0 <= j < k ==> r[j] == s[j]
    ensures forall j :: k <= j < |r| ==> r[j] == s[j + 1]
    ensures multiset(r) + multiset{s[k]} == multiset(s)
  {
    assert s == s[..k] + [s[k]] + s[k + 1..];
    s[..k] + s[k + 1..]
  }

  /** Putting a deleted element back where it was restores the sequence. */
  lemma InsertDeleted<T>(s: seq<T>, k: nat)
    requires k < |s|
    ensures InsertAt(DeleteAt(s, k), k, s[k]) == s
  {
    var r := InsertAt(DeleteAt(s, k), k, s[k]);
    assert forall j :: 0 <= j < |s| ==> r[j] == s[j];
  }

  /** What remains after deleting position k is every other position. */
  lemma DeleteAtMembers<T>(s: seq<T>, k: nat, x: T)
    requires k < |s|
    ensures x in DeleteAt(s, k) <==> exists j :: 0 <= j < |s| && j != k && s[j] == x
  {
    var r := DeleteAt(s, k);
    if x in r {
      var j :| 0 <= j < |r| && r[j] == x;
      if j < k { assert s[j] == x; } else { assert s[j + 1] == x; }
    }
    if exists j :: 0 <= j < |s| && j != k && s[j] == x {
      var j :| 0 <= j < |s| && j != k && s[j] == x;
      if j < k { assert r[j] == x; } else { assert r[j - 1] == x; }
    }
  }

  /** Concatenation regroups freely; stated apart so that long texts are
      regrouped without being unfolded. */
  /** A non-empty sequence is its head followed by its tail. */
  lemma HeadTail<T>(s: seq<T>)
    requires |s| > 0
    ensures s == [s[0]] + s[1..]
  {
  }

  lemma ConcatAssoc<T>(a: seq<T>, b: seq<T>, c: seq<T>)
    ensures (a + b) + c == a + (b + c)
  {
  }
}
