/** Children ordering: the optional model comparator and the ordered
    insertion that both the builder and `addChild` use to place a child. */
module Ordering {

  /** A model comparator. It is handed the ids of two records and answers
      with the sign of a three-way comparison: a result <= 0 lets the first
      record stand before the second. */
  type Comparator = (int, int) -> int

  /** The "may stand before" relation of `cmp` is total and transitive. */
  ghost predicate TotalPreorder(cmp: Comparator) {
    && (forall a, b :: cmp(a, b) <= 0 || cmp(b, a) <= 0)
    && (forall a, b, c :: cmp(a, b) <= 0 && cmp(b, c) <= 0 ==> cmp(a, c) <= 0)
  }

  /** Every element may stand before every later one. */
  ghost predicate Sorted(cmp: Comparator, s: seq<int>) {
    forall i, j :: 0 <= i < j < |s| ==> cmp(s[i], s[j]) <= 0
  }

  /** The position at which `x` joins `s`: in front of the first element
      the comparator puts after `x`, or at the end. */
  function InsertIndex(cmp: Comparator, s: seq<int>, x: int): (k: nat)
    ensures k <= |s|
  {
    if s == [] || cmp(s[0], x) > 0 then 0 else 1 + InsertIndex(cmp, s[1..], x)
  }

  /** Every element in front of the insertion index may stand before `x`,
      and the element at the index must come after it. */
  lemma {:induction false} InsertIndexSplits(cmp: Comparator, s: seq<int>, x: int)
    ensures forall j :: 0 <= j < InsertIndex(cmp, s, x) ==> cmp(s[j], x) <= 0
    ensures InsertIndex(cmp, s, x) < |s| ==> cmp(s[InsertIndex(cmp, s, x)], x) > 0
  {
    if s != [] && cmp(s[0], x) <= 0 {
      InsertIndexSplits(cmp, s[1..], x);
    }
  }

  /** `s` with `x` inserted at position `k`. */
  function Insert<T>(s: seq<T>, k: nat, x: T): (r: seq<T>)
    requires k <= |s|
    ensures |r| == |s| + 1
  {
    s[..k] + [x] + s[k..]
  }

  lemma InsertElements<T>(s: seq<T>, k: nat, x: T)
    requires k <= |s|
    ensures Insert(s, k, x)[k] == x
    ensures forall j :: 0 <= j < k ==> Insert(s, k, x)[j] == s[j]
    ensures forall j :: k < j <= |s| ==> Insert(s, k, x)[j] == s[j - 1]
  {
  }

  /** `s` without its element at position `k`. */
  function RemoveAt<T>(s: seq<T>, k: nat): (r: seq<T>)
    requires k < |s|
    ensures |r| == |s| - 1
  {
    s[..k] + s[k + 1..]
  }

  lemma RemoveAtElements<T>(s: seq<T>, k: nat)
    requires k < |s|
    ensures forall j :: 0 <= j < k ==> RemoveAt(s, k)[j] == s[j]
    ensures forall j :: k <= j < |s| - 1 ==> RemoveAt(s, k)[j] == s[j + 1]
  {
  }

  lemma InsertMultiset<T>(s: seq<T>, k: nat, x: T)
    requires k <= |s|
    ensures multiset(Insert(s, k, x)) == multiset(s) + multiset{x}
  {
    assert s == s[..k] + s[k..];
  }

  lemma Flip(cmp: Comparator, a: int, b: int)
    requires TotalPreorder(cmp) && cmp(a, b) > 0
    ensures cmp(b, a) <= 0
  {
  }

  /** Ordered insertion keeps a sorted sequence sorted. */
  lemma InsertKeepsSorted(cmp: Comparator, s: seq<int>, x: int)
    requires TotalPreorder(cmp) && Sorted(cmp, s)
    ensures Sorted(cmp, Insert(s, InsertIndex(cmp, s, x), x))
  {
    var k := InsertIndex(cmp, s, x);
    var r := Insert(s, k, x);
    InsertIndexSplits(cmp, s, x);
    InsertElements(s, k, x);
    forall i, j | 0 <= i < j < |r| ensures cmp(r[i], r[j]) <= 0 {
      if j == k {
        assert r[i] == s[i];
      } else if i == k {
        assert r[j] == s[j - 1] && cmp(s[k], x) > 0;
        Flip(cmp, s[k], x);
        if j - 1 > k {
          assert cmp(s[k], s[j - 1]) <= 0;
        }
      } else {
        var i' := if i < k then i else i - 1;
        var j' := if j < k then j else j - 1;
        assert r[i] == s[i'] && r[j] == s[j'] && i' < j';
      }
    }
  }
  /** The scan `addChild` runs over the ids of the current children: the
      first position whose element the comparator puts after `x`. */
  method FindInsertIndex(cmp: Comparator, s: seq<int>, x: int) returns (k: nat)
    ensures k == InsertIndex(cmp, s, x)
    ensures k <= |s| && (forall j :: 0 <= j < k ==> cmp(s[j], x) <= 0) && (k < |s| ==> cmp(s[k], x) > 0)
  {
    k := 0;
    while k < |s| && cmp(s[k], x) <= 0
      invariant k <= |s| && InsertIndex(cmp, s, x) == k + InsertIndex(cmp, s[k..], x)
      invariant forall j :: 0 <= j < k ==> cmp(s[j], x) <= 0
    {
      assert s[k..][1..] == s[k + 1..];
      k := k + 1;
    }
    assert s[k..] == [] || cmp(s[k..][0], x) > 0;
  }
}
