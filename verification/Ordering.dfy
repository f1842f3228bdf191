/** Sorting by a comparator: what Go's sort package promises, and when that promise
    determines the result. */
module Ordering {

  /** `less` orders the elements of `s` strictly and totally. */
  ghost predicate StrictTotalOn<T(!new)>(less: (T, T) -> bool, s: set<T>) {
    && (forall x :: x in s ==> !less(x, x))
    && (forall x, y, z :: x in s && y in s && z in s && less(x, y) && less(y, z) ==> less(x, z))
    && (forall x, y :: x in s && y in s && x != y ==> less(x, y) || less(y, x))
  }

  ghost predicate StrictlySorted<T(!new)>(less: (T, T) -> bool, a: seq<T>) {
    forall i, j :: 0 <= i < j < |a| ==> less(a[i], a[j])
  }

  function Elements<T(==)>(a: seq<T>): set<T> { set x | x in a }

  lemma HasElement<T>(a: seq<T>)
    requires a != []
    ensures Elements(a) != {}
  {
    assert a[0] in Elements(a);
  }

  /** A strict total order leaves a sort no choice, stable or not. */
  lemma {:induction false} SortedIsUnique<T(!new)>(less: (T, T) -> bool, a: seq<T>, b: seq<T>)
    requires StrictTotalOn(less, Elements(a)) && Elements(a) == Elements(b)
    requires StrictlySorted(less, a) && StrictlySorted(less, b)
    ensures a == b
    decreases |a|
  {
    if a == [] {
      if b != [] {
        HasElement(b);
      }
    } else {
      assert a[0] in Elements(b);
      assert b != [] && b[0] in Elements(a);
      assert a[0] == b[0] by {
        var i :| 0 <= i < |b| && b[i] == a[0];
        var j :| 0 <= j < |a| && a[j] == b[0];
        assert i > 0 ==> less(b[0], b[i]);
        assert j > 0 ==> less(a[0], a[j]);
      }
      TailElements(less, a);
      TailElements(less, b);
      SortedIsUnique(less, a[1..], b[1..]);
    }
  }

  lemma TailElements<T(!new)>(less: (T, T) -> bool, a: seq<T>)
    requires a != [] && StrictlySorted(less, a) && forall x :: x in Elements(a) ==> !less(x, x)
    ensures Elements(a[1..]) == Elements(a) - {a[0]}
    ensures StrictlySorted(less, a[1..])
  {
    forall x | x in Elements(a[1..]) ensures x in Elements(a) && x != a[0] {
      var k :| 0 <= k < |a| - 1 && a[1..][k] == x;
      assert a[k + 1] == x && less(a[0], a[k + 1]);
      assert a[0] in Elements(a);
    }
    forall x | x in Elements(a) && x != a[0] ensures x in Elements(a[1..]) {
      var k :| 0 <= k < |a| && a[k] == x;
      assert a[1..][k - 1] == x;
    }
  }

  /** Stands for sort.Slice and sort.SliceStable on elements the comparator separates. */
  method Sort<T(!new,==)>(a: seq<T>, less: (T, T) -> bool) returns (r: seq<T>)
    requires StrictTotalOn(less, Elements(a))
    requires forall i, j :: 0 <= i < j < |a| ==> a[i] != a[j]
    ensures Elements(r) == Elements(a) && |r| == |a| && StrictlySorted(less, r)
  {
    r := [];
    for n := 0 to |a|
      invariant |r| == n && Elements(r) == Elements(a[..n]) && StrictlySorted(less, r)
    {
      assert Elements(a[..n]) <= Elements(a) && a[n] in Elements(a);
      assert a[n] !in Elements(r);
      var k := |r|;
      while k > 0 && less(a[n], r[k - 1])
        invariant 0 <= k <= |r|
        invariant forall j :: k <= j < |r| ==> less(a[n], r[j])
      {
        k := k - 1;
      }
      InsertSorted(less, r, k, a[n], Elements(a));
      assert a[..n + 1] == a[..n] + [a[n]];
      r := r[..k] + [a[n]] + r[k..];
    }
    assert a[..|a|] == a;
  }

  lemma InsertElements<T>(r: seq<T>, k: nat, x: T)
    requires k <= |r|
    ensures Elements(r[..k] + [x] + r[k..]) == Elements(r) + {x}
  {
    var s := r[..k] + [x] + r[k..];
    assert forall j :: 0 <= j < |r| ==> r[j] == s[if j < k then j else j + 1];
    assert s[k] == x;
    assert forall j :: 0 <= j < |s| ==> s[j] == x || s[j] in r;
  }

  lemma InsertSorted<T(!new)>(less: (T, T) -> bool, r: seq<T>, k: nat, x: T, s: set<T>)
    requires k <= |r| && StrictlySorted(less, r) && StrictTotalOn(less, s)
    requires Elements(r) <= s && x in s && x !in Elements(r)
    requires forall j :: k <= j < |r| ==> less(x, r[j])
    requires k > 0 ==> !less(x, r[k - 1])
    ensures StrictlySorted(less, r[..k] + [x] + r[k..])
    ensures Elements(r[..k] + [x] + r[k..]) == Elements(r) + {x}
  {
    InsertElements(r, k, x);
    assert forall j :: 0 <= j < |r| ==> r[j] in Elements(r);
    forall j | 0 <= j < k ensures less(r[j], x) {
      assert less(r[k - 1], x);
    }
    hide StrictTotalOn, Elements;
    var left, right := r[..k], r[k..];
    assert forall j :: 0 <= j < |right| ==> right[j] == r[k + j];
    SortedConcat(less, left, [x]);
    SortedConcat(less, left + [x], right);
  }

  lemma SortedConcat<T(!new)>(less: (T, T) -> bool, a: seq<T>, b: seq<T>)
    requires StrictlySorted(less, a) && StrictlySorted(less, b)
    requires forall i, j :: 0 <= i < |a| && 0 <= j < |b| ==> less(a[i], b[j])
    ensures StrictlySorted(less, a + b)
  {
  }
}
