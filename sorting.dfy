/** `sort.Slice` as the routers use it: an in-place sort of a slice by a key, here a pair
    compared lexicographically (the byte routers use only the first component). */
module Sorting {

  /** A sort key: `(Dx, Dy)` for image buckets, `(bufSize, 0)` or `(alignSize, 0)` otherwise. */
  datatype Key = Key(major: int, minor: int)

  /** The order the `less` callbacks induce: compare `major`, and `minor` on a tie. */
  predicate Le(a: Key, b: Key)
  {
    a.major < b.major || (a.major == b.major && a.minor <= b.minor)
  }

  /** The order is total: of two keys one is at most the other. */
  lemma LeTotal(a: Key, b: Key)
    ensures Le(a, b) || Le(b, a)
    ensures Le(a, b) && Le(b, a) ==> a == b
  {
  }

  /** Every pair of positions is in key order. */
  ghost predicate SortedBy<T>(s: seq<T>, key: T -> Key)
  {
    forall i, j :: 0 <= i < j < |s| ==> Le(key(s[i]), key(s[j]))
  }

  /** `sort.Slice(a, less)`: afterwards `a` holds the same elements, in key order. Elements with
      equal keys may come out in any order, as `sort.Slice` is not stable. */
  method SortBy<T>(a: array<T>, key: T -> Key)
    modifies a
    ensures SortedBy(a[..], key)
    ensures multiset(a[..]) == multiset(old(a[..]))
  {
    var i := 0;
    while i < a.Length
      invariant 0 <= i <= a.Length
      invariant forall m, n :: 0 <= m < n < i ==> Le(key(a[m]), key(a[n]))
      invariant multiset(a[..]) == multiset(old(a[..]))
    {
      var j := i;
      while 0 < j && !Le(key(a[j - 1]), key(a[j]))
        invariant 0 <= j <= i
        invariant forall m, n :: 0 <= m < n <= i && n != j ==> Le(key(a[m]), key(a[n]))
        invariant forall n :: j < n <= i ==> Le(key(a[j]), key(a[n]))
        invariant multiset(a[..]) == multiset(old(a[..]))
      {
        LeTotal(key(a[j - 1]), key(a[j]));
        a[j - 1], a[j] := a[j], a[j - 1];
        j := j - 1;
      }
      i := i + 1;
    }
  }

  /** Two sorted arrangements of the same elements, with no key twice, start alike. */
  lemma SortedHeads<T>(a: seq<T>, b: seq<T>, key: T -> Key)
    requires a != [] && multiset(a) == multiset(b)
    requires SortedBy(a, key) && SortedBy(b, key)
    requires forall i, j :: 0 <= i < j < |a| ==> key(a[i]) != key(a[j])
    ensures b != [] && a[0] == b[0]
  {
    assert a[0] in multiset(b) && b[0] in multiset(a);
    var j :| 0 <= j < |b| && b[j] == a[0];
    var i :| 0 <= i < |a| && a[i] == b[0];
    assert Le(key(b[0]), key(b[j]));
    assert Le(key(a[0]), key(a[i]));
    LeTotal(key(a[0]), key(b[0]));
    assert i == 0;
  }

  /** Exchanging two elements of a sequence keeps the same elements. */
  lemma Exchanged<T>(s: seq<T>, i: nat, j: nat)
    requires i < |s| && j < |s|
    ensures multiset(s[i := s[j]][j := s[i]]) == multiset(s)
  {
  }

  /** Sorting has only one possible outcome when no two elements share a key: two sorted
      arrangements of the same elements are equal. */
  lemma {:induction false} SortedUnique<T>(a: seq<T>, b: seq<T>, key: T -> Key)
    requires multiset(a) == multiset(b)
    requires SortedBy(a, key) && SortedBy(b, key)
    requires forall i, j :: 0 <= i < j < |a| ==> key(a[i]) != key(a[j])
    ensures a == b
  {
    if a == [] {
      assert |b| == |multiset(b)| == 0;
    } else {
      SortedHeads(a, b, key);
      assert a == [a[0]] + a[1..] && b == [b[0]] + b[1..];
      assert multiset(a[1..]) == multiset(b[1..]) by {
        assert multiset(a) == multiset{a[0]} + multiset(a[1..]);
        assert multiset(b) == multiset{b[0]} + multiset(b[1..]);
        assert forall x :: multiset(a[1..])[x] == multiset(a)[x] - multiset{a[0]}[x];
      }
      SortedUnique(a[1..], b[1..], key);
    }
  }
}
