/** What every size-tiered router shares: the first-fit bucket scan and the tuple
    de-duplication that keeps the first tuple seen for each key. */
module Buckets {
  import opened Slices

  /** `find`'s answer on bucket sizes: the first index k with size <= sizes[k]. */
  function FirstFit(sizes: seq<int>, size: int): (r: Option<nat>)
    ensures r.Some? ==> r.value < |sizes| && size <= sizes[r.value] &&
                        forall j :: 0 <= j < r.value ==> sizes[j] < size
    ensures r.None? <==> forall j :: 0 <= j < |sizes| ==> sizes[j] < size
  {
    if sizes == [] then None
    else if size <= sizes[0] then Some(0)
    else match FirstFit(sizes[1..], size)
      case None => None
      case Some(k) => Some(k + 1)
  }

  /** The `for i, t := range tuples { if size <= t.bufSize { return i } }` loop. */
  method Scan(sizes: seq<int>, size: int) returns (r: Option<nat>)
    ensures r == FirstFit(sizes, size)
  {
    var i := 0;
    while i < |sizes|
      invariant 0 <= i <= |sizes|
      invariant forall j :: 0 <= j < i ==> sizes[j] < size
    {
      if size <= sizes[i] {
        FirstFitUnique(sizes, size, i);
        return Some(i);
      }
      i := i + 1;
    }
    return None;
  }

  /** The first fitting index is determined by the two conditions that define it. */
  lemma FirstFitUnique(sizes: seq<int>, size: int, k: nat)
    requires k < |sizes| && size <= sizes[k]
    requires forall j :: 0 <= j < k ==> sizes[j] < size
    ensures FirstFit(sizes, size) == Some(k)
  {
  }

  /** Routing a bucket's own size selects that bucket again: whatever size chose bucket k,
      a slice of capacity sizes[k] is routed back to k, sorted buckets or not. */
  lemma {:induction false} FirstFitRoundTrip(sizes: seq<int>, size: int, k: nat)
    requires FirstFit(sizes, size) == Some(k)
    ensures FirstFit(sizes, sizes[k]) == Some(k)
  {
    forall j | 0 <= j < k
      ensures sizes[j] < sizes[k]
    {
      assert sizes[j] < size <= sizes[k];
    }
    FirstFitUnique(sizes, sizes[k], k);
  }

  /** On ascending sizes, a size above the last bucket's fits nowhere. */
  lemma FirstFitNoneOnAscending(sizes: seq<int>, size: int)
    requires |sizes| > 0
    requires forall i, j :: 0 <= i < j < |sizes| ==> sizes[i] <= sizes[j]
    ensures FirstFit(sizes, size).None? <==> sizes[|sizes| - 1] < size
  {
  }

  /** No two elements share a key. */
  ghost predicate DistinctKeys<T, K>(s: seq<T>, key: T -> K)
  {
    forall i, j :: 0 <= i < j < |s| ==> key(s[i]) != key(s[j])
  }

  /** The map the first loop of `uniq*Tuple` builds: scanning left to right, a tuple is stored
      only when its key is not there yet. */
  function KeepFirst<T, K>(s: seq<T>, key: T -> K): map<K, T>
    decreases |s|
  {
    if s == [] then map[]
    else
      var m := KeepFirst(s[..|s| - 1], key);
      var t := s[|s| - 1];
      if key(t) in m then m else m[key(t) := t]
  }

  /** The position of the first element of s with key k, if any. */
  function FirstWithKey<T, K(==)>(s: seq<T>, key: T -> K, k: K): (r: Option<nat>)
    ensures r.Some? ==> r.value < |s| && key(s[r.value]) == k &&
                        forall j :: 0 <= j < r.value ==> key(s[j]) != k
    ensures r.None? <==> forall j :: 0 <= j < |s| ==> key(s[j]) != k
  {
    if s == [] then None
    else if key(s[0]) == k then Some(0)
    else match FirstWithKey(s[1..], key, k)
      case None => None
      case Some(i) => Some(i + 1)
  }

  /** The first position with key k is determined by the two conditions that define it. */
  lemma FirstWithKeyIs<T, K>(s: seq<T>, key: T -> K, k: K, i: nat)
    requires i < |s| && key(s[i]) == k
    requires forall j :: 0 <= j < i ==> key(s[j]) != k
    ensures FirstWithKey(s, key, k) == Some(i)
  {
  }

  /** Extending the scanned prefix by one element moves no earlier first occurrence. */
  lemma FirstWithKeySnoc<T, K>(s: seq<T>, x: T, key: T -> K, k: K)
    ensures FirstWithKey(s, key, k).Some? ==> FirstWithKey(s + [x], key, k) == FirstWithKey(s, key, k)
    ensures FirstWithKey(s, key, k).None? && key(x) == k ==> FirstWithKey(s + [x], key, k) == Some(|s|)
    ensures FirstWithKey(s, key, k).None? && key(x) != k ==> FirstWithKey(s + [x], key, k).None?
  {
    var s' := s + [x];
    var r := FirstWithKey(s, key, k);
    assert forall j :: 0 <= j < |s| ==> s'[j] == s[j];
    if r.Some? {
      FirstWithKeyIs(s', key, k, r.value);
    } else if key(x) == k {
      FirstWithKeyIs(s', key, k, |s|);
    }
  }

  /** The map holds exactly the keys of s, and under each key the first element of s with that
      key. */
  lemma {:induction false} KeepFirstSpec<T, K>(s: seq<T>, key: T -> K)
    ensures forall k :: k in KeepFirst(s, key) <==> FirstWithKey(s, key, k).Some?
    ensures forall k :: k in KeepFirst(s, key) ==>
              KeepFirst(s, key)[k] == s[FirstWithKey(s, key, k).value]
  {
    if s != [] {
      var p, x := s[..|s| - 1], s[|s| - 1];
      assert s == p + [x];
      KeepFirstSpec(p, key);
      var m := KeepFirst(p, key);
      assert KeepFirst(s, key) == if key(x) in m then m else m[key(x) := x];
      forall k | k in KeepFirst(s, key)
        ensures FirstWithKey(s, key, k).Some?
        ensures KeepFirst(s, key)[k] == s[FirstWithKey(s, key, k).value]
      {
        FirstWithKeySnoc(p, x, key, k);
        var r := FirstWithKey(p, key, k);
        if r.Some? {
          assert s[r.value] == p[r.value];
        }
      }
      forall k | FirstWithKey(s, key, k).Some?
        ensures k in KeepFirst(s, key)
      {
        FirstWithKeySnoc(p, x, key, k);
      }
    }
  }

  /** Every stored element sits under its own key and comes from s. */
  lemma KeepFirstKeys<T, K>(s: seq<T>, key: T -> K)
    ensures forall k :: k in KeepFirst(s, key) ==> key(KeepFirst(s, key)[k]) == k && KeepFirst(s, key)[k] in s
    ensures forall i :: 0 <= i < |s| ==> key(s[i]) in KeepFirst(s, key)
  {
    KeepFirstSpec(s, key);
    forall i | 0 <= i < |s|
      ensures key(s[i]) in KeepFirst(s, key)
    {
      assert FirstWithKey(s, key, key(s[i])).Some?;
    }
  }

  /** `uniqBufferpoolTuple`, `uniqMmapBytepoolTuple` and `uniqImagepoolTuple`: fill a map keyed by
      `key`, first tuple wins, then append the map's values in whatever order the map yields.
      The result holds each value of `KeepFirst(s, key)` exactly once. */
  method UniqBy<T, K(==)>(s: seq<T>, key: T -> K) returns (u: seq<T>)
    ensures DistinctKeys(u, key)
    ensures forall i :: 0 <= i < |u| ==> key(u[i]) in KeepFirst(s, key) && u[i] == KeepFirst(s, key)[key(u[i])]
    ensures |u| == |KeepFirst(s, key)|
  {
    var m: map<K, T> := map[];
    var i := 0;
    while i < |s|
      invariant 0 <= i <= |s|
      invariant m == KeepFirst(s[..i], key)
    {
      assert s[..i + 1][..i] == s[..i];
      if key(s[i]) in m {
        i := i + 1;
        continue;
      }
      m := m[key(s[i]) := s[i]];
      i := i + 1;
    }
    assert s[..i] == s;
    KeepFirstKeys(s, key);
    u := [];
    var rest := m.Keys;
    while rest != {}
      invariant rest <= m.Keys
      invariant forall j :: 0 <= j < |u| ==> key(u[j]) in m.Keys - rest && u[j] == m[key(u[j])]
      invariant DistinctKeys(u, key)
      invariant |u| + |rest| == |m.Keys|
      decreases |rest|
    {
      var k :| k in rest;
      assert key(m[k]) == k;
      u := u + [m[k]];
      rest := rest - {k};
    }
  }

  /** Pigeonhole: as many elements as keys, each with a key from the set and no key twice, so
      every key of the set is some element's key. */
  lemma {:induction false} DistinctCover<T, K>(u: seq<T>, keys: set<K>, key: T -> K)
    requires DistinctKeys(u, key)
    requires forall i :: 0 <= i < |u| ==> key(u[i]) in keys
    requires |u| == |keys|
    ensures forall k :: k in keys ==> exists i :: 0 <= i < |u| && key(u[i]) == k
  {
    if u != [] {
      var n := |u| - 1;
      var x := key(u[n]);
      var front := u[..n];
      forall i | 0 <= i < |front|
        ensures key(front[i]) in keys - {x}
      {
        assert key(u[i]) != key(u[n]);
      }
      DistinctCover(front, keys - {x}, key);
      forall k | k in keys
        ensures exists i :: 0 <= i < |u| && key(u[i]) == k
      {
        if k == x {
          assert key(u[n]) == k;
        } else {
          assert k in keys - {x};
          var i :| 0 <= i < |front| && key(front[i]) == k;
          assert u[i] == front[i];
        }
      }
    }
  }

  /** Reordering the de-duplicated elements keeps them one per key, each the value the map
      holds for its key. */
  lemma PermutedFirsts<T, K>(given: seq<T>, u: seq<T>, sorted: seq<T>, key: T -> K)
    requires DistinctKeys(u, key)
    requires forall i :: 0 <= i < |u| ==>
               key(u[i]) in KeepFirst(given, key) && u[i] == KeepFirst(given, key)[key(u[i])]
    requires multiset(sorted) == multiset(u)
    ensures |sorted| == |u| && DistinctKeys(sorted, key)
    ensures forall i :: 0 <= i < |sorted| ==>
              key(sorted[i]) in KeepFirst(given, key) && sorted[i] == KeepFirst(given, key)[key(sorted[i])]
  {
    assert |sorted| == |multiset(sorted)| == |multiset(u)| == |u|;
    DistinctKeysPermutation(sorted, u, key);
    forall i | 0 <= i < |sorted|
      ensures key(sorted[i]) in KeepFirst(given, key) && sorted[i] == KeepFirst(given, key)[key(sorted[i])]
    {
      assert sorted[i] in multiset(u);
      var j :| 0 <= j < |u| && u[j] == sorted[i];
    }
  }

  /** The map has at most as many keys as s has elements. */
  lemma {:induction false} KeepFirstSize<T, K>(s: seq<T>, key: T -> K)
    ensures |KeepFirst(s, key).Keys| <= |s|
  {
    if s != [] {
      KeepFirstSize(s[..|s| - 1], key);
    }
  }

  /** An element at two positions occurs at least twice. */
  lemma TwiceCounted<T>(a: seq<T>, i: nat, j: nat)
    requires i < j < |a| && a[i] == a[j]
    ensures multiset(a)[a[i]] >= 2
  {
    assert a == a[..j] + [a[j]] + a[j + 1..];
    assert a[i] in a[..j];
  }

  /** An element occurring at least twice sits at two positions. */
  lemma TwoPositions<T>(b: seq<T>, x: T, p: nat) returns (q: nat)
    requires p < |b| && b[p] == x && multiset(b)[x] >= 2
    ensures q < |b| && b[q] == x && q != p
  {
    var rest := b[..p] + b[p + 1..];
    assert b == b[..p] + [x] + b[p + 1..];
    assert x in multiset(rest);
    var r :| 0 <= r < |rest| && rest[r] == x;
    q := if r < p then r else r + 1;
    assert b[q] == rest[r];
  }

  /** Reordering elements cannot make two of them share a key. */
  lemma DistinctKeysPermutation<T, K>(a: seq<T>, b: seq<T>, key: T -> K)
    requires multiset(a) == multiset(b)
    requires DistinctKeys(b, key)
    ensures DistinctKeys(a, key)
  {
    forall i, j | 0 <= i < j < |a|
      ensures key(a[i]) != key(a[j])
    {
      var x, y := a[i], a[j];
      assert x in multiset(b) && y in multiset(b);
      var p :| 0 <= p < |b| && b[p] == x;
      var q: nat;
      if x == y {
        TwiceCounted(a, i, j);
        q := TwoPositions(b, x, p);
      } else {
        q :| 0 <= q < |b| && b[q] == y;
      }
      if p < q {
        assert key(b[p]) != key(b[q]);
      } else {
        assert key(b[q]) != key(b[p]);
      }
    }
  }
}
