/**
 * The sequence operations the aggregation code is built from: `Array.prototype.filter`
 * and `map`, the query modifiers `.limit(n)` and `.order(column)` over a table held
 * in memory, and first/last/latest-row searches.
 */
module Seqs {
  import opened Wrappers

  /** `s.filter(p)`: the elements of `s` that satisfy `p`, in their original order. */
  function Filter<T>(p: T -> bool, s: seq<T>): (r: seq<T>)
    ensures |r| <= |s|
    ensures forall i :: 0 <= i < |r| ==> p(r[i]) && r[i] in s
    ensures forall i :: 0 <= i < |s| && p(s[i]) ==> s[i] in r
  {
    if s == [] then []
    else if p(s[0]) then [s[0]] + Filter(p, s[1..])
    else Filter(p, s[1..])
  }

  /** The complement of a predicate. */
  function Not<T>(p: T -> bool): T -> bool {
    x => !p(x)
  }

  /** `p` applied after `f`. */
  function After<T, U>(p: U -> bool, f: T -> U): T -> bool {
    x => p(f(x))
  }

  /** `s.map(f)`. */
  function MapSeq<T, U>(f: T -> U, s: seq<T>): (r: seq<U>)
    ensures |r| == |s|
    ensures forall i :: 0 <= i < |s| ==> r[i] == f(s[i])
  {
    if s == [] then [] else [f(s[0])] + MapSeq(f, s[1..])
  }

  /** `.limit(n)` and `slice(0, n)`: the first `n` elements, or all of them when there are fewer. */
  function Take<T>(s: seq<T>, n: nat): (r: seq<T>)
    ensures |r| == if n <= |s| then n else |s|
    ensures r <= s
  {
    if n <= |s| then s[..n] else s
  }

  /** `a` can be obtained from `b` by deleting elements (order is kept). */
  predicate IsSubsequence<T(==)>(a: seq<T>, b: seq<T>)
    decreases |b|
  {
    if a == [] then true
    else if b == [] then false
    else if a[0] == b[0] then IsSubsequence(a[1..], b[1..])
    else IsSubsequence(a, b[1..])
  }

  lemma {:induction false} FilterIsSubsequence<T>(p: T -> bool, s: seq<T>)
    ensures IsSubsequence(Filter(p, s), s)
  {
    if s != [] {
      FilterIsSubsequence(p, s[1..]);
      var rest := Filter(p, s[1..]);
      if !p(s[0]) && rest != [] {
        assert p(rest[0]);
      }
    }
  }

  lemma {:induction false} FilterConcat<T>(p: T -> bool, a: seq<T>, b: seq<T>)
    ensures Filter(p, a + b) == Filter(p, a) + Filter(p, b)
  {
    if a == [] {
      assert a + b == b;
    } else {
      assert (a + b)[0] == a[0];
      assert (a + b)[1..] == a[1..] + b;
      FilterConcat(p, a[1..], b);
    }
  }

  /** Splitting by a predicate and by its complement loses and duplicates nothing. */
  lemma {:induction false} FilterPartition<T>(p: T -> bool, s: seq<T>)
    ensures multiset(Filter(p, s)) + multiset(Filter(Not(p), s)) == multiset(s)
    ensures |Filter(p, s)| + |Filter(Not(p), s)| == |s|
  {
    if s != [] {
      FilterPartition(p, s[1..]);
      assert s == [s[0]] + s[1..];
    }
  }

  lemma {:induction false} FilterKeepsAll<T>(p: T -> bool, s: seq<T>)
    requires forall i :: 0 <= i < |s| ==> p(s[i])
    ensures Filter(p, s) == s
  {
    if s != [] {
      FilterKeepsAll(p, s[1..]);
    }
  }

  lemma {:induction false} FilterKeepsNone<T>(p: T -> bool, s: seq<T>)
    requires forall i :: 0 <= i < |s| ==> !p(s[i])
    ensures Filter(p, s) == []
  {
    if s != [] {
      FilterKeepsNone(p, s[1..]);
    }
  }

  /** Filtering the elements that pass and then those that fail keeps each group in input order. */
  lemma PartitionStable<T>(p: T -> bool, s: seq<T>)
    ensures Filter(p, Filter(p, s) + Filter(Not(p), s)) == Filter(p, s)
    ensures Filter(Not(p), Filter(p, s) + Filter(Not(p), s)) == Filter(Not(p), s)
  {
    var yes, no := Filter(p, s), Filter(Not(p), s);
    FilterConcat(p, yes, no);
    FilterConcat(Not(p), yes, no);
    FilterKeepsAll(p, yes);
    FilterKeepsNone(Not(p), yes);
    FilterKeepsNone(p, no);
    FilterKeepsAll(Not(p), no);
  }

  /** Filtering a mapped sequence is mapping the filtered one. */
  lemma {:induction false} FilterMapSeq<T, U>(p: U -> bool, f: T -> U, s: seq<T>)
    ensures Filter(p, MapSeq(f, s)) == MapSeq(f, Filter(After(p, f), s))
  {
    if s != [] {
      FilterMapSeq(p, f, s[1..]);
      assert MapSeq(f, s)[1..] == MapSeq(f, s[1..]);
    }
  }

  /** Removing the element at `k` removes at most that element from the filtered sequence. */
  lemma FilterRemoveAt<T>(p: T -> bool, t: seq<T>, k: nat)
    requires k < |t|
    ensures multiset(t[..k] + t[k + 1..]) == multiset(t) - multiset{t[k]}
    ensures |Filter(p, t)| == |Filter(p, t[..k] + t[k + 1..])| + (if p(t[k]) then 1 else 0)
  {
    var a, b := t[..k], t[k + 1..];
    assert t == a + [t[k]] + b;
    FilterConcat(p, a + [t[k]], b);
    FilterConcat(p, a, [t[k]]);
    FilterConcat(p, a, b);
  }

  /** How many elements pass a filter depends only on the multiset of the input. */
  lemma {:induction false} FilterCountPermutation<T>(p: T -> bool, s: seq<T>, t: seq<T>)
    requires multiset(s) == multiset(t)
    ensures |Filter(p, s)| == |Filter(p, t)|
    decreases |s|
  {
    if s == [] {
      assert |t| == |multiset(t)| == 0;
    } else {
      var x := s[0];
      assert x in multiset(t);
      var k :| 0 <= k < |t| && t[k] == x;
      FilterRemoveAt(p, t, k);
      assert s == [x] + s[1..];
      assert multiset(s[1..]) == multiset(s) - multiset{x};
      FilterCountPermutation(p, s[1..], t[..k] + t[k + 1..]);
    }
  }

  /** Each element is kept as many times as it occurs when it passes, and dropped otherwise. */
  lemma {:induction false} FilterMultiplicity<T>(p: T -> bool, s: seq<T>, x: T)
    ensures multiset(Filter(p, s))[x] == if p(x) then multiset(s)[x] else 0
  {
    if s != [] {
      FilterMultiplicity(p, s[1..], x);
      var rest := Filter(p, s[1..]);
      assert s == [s[0]] + s[1..];
      assert multiset(s) == multiset{s[0]} + multiset(s[1..]);
      if p(s[0]) {
        assert Filter(p, s) == [s[0]] + rest;
        assert multiset(Filter(p, s)) == multiset{s[0]} + multiset(rest);
      } else {
        assert Filter(p, s) == rest;
      }
    }
  }

  /** Filtering by the union of two disjoint predicates counts the elements of each. */
  lemma {:induction false} FilterDisjointUnion<T>(u: T -> bool, p: T -> bool, q: T -> bool, s: seq<T>)
    requires forall x :: u(x) == (p(x) || q(x))
    requires forall x :: !(p(x) && q(x))
    ensures |Filter(u, s)| == |Filter(p, s)| + |Filter(q, s)|
  {
    if s != [] {
      FilterDisjointUnion(u, p, q, s[1..]);
    }
  }

  lemma {:induction false} MapSeqConcat<T, U>(f: T -> U, a: seq<T>, b: seq<T>)
    ensures MapSeq(f, a + b) == MapSeq(f, a) + MapSeq(f, b)
  {
    if a == [] {
      assert a + b == b;
    } else {
      assert (a + b)[1..] == a[1..] + b;
      MapSeqConcat(f, a[1..], b);
    }
  }

  /** Mapping two permutations of each other gives permutations of each other. */
  lemma {:induction false} MapSeqPermutation<T, U>(f: T -> U, a: seq<T>, b: seq<T>)
    requires multiset(a) == multiset(b)
    ensures multiset(MapSeq(f, a)) == multiset(MapSeq(f, b))
    decreases |a|
  {
    if a == [] {
      assert |b| == |multiset(b)| == 0;
    } else {
      var x := a[0];
      assert x in multiset(b);
      var k :| 0 <= k < |b| && b[k] == x;
      var b1, b2 := b[..k], b[k + 1..];
      assert b == b1 + [x] + b2;
      assert a == [x] + a[1..];
      assert multiset(b) == multiset(b1) + multiset{x} + multiset(b2);
      assert multiset(a) == multiset{x} + multiset(a[1..]);
      assert multiset(b1 + b2) == multiset(b1) + multiset(b2);
      assert multiset(a[1..]) == multiset(a) - multiset{x};
      assert multiset(a[1..]) == multiset(b1 + b2);
      MapSeqPermutation(f, a[1..], b1 + b2);
      MapSeqConcat(f, b1 + [x], b2);
      MapSeqConcat(f, b1, [x]);
      MapSeqConcat(f, b1, b2);
      MapSeqConcat(f, [x], a[1..]);
    }
  }

  lemma ConcatAssoc<T>(x: seq<T>, y: seq<T>, z: seq<T>)
    ensures x + (y + z) == (x + y) + z
  {
  }

  lemma MultisetMembers<T>(a: seq<T>, b: seq<T>)
    requires multiset(a) == multiset(b)
    ensures forall i :: 0 <= i < |a| ==> a[i] in b
  {
    forall i | 0 <= i < |a|
      ensures a[i] in b
    {
      assert a[i] in multiset(a);
    }
  }

  /** The index of the first element satisfying `p` (`.find`, `.limit(1)` in table order). */
  function FirstIndex<T>(s: seq<T>, p: T -> bool): (r: Option<nat>)
    ensures r.None? <==> forall i :: 0 <= i < |s| ==> !p(s[i])
    ensures r.Some? ==> r.value < |s| && p(s[r.value])
    ensures r.Some? ==> forall j :: 0 <= j < r.value ==> !p(s[j])
  {
    if s == [] then None
    else if p(s[0]) then Some(0)
    else match FirstIndex(s[1..], p)
      case None => None
      case Some(i) => Some(i + 1)
  }

  /** The index of the last element satisfying `p` (where `new Map(entries)` keeps the last entry per key). */
  function LastIndex<T>(s: seq<T>, p: T -> bool): (r: Option<nat>)
    ensures r.None? <==> forall i :: 0 <= i < |s| ==> !p(s[i])
    ensures r.Some? ==> r.value < |s| && p(s[r.value])
    ensures r.Some? ==> forall j :: r.value < j < |s| ==> !p(s[j])
  {
    if s == [] then None
    else if p(s[|s| - 1]) then Some(|s| - 1)
    else LastIndex(s[..|s| - 1], p)
  }

  /**
   * `.order(key, { ascending: false }).limit(1)`: the index of an element satisfying `p`
   * whose key is largest; of several with that key, the first in table order.
   */
  function LatestIndex<T>(s: seq<T>, p: T -> bool, key: T -> int): (r: Option<nat>)
    ensures r.None? <==> forall i :: 0 <= i < |s| ==> !p(s[i])
    ensures r.Some? ==> r.value < |s| && p(s[r.value])
    ensures r.Some? ==> forall j :: 0 <= j < |s| && p(s[j]) ==> key(s[j]) <= key(s[r.value])
    ensures r.Some? ==> forall j :: 0 <= j < r.value && p(s[j]) ==> key(s[j]) < key(s[r.value])
  {
    if s == [] then None
    else
      var rest := LatestIndex(s[1..], p, key);
      if !p(s[0]) then
        match rest
        case None => None
        case Some(i) => Some(i + 1)
      else
        match rest
        case None => Some(0)
        case Some(i) => if key(s[0]) >= key(s[1..][i]) then Some(0) else Some(i + 1)
  }

  /** Every element's key is at most the key of every later element. */
  predicate SortedBy<T>(s: seq<T>, key: T -> real) {
    forall i, j :: 0 <= i < j < |s| ==> key(s[i]) <= key(s[j])
  }

  /** Elements whose key is `k`. */
  function HasKey<T>(key: T -> real, k: real): T -> bool {
    x => key(x) == k
  }

  lemma SortedCons<T>(y: T, t: seq<T>, key: T -> real)
    requires SortedBy(t, key)
    requires forall j :: 0 <= j < |t| ==> key(y) <= key(t[j])
    ensures SortedBy([y] + t, key)
  {
    var r := [y] + t;
    forall i, j | 0 <= i < j < |r|
      ensures key(r[i]) <= key(r[j])
    {
      assert r[j] == t[j - 1];
      if i > 0 {
        assert r[i] == t[i - 1];
      }
    }
  }

  /** Puts `x` in front of the first element whose key is not below its own. */
  function InsertByKey<T>(x: T, s: seq<T>, key: T -> real): (r: seq<T>)
    requires SortedBy(s, key)
    ensures |r| == |s| + 1
    ensures SortedBy(r, key)
    ensures multiset(r) == multiset(s) + multiset{x}
    ensures forall j :: 0 <= j < |r| ==> r[j] == x || r[j] in s
  {
    if s == [] || key(x) <= key(s[0]) then [x] + s
    else
      var rest := InsertByKey(x, s[1..], key);
      InsertBehindHead(x, s, key, rest);
      [s[0]] + rest
  }

  /** Putting the head back in front of the insertion into the tail. */
  lemma InsertBehindHead<T>(x: T, s: seq<T>, key: T -> real, rest: seq<T>)
    requires s != [] && SortedBy(s, key) && key(s[0]) < key(x)
    requires SortedBy(rest, key)
    requires multiset(rest) == multiset(s[1..]) + multiset{x}
    requires forall j :: 0 <= j < |rest| ==> rest[j] == x || rest[j] in s[1..]
    ensures SortedBy([s[0]] + rest, key)
    ensures multiset([s[0]] + rest) == multiset(s) + multiset{x}
    ensures forall j :: 0 <= j < |[s[0]] + rest| ==> ([s[0]] + rest)[j] == x || ([s[0]] + rest)[j] in s
  {
    forall j | 0 <= j < |rest|
      ensures key(s[0]) <= key(rest[j])
    {
      if rest[j] != x {
        var k :| 0 <= k < |s[1..]| && s[1..][k] == rest[j];
        assert s[1..][k] == s[k + 1];
      }
    }
    SortedCons(s[0], rest, key);
    assert s == [s[0]] + s[1..];
  }

  /** `.order(key, { ascending: true })`, with ties left in table order. */
  function SortByKey<T>(s: seq<T>, key: T -> real): (r: seq<T>)
    ensures |r| == |s|
    ensures SortedBy(r, key)
    ensures multiset(r) == multiset(s)
  {
    if s == [] then []
    else
      assert s == [s[0]] + s[1..];
      InsertByKey(s[0], SortByKey(s[1..], key), key)
  }

  lemma {:induction false} InsertByKeyStable<T>(x: T, s: seq<T>, key: T -> real, k: real)
    requires SortedBy(s, key)
    ensures Filter(HasKey(key, k), InsertByKey(x, s, key))
         == (if key(x) == k then [x] else []) + Filter(HasKey(key, k), s)
  {
    if s == [] || key(x) <= key(s[0]) {
      assert InsertByKey(x, s, key) == [x] + s;
      assert ([x] + s)[1..] == s;
    } else {
      InsertByKeyStable(x, s[1..], key, k);
      var rest := InsertByKey(x, s[1..], key);
      assert InsertByKey(x, s, key) == [s[0]] + rest;
      assert ([s[0]] + rest)[1..] == rest;
      if key(x) == k {
        assert !HasKey(key, k)(s[0]);
      }
    }
  }

  /** The sort is stable: elements with equal keys keep their relative order. */
  lemma {:induction false} SortByKeyStable<T>(s: seq<T>, key: T -> real, k: real)
    ensures Filter(HasKey(key, k), SortByKey(s, key)) == Filter(HasKey(key, k), s)
  {
    if s != [] {
      SortByKeyStable(s[1..], key, k);
      InsertByKeyStable(s[0], SortByKey(s[1..], key), key, k);
    }
  }
}
