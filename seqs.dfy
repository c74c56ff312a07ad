/** Row-level operations on tables kept as sequences in storage order:
    selecting rows, finding the first match, deleting and replacing rows by
    key, and key uniqueness. The repositories are built from these. */
module Seqs {
  import opened Common

  /** The rows of `s` that satisfy `p`, in their original order. */
  function Filter<T(==,!new)>(s: seq<T>, p: T -> bool): (r: seq<T>)
    ensures |r| <= |s|
    ensures forall x :: x in r <==> x in s && p(x)
  {
    if s == [] then []
    else (if p(s[0]) then [s[0]] else []) + Filter(s[1..], p)
  }

  /** The first row of `s` that satisfies `p`, if any. */
  function First<T(==,!new)>(s: seq<T>, p: T -> bool): (r: Option<T>)
    ensures r.None? <==> forall x :: x in s ==> !p(x)
    ensures r.Some? ==> r.value in s && p(r.value)
  {
    if s == [] then None
    else if p(s[0]) then Some(s[0])
    else
      var r := First(s[1..], p);
      assert forall x :: x in s ==> x == s[0] || x in s[1..];
      r
  }

  /** The row `First` finds is the earliest: every row before it fails `p`. */
  lemma {:induction false} FirstIsEarliest<T(!new)>(s: seq<T>, p: T -> bool)
    requires First(s, p).Some?
    ensures exists i :: 0 <= i < |s| && s[i] == First(s, p).value && forall j :: 0 <= j < i ==> !p(s[j])
  {
    if !p(s[0]) {
      FirstIsEarliest(s[1..], p);
      var i :| 0 <= i < |s[1..]| && s[1..][i] == First(s, p).value && forall j :: 0 <= j < i ==> !p(s[1..][j]);
      assert s[i + 1] == First(s, p).value;
      assert forall j :: 0 <= j < i + 1 ==> !p(s[j]) by {
        forall j | 0 <= j < i + 1 ensures !p(s[j]) {
          if j > 0 { assert s[j] == s[1..][j - 1]; }
        }
      }
    } else {
      assert s[0] == First(s, p).value;
    }
  }

  /** The first row whose key is `k`. */
  function FindByKey<T(==,!new), K(==)>(s: seq<T>, key: T -> K, k: K): (r: Option<T>)
    ensures r.Some? ==> r.value in s && key(r.value) == k
    ensures r.None? <==> forall x :: x in s ==> key(x) != k
  {
    First(s, (x: T) => key(x) == k)
  }

  /** `s` without the rows whose key is `k`. */
  function Without<T(==,!new), K(==)>(s: seq<T>, key: T -> K, k: K): (r: seq<T>)
    ensures forall x :: x in r <==> x in s && key(x) != k
  {
    if s == [] then []
    else (if key(s[0]) != k then [s[0]] else []) + Without(s[1..], key, k)
  }

  /** `s` with every row whose key is `key(x)` replaced by `x`. */
  function Replace<T(==,!new), K(==)>(s: seq<T>, key: T -> K, x: T): (r: seq<T>)
    ensures |r| == |s|
    ensures forall i :: 0 <= i < |s| ==> r[i] == (if key(s[i]) == key(x) then x else s[i])
  {
    if s == [] then []
    else [if key(s[0]) == key(x) then x else s[0]] + Replace(s[1..], key, x)
  }

  /** No two rows of `s` share a key. */
  predicate Distinct<T(==,!new), K(==)>(s: seq<T>, key: T -> K) {
    s == [] || ((forall y :: y in s[1..] ==> key(y) != key(s[0])) && Distinct(s[1..], key))
  }

  lemma AppendAssociative<T>(a: seq<T>, b: seq<T>, c: seq<T>)
    ensures (a + b) + c == a + (b + c)
  {
  }

  lemma {:induction false} FilterAppend<T(!new)>(a: seq<T>, b: seq<T>, p: T -> bool)
    ensures Filter(a + b, p) == Filter(a, p) + Filter(b, p)
  {
    if a == [] {
      assert a + b == b;
    } else {
      var head := if p(a[0]) then [a[0]] else [];
      assert (a + b)[0] == a[0];
      assert (a + b)[1..] == a[1..] + b;
      FilterAppend(a[1..], b, p);
      assert Filter(a + b, p) == head + (Filter(a[1..], p) + Filter(b, p));
      AppendAssociative(head, Filter(a[1..], p), Filter(b, p));
    }
  }

  lemma FilterSingleton<T(!new)>(x: T, p: T -> bool)
    ensures Filter([x], p) == if p(x) then [x] else []
  {
    assert [x][1..] == [];
  }

  /** Selecting from `s + [x]` selects from `s` and then possibly `x`. */
  lemma FilterSnoc<T(!new)>(s: seq<T>, x: T, p: T -> bool)
    ensures Filter(s + [x], p) == Filter(s, p) + (if p(x) then [x] else [])
  {
    FilterAppend(s, [x], p);
    FilterSingleton(x, p);
  }

  /** A selection that keeps every row is the identity. */
  lemma {:induction false} FilterKeepsAll<T(!new)>(s: seq<T>, p: T -> bool)
    requires forall x :: x in s ==> p(x)
    ensures Filter(s, p) == s
  {
    if s != [] {
      assert forall x :: x in s[1..] ==> x in s;
      FilterKeepsAll(s[1..], p);
    }
  }

  /** A selection that keeps no row is empty. */
  lemma {:induction false} FilterKeepsNone<T(!new)>(s: seq<T>, p: T -> bool)
    requires forall x :: x in s ==> !p(x)
    ensures Filter(s, p) == []
  {
    if s != [] {
      assert forall x :: x in s[1..] ==> x in s;
      FilterKeepsNone(s[1..], p);
    }
  }

  /** Selecting by a condition that is the disjoint union of two others
      selects as many rows as the two selections together. */
  lemma {:induction false} FilterDisjointUnion<T(!new)>(s: seq<T>, pq: T -> bool, p: T -> bool, q: T -> bool)
    requires forall x :: pq(x) == (p(x) || q(x))
    requires forall x :: !(p(x) && q(x))
    ensures |Filter(s, pq)| == |Filter(s, p)| + |Filter(s, q)|
  {
    if s != [] {
      FilterDisjointUnion(s[1..], pq, p, q);
    }
  }

  /** Selecting rows keeps keys distinct. */
  lemma {:induction false} DistinctFilter<T(!new), K>(s: seq<T>, key: T -> K, p: T -> bool)
    requires Distinct(s, key)
    ensures Distinct(Filter(s, p), key)
  {
    if s != [] {
      DistinctFilter(s[1..], key, p);
      var r := Filter(s, p);
      var tail := Filter(s[1..], p);
      if p(s[0]) {
        assert r == [s[0]] + tail;
        assert r[1..] == tail;
      } else {
        assert r == tail;
      }
    }
  }

  /** Appending a row with a new key keeps keys distinct. */
  lemma {:induction false} DistinctSnoc<T(!new), K>(s: seq<T>, key: T -> K, x: T)
    requires Distinct(s, key)
    requires forall y :: y in s ==> key(y) != key(x)
    ensures Distinct(s + [x], key)
  {
    if s != [] {
      assert (s + [x])[1..] == s[1..] + [x];
      assert forall y :: y in s[1..] ==> y in s;
      DistinctSnoc(s[1..], key, x);
    } else {
      assert [x][1..] == [];
    }
  }

  /** Replacing a row by one with the same key keeps keys distinct. */
  lemma {:induction false} DistinctReplace<T(!new), K>(s: seq<T>, key: T -> K, x: T)
    requires Distinct(s, key)
    ensures Distinct(Replace(s, key, x), key)
  {
    if s != [] {
      var r := Replace(s, key, x);
      assert r[1..] == Replace(s[1..], key, x);
      DistinctReplace(s[1..], key, x);
      assert key(r[0]) == key(s[0]);
      forall y | y in r[1..] ensures key(y) != key(r[0]) {
        var i :| 0 <= i < |r[1..]| && r[1..][i] == y;
        assert key(y) == key(s[1..][i]);
      }
    }
  }

  /** Replacing rows keeps the set of keys: a key is found afterwards iff it was before. */
  lemma ReplaceKeepsKeys<T(!new), K>(s: seq<T>, key: T -> K, x: T, k: K)
    ensures FindByKey(Replace(s, key, x), key, k).Some? <==> FindByKey(s, key, k).Some?
  {
    var r := Replace(s, key, x);
    if FindByKey(s, key, k).Some? {
      var y := FindByKey(s, key, k).value;
      var i :| 0 <= i < |s| && s[i] == y;
      assert key(r[i]) == k;
      assert r[i] in r;
    }
    if FindByKey(r, key, k).Some? {
      var y := FindByKey(r, key, k).value;
      var i :| 0 <= i < |r| && r[i] == y;
      assert key(s[i]) == k;
      assert s[i] in s;
    }
  }

  /** With distinct keys, deleting the row of `x` removes exactly one row
      from every selection that contains `x` and no row from the others. */
  lemma {:induction false} WithoutCount<T(!new), K>(s: seq<T>, key: T -> K, x: T, p: T -> bool)
    requires Distinct(s, key)
    requires x in s
    ensures |Filter(Without(s, key, key(x)), p)| == |Filter(s, p)| - (if p(x) then 1 else 0)
  {
    var h, t := s[0], s[1..];
    assert s == [h] + t;
    FilterAppend([h], t, p);
    FilterSingleton(h, p);
    if key(h) == key(x) {
      assert x in t ==> key(x) != key(h);
      assert x == h;
      WithoutAbsentKey(t, key, key(x));
      assert Without(s, key, key(x)) == t;
    } else {
      assert x in t;
      WithoutCount(t, key, x, p);
      assert Without(s, key, key(x)) == [h] + Without(t, key, key(x));
      FilterAppend([h], Without(t, key, key(x)), p);
    }
  }

  /** Deleting a key that no row has changes nothing. */
  lemma {:induction false} WithoutAbsentKey<T(!new), K>(s: seq<T>, key: T -> K, k: K)
    requires forall x :: x in s ==> key(x) != k
    ensures Without(s, key, k) == s
  {
    if s != [] {
      assert key(s[0]) != k;
      assert forall i :: 0 <= i < |s[1..]| ==> s[1..][i] == s[i + 1];
      WithoutAbsentKey(s[1..], key, k);
      assert s == [s[0]] + s[1..];
    }
  }

  /** Deleting rows keeps keys distinct. */
  lemma {:induction false} DistinctWithout<T(!new), K, J>(s: seq<T>, key: T -> K, other: T -> J, k: J)
    requires Distinct(s, key)
    ensures Distinct(Without(s, other, k), key)
  {
    if s != [] {
      DistinctWithout(s[1..], key, other, k);
      var r := Without(s, other, k);
      var tail := Without(s[1..], other, k);
      if other(s[0]) != k {
        assert r == [s[0]] + tail;
        assert r[1..] == tail;
      } else {
        assert r == tail;
      }
    }
  }

  /** With distinct keys, a key identifies its row. */
  lemma {:induction false} DistinctUnique<T(!new), K>(s: seq<T>, key: T -> K, x: T, y: T)
    requires Distinct(s, key)
    requires x in s && y in s && key(x) == key(y)
    ensures x == y
  {
    if x != s[0] && y != s[0] {
      assert x in s[1..] && y in s[1..];
      DistinctUnique(s[1..], key, x, y);
    } else {
      assert forall z :: z in s ==> z == s[0] || z in s[1..];
    }
  }
}
