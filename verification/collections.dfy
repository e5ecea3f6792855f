/** Ordering helpers: a stable insertion sort by an integer key (the
    `sorted(Comparator.comparingLong(...))` of the stores) and the ascending
    enumeration of a finite set of keys. */
module Collections {
  import opened Wrappers
  import opened JavaText

  predicate SortedBy<T>(s: seq<T>, key: T -> int) {
    forall i, j :: 0 <= i < j < |s| ==> key(s[i]) <= key(s[j])
  }

  /** Places `x` before the first element whose key is not smaller. */
  function Insert<T>(x: T, s: seq<T>, key: T -> int): (r: seq<T>)
    requires SortedBy(s, key)
    ensures |r| == |s| + 1
    ensures multiset(r) == multiset(s) + multiset{x}
    ensures SortedBy(r, key)
  {
    if |s| == 0 then [x]
    else if key(x) <= key(s[0]) then [x] + s
    else
      var rest := Insert(x, s[1..], key);
      LowerBoundKept(key(s[0]), rest, s[1..], x, key);
      assert s == [s[0]] + s[1..];
      [s[0]] + rest
  }

  /** A lower bound on the keys of `s` and of `x` bounds every key of a
      sequence holding exactly the elements of `s` and `x`. */
  lemma LowerBoundKept<T>(lo: int, rest: seq<T>, s: seq<T>, x: T, key: T -> int)
    requires multiset(rest) == multiset(s) + multiset{x}
    requires forall i :: 0 <= i < |s| ==> lo <= key(s[i])
    requires lo <= key(x)
    ensures forall i :: 0 <= i < |rest| ==> lo <= key(rest[i])
  {
    forall i | 0 <= i < |rest|
      ensures lo <= key(rest[i])
    {
      assert rest[i] in multiset(rest);
      if rest[i] != x {
        assert rest[i] in multiset(s);
      }
    }
  }

  /** Stable sort by `key`: a sorted permutation of `s`. */
  function SortBy<T>(s: seq<T>, key: T -> int): (r: seq<T>)
    ensures |r| == |s|
    ensures multiset(r) == multiset(s)
    ensures SortedBy(r, key)
  {
    if |s| == 0 then []
    else
      assert s == [s[0]] + s[1..];
      Insert(s[0], SortBy(s[1..], key), key)
  }

  /** A property held by every element holds for every element of any
      permutation. */
  lemma PermutationKeeps<T>(a: seq<T>, b: seq<T>, p: T -> bool)
    requires multiset(a) == multiset(b)
    requires forall i :: 0 <= i < |a| ==> p(a[i])
    ensures forall i :: 0 <= i < |b| ==> p(b[i])
  {
    forall i | 0 <= i < |b|
      ensures p(b[i])
    {
      assert b[i] in multiset(a);
      var k :| 0 <= k < |a| && a[k] == b[i];
    }
  }

  /** Some element of a non-empty set. */
  lemma Pick(s: set<int>) returns (y: int)
    requires s != {}
    ensures y in s
  {
    if forall z :: z !in s {
      assert false;
    }
    y :| y in s;
  }

  lemma MinExists(s: set<int>)
    requires s != {}
    ensures exists m :: m in s && forall x :: x in s ==> m <= x
    decreases |s|
  {
    var y := Pick(s);
    var t := s - {y};
    if t == {} {
      assert forall x :: x in s ==> y <= x by {
        forall x | x in s ensures y <= x { assert x !in t; }
      }
    } else {
      MinExists(t);
      var m :| m in t && forall x :: x in t ==> m <= x;
      var w := if y < m then y else m;
      assert forall x :: x in s ==> w <= x by {
        forall x | x in s ensures w <= x { if x != y { assert x in t; } }
      }
      assert w in s;
    }
  }

  function MinOf(s: set<int>): (m: int)
    requires s != {}
    ensures m in s && forall x :: x in s ==> m <= x
  {
    MinExists(s);
    var m :| m in s && forall x :: x in s ==> m <= x;
    m
  }

  /** The elements of `s` in strictly ascending order. */
  function SortedKeys(s: set<Long>): (r: seq<Long>)
    ensures |r| == |s|
    ensures forall x :: x in s <==> x in r
    ensures forall i, j :: 0 <= i < j < |r| ==> r[i] < r[j]
    decreases |s|
  {
    if s == {} then []
    else
      var m := MinOf(s);
      var rest := SortedKeys(s - {m});
      PrependMin(s, m, s - {m}, rest);
      [m] + rest
  }

  /** The minimum in front of the rest, sorted, lists the whole set in order. */
  lemma PrependMin(s: set<int>, m: int, t: set<int>, rest: seq<int>)
    requires m in s && (forall x :: x in s ==> m <= x) && t == s - {m}
    requires |rest| == |t|
    requires forall x :: x in t <==> x in rest
    requires forall i, j :: 0 <= i < j < |rest| ==> rest[i] < rest[j]
    ensures |[m] + rest| == |s|
    ensures forall x :: x in s <==> x in [m] + rest
    ensures forall i, j :: 0 <= i < j < |[m] + rest| ==> ([m] + rest)[i] < ([m] + rest)[j]
  {
    AboveMin(s, m, rest);
    var r := [m] + rest;
    forall i, j | 0 <= i < j < |r|
      ensures r[i] < r[j]
    {
      if i > 0 {
        assert r[i] == rest[i - 1] && r[j] == rest[j - 1];
      } else {
        assert r[j] == rest[j - 1];
      }
    }
  }

  /** The elements other than the minimum lie strictly above it. */
  lemma AboveMin(s: set<int>, m: int, rest: seq<int>)
    requires m in s && forall x :: x in s ==> m <= x
    requires forall x :: x in rest ==> x in s && x != m
    ensures forall i :: 0 <= i < |rest| ==> m < rest[i]
  {
    forall i | 0 <= i < |rest|
      ensures m < rest[i]
    {
      assert rest[i] in rest;
    }
  }

  /** The values stored under `ks`, in the order of `ks`. */
  function ValuesAt<T>(m: map<Long, T>, ks: seq<Long>): (vs: seq<T>)
    requires forall i :: 0 <= i < |ks| ==> ks[i] in m
    ensures |vs| == |ks|
    ensures forall i :: 0 <= i < |ks| ==> vs[i] == m[ks[i]]
  {
    if |ks| == 0 then [] else [m[ks[0]]] + ValuesAt(m, ks[1..])
  }

  /** The values of a map, listed in ascending key order: one entry per key. */
  function ValuesInKeyOrder<T>(m: map<Long, T>): (vs: seq<T>)
    ensures |vs| == |m|
  {
    var ks := SortedKeys(m.Keys);
    ValuesAt(m, ks)
  }

  /** A value is listed exactly when some key holds it. */
  lemma ValuesInKeyOrderListsValues<T>(m: map<Long, T>, v: T)
    ensures v in ValuesInKeyOrder(m) <==> exists k :: k in m && m[k] == v
  {
    var ks := SortedKeys(m.Keys);
    var vs := ValuesAt(m, ks);
    assert ValuesInKeyOrder(m) == vs;
    if k :| k in m && m[k] == v {
      assert k in ks;
      var i :| 0 <= i < |ks| && ks[i] == k;
      assert vs[i] == v;
    }
    if v in vs {
      var i :| 0 <= i < |vs| && vs[i] == v;
      assert ks[i] in ks && m[ks[i]] == v;
    }
  }

  /** `filter(p).findFirst()`: the first element satisfying `p`. */
  function FirstMatch<T>(xs: seq<T>, p: T -> bool): (r: Option<T>)
    ensures r.Some? ==> r.value in xs && p(r.value)
    ensures r.None? <==> forall i :: 0 <= i < |xs| ==> !p(xs[i])
  {
    if |xs| == 0 then None
    else if p(xs[0]) then Some(xs[0])
    else
      var r := FirstMatch(xs[1..], p);
      assert forall i :: 1 <= i < |xs| ==> xs[i] == xs[1..][i - 1];
      r
  }
}
