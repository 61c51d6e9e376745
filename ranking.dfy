/** Sorting by a count, descending, and keeping the first entries. */
module Ranking {
  import opened Collections
  /** Non-increasing by `key`. */
  predicate SortedDesc<T>(s: seq<T>, key: T -> int)
  {
    forall i, j :: 0 <= i < j < |s| ==> key(s[i]) >= key(s[j])
  }

  /** No two elements share a name. */
  predicate DistinctBy<T>(s: seq<T>, name: T -> string)
  {
    forall i, j :: 0 <= i < j < |s| ==> name(s[i]) != name(s[j])
  }

  /** Puts `x` before the first element whose key is not greater: equal keys keep their order. */
  function Insert<T>(x: T, s: seq<T>, key: T -> int): (r: seq<T>)
    ensures multiset(r) == multiset(s) + multiset{x}
  {
    if s == [] || key(s[0]) <= key(x) then [x] + s
    else
      assert s == [s[0]] + s[1..];
      [s[0]] + Insert(x, s[1..], key)
  }

  /**
   * A stable sort by `key`, descending: JavaScript's `sort((a, b) => key(b) - key(a))`
   * and Python's `sorted(s, key=key, reverse=True)`.
   */
  function SortDesc<T>(s: seq<T>, key: T -> int): (r: seq<T>)
    ensures multiset(r) == multiset(s)
  {
    if s == [] then []
    else
      assert s == [s[0]] + s[1..];
      Insert(s[0], SortDesc(s[1..], key), key)
  }

  /** Inserting keeps an upper bound on the keys. */
  lemma {:induction false} InsertKeepsBound<T>(x: T, s: seq<T>, key: T -> int, bound: int)
    requires key(x) <= bound && forall i :: 0 <= i < |s| ==> key(s[i]) <= bound
    ensures forall i :: 0 <= i < |Insert(x, s, key)| ==> key(Insert(x, s, key)[i]) <= bound
  {
    if s != [] && key(s[0]) > key(x) {
      assert forall i :: 0 <= i < |s[1..]| ==> s[1..][i] == s[i + 1];
      InsertKeepsBound(x, s[1..], key, bound);
      var rest := Insert(x, s[1..], key);
      assert forall i :: 0 <= i < |rest| ==> ([s[0]] + rest)[i + 1] == rest[i];
    } else {
      assert forall i :: 0 <= i < |s| ==> ([x] + s)[i + 1] == s[i];
    }
  }

  lemma {:induction false} InsertKeepsSorted<T>(x: T, s: seq<T>, key: T -> int)
    requires SortedDesc(s, key)
    ensures SortedDesc(Insert(x, s, key), key)
  {
    if s == [] {
      assert Insert(x, s, key) == [x];
    } else {
      assert s == [s[0]] + s[1..];
      SortedCons(s[0], s[1..], key);
      if key(s[0]) > key(x) {
        InsertKeepsSorted(x, s[1..], key);
        InsertKeepsBound(x, s[1..], key, key(s[0]));
        SortedCons(s[0], Insert(x, s[1..], key), key);
      } else {
        SortedCons(x, s, key);
      }
    }
  }

  /** The result of `SortDesc` is non-increasing by `key` (and a permutation, by its contract). */
  lemma {:induction false} SortDescSorted<T>(s: seq<T>, key: T -> int)
    ensures SortedDesc(SortDesc(s, key), key)
  {
    if s != [] {
      SortDescSorted(s[1..], key);
      InsertKeepsSorted(s[0], SortDesc(s[1..], key), key);
    }
  }

  /** Python's `s[:n]` and JavaScript's `s.slice(0, n)`. */
  function Take<T>(s: seq<T>, n: nat): (r: seq<T>)
    ensures |r| <= n && |r| <= |s| && r == s[..|r|]
    ensures |r| < n ==> r == s
  {
    if |s| <= n then s else s[..n]
  }

  /** In a sorted sequence, an element left out by `Take` has a key no greater than any element kept. */
  lemma TakeKeepsHighest<T>(s: seq<T>, key: T -> int, n: nat, x: T)
    requires SortedDesc(s, key) && x in s && x !in Take(s, n)
    ensures |Take(s, n)| == n
    ensures forall j :: 0 <= j < |Take(s, n)| ==> key(Take(s, n)[j]) >= key(x)
  {
    var k :| 0 <= k < |s| && s[k] == x;
    var t := Take(s, n);
    assert k >= |t|;
    forall j | 0 <= j < |t| ensures key(t[j]) >= key(x) {
      assert t[j] == s[j];
    }
  }

  lemma {:induction false} DistinctOccursOnce<T>(s: seq<T>, name: T -> string, x: T)
    requires DistinctBy(s, name)
    ensures multiset(s)[x] <= 1
  {
    if s != [] {
      assert s == [s[0]] + s[1..];
      assert DistinctBy(s[1..], name) by {
        forall i, j | 0 <= i < j < |s[1..]| ensures name(s[1..][i]) != name(s[1..][j]) {
          assert s[1..][i] == s[i + 1] && s[1..][j] == s[j + 1];
        }
      }
      DistinctOccursOnce(s[1..], name, x);
      if s[0] == x {
        assert x !in s[1..];
      }
    }
  }

  /** Reordering keeps names distinct. */
  lemma PermutationKeepsDistinct<T>(s: seq<T>, r: seq<T>, name: T -> string)
    requires multiset(s) == multiset(r) && DistinctBy(s, name)
    ensures DistinctBy(r, name)
  {
    forall i, j | 0 <= i < j < |r| ensures name(r[i]) != name(r[j]) {
      if name(r[i]) == name(r[j]) {
        assert r[i] in multiset(s) && r[j] in multiset(s);
        var a :| 0 <= a < |s| && s[a] == r[i];
        var b :| 0 <= b < |s| && s[b] == r[j];
        assert a == b;
        assert r == r[..j] + r[j..];
        assert r[i] in r[..j] && r[j] in r[j..];
        assert multiset(r)[r[i]] >= 2;
        DistinctOccursOnce(s, name, r[i]);
        assert false;
      }
    }
  }

  /** A head no smaller than every key of a sorted tail gives a sorted sequence, and conversely. */
  lemma SortedCons<T>(x: T, rest: seq<T>, key: T -> int)
    ensures SortedDesc([x] + rest, key) <==>
              SortedDesc(rest, key) && forall i :: 0 <= i < |rest| ==> key(rest[i]) <= key(x)
  {
    var r := [x] + rest;
    assert forall i :: 0 <= i < |rest| ==> r[i + 1] == rest[i];
    if SortedDesc(rest, key) && forall i :: 0 <= i < |rest| ==> key(rest[i]) <= key(x) {
      forall i, j | 0 <= i < j < |r| ensures key(r[i]) >= key(r[j]) {
        if i > 0 {
          assert r[i] == rest[i - 1];
        }
      }
    }
    if SortedDesc(r, key) {
      forall i, j | 0 <= i < j < |rest| ensures key(rest[i]) >= key(rest[j]) {
        assert key(r[i + 1]) >= key(r[j + 1]);
      }
      forall i | 0 <= i < |rest| ensures key(rest[i]) <= key(x) {
        assert key(r[0]) >= key(r[i + 1]);
      }
    }
  }

  /** Filtering keeps the order, so a sorted sequence stays sorted. */
  lemma {:induction false} FilterKeepsSorted<T>(s: seq<T>, p: T -> bool, key: T -> int)
    requires SortedDesc(s, key)
    ensures SortedDesc(RemoveAll(s, p), key)
  {
    if s != [] {
      assert s == [s[0]] + s[1..];
      SortedCons(s[0], s[1..], key);
      FilterKeepsSorted(s[1..], p, key);
      if !p(s[0]) {
        RemoveAllPreserves(s[1..], p, x => key(x) <= key(s[0]));
        SortedCons(s[0], RemoveAll(s[1..], p), key);
      }
    }
  }

  /** A head whose name no element of a distinct tail has gives distinct names, and conversely. */
  lemma DistinctCons<T>(x: T, rest: seq<T>, name: T -> string)
    ensures DistinctBy([x] + rest, name) <==>
              DistinctBy(rest, name) && forall i :: 0 <= i < |rest| ==> name(rest[i]) != name(x)
  {
    var r := [x] + rest;
    assert forall i :: 0 <= i < |rest| ==> r[i + 1] == rest[i];
    if DistinctBy(rest, name) && forall i :: 0 <= i < |rest| ==> name(rest[i]) != name(x) {
      forall i, j | 0 <= i < j < |r| ensures name(r[i]) != name(r[j]) {
        if i > 0 {
          assert r[i] == rest[i - 1];
        }
      }
    }
    if DistinctBy(r, name) {
      forall i, j | 0 <= i < j < |rest| ensures name(rest[i]) != name(rest[j]) {
        assert name(r[i + 1]) != name(r[j + 1]);
      }
      forall i | 0 <= i < |rest| ensures name(rest[i]) != name(x) {
        assert name(r[0]) != name(r[i + 1]);
      }
    }
  }

  /** Filtering keeps names distinct. */
  lemma {:induction false} FilterKeepsDistinct<T>(s: seq<T>, p: T -> bool, name: T -> string)
    requires DistinctBy(s, name)
    ensures DistinctBy(RemoveAll(s, p), name)
  {
    if s != [] {
      assert s == [s[0]] + s[1..];
      DistinctCons(s[0], s[1..], name);
      FilterKeepsDistinct(s[1..], p, name);
      if !p(s[0]) {
        RemoveAllPreserves(s[1..], p, x => name(x) != name(s[0]));
        DistinctCons(s[0], RemoveAll(s[1..], p), name);
      }
    }
  }
}
