/**
 * The sequence operations the core relies on: `find`, `removeAll` and `remove`
 * of a Kotlin collection, and a search from the end.
 */
module Collections {
  import opened Wrappers

  /** Index of the first element satisfying `p` (Kotlin's `find`, which returns that element). */
  function Find<T>(s: seq<T>, p: T -> bool): (r: Option<nat>)
    ensures r.Some? ==> r.value < |s| && p(s[r.value])
    ensures r.Some? ==> forall j :: 0 <= j < r.value ==> !p(s[j])
    ensures r.None? <==> forall j :: 0 <= j < |s| ==> !p(s[j])
  {
    if s == [] then None
    else if p(s[0]) then Some(0)
    else match Find(s[1..], p)
      case None => None
      case Some(i) => Some(i + 1)
  }

  /** Index of the last element satisfying `p`. */
  function FindLast<T>(s: seq<T>, p: T -> bool): (r: Option<nat>)
    ensures r.Some? ==> r.value < |s| && p(s[r.value])
    ensures r.Some? ==> forall j :: r.value < j < |s| ==> !p(s[j])
    ensures r.None? <==> forall j :: 0 <= j < |s| ==> !p(s[j])
  {
    if s == [] then None
    else if p(s[|s| - 1]) then Some(|s| - 1)
    else FindLast(s[..|s| - 1], p)
  }

  /** Kotlin's `removeAll { p(it) }`: drops every element satisfying `p`, keeping the others in order. */
  function RemoveAll<T>(s: seq<T>, p: T -> bool): (r: seq<T>)
    ensures |r| <= |s|
    ensures forall i :: 0 <= i < |r| ==> !p(r[i])
  {
    if s == [] then []
    else if p(s[0]) then RemoveAll(s[1..], p)
    else [s[0]] + RemoveAll(s[1..], p)
  }

  /** `removeAll` only drops elements: whatever it keeps comes from the input. */
  lemma {:induction false} RemoveAllMembers<T>(s: seq<T>, p: T -> bool)
    ensures forall i :: 0 <= i < |RemoveAll(s, p)| ==> RemoveAll(s, p)[i] in s
  {
    if s != [] {
      RemoveAllMembers(s[1..], p);
      var rest := RemoveAll(s[1..], p);
      forall i | 0 <= i < |rest| ensures rest[i] in s {
        var k :| 0 <= k < |s[1..]| && s[1..][k] == rest[i];
        assert s[k + 1] == rest[i];
      }
      if !p(s[0]) {
        assert forall i :: 0 <= i < |rest| ==> ([s[0]] + rest)[i + 1] == rest[i];
      }
    }
  }

  /** When `p` selects nothing, `removeAll` changes nothing. */
  lemma {:induction false} RemoveAllNone<T>(s: seq<T>, p: T -> bool)
    requires forall j :: 0 <= j < |s| ==> !p(s[j])
    ensures RemoveAll(s, p) == s
  {
    if s != [] {
      assert forall j :: 0 <= j < |s[1..]| ==> s[1..][j] == s[j + 1];
      RemoveAllNone(s[1..], p);
    }
  }

  /** An element that `p` does not select survives `removeAll`. */
  lemma {:induction false} RemoveAllKeeps<T>(s: seq<T>, p: T -> bool, j: nat)
    requires j < |s| && !p(s[j])
    ensures s[j] in RemoveAll(s, p)
  {
    if j > 0 {
      assert s[1..][j - 1] == s[j];
      RemoveAllKeeps(s[1..], p, j - 1);
    }
  }

  /** A property of every element still holds of every element after `removeAll`. */
  lemma {:induction false} RemoveAllPreserves<T>(s: seq<T>, p: T -> bool, q: T -> bool)
    requires forall i :: 0 <= i < |s| ==> q(s[i])
    ensures forall i :: 0 <= i < |RemoveAll(s, p)| ==> q(RemoveAll(s, p)[i])
  {
    if s != [] {
      assert forall i :: 0 <= i < |s[1..]| ==> s[1..][i] == s[i + 1];
      RemoveAllPreserves(s[1..], p, q);
    }
  }

  /** Kotlin's `remove(x)`: drops the first element equal to `x`, if there is one. */
  function Remove<T(==)>(s: seq<T>, x: T): (r: seq<T>)
    ensures x in s ==> |r| == |s| - 1
    ensures x !in s ==> r == s
    ensures forall i :: 0 <= i < |r| ==> r[i] in s
  {
    if s == [] then []
    else if s[0] == x then s[1..]
    else [s[0]] + Remove(s[1..], x)
  }

  /** `removeAll` of a concatenation is the concatenation of the two results: order is kept. */
  lemma {:induction false} RemoveAllAppend<T>(s1: seq<T>, s2: seq<T>, p: T -> bool)
    ensures RemoveAll(s1 + s2, p) == RemoveAll(s1, p) + RemoveAll(s2, p)
  {
    if s1 != [] {
      assert (s1 + s2)[1..] == s1[1..] + s2;
      RemoveAllAppend(s1[1..], s2, p);
    } else {
      assert s1 + s2 == s2;
    }
  }

  /** When only the element at `i` satisfies `p`, `removeAll` deletes exactly that position. */
  lemma {:induction false} RemoveAllSingle<T>(s: seq<T>, p: T -> bool, i: nat)
    requires i < |s| && p(s[i])
    requires forall j :: 0 <= j < |s| && j != i ==> !p(s[j])
    ensures RemoveAll(s, p) == s[..i] + s[i + 1..]
  {
    if i == 0 {
      assert forall j :: 0 <= j < |s[1..]| ==> !p(s[1..][j]) by {
        forall j | 0 <= j < |s[1..]| ensures !p(s[1..][j]) { assert s[1..][j] == s[j + 1]; }
      }
      RemoveAllNone(s[1..], p);
    } else {
      assert forall j :: 0 <= j < |s[1..]| ==> s[1..][j] == s[j + 1];
      RemoveAllSingle(s[1..], p, i - 1);
      assert !p(s[0]);
      assert s[..i] == [s[0]] + s[1..][..i - 1];
      assert s[i + 1..] == s[1..][i..];
    }
  }

  /** `remove(s[i])` deletes position `i` when no earlier element equals `s[i]`. */
  lemma {:induction false} RemoveFirstEqual<T>(s: seq<T>, i: nat)
    requires i < |s|
    requires forall j :: 0 <= j < i ==> s[j] != s[i]
    ensures Remove(s, s[i]) == s[..i] + s[i + 1..]
  {
    if i > 0 {
      assert s[1..][i - 1] == s[i];
      RemoveFirstEqual(s[1..], i - 1);
      assert s[..i] == [s[0]] + s[1..][..i - 1];
      assert s[i + 1..] == s[1..][i..];
    }
  }

  /** Appending an element changes `find` only when nothing before it matched. */
  lemma {:induction false} FindSnoc<T>(s: seq<T>, x: T, p: T -> bool)
    ensures Find(s + [x], p) ==
              if Find(s, p).Some? then Find(s, p)
              else if p(x) then Some(|s|)
              else None
  {
    if s == [] {
      assert [] + [x] == [x];
      assert [x][1..] == [];
    } else {
      assert (s + [x])[0] == s[0];
      assert (s + [x])[1..] == s[1..] + [x];
      FindSnoc(s[1..], x, p);
    }
  }
}
