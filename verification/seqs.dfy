/** Sequence operations that java.util.List and java.util.HashMap perform for the catalog. */
module Seqs {

  /** List.indexOf: the position of the first occurrence of x. */
  function FirstIndex<T(==)>(s: seq<T>, x: T): (i: nat)
    requires x in s
    ensures i < |s| && s[i] == x && x !in s[..i]
  {
    if s[0] == x then 0
    else
      var j := FirstIndex(s[1..], x);
      assert s[..j + 1] == [s[0]] + s[1..][..j];
      j + 1
  }

  /** List.remove(Object): drop the first occurrence of x; without one, the list is unchanged. */
  function RemoveFirst<T(==)>(s: seq<T>, x: T): (r: seq<T>)
    ensures x !in s ==> r == s
    ensures x in s ==> exists i :: 0 <= i < |s| && s[i] == x && x !in s[..i] && r == s[..i] + s[i + 1..]
    ensures multiset(r) == multiset(s) - multiset{x}
  {
    if x in s then
      var i := FirstIndex(s, x);
      assert s == s[..i] + [x] + s[i + 1..];
      s[..i] + s[i + 1..]
    else
      assert multiset(s)[x] == 0;
      s
  }

  /** Removing an element that occurs once leaves no occurrence of it. */
  lemma RemoveOnlyOccurrence<T>(s: seq<T>, x: T)
    requires multiset(s)[x] == 1
    ensures x !in RemoveFirst(s, x)
  {
    var r := RemoveFirst(s, x);
    assert multiset(r)[x] == 0;
  }

  ghost predicate Distinct<T>(s: seq<T>)
  {
    forall i, j :: 0 <= i < j < |s| ==> s[i] != s[j]
  }

  lemma {:induction false} DistinctOccursOnce<T>(s: seq<T>, x: T)
    requires Distinct(s) && x in s
    ensures multiset(s)[x] == 1
    decreases |s|
  {
    assert s == [s[0]] + s[1..];
    assert Distinct(s[1..]);
    if s[0] == x {
      assert x !in s[1..];
    } else {
      DistinctOccursOnce(s[1..], x);
    }
  }

  /** Removing from a sequence without duplicates keeps it without duplicates. */
  lemma RemoveKeepsDistinct<T>(s: seq<T>, x: T)
    requires Distinct(s)
    ensures Distinct(RemoveFirst(s, x))
  {
    var r := RemoveFirst(s, x);
    if x in s {
      var i :| 0 <= i < |s| && s[i] == x && x !in s[..i] && r == s[..i] + s[i + 1..];
      forall a, b | 0 <= a < b < |r|
        ensures r[a] != r[b]
      {
        var a' := if a < i then a else a + 1;
        var b' := if b < i then b else b + 1;
        assert r[a] == s[a'] && r[b] == s[b'];
      }
    }
  }

  /** The keys of s under `key`, each mapped to the position of its LAST occurrence:
      the HashMap that results from put(key(v), v) for every v of s in order. */
  function LastPositions<T, K(!new)>(s: seq<T>, key: T -> K): (m: map<K, nat>)
    ensures forall k :: k in m <==> exists i :: 0 <= i < |s| && key(s[i]) == k
    ensures forall k :: k in m ==> m[k] < |s| && key(s[m[k]]) == k
    ensures forall k, j :: k in m && m[k] < j < |s| ==> key(s[j]) != k
  {
    if |s| == 0 then map[]
    else
      var init := s[..|s| - 1];
      var m0 := LastPositions(init, key);
      assert forall i :: 0 <= i < |init| ==> init[i] == s[i];
      m0[key(s[|s| - 1]) := |s| - 1]
  }
}
