/**
 * Stable sorting by a comparator, the contract of Arrays.sort on objects and
 * of Stream.sorted on an ordered stream. A comparator is modelled as the
 * relation le(a, b) == (compare(a, b) <= 0); the Comparator contract makes it
 * a total preorder. The sort is an insertion sort, so its output is the unique
 * stable ordering that any stable algorithm (TimSort among them) produces.
 */
module StableSort {

  ghost predicate TotalPreorder<T(!new)>(le: (T, T) -> bool)
  {
    && (forall a, b :: le(a, b) || le(b, a))
    && (forall a, b, c :: le(a, b) && le(b, c) ==> le(a, c))
  }

  ghost predicate Sorted<T>(le: (T, T) -> bool, s: seq<T>)
  {
    forall i, j :: 0 <= i < j < |s| ==> le(s[i], s[j])
  }

  /** a and b compare as equal. */
  ghost predicate Equiv<T>(le: (T, T) -> bool, a: T, b: T)
  {
    le(a, b) && le(b, a)
  }

  /** The elements of s that compare equal to z, in their order in s. */
  ghost function ClassOf<T>(le: (T, T) -> bool, s: seq<T>, z: T): seq<T>
  {
    if |s| == 0 then [] else Part(le, s[0], z) + ClassOf(le, s[1..], z)
  }

  /** r keeps the relative order of every group of equal-comparing elements of s. */
  ghost predicate StableWrt<T(!new)>(le: (T, T) -> bool, s: seq<T>, r: seq<T>)
  {
    forall z :: ClassOf(le, r, z) == ClassOf(le, s, z)
  }

  /** Insert x into sorted s before the first element that x compares at most to. */
  function Insert<T(!new)>(le: (T, T) -> bool, x: T, s: seq<T>): (r: seq<T>)
    ensures multiset(r) == multiset(s) + multiset{x}
    ensures |r| == |s| + 1
  {
    if |s| == 0 then [x]
    else if le(x, s[0]) then [x] + s
    else
      assert s == [s[0]] + s[1..];
      [s[0]] + Insert(le, x, s[1..])
  }

  lemma {:induction false} InsertSorted<T(!new)>(le: (T, T) -> bool, x: T, s: seq<T>)
    requires TotalPreorder(le) && Sorted(le, s)
    ensures Sorted(le, Insert(le, x, s))
  {
    if |s| > 0 && !le(x, s[0]) {
      var rest := Insert(le, x, s[1..]);
      assert Sorted(le, s[1..]);
      InsertSorted(le, x, s[1..]);
      forall j | 0 <= j < |rest|
        ensures le(s[0], rest[j])
      {
        assert rest[j] in multiset(rest);
        if rest[j] != x {
          assert rest[j] in multiset(s[1..]);
          var k :| 0 <= k < |s[1..]| && s[1..][k] == rest[j];
          assert s[k + 1] == rest[j];
        }
      }
      var r := [s[0]] + rest;
      assert forall i :: 1 <= i < |r| ==> r[i] == rest[i - 1];
    }
  }

  lemma InsertKeepsSorted<T(!new)>(le: (T, T) -> bool, x: T, s: seq<T>)
    ensures TotalPreorder(le) && Sorted(le, s) ==> Sorted(le, Insert(le, x, s))
  {
    if TotalPreorder(le) && Sorted(le, s) {
      InsertSorted(le, x, s);
    }
  }

  /** Sort the tail, then insert the head in front of every element equal to it. */
  function Sort<T(!new)>(le: (T, T) -> bool, s: seq<T>): (r: seq<T>)
    ensures multiset(r) == multiset(s)
    ensures |r| == |s|
    ensures TotalPreorder(le) ==> Sorted(le, r)
  {
    if |s| == 0 then []
    else
      assert s == [s[0]] + s[1..];
      var rest := Sort(le, s[1..]);
      InsertKeepsSorted(le, s[0], rest);
      Insert(le, s[0], rest)
  }

  /** Two elements on either side of a strict comparison cannot both equal z. */
  lemma StrictNotBothEquiv<T(!new)>(le: (T, T) -> bool, x: T, y: T, z: T)
    requires TotalPreorder(le) && !le(x, y)
    ensures !(Equiv(le, x, z) && Equiv(le, y, z))
  {
  }

  ghost function Part<T>(le: (T, T) -> bool, x: T, z: T): seq<T>
  {
    if Equiv(le, x, z) then [x] else []
  }

  lemma ClassOfCons<T>(le: (T, T) -> bool, x: T, s: seq<T>, z: T)
    ensures ClassOf(le, [x] + s, z) == Part(le, x, z) + ClassOf(le, s, z)
  {
    assert ([x] + s)[1..] == s;
  }

  lemma {:induction false} InsertClass<T(!new)>(le: (T, T) -> bool, x: T, s: seq<T>, z: T)
    requires TotalPreorder(le) && Sorted(le, s)
    ensures ClassOf(le, Insert(le, x, s), z) == Part(le, x, z) + ClassOf(le, s, z)
  {
    if |s| == 0 {
      ClassOfCons(le, x, s, z);
      assert Insert(le, x, s) == [x] + s;
    } else if le(x, s[0]) {
      ClassOfCons(le, x, s, z);
    } else {
      var rest := Insert(le, x, s[1..]);
      assert Sorted(le, s[1..]);
      InsertClass(le, x, s[1..], z);
      ClassOfCons(le, s[0], rest, z);
      ClassOfCons(le, s[0], s[1..], z);
      assert s == [s[0]] + s[1..];
      StrictNotBothEquiv(le, x, s[0], z);
      calc {
        ClassOf(le, Insert(le, x, s), z);
        ClassOf(le, [s[0]] + rest, z);
        Part(le, s[0], z) + (Part(le, x, z) + ClassOf(le, s[1..], z));
        Part(le, x, z) + (Part(le, s[0], z) + ClassOf(le, s[1..], z));
        Part(le, x, z) + ClassOf(le, s, z);
      }
    }
  }

  /** Sort is stable: equal-comparing elements keep their input order. */
  lemma {:induction false} SortIsStable<T(!new)>(le: (T, T) -> bool, s: seq<T>)
    requires TotalPreorder(le)
    ensures StableWrt(le, s, Sort(le, s))
  {
    if |s| > 0 {
      SortIsStable(le, s[1..]);
      forall z
        ensures ClassOf(le, Sort(le, s), z) == ClassOf(le, s, z)
      {
        InsertClass(le, s[0], Sort(le, s[1..]), z);
      }
    }
  }
}
