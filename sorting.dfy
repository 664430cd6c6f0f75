/** Python's `sorted`, as a stable insertion sort on a strict "comes before" relation.

    `less(a, b)` is the comparison `sorted` makes: `a` must be placed before `b`.
    When `less` is a strict weak order on the elements, every stable sort gives the
    same result, so this one agrees with Python's. */
module Sorting {

  /** Inserts `x` after every element that must come before it and before the rest. */
  function Insert<T>(x: T, s: seq<T>, less: (T, T) -> bool): (r: seq<T>)
    ensures multiset(r) == multiset(s) + multiset{x}
  {
    if s == [] then [x]
    else if less(s[0], x) then
      assert s == [s[0]] + s[1..];
      [s[0]] + Insert(x, s[1..], less)
    else [x] + s
  }

  function Sort<T>(s: seq<T>, less: (T, T) -> bool): (r: seq<T>)
    ensures multiset(r) == multiset(s)
  {
    if s == [] then []
    else
      assert s == [s[0]] + s[1..];
      Insert(s[0], Sort(s[1..], less), less)
  }

  /** No element is placed after one that must come before it. */
  ghost predicate SortedBy<T>(s: seq<T>, less: (T, T) -> bool) {
    forall i, j :: 0 <= i < j < |s| ==> !less(s[j], s[i])
  }

  /** Every element of `s` is one of `u`. */
  ghost predicate Within<T>(s: seq<T>, u: seq<T>) {
    forall i :: 0 <= i < |s| ==> s[i] in u
  }

  /** `less` is asymmetric and its complement is transitive on the elements of `u`. */
  ghost predicate StrictWeakOn<T>(less: (T, T) -> bool, u: seq<T>) {
    && (forall i, j :: 0 <= i < |u| && 0 <= j < |u| && less(u[i], u[j]) ==> !less(u[j], u[i]))
    && (forall i, j, k ::
          0 <= i < |u| && 0 <= j < |u| && 0 <= k < |u| && !less(u[i], u[j]) && !less(u[j], u[k])
          ==> !less(u[i], u[k]))
  }

  lemma InMultiset<T>(e: T, r: seq<T>, s: seq<T>, x: T)
    requires multiset(r) == multiset(s) + multiset{x}
    requires e in r
    ensures e == x || e in s
  {
    assert e in multiset(r);
  }

  lemma {:induction false} InsertSorted<T>(x: T, s: seq<T>, less: (T, T) -> bool, u: seq<T>)
    requires StrictWeakOn(less, u)
    requires x in u && Within(s, u)
    requires SortedBy(s, less)
    ensures SortedBy(Insert(x, s, less), less)
  {
    if s != [] {
      var r := Insert(x, s, less);
      if less(s[0], x) {
        var tail := Insert(x, s[1..], less);
        InsertSorted(x, s[1..], less, u);
        assert r == [s[0]] + tail;
        forall j | 1 <= j < |r|
          ensures !less(r[j], s[0])
        {
          assert r[j] == tail[j - 1];
          InMultiset(tail[j - 1], tail, s[1..], x);
          if r[j] == x {
            var a, b :| 0 <= a < |u| && 0 <= b < |u| && u[a] == s[0] && u[b] == x;
            assert less(u[a], u[b]);
          } else {
            var m :| 0 <= m < |s[1..]| && s[1..][m] == r[j];
            assert s[m + 1] == r[j];
          }
        }
      } else {
        forall k | 1 <= k < |s|
          ensures !less(s[k], x)
        {
          var a, b, c :| 0 <= a < |u| && 0 <= b < |u| && 0 <= c < |u|
                         && u[a] == s[k] && u[b] == s[0] && u[c] == x;
          assert !less(u[a], u[b]) && !less(u[b], u[c]);
        }
      }
    }
  }

  lemma {:induction false} SortSortedWithin<T>(s: seq<T>, less: (T, T) -> bool, u: seq<T>)
    requires StrictWeakOn(less, u)
    requires Within(s, u)
    ensures SortedBy(Sort(s, less), less)
  {
    if s != [] {
      var t := Sort(s[1..], less);
      SortSortedWithin(s[1..], less, u);
      forall i | 0 <= i < |t|
        ensures t[i] in u
      {
        assert t[i] in multiset(t);
        assert t[i] in s[1..];
      }
      InsertSorted(s[0], t, less, u);
    }
  }

  /** On a strict weak order, the insertion sort sorts. */
  lemma SortSorted<T>(s: seq<T>, less: (T, T) -> bool)
    requires StrictWeakOn(less, s)
    ensures SortedBy(Sort(s, less), less)
  {
    SortSortedWithin(s, less, s);
  }

  /** Elements of the result are elements of the input. */
  lemma SortMember<T>(s: seq<T>, less: (T, T) -> bool, i: int)
    requires 0 <= i < |Sort(s, less)|
    ensures Sort(s, less)[i] in s
  {
    assert Sort(s, less)[i] in multiset(Sort(s, less));
  }
}
