/**
 Array.prototype.sort with a comparator, as a function: a stable sort by insertion. The
 facts its callers use: it orders under any weak order, it permutes, an ordered list is
 left as it is, and sorting a concatenation merges the sorted parts, the left one first.
 */
module Sorting {

  // before(x, y): the comparator is negative on (x, y).
  ghost predicate WeakOrder<T(!new)>(before: (T, T) -> bool) {
    && (forall x, y :: before(x, y) ==> !before(y, x))
    && (forall x, y, z :: !before(y, x) && !before(z, y) ==> !before(z, x))
  }

  ghost predicate Sorted<T>(s: seq<T>, before: (T, T) -> bool) {
    forall i, j :: 0 <= i < j < |s| ==> !before(s[j], s[i])
  }

  function Insert<T>(x: T, s: seq<T>, before: (T, T) -> bool): seq<T> {
    if s == [] || !before(s[0], x) then [x] + s else [s[0]] + Insert(x, s[1..], before)
  }

  function Sort<T>(s: seq<T>, before: (T, T) -> bool): seq<T> {
    if s == [] then [] else Insert(s[0], Sort(s[1..], before), before)
  }

  lemma {:induction false} InsertPermutes<T>(x: T, s: seq<T>, before: (T, T) -> bool)
    ensures multiset(Insert(x, s, before)) == multiset{x} + multiset(s)
  {
    if s == [] || !before(s[0], x) {
    } else {
      InsertPermutes(x, s[1..], before);
      assert s == [s[0]] + s[1..];
    }
  }

  lemma {:induction false} SortPermutes<T>(s: seq<T>, before: (T, T) -> bool)
    ensures multiset(Sort(s, before)) == multiset(s)
    ensures |Sort(s, before)| == |s|
  {
    if s != [] {
      SortPermutes(s[1..], before);
      InsertPermutes(s[0], Sort(s[1..], before), before);
      assert s == [s[0]] + s[1..];
    }
    assert |multiset(Sort(s, before))| == |Sort(s, before)|;
  }

  lemma SortMembers<T>(s: seq<T>, before: (T, T) -> bool)
    ensures forall x :: x in Sort(s, before) <==> x in s
  {
    SortPermutes(s, before);
    forall x ensures x in Sort(s, before) <==> x in s {
      assert x in Sort(s, before) <==> x in multiset(Sort(s, before));
      assert x in s <==> x in multiset(s);
    }
  }

  lemma {:induction false} InsertSorted<T(!new)>(x: T, s: seq<T>, before: (T, T) -> bool)
    requires WeakOrder(before) && Sorted(s, before)
    ensures Sorted(Insert(x, s, before), before)
  {
    var r := Insert(x, s, before);
    if s == [] || !before(s[0], x) {
      forall i, j | 0 <= i < j < |r| ensures !before(r[j], r[i]) {
        if i == 0 && j > 1 {
          assert !before(s[j - 1], s[0]);
        }
      }
    } else {
      var t := Insert(x, s[1..], before);
      InsertSorted(x, s[1..], before);
      InsertPermutes(x, s[1..], before);
      forall j | 0 < j < |r| ensures !before(r[j], r[0]) {
        assert t[j - 1] in multiset(t);
        if t[j - 1] != x {
          assert t[j - 1] in s[1..];
        }
      }
    }
  }

  lemma {:induction false} SortSorts<T(!new)>(s: seq<T>, before: (T, T) -> bool)
    requires WeakOrder(before)
    ensures Sorted(Sort(s, before), before)
  {
    if s != [] {
      SortSorts(s[1..], before);
      InsertSorted(s[0], Sort(s[1..], before), before);
    }
  }

  lemma {:induction false} SortedIsFixed<T>(s: seq<T>, before: (T, T) -> bool)
    requires Sorted(s, before)
    ensures Sort(s, before) == s
  {
    if s != [] {
      SortedIsFixed(s[1..], before);
    }
  }

  // Merging two lists, the left one first among equals.
  function Merge<T>(a: seq<T>, b: seq<T>, before: (T, T) -> bool): seq<T> {
    if a == [] then b
    else if b == [] then a
    else if before(b[0], a[0]) then [b[0]] + Merge(a, b[1..], before)
    else [a[0]] + Merge(a[1..], b, before)
  }

  lemma {:induction false} InsertIntoMerge<T(!new)>(x: T, a: seq<T>, b: seq<T>, before: (T, T) -> bool)
    requires WeakOrder(before)
    ensures Insert(x, Merge(a, b, before), before) == Merge(Insert(x, a, before), b, before)
    decreases |a| + |b|
  {
    if a == [] {
      if b != [] && before(b[0], x) {
        InsertIntoMerge(x, a, b[1..], before);
      }
    } else if b != [] {
      if before(b[0], a[0]) {
        if before(b[0], x) {
          InsertIntoMerge(x, a, b[1..], before);
        }
      } else if before(a[0], x) {
        InsertIntoMerge(x, a[1..], b, before);
      }
    }
  }

  // Stability: sorting a concatenation merges the sorted parts.
  lemma {:induction false} SortOfConcat<T(!new)>(a: seq<T>, b: seq<T>, before: (T, T) -> bool)
    requires WeakOrder(before)
    ensures Sort(a + b, before) == Merge(Sort(a, before), Sort(b, before), before)
  {
    if a == [] {
      assert a + b == b;
    } else {
      assert (a + b)[1..] == a[1..] + b;
      SortOfConcat(a[1..], b, before);
      InsertIntoMerge(a[0], Sort(a[1..], before), Sort(b, before), before);
    }
  }
}
