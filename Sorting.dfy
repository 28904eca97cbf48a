/** Stable descending sort by a real-valued key: the order Python's
    `list.sort(key=..., reverse=True)` produces, and one admissible order of
    an SQL `ORDER BY ... DESC`. */
module Sorting {

  /** Every element's key is at least the key of every later element. */
  ghost predicate SortedDesc<T>(s: seq<T>, key: T -> real)
  {
    forall i, j :: 0 <= i < j < |s| ==> key(s[i]) >= key(s[j])
  }

  /** `x` placed into `s` after every element whose key is at least its own,
      scanning from the back as an insertion step shifts elements. */
  function InsertDesc<T>(s: seq<T>, x: T, key: T -> real): (r: seq<T>)
    ensures |r| == |s| + 1
  {
    if |s| == 0 || key(s[|s| - 1]) >= key(x) then s + [x]
    else InsertDesc(s[..|s| - 1], x, key) + [s[|s| - 1]]
  }

  /** Insertion sort of `s`, one element at a time from the front. */
  function SortDesc<T>(s: seq<T>, key: T -> real): (r: seq<T>)
    ensures |r| == |s|
  {
    if |s| == 0 then []
    else InsertDesc(SortDesc(s[..|s| - 1], key), s[|s| - 1], key)
  }

  /** The elements of `s` whose key equals `k`, in their order in `s`. */
  function KeyFilter<T>(s: seq<T>, key: T -> real, k: real): (r: seq<T>)
    ensures |r| <= |s|
  {
    if |s| == 0 then []
    else KeyFilter(s[..|s| - 1], key, k) + (if key(s[|s| - 1]) == k then [s[|s| - 1]] else [])
  }

  /** Inserting adds exactly `x`. */
  lemma {:induction false} InsertDescElements<T>(s: seq<T>, x: T, key: T -> real)
    ensures multiset(InsertDesc(s, x, key)) == multiset(s) + multiset{x}
  {
    if |s| > 0 && key(s[|s| - 1]) < key(x) {
      var init, last := s[..|s| - 1], s[|s| - 1];
      assert s == init + [last];
      InsertDescElements(init, x, key);
    }
  }

  /** An element of `r`, where `multiset(r) == multiset(s) + multiset{x}`,
      is `x` or an element of `s`. */
  lemma ElementOrigin<T>(r: seq<T>, s: seq<T>, x: T, i: int) returns (j: int)
    requires multiset(r) == multiset(s) + multiset{x} && 0 <= i < |r|
    ensures r[i] != x ==> 0 <= j < |s| && s[j] == r[i]
  {
    j := 0;
    assert r[i] in multiset(r);
    if r[i] != x {
      assert r[i] in multiset(s);
      j :| 0 <= j < |s| && s[j] == r[i];
    }
  }

  /** Inserting into a sorted sequence keeps it sorted. */
  lemma {:induction false} InsertDescSorted<T>(s: seq<T>, x: T, key: T -> real)
    requires SortedDesc(s, key)
    ensures SortedDesc(InsertDesc(s, x, key), key)
  {
    if |s| > 0 && key(s[|s| - 1]) < key(x) {
      var init, last := s[..|s| - 1], s[|s| - 1];
      InsertDescSorted(init, x, key);
      InsertDescElements(init, x, key);
      var r' := InsertDesc(init, x, key);
      forall i | 0 <= i < |r'|
        ensures key(r'[i]) >= key(last)
      {
        var j := ElementOrigin(r', init, x, i);
      }
    }
  }

  /** The sort's result is ordered by descending key. */
  lemma {:induction false} SortDescSorted<T>(s: seq<T>, key: T -> real)
    ensures SortedDesc(SortDesc(s, key), key)
    ensures multiset(SortDesc(s, key)) == multiset(s)
  {
    if |s| > 0 {
      var init, last := s[..|s| - 1], s[|s| - 1];
      assert s == init + [last];
      SortDescSorted(init, key);
      InsertDescSorted(SortDesc(init, key), last, key);
      InsertDescElements(SortDesc(init, key), last, key);
    }
  }

  /** Inserting `x` puts it after every element with the same key. */
  lemma {:induction false} InsertDescStable<T>(s: seq<T>, x: T, key: T -> real, k: real)
    ensures KeyFilter(InsertDesc(s, x, key), key, k)
         == KeyFilter(s, key, k) + (if key(x) == k then [x] else [])
  {
    if |s| == 0 || key(s[|s| - 1]) >= key(x) {
      assert (s + [x])[..|s|] == s;
    } else {
      var init, last := s[..|s| - 1], s[|s| - 1];
      var r' := InsertDesc(init, x, key);
      InsertDescStable(init, x, key, k);
      assert (r' + [last])[..|r'|] == r';
    }
  }

  /** Elements with equal keys keep their relative order. */
  lemma {:induction false} SortDescStable<T>(s: seq<T>, key: T -> real, k: real)
    ensures KeyFilter(SortDesc(s, key), key, k) == KeyFilter(s, key, k)
  {
    if |s| > 0 {
      var init, last := s[..|s| - 1], s[|s| - 1];
      SortDescStable(init, key, k);
      InsertDescStable(SortDesc(init, key), last, key, k);
    }
  }

  /** Among elements with equal `key`, `key2` never increases. */
  ghost predicate TiesOrderedBy<T>(s: seq<T>, key: T -> real, key2: T -> real)
  {
    forall i, j :: 0 <= i < j < |s| && key(s[i]) == key(s[j]) ==> key2(s[i]) >= key2(s[j])
  }

  /** Inserting an element whose `key2` is no larger than any present one
      keeps ties ordered by `key2`. */
  lemma {:induction false} InsertDescTiesOrdered<T>(s: seq<T>, x: T, key: T -> real, key2: T -> real)
    requires TiesOrderedBy(s, key, key2)
    requires forall i :: 0 <= i < |s| ==> key2(s[i]) >= key2(x)
    ensures TiesOrderedBy(InsertDesc(s, x, key), key, key2)
  {
    if |s| > 0 && key(s[|s| - 1]) < key(x) {
      var init, last := s[..|s| - 1], s[|s| - 1];
      InsertDescTiesOrdered(init, x, key, key2);
      InsertDescElements(init, x, key);
      var r' := InsertDesc(init, x, key);
      forall i | 0 <= i < |r'| && key(r'[i]) == key(last)
        ensures key2(r'[i]) >= key2(last)
      {
        var j := ElementOrigin(r', init, x, i);
        assert s[j] == init[j];
      }
    }
  }

  /** Sorting by `key` a sequence already ordered by `key2` leaves every
      group of equal `key` ordered by `key2`: the sort is stable. */
  lemma {:induction false} SortDescTiesOrdered<T>(s: seq<T>, key: T -> real, key2: T -> real)
    requires SortedDesc(s, key2)
    ensures TiesOrderedBy(SortDesc(s, key), key, key2)
  {
    if |s| > 0 {
      var init, last := s[..|s| - 1], s[|s| - 1];
      SortDescTiesOrdered(init, key, key2);
      SortDescSorted(init, key);
      var sorted := SortDesc(init, key);
      forall i | 0 <= i < |sorted|
        ensures key2(sorted[i]) >= key2(last)
      {
        assert sorted[i] in multiset(init);
        var j :| 0 <= j < |init| && init[j] == sorted[i];
        assert s[j] == init[j];
      }
      InsertDescTiesOrdered(sorted, last, key, key2);
    }
  }

  /** Insertion sort of an array in place: element `i` joins the sorted
      prefix `a[..i]`, for `i` from the front. */
  method SortDescInPlace<T>(a: array<T>, key: T -> real)
    modifies a
    ensures a[..] == SortDesc(old(a[..]), key)
  {
    ghost var original := a[..];
    var i := 0;
    while i < a.Length
      invariant 0 <= i <= a.Length
      invariant a[..i] == SortDesc(original[..i], key)
      invariant a[i..] == original[i..]
    {
      ghost var before := a[..];
      assert before[i] == original[i];
      InsertInPlace(a, i, key);
      assert original[..i + 1] == original[..i] + [original[i]];
      assert a[i + 1..] == before[i + 1..] == original[i + 1..];
      i := i + 1;
    }
    assert a[..] == a[..a.Length];
    assert original[..a.Length] == original;
  }

  /** Moving `x` one place further left past an element of smaller key. */
  lemma InsertShift<T>(s: seq<T>, j: int, x: T, key: T -> real)
    requires 0 < j <= |s| && key(s[j - 1]) < key(x)
    ensures InsertDesc(s[..j], x, key) + s[j..] == InsertDesc(s[..j - 1], x, key) + s[j - 1..]
  {
    assert s[..j][..j - 1] == s[..j - 1];
    assert s[j - 1..] == [s[j - 1]] + s[j..];
  }

  /** One insertion step: `a[i]` moves left past every element of `a[..i]`
      with a strictly smaller key; the elements after `i` stay put. */
  method InsertInPlace<T>(a: array<T>, i: int, key: T -> real)
    requires 0 <= i < a.Length
    modifies a
    ensures a[..i + 1] == InsertDesc(old(a[..i]), old(a[i]), key)
    ensures a[i + 1..] == old(a[i + 1..])
  {
    var x := a[i];
    ghost var sorted := a[..i];
    var j := i;
    assert sorted[..j] == sorted && sorted[j..] == [];
    while j > 0 && key(a[j - 1]) < key(x)
      invariant 0 <= j <= i
      invariant forall k :: 0 <= k < j ==> a[k] == sorted[k]
      invariant forall k :: j < k <= i ==> a[k] == sorted[k - 1]
      invariant forall k :: i < k < a.Length ==> a[k] == old(a[k])
      invariant InsertDesc(sorted, x, key) == InsertDesc(sorted[..j], x, key) + sorted[j..]
    {
      InsertShift(sorted, j, x, key);
      a[j] := a[j - 1];
      j := j - 1;
    }
    a[j] := x;
    assert InsertDesc(sorted[..j], x, key) == sorted[..j] + [x];
    assert a[..i + 1] == sorted[..j] + [x] + sorted[j..];
    ghost var rest, oldRest := a[i + 1..], old(a[i + 1..]);
    assert forall k :: 0 <= k < |rest| ==> rest[k] == oldRest[k];
  }
}
