/** A stable sort by an order that may hold elements equal, as the library's own sort does it. */
module Sorting {
  import opened Database

  /** Behind every element that is not after it. */
  function Insert<T>(sorted: seq<T>, x: T, le: (T, T) -> bool): seq<T> {
    if sorted == [] || le(sorted[|sorted| - 1], x) then sorted + [x]
    else Insert(sorted[..|sorted| - 1], x, le) + [sorted[|sorted| - 1]]
  }

  /** Elements that the order holds equal keep their places. */
  function StableSort<T>(xs: seq<T>, le: (T, T) -> bool): seq<T> {
    if xs == [] then [] else Insert(StableSort(xs[..|xs| - 1], le), xs[|xs| - 1], le)
  }

  predicate SortedBy<T>(xs: seq<T>, le: (T, T) -> bool) { forall i, j :: 0 <= i < j < |xs| ==> le(xs[i], xs[j]) }

  ghost predicate Preorder<T(!new)>(le: (T, T) -> bool) {
    (forall x, y :: le(x, y) || le(y, x)) && (forall x, y, z :: le(x, y) && le(y, z) ==> le(x, z))
  }

  lemma {:induction false} InsertKeeps<T>(sorted: seq<T>, x: T, le: (T, T) -> bool)
    ensures multiset(Insert(sorted, x, le)) == multiset(sorted) + multiset{x}
  {
    if !(sorted == [] || le(sorted[|sorted| - 1], x)) {
      InsertKeeps(sorted[..|sorted| - 1], x, le);
      assert sorted == sorted[..|sorted| - 1] + [sorted[|sorted| - 1]];
    }
  }

  lemma {:induction false} InsertSorts<T(!new)>(sorted: seq<T>, x: T, le: (T, T) -> bool)
    requires Preorder(le) && SortedBy(sorted, le)
    ensures SortedBy(Insert(sorted, x, le), le)
  {
    if !(sorted == [] || le(sorted[|sorted| - 1], x)) {
      var before, last := sorted[..|sorted| - 1], sorted[|sorted| - 1];
      var out := Insert(before, x, le);
      InsertSorts(before, x, le);
      InsertKeeps(before, x, le);
      forall i | 0 <= i < |out| ensures le(out[i], last) {
        assert out[i] in multiset(out);
        if out[i] != x {
          assert out[i] in multiset(before);
          var k :| 0 <= k < |before| && before[k] == out[i];
        }
      }
    } else if sorted != [] {
      forall i | 0 <= i < |sorted| ensures le(sorted[i], x) {
        assert i < |sorted| - 1 ==> le(sorted[i], sorted[|sorted| - 1]);
      }
    }
  }

  lemma {:induction false} SortSorts<T(!new)>(xs: seq<T>, le: (T, T) -> bool)
    requires Preorder(le)
    ensures SortedBy(StableSort(xs, le), le) && multiset(StableSort(xs, le)) == multiset(xs)
  {
    if xs != [] {
      hide Preorder, SortedBy;
      assert xs == xs[..|xs| - 1] + [xs[|xs| - 1]];
      SortSorts(xs[..|xs| - 1], le);
      InsertSorts(StableSort(xs[..|xs| - 1], le), xs[|xs| - 1], le);
      InsertKeeps(StableSort(xs[..|xs| - 1], le), xs[|xs| - 1], le);
    } else {
      assert SortedBy<T>([], le);
    }
  }

  /** No two elements are held equal. */
  predicate Separates<T(==)>(xs: seq<T>, le: (T, T) -> bool) {
    forall i, j :: 0 <= i < |xs| && 0 <= j < |xs| && le(xs[i], xs[j]) && le(xs[j], xs[i]) ==> xs[i] == xs[j]
  }

  lemma FrontIsSorted<T>(xs: seq<T>, le: (T, T) -> bool)
    requires SortedBy(xs, le) && xs != []
    ensures SortedBy(xs[..|xs| - 1], le) && (|xs| > 1 ==> le(xs[|xs| - 2], xs[|xs| - 1]))
    ensures Separates(xs, le) ==> Separates(xs[..|xs| - 1], le)
  {
    assert forall i :: 0 <= i < |xs| - 1 ==> xs[..|xs| - 1][i] == xs[i];
  }

  /** What is sorted already stays as it is. */
  lemma {:induction false} SortedStays<T>(xs: seq<T>, le: (T, T) -> bool)
    requires SortedBy(xs, le)
    ensures StableSort(xs, le) == xs
  {
    if xs != [] {
      FrontIsSorted(xs, le);
      hide SortedBy;
      SortedStays(xs[..|xs| - 1], le);
      assert xs == xs[..|xs| - 1] + [xs[|xs| - 1]];
    }
  }

  lemma SameLast<T>(xs: seq<T>, ys: seq<T>, le: (T, T) -> bool)
    requires SortedBy(xs, le) && SortedBy(ys, le) && multiset(xs) == multiset(ys) && Separates(xs, le) && xs != []
    ensures ys != [] && xs[|xs| - 1] == ys[|ys| - 1]
  {
    LastBag(xs);
    var k := Position(ys, xs[|xs| - 1]);
    LastBag(ys);
    var l := Position(xs, ys[|ys| - 1]);
    if k < |ys| - 1 && l < |xs| - 1 { assert le(ys[k], ys[|ys| - 1]) && le(xs[l], xs[|xs| - 1]); }
  }

  lemma SameEnds<T>(xs: seq<T>, ys: seq<T>)
    requires xs != [] && ys != [] && xs[|xs| - 1] == ys[|ys| - 1] && xs[..|xs| - 1] == ys[..|ys| - 1]
    ensures xs == ys
  {
    assert xs == xs[..|xs| - 1] + [xs[|xs| - 1]] && ys == ys[..|ys| - 1] + [ys[|ys| - 1]];
  }

  lemma SameFronts<T>(xs: seq<T>, ys: seq<T>)
    requires multiset(xs) == multiset(ys) && xs != [] && ys != [] && xs[|xs| - 1] == ys[|ys| - 1]
    ensures multiset(xs[..|xs| - 1]) == multiset(ys[..|ys| - 1])
  {
    LastBag(xs);
    LastBag(ys);
  }

  /** Two sorted permutations of elements that the order separates are one and the same. */
  lemma {:induction false} SortedIsUnique<T>(xs: seq<T>, ys: seq<T>, le: (T, T) -> bool)
    requires SortedBy(xs, le) && SortedBy(ys, le) && multiset(xs) == multiset(ys) && Separates(xs, le)
    ensures xs == ys
    decreases |xs|
  {
    hide SortedBy, Separates;
    if xs == [] {
      assert |multiset(ys)| == 0;
    } else {
      SameLast(xs, ys, le);
      SameFronts(xs, ys);
      FrontIsSorted(xs, le);
      FrontIsSorted(ys, le);
      SortedIsUnique(xs[..|xs| - 1], ys[..|ys| - 1], le);
      SameEnds(xs, ys);
    }
  }

  /** Sorting forgets the order of elements that it separates. */
  lemma SortIsOrderFree<T(!new)>(xs: seq<T>, ys: seq<T>, le: (T, T) -> bool)
    requires Preorder(le) && multiset(xs) == multiset(ys) && Separates(xs, le)
    ensures StableSort(xs, le) == StableSort(ys, le)
  {
    SortSorts(xs, le);
    SortSorts(ys, le);
    var sorted := StableSort(xs, le);
    forall i, j | 0 <= i < |sorted| && 0 <= j < |sorted| && le(sorted[i], sorted[j]) && le(sorted[j], sorted[i])
      ensures sorted[i] == sorted[j]
    {
      assert sorted[i] in multiset(sorted) && sorted[j] in multiset(sorted);
      var k := Position(xs, sorted[i]);
      var l := Position(xs, sorted[j]);
    }
    SortedIsUnique(sorted, StableSort(ys, le), le);
  }

  predicate StrictlySortedBy<T>(xs: seq<T>, le: (T, T) -> bool) {
    forall i, j :: 0 <= i < j < |xs| ==> !le(xs[j], xs[i])
  }

  /** Sorted elements that are distinct and separated ascend strictly. */
  lemma SortIsStrict<T(!new)>(xs: seq<T>, le: (T, T) -> bool)
    requires Preorder(le) && Distinct(xs) && Separates(xs, le)
    ensures StrictlySortedBy(StableSort(xs, le), le)
  {
    SortSorts(xs, le);
    var sorted := StableSort(xs, le);
    DistinctReordered(xs, sorted);
    forall i, j | 0 <= i < j < |sorted| ensures !le(sorted[j], sorted[i]) {
      assert sorted[i] in multiset(sorted) && sorted[j] in multiset(sorted);
      var k := Position(xs, sorted[i]);
      var l := Position(xs, sorted[j]);
      assert le(sorted[i], sorted[j]);
    }
  }
}
