/** The target's tables, and what it means to be killed part of the way through a list. */
module Database {
  import opened Wrappers

  /** A row of `metrics_raw`, which has no unique key. */
  datatype RawRow = RawRow(time: int, value: real, durMs: Option<int>, device: int, metric: string)

  /** A row of `replay_progress`, by its primary key. */
  datatype Progress = Progress(source: string, device: int, start: int)

  /** A row of `metrics_config_log`. */
  datatype LogRow = LogRow(time: int, value: real, device: int, metric: string)

  predicate Distinct<T(==)>(xs: seq<T>) { forall i, j :: 0 <= i < j < |xs| ==> xs[i] != xs[j] }

  /** The first `n`, or all of them when there are fewer. */
  function Take<T>(xs: seq<T>, n: nat): seq<T> { if n < |xs| then xs[..n] else xs }

  /** What a budget of `n` leaves after `used`. */
  function Left(n: nat, used: nat): nat { if used < n then n - used else 0 }

  lemma Regroup<T>(x: seq<T>, y: seq<T>, z: seq<T>)
    ensures (x + y) + z == x + (y + z)
  {
  }

  lemma DistinctConcat<T>(x: seq<T>, y: seq<T>)
    requires Distinct(x) && Distinct(y) && forall i, j :: 0 <= i < |x| && 0 <= j < |y| ==> x[i] != y[j]
    ensures Distinct(x + y)
  {
  }

  // ----- taking one element away ------------------------------------------------

  function Without<T>(xs: seq<T>, i: nat): seq<T>
    requires i < |xs|
  {
    xs[..i] + xs[i + 1..]
  }

  lemma WithoutBag<T>(xs: seq<T>, i: nat)
    requires i < |xs|
    ensures multiset(Without(xs, i)) == multiset(xs) - multiset{xs[i]}
  {
    var front, back := xs[..i], xs[i + 1..];
    assert xs == front + ([xs[i]] + back);
  }

  lemma LastBag<T>(xs: seq<T>)
    requires xs != []
    ensures xs[|xs| - 1] in multiset(xs)
    ensures multiset(xs[..|xs| - 1]) == multiset(xs) - multiset{xs[|xs| - 1]}
  {
    assert xs == xs[..|xs| - 1] + [xs[|xs| - 1]];
  }

  lemma Position<T>(xs: seq<T>, x: T) returns (i: nat)
    requires x in multiset(xs)
    ensures i < |xs| && xs[i] == x
  {
    i :| 0 <= i < |xs| && xs[i] == x;
  }

  /** Where a permutation has the last element, and that the rest is a permutation again. */
  lemma SameWithout<T>(xs: seq<T>, ys: seq<T>) returns (i: nat)
    requires multiset(xs) == multiset(ys) && xs != []
    ensures i < |ys| && ys[i] == xs[|xs| - 1] && multiset(xs[..|xs| - 1]) == multiset(Without(ys, i))
  {
    hide Without;
    LastBag(xs);
    i := Position(ys, xs[|xs| - 1]);
    WithoutBag(ys, i);
  }

  lemma {:induction false} OnceEach<T>(xs: seq<T>, x: T)
    requires Distinct(xs)
    ensures multiset(xs)[x] == if x in xs then 1 else 0
  {
    if xs != [] {
      var before, last := xs[..|xs| - 1], xs[|xs| - 1];
      assert forall i :: 0 <= i < |before| ==> before[i] == xs[i];
      OnceEach(before, x);
      assert xs == before + [last];
      assert last !in before;
    }
  }

  /** Two lists without repeats that hold the same elements are permutations of each other. */
  lemma SameElements<T>(xs: seq<T>, ys: seq<T>)
    requires Distinct(xs) && Distinct(ys) && forall x :: x in xs <==> x in ys
    ensures multiset(xs) == multiset(ys)
  {
    forall x ensures multiset(xs)[x] == multiset(ys)[x] {
      OnceEach(xs, x);
      OnceEach(ys, x);
    }
  }

  lemma TwiceIsTwo<T>(xs: seq<T>, i: nat, j: nat)
    requires i < j < |xs| && xs[i] == xs[j]
    ensures multiset(xs)[xs[i]] >= 2
  {
    assert xs == xs[..j] + xs[j..];
    assert xs[i] == xs[..j][i] && xs[j] == xs[j..][0];
    assert xs[i] in multiset(xs[..j]) && xs[i] in multiset(xs[j..]);
  }

  lemma DistinctReordered<T>(xs: seq<T>, ys: seq<T>)
    requires Distinct(xs) && multiset(xs) == multiset(ys)
    ensures Distinct(ys)
  {
    forall i, j | 0 <= i < j < |ys| ensures ys[i] != ys[j] {
      OnceEach(xs, ys[i]);
      if ys[i] == ys[j] { TwiceIsTwo(ys, i, j); }
    }
  }
}
