/** `Array.prototype.sort` with a numeric comparison: stable, ascending. */
module Sorting {

  /** Inserts `x` before everything that is not smaller, so that earlier elements keep their place. */
  function Insert<T>(x: T, sorted: seq<T>, rank: T -> int): (r: seq<T>)
    ensures multiset(r) == multiset{x} + multiset(sorted)
  {
    if sorted == [] then [x]
    else if rank(x) <= rank(sorted[0]) then [x] + sorted
    else
      assert sorted == [sorted[0]] + sorted[1..];
      [sorted[0]] + Insert(x, sorted[1..], rank)
  }

  function SortBy<T>(xs: seq<T>, rank: T -> int): (r: seq<T>)
    ensures multiset(r) == multiset(xs)
    ensures |r| == |xs|
  {
    if xs == [] then []
    else
      assert xs == [xs[0]] + xs[1..];
      var r := Insert(xs[0], SortBy(xs[1..], rank), rank);
      assert |multiset(r)| == |r| && |multiset(xs)| == |xs|;
      r
  }

  ghost predicate Ascending<T>(xs: seq<T>, rank: T -> int) {
    forall i, j | 0 <= i < j < |xs| :: rank(xs[i]) <= rank(xs[j])
  }

  lemma {:induction false} InsertAscending<T>(x: T, sorted: seq<T>, rank: T -> int)
    requires Ascending(sorted, rank)
    ensures Ascending(Insert(x, sorted, rank), rank)
  {
    if sorted == [] || rank(x) <= rank(sorted[0]) {
    } else {
      var rest := Insert(x, sorted[1..], rank);
      InsertAscending(x, sorted[1..], rank);
      forall j | 0 <= j < |rest|
        ensures rank(sorted[0]) <= rank(rest[j])
      {
        assert rest[j] in multiset(rest);
        assert rest[j] == x || rest[j] in sorted[1..];
      }
    }
  }

  lemma {:induction false} SortAscends<T>(xs: seq<T>, rank: T -> int)
    ensures Ascending(SortBy(xs, rank), rank)
  {
    if xs == [] {
    } else {
      SortAscends(xs[1..], rank);
      InsertAscending(xs[0], SortBy(xs[1..], rank), rank);
    }
  }

  /** The elements of one rank, in order. */
  function OfRank<T>(xs: seq<T>, rank: T -> int, k: int): seq<T> {
    if xs == [] then [] else (if rank(xs[0]) == k then [xs[0]] else []) + OfRank(xs[1..], rank, k)
  }

  lemma OfRankCons<T>(x: T, ys: seq<T>, rank: T -> int, k: int)
    ensures OfRank([x] + ys, rank, k) == (if rank(x) == k then [x] else []) + OfRank(ys, rank, k)
  {
    assert ([x] + ys)[1..] == ys;
  }

  lemma {:induction false} InsertStable<T>(x: T, sorted: seq<T>, rank: T -> int, k: int)
    ensures OfRank(Insert(x, sorted, rank), rank, k) == (if rank(x) == k then [x] else []) + OfRank(sorted, rank, k)
  {
    if sorted == [] {
      OfRankCons(x, [], rank, k);
      assert [x] + [] == [x];
    } else if rank(x) <= rank(sorted[0]) {
      OfRankCons(x, sorted, rank, k);
    } else {
      var rest := Insert(x, sorted[1..], rank);
      InsertStable(x, sorted[1..], rank, k);
      OfRankCons(sorted[0], rest, rank, k);
      var tail := OfRank(sorted[1..], rank, k);
      if rank(x) == k {
        assert OfRank(sorted, rank, k) == tail;
        assert [] + ([x] + tail) == [x] + tail;
      } else {
        assert [] + tail == tail;
      }
    }
  }

  /** Elements of equal rank keep their order. */
  lemma {:induction false} SortStable<T>(xs: seq<T>, rank: T -> int, k: int)
    ensures OfRank(SortBy(xs, rank), rank, k) == OfRank(xs, rank, k)
  {
    if xs == [] {
    } else {
      SortStable(xs[1..], rank, k);
      InsertStable(xs[0], SortBy(xs[1..], rank), rank, k);
    }
  }

  /** Sorting neither adds nor drops an element. */
  lemma SortKeepsElements<T>(xs: seq<T>, rank: T -> int, x: T)
    ensures x in SortBy(xs, rank) <==> x in xs
  {
    assert x in xs <==> x in multiset(xs);
    assert x in SortBy(xs, rank) <==> x in multiset(SortBy(xs, rank));
  }
}
