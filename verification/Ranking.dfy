/**
 * Standard competition ranking: tied values share a place, and the next value takes the
 * place its rank actually is. Values are exact hundredths, the precision that is printed.
 */
module Ranking {
  import opened Sequences

  /** 1 when the item's value beats v. */
  function Beats(values: seq<int>, v: int): nat -> int {
    (i: nat) => if i < |values| && values[i] > v then 1 else 0
  }

  function Indices(n: nat): (s: seq<nat>)
    ensures |s| == n
  {
    seq(n, i => i)
  }

  /** How many of the values are strictly greater than v. */
  function CountGreater(values: seq<int>, v: int): int { Sum(Indices(|values|), Beats(values, v)) }

  /** The place of a value: one more than the number of strictly greater ones. */
  function Place(values: seq<int>, v: int): int { 1 + CountGreater(values, v) }

  function Descending(values: seq<int>): nat -> int {
    (i: nat) => if i < |values| then -values[i] else 0
  }

  /** The items, best value first. */
  function RankOrder(values: seq<int>): seq<nat> { Sort<nat>(Indices(|values|), Descending(values)) }

  /** Every item once, in descending order of value. */
  ghost predicate Ordered(values: seq<int>, order: seq<nat>) {
    && (forall k | 0 <= k < |order| :: order[k] < |values|)
    && (forall i: nat | i < |values| :: i in order)
    && (forall j, k | 0 <= j < k < |order| :: values[order[j]] >= values[order[k]])
    && (forall j, k | 0 <= j < k < |order| :: order[j] != order[k])
  }

  lemma OrderIsPermutation(values: seq<int>)
    ensures multiset(RankOrder(values)) == multiset(Indices(|values|))
    ensures forall i: nat :: i in RankOrder(values) <==> i < |values|
  {
    var indices := Indices(|values|);
    forall i: nat ensures i in RankOrder(values) <==> i < |values| {
      assert i in multiset(RankOrder(values)) <==> i in multiset(indices);
      if i < |values| { assert indices[i] == i; }
    }
  }

  lemma OrderIsOrdered(values: seq<int>)
    ensures Ordered(values, RankOrder(values))
  {
    var order := RankOrder(values);
    OrderIsPermutation(values);
    SortSorts<nat>(Indices(|values|), Descending(values));
    assert forall k | 0 <= k < |order| :: order[k] in order;
    forall j, k | 0 <= j < k < |order| ensures values[order[j]] >= values[order[k]] {
      assert Descending(values)(order[j]) <= Descending(values)(order[k]);
    }
    forall j, k | 0 <= j < k < |order| ensures order[j] != order[k] { OrderHasNoRepeats(values, j, k); }
  }

  lemma OrderHasNoRepeats(values: seq<int>, j: nat, k: nat)
    requires j < k < |RankOrder(values)|
    ensures RankOrder(values)[j] != RankOrder(values)[k]
  {
    var order := RankOrder(values);
    OrderIsPermutation(values);
    IndexOnce(|values|, |values|, order[j]);
    assert Indices(|values|)[..|values|] == Indices(|values|);
    if order[j] == order[k] { OccursTwice(order, j, k); }
  }

  lemma {:induction false} IndexOnce(n: nat, m: nat, x: nat)
    requires m <= n
    ensures multiset(Indices(n)[..m])[x] == if x < m then 1 else 0
  {
    if m > 0 {
      IndexOnce(n, m - 1, x);
      assert Indices(n)[..m] == Indices(n)[..m - 1] + [m - 1];
    }
  }

  /** In descending order, the values that beat the one at position k end where its run starts. */
  lemma RunStart(values: seq<int>, order: seq<nat>, start: nat, k: nat)
    requires order == RankOrder(values) && Ordered(values, order) && start <= k < |order|
    requires forall q | start <= q < |order| :: values[order[q]] <= values[order[k]]
    requires forall q | 0 <= q < start :: values[order[q]] > values[order[k]]
    ensures CountGreater(values, values[order[k]]) == start
  {
    var v := values[order[k]];
    OrderIsPermutation(values);
    SumPermuted(order, Indices(|values|), Beats(values, v));
    AllOnes(order, start, Beats(values, v));
    NoneAfter(order, start, |order|, Beats(values, v));
  }

  lemma {:induction false} AllOnes(s: seq<nat>, n: nat, f: nat -> int)
    requires n <= |s| && forall q | 0 <= q < n :: f(s[q]) == 1
    ensures SumUpTo(s, n, f) == n
  {
    if n > 0 { AllOnes(s, n - 1, f); }
  }

  lemma {:induction false} NoneAfter(s: seq<nat>, m: nat, n: nat, f: nat -> int)
    requires m <= n <= |s| && forall q | m <= q < n :: f(s[q]) == 0
    ensures SumUpTo(s, n, f) == SumUpTo(s, m, f)
    decreases n
  {
    if m < n { NoneAfter(s, m, n - 1, f); }
  }

  /** After `index` items, `rank` is where the run of the last value began. */
  ghost predicate InRun(values: seq<int>, order: seq<nat>, index: nat, rank: nat)
    requires Ordered(values, order)
  {
    && index <= |order|
    && (index == 0 || (1 <= rank <= index && values[order[rank - 1]] == values[order[index - 1]]
        && forall q | 0 <= q < rank - 1 :: values[order[q]] > values[order[index - 1]]))
  }

  lemma NextInRun(values: seq<int>, order: seq<nat>, index: nat, rank: nat, rank': nat)
    requires order == RankOrder(values) && Ordered(values, order) && index < |order| && InRun(values, order, index, rank)
    requires rank' == if index == 0 || values[order[index]] != values[order[index - 1]] then index + 1 else rank
    ensures InRun(values, order, index + 1, rank')
    ensures Place(values, values[order[index]]) == rank'
  {
    RunStart(values, order, rank' - 1, index);
  }

  /** The first n items of the order, and only they, have their places. */
  ghost predicate Placed(values: seq<int>, order: seq<nat>, n: nat, ranks: map<nat, nat>)
    requires n <= |order|
  {
    && (forall i: nat :: i in ranks <==> i in order[..n])
    && (forall i: nat | i in ranks :: i < |values| && ranks[i] == Place(values, values[i]))
  }

  lemma PlaceNext(values: seq<int>, order: seq<nat>, n: nat, ranks: map<nat, nat>, rank: nat)
    requires n < |order| && order[n] < |values| && Placed(values, order, n, ranks)
    requires rank == Place(values, values[order[n]])
    ensures Placed(values, order, n + 1, ranks[order[n] := rank])
  {
    assert order[..n + 1] == order[..n] + [order[n]];
  }

  /** The walk so far: the run the last item belongs to, and the places given. */
  ghost predicate Walked(values: seq<int>, order: seq<nat>, index: nat, rank: nat, ranks: map<nat, nat>) {
    order == RankOrder(values) && Ordered(values, order) && index <= |order|
    && InRun(values, order, index, rank) && Placed(values, order, index, ranks)
  }

  lemma WalkStarts(values: seq<int>)
    ensures Walked(values, RankOrder(values), 0, 0, map[])
  {
    OrderIsOrdered(values);
  }

  /** One turn of the walk. */
  method RankNext(values: seq<int>, order: seq<nat>, index: nat, before: nat, ranks: map<nat, nat>)
    returns (rank: nat, after: map<nat, nat>)
    requires index < |order| && Walked(values, order, index, before, ranks)
    ensures Walked(values, order, index + 1, rank, after)
  {
    rank := before;
    if index == 0 || values[order[index]] != values[order[index - 1]] {
      rank := index + 1;
    }
    NextInRun(values, order, index, before, rank);
    PlaceNext(values, order, index, ranks, rank);
    after := ranks[order[index] := rank];
  }

  lemma AllPlaced(values: seq<int>, rank: nat, ranks: map<nat, nat>)
    requires Walked(values, RankOrder(values), |RankOrder(values)|, rank, ranks)
    ensures forall i: nat :: i in ranks <==> i < |values|
    ensures forall i | 0 <= i < |values| :: ranks[i] == Place(values, values[i])
  {
    OrderIsPermutation(values);
    var order := RankOrder(values);
    assert order[..|order|] == order;
  }

  /** The walk over the sorted copy gives every item its place. */
  method CompetitionRank(values: seq<int>) returns (ranks: map<nat, nat>)
    ensures forall i: nat :: i in ranks <==> i < |values|
    ensures forall i | 0 <= i < |values| :: ranks[i] == Place(values, values[i])
  {
    hide Walked;
    var sorted := RankOrder(values);
    WalkStarts(values);
    ranks := map[];
    var rank: nat := 0;
    var index := 0;
    while index != |sorted|
      invariant index <= |sorted| && Walked(values, sorted, index, rank, ranks)
    {
      rank, ranks := RankNext(values, sorted, index, rank, ranks);
      index := index + 1;
    }
    AllPlaced(values, rank, ranks);
  }

  /** A tie is exactly an equal value, and a better value is exactly a better place. */
  lemma PlacesOrderLikeValues(values: seq<int>, v: int, w: int)
    requires v in values && w in values
    ensures Place(values, v) == Place(values, w) <==> v == w
    ensures Place(values, v) < Place(values, w) <==> v > w
  {
    if v > w { GreaterPlacesFirst(values, v, w); }
    if w > v { GreaterPlacesFirst(values, w, v); }
  }

  lemma GreaterPlacesFirst(values: seq<int>, v: int, w: int)
    requires v in values && v > w
    ensures Place(values, v) < Place(values, w)
  {
    var i :| 0 <= i < |values| && values[i] == v;
    BeatsMore(values, |values|, v, w, i);
  }

  lemma {:induction false} BeatsMore(values: seq<int>, n: nat, v: int, w: int, i: nat)
    requires n <= |values| && v > w && i < |values| && values[i] == v
    ensures SumUpTo(Indices(|values|), n, Beats(values, v)) + (if i < n then 1 else 0)
            <= SumUpTo(Indices(|values|), n, Beats(values, w))
  {
    if n > 0 { BeatsMore(values, n - 1, v, w, i); }
  }
}
