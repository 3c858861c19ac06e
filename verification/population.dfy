/**
 * `criar_individuo`: drop the depot id and shuffle the rest. `random.shuffle` is the
 * Fisher-Yates shuffle; its random draws are a parameter here.
 */
module Population {
  import opened Points
  import opened Sequences

  /** `[x for x in lista_ids_locais if x != 0]`. */
  function Deliveries(ids: seq<int>): (r: seq<int>)
    ensures Depot !in r
  {
    if ids == [] then []
    else
      assert ids == [ids[0]] + ids[1..];
      (if ids[0] != Depot then [ids[0]] else []) + Deliveries(ids[1..])
  }

  /** Every id but the depot's is kept exactly as often as it occurs. */
  lemma {:induction false} DeliveriesCounts(ids: seq<int>)
    ensures forall x :: x != Depot ==> multiset(Deliveries(ids))[x] == multiset(ids)[x]
  {
    if ids != [] {
      DeliveriesCounts(ids[1..]);
      assert ids == [ids[0]] + ids[1..];
    }
  }

  /** The deliveries of distinct, nonnegative ids are distinct and never the crossover sentinel -1. */
  lemma DeliveriesWellFormed(pts: seq<Point>)
    requires WellFormedIds(pts)
    ensures Distinct(Deliveries(Ids(pts))) && -1 !in Deliveries(Ids(pts))
    ensures AllPresent(Deliveries(Ids(pts)), pts)
  {
    var ids := Ids(pts);
    var d := Deliveries(ids);
    DeliveriesCounts(ids);
    DistinctIffSingleCounts(ids);
    DistinctIffSingleCounts(d);
    forall x ensures multiset(d)[x] <= 1 {
      if x != Depot { assert multiset(d)[x] == multiset(ids)[x]; }
    }
    forall x | x in d ensures x in ids && x != -1 {
      assert multiset(d)[x] > 0;
      assert x != Depot;
      assert multiset(ids)[x] > 0;
    }
  }

  /**
   * The draws of one Fisher-Yates shuffle of `n` elements: for i = n-1 down to 1 the k-th
   * draw (k = n-1-i) is `randbelow(i + 1)`, an index in [0, i].
   */
  predicate ValidShuffle(draws: seq<nat>, n: nat) {
    && |draws| == (if n == 0 then 0 else n - 1)
    && forall k :: 0 <= k < |draws| ==> draws[k] <= n - 1 - k
  }

  /** The Fisher-Yates steps from step `t` on (step t swaps position n-1-t with draws[t]). */
  function ShuffleFrom(s: seq<int>, t: nat, draws: seq<nat>): (r: seq<int>)
    requires |s| >= 1 && t <= |s| - 1 && ValidShuffle(draws, |s|)
    ensures |r| == |s|
    decreases |s| - 1 - t
  {
    if t == |s| - 1 then s
    else ShuffleFrom(Swapped(s, |s| - 1 - t, draws[t]), t + 1, draws)
  }

  /** `random.shuffle` driven by `draws`. */
  function Shuffled(s: seq<int>, draws: seq<nat>): (r: seq<int>)
    requires ValidShuffle(draws, |s|)
  {
    if s == [] then s else ShuffleFrom(s, 0, draws)
  }

  lemma {:induction false} ShuffleFromIsPermutation(s: seq<int>, t: nat, draws: seq<nat>)
    requires |s| >= 1 && t <= |s| - 1 && ValidShuffle(draws, |s|)
    ensures multiset(ShuffleFrom(s, t, draws)) == multiset(s)
    decreases |s| - 1 - t
  {
    if t < |s| - 1 {
      ShuffleFromIsPermutation(Swapped(s, |s| - 1 - t, draws[t]), t + 1, draws);
    }
  }

  /** The shuffle is a rearrangement: same length, same multiset. */
  lemma ShuffledIsPermutation(s: seq<int>, draws: seq<nat>)
    requires ValidShuffle(draws, |s|)
    ensures |Shuffled(s, draws)| == |s| && multiset(Shuffled(s, draws)) == multiset(s)
  {
    if s != [] {
      ShuffleFromIsPermutation(s, 0, draws);
    }
  }

  /** `x[i], x[j] = x[j], x[i]`. */
  method SwapInPlace(a: array<int>, i: nat, j: nat)
    requires i < a.Length && j < a.Length
    modifies a
    ensures a[..] == Swapped(old(a[..]), i, j)
  {
    a[i], a[j] := a[j], a[i];
  }

  /** The Fisher-Yates loop of `random.shuffle` on a nonempty array. */
  method ShuffleSteps(a: array<int>, draws: seq<nat>)
    requires a.Length >= 1 && ValidShuffle(draws, a.Length)
    modifies a
    ensures a[..] == ShuffleFrom(old(a[..]), 0, draws)
  {
    ghost var goal := ShuffleFrom(a[..], 0, draws);
    var t := 0;
    while t < a.Length - 1
      invariant 0 <= t <= a.Length - 1
      invariant ShuffleFrom(a[..], t, draws) == goal
    {
      var i, j := a.Length - 1 - t, draws[t];
      ghost var before := a[..];
      SwapInPlace(a, i, j);
      ShuffleFromStep(before, t, draws);
      t := t + 1;
    }
  }

  /** Step `t` of the shuffle swaps position n-1-t with the t-th draw. */
  lemma ShuffleFromStep(s: seq<int>, t: nat, draws: seq<nat>)
    requires |s| >= 1 && t < |s| - 1 && ValidShuffle(draws, |s|)
    ensures ShuffleFrom(s, t, draws) == ShuffleFrom(Swapped(s, |s| - 1 - t, draws[t]), t + 1, draws)
  {
  }

  /** `random.shuffle(x)` in place, driven by `draws`. */
  method ShuffleInPlace(a: array<int>, draws: seq<nat>)
    requires ValidShuffle(draws, a.Length)
    modifies a
    ensures a[..] == Shuffled(old(a[..]), draws)
  {
    if a.Length > 0 {
      ShuffleSteps(a, draws);
    }
  }

  /** `criar_individuo`: the deliveries among `ids`, shuffled. */
  method CreateIndividual(ids: seq<int>, draws: seq<nat>) returns (c: seq<int>)
    requires ValidShuffle(draws, |Deliveries(ids)|)
    ensures c == Shuffled(Deliveries(ids), draws)
    ensures Depot !in c && forall x :: x != Depot ==> multiset(c)[x] == multiset(ids)[x]
  {
    var d := Deliveries(ids);
    var a := new int[|d|](k requires 0 <= k < |d| => d[k]);
    assert a[..] == d;
    ShuffleInPlace(a, draws);
    c := a[..];
    ShuffledIsPermutation(d, draws);
    DeliveriesCounts(ids);
    assert forall x :: x in c ==> multiset(c)[x] > 0;
  }
}
