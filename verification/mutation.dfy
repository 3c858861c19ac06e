/**
 * `mutacao`: with probability `taxa_mutacao` swap two distinct positions of the individual,
 * in place. The coin flip and the two positions drawn by `random.sample` are parameters.
 */
module Mutation {
  import opened Wrappers
  import opened Faults
  import opened Sequences

  /**
   * The positions a firing mutation may draw: two distinct indices of an individual of
   * length `n`. A mutation that does not fire, or fires on fewer than two genes, draws none.
   */
  predicate ValidSwap(n: nat, fire: bool, i: nat, j: nat) {
    fire && n >= 2 ==> i < n && j < n && i != j
  }

  /**
   * The individual after `mutacao`. When the coin fires on an individual with fewer than two
   * genes, `random.sample(range(len), 2)` raises.
   */
  function Mutated(s: seq<int>, fire: bool, i: nat, j: nat): (r: Result<seq<int>, Fault>)
    requires ValidSwap(|s|, fire, i, j)
    ensures r.Failure? <==> fire && |s| < 2
    ensures r.Failure? ==> r.error == NoSwapPoints
    ensures !fire ==> r == Success(s)
    ensures r.Success? ==> |r.value| == |s| && multiset(r.value) == multiset(s)
    ensures r.Success? && fire ==> r.value[i] == s[j] && r.value[j] == s[i]
    ensures r.Success? ==> forall k :: 0 <= k < |s| && (!fire || (k != i && k != j)) ==> r.value[k] == s[k]
  {
    if !fire then Success(s)
    else if |s| < 2 then Failure(NoSwapPoints)
    else Success(Swapped(s, i, j))
  }

  /** `mutacao` as the source runs it: a tuple swap on the list itself. */
  method MutateInPlace(a: array<int>, fire: bool, i: nat, j: nat) returns (ok: bool)
    requires ValidSwap(a.Length, fire, i, j)
    modifies a
    ensures Mutated(old(a[..]), fire, i, j) == if ok then Success(a[..]) else Failure(NoSwapPoints)
    ensures !ok ==> a[..] == old(a[..])
  {
    if !fire {
      return true;
    }
    if a.Length < 2 {
      return false;
    }
    a[i], a[j] := a[j], a[i];
    ok := true;
  }

  /** A mutated individual is still a permutation without repeated genes when its parent was. */
  lemma MutationKeepsDistinct(s: seq<int>, fire: bool, i: nat, j: nat)
    requires ValidSwap(|s|, fire, i, j) && Distinct(s)
    ensures var r := Mutated(s, fire, i, j);
      r.Success? ==> Distinct(r.value)
  {
    var r := Mutated(s, fire, i, j);
    if r.Success? {
      PermutationKeepsDistinct(r.value, s);
    }
  }

  /** A firing mutation always changes a sequence of distinct genes. */
  lemma FiringMutationChanges(s: seq<int>, i: nat, j: nat)
    requires ValidSwap(|s|, true, i, j) && |s| >= 2 && Distinct(s)
    ensures Mutated(s, true, i, j).Success? && Mutated(s, true, i, j).value != s
  {
    var r := Mutated(s, true, i, j).value;
    if i < j {
      assert r[i] == s[j] != s[i];
    } else {
      assert r[j] == s[i] != s[j];
    }
  }
}
