/**
 * `crossover`: order crossover. The child keeps parent 1's genes between two cut points at
 * their own positions; the free positions, visited circularly from the second cut, take
 * parent 2's genes in parent 2's order, skipping genes the child already holds. The two cut
 * points drawn by `random.sample(range(len), 2)` are parameters.
 */
module Crossover {
  import opened Wrappers
  import opened Faults
  import opened Sequences

  /** The placeholder of a free position of `filho`. */
  const Empty: int := -1

  /** Two distinct positions of a parent of length `n`; a parent shorter than 2 draws none. */
  predicate ValidCuts(n: nat, a: nat, b: nat) {
    n >= 2 ==> a < n && b < n && a != b
  }

  function Blanks(k: nat): (r: seq<int>)
    ensures |r| == k && forall i :: 0 <= i < k ==> r[i] == Empty
  {
    seq(k, _ => Empty)
  }

  /** `[-1] * len` with parent 1's segment [start, end) copied in. */
  function Seeded(p1: seq<int>, start: nat, end: nat): seq<int>
    requires start <= end <= |p1|
  {
    Blanks(start) + p1[start..end] + Blanks(|p1| - end)
  }

  /**
   * The fill loop from `pos_atual == pos` over `genes` from index `m` on: a gene the child
   * lacks goes to the next position, which wraps to 0 once it reaches the end.
   */
  function Fill(child: seq<int>, pos: nat, genes: seq<int>, m: nat): (r: seq<int>)
    requires |child| >= 1 && pos <= |child|
    ensures |r| == |child|
    decreases |genes| - m
  {
    if m >= |genes| then child
    else if genes[m] in child then Fill(child, pos, genes, m + 1)
    else
      var p := if pos >= |child| then 0 else pos;
      Fill(child[p := genes[m]], p + 1, genes, m + 1)
  }

  /**
   * The child of `p1` and `p2` when `random.sample` draws positions `a` and `b`; the cuts are
   * the two sorted. An empty parent 1 is returned as it is; a parent of one gene has no two
   * positions to draw and `random.sample` raises.
   */
  function Child(p1: seq<int>, p2: seq<int>, a: nat, b: nat): (r: Result<seq<int>, Fault>)
    requires ValidCuts(|p1|, a, b)
    ensures r.Failure? <==> |p1| == 1
    ensures r.Failure? ==> r.error == NoCutPoints
    ensures |p1| == 0 ==> r == Success(p1)
    ensures r.Success? ==> |r.value| == |p1|
  {
    if |p1| == 0 then Success(p1)
    else if |p1| == 1 then Failure(NoCutPoints)
    else
      var start, end := if a < b then a else b, if a < b then b else a;
      Success(Fill(Seeded(p1, start, end), end, p2, 0))
  }

  /** `crossover` as the source runs it: a list written in place while scanning parent 2. */
  method Recombine(p1: seq<int>, p2: seq<int>, a: nat, b: nat) returns (r: Result<seq<int>, Fault>)
    requires ValidCuts(|p1|, a, b)
    ensures r == Child(p1, p2, a, b)
  {
    var n := |p1|;
    if n == 0 {
      return Success(p1);
    }
    if n == 1 {
      return Failure(NoCutPoints);
    }
    var start, end := if a < b then a else b, if a < b then b else a;
    var child := new int[n](_ => Empty);
    forall k | start <= k < end {
      child[k] := p1[k];
    }
    assert child[..] == Seeded(p1, start, end);
    var pos: nat := end;
    for m := 0 to |p2|
      invariant pos <= n
      invariant Fill(child[..], pos, p2, m) == Fill(Seeded(p1, start, end), end, p2, 0)
    {
      var gene := p2[m];
      if gene !in child[..] {
        if pos >= n {
          pos := 0;
        }
        child[pos] := gene;
        pos := pos + 1;
      }
    }
    return Success(child[..]);
  }

  // ---------------------------------------------------------------------------
  // What the crossover promises for two permutations of the same genes

  /** Both parents arrange the same distinct genes, none of them the placeholder. */
  predicate Parents(p1: seq<int>, p2: seq<int>) {
    Distinct(p1) && Empty !in p1 && multiset(p2) == multiset(p1)
  }

  /**
   * The child after `q` genes of `rest` are placed: slot r < T (T = len - end) is position
   * end + r, slot r >= T wraps around to position r - T.
   */
  function Layout(p1: seq<int>, rest: seq<int>, start: nat, end: nat, q: nat): (s: seq<int>)
    requires start < end <= |p1| && q <= |rest|
    ensures |s| == |p1|
  {
    seq(|p1|, k requires 0 <= k < |p1| =>
      if start <= k < end then p1[k]
      else if end <= k && k - end < q then rest[k - end]
      else if k < start && k + (|p1| - end) < q then rest[k + (|p1| - end)]
      else Empty)
  }

  /** `pos_atual` after `q` placements. */
  function NextPos(n: nat, end: nat, q: nat): nat
    requires end <= n
  {
    if q <= n - end then end + q else q - (n - end)
  }

  /** A gene occurs in a slice of a sequence without repetitions as often as in the whole. */
  lemma SliceCounts(p1: seq<int>, start: nat, end: nat)
    requires Distinct(p1) && start <= end <= |p1|
    ensures forall x :: multiset(p1[start..end])[x] == if x in p1[start..end] then multiset(p1)[x] else 0
  {
    assert p1 == p1[..start] + p1[start..end] + p1[end..];
    DistinctIffSingleCounts(p1);
  }

  /** Facts about the genes of parent 2 that are not in the segment. */
  lemma RestFacts(p1: seq<int>, p2: seq<int>, start: nat, end: nat)
    requires Parents(p1, p2) && start <= end <= |p1|
    ensures var seg := p1[start..end]; var rest := Without(p2, seg);
      && Distinct(rest) && Empty !in rest
      && |rest| == |p1| - (end - start)
      && multiset(rest) + multiset(seg) == multiset(p1)
  {
    var seg := p1[start..end];
    var rest := Without(p2, seg);
    RestCounts(p1, p2, start, end);
    PartOfDistinct(rest, seg, p1);
  }

  /** One of two parts that together arrange a sequence without repetitions has none either. */
  lemma PartOfDistinct(a: seq<int>, b: seq<int>, whole: seq<int>)
    requires multiset(a) + multiset(b) == multiset(whole) && Distinct(whole)
    ensures Distinct(a) && |a| + |b| == |whole| && forall x :: x in a ==> x in whole
  {
    DistinctIffSingleCounts(whole);
    DistinctIffSingleCounts(a);
    forall x ensures multiset(a)[x] <= 1 {
      assert multiset(a)[x] <= (multiset(a) + multiset(b))[x];
    }
    assert |multiset(a) + multiset(b)| == |a| + |b|;
    forall x | x in a ensures x in whole {
      assert (multiset(a) + multiset(b))[x] > 0;
    }
  }

  /** Each gene occurs in `rest` and the segment together as often as in parent 1. */
  lemma RestCounts(p1: seq<int>, p2: seq<int>, start: nat, end: nat)
    requires Parents(p1, p2) && start <= end <= |p1|
    ensures multiset(Without(p2, p1[start..end])) + multiset(p1[start..end]) == multiset(p1)
  {
    var seg := p1[start..end];
    SliceCounts(p1, start, end);
    forall x ensures (multiset(Without(p2, seg)) + multiset(seg))[x] == multiset(p1)[x] {
      WithoutCount(p2, seg, x);
    }
  }

  /** Placing gene `rest[q]` at `pos_atual` (wrapped) moves the layout from q to q + 1. */
  lemma PlaceStep(p1: seq<int>, rest: seq<int>, start: nat, end: nat, q: nat)
    requires start < end < |p1| && |rest| == |p1| - (end - start) && q < |rest|
    ensures var pos := NextPos(|p1|, end, q);
      var p := if pos >= |p1| then 0 else pos;
      && Layout(p1, rest, start, end, q)[p := rest[q]] == Layout(p1, rest, start, end, q + 1)
      && p + 1 == NextPos(|p1|, end, q + 1)
  {
    var n, t := |p1|, |p1| - end;
    var pos := NextPos(n, end, q);
    var p := if pos >= n then 0 else pos;
    var before, after := Layout(p1, rest, start, end, q), Layout(p1, rest, start, end, q + 1);
    forall k | 0 <= k < n ensures before[p := rest[q]][k] == after[k] {
      if k == p {
        if q < t {
          assert p == end + q;
        } else {
          assert p == q - t;
        }
      }
    }
  }

  /** A gene of the segment is in the child; the next gene of `rest` is not. */
  lemma LayoutMembers(p1: seq<int>, rest: seq<int>, start: nat, end: nat, q: nat, x: int)
    requires start < end <= |p1| && q <= |rest|
    requires Distinct(rest) && Empty !in rest
    ensures x in p1[start..end] ==> x in Layout(p1, rest, start, end, q)
    ensures q < |rest| && x == rest[q] && x !in p1[start..end] ==> x !in Layout(p1, rest, start, end, q)
  {
    var s := Layout(p1, rest, start, end, q);
    if x in p1[start..end] {
      var i :| 0 <= i < end - start && p1[start..end][i] == x;
      assert s[start + i] == x;
    }
    if q < |rest| && x == rest[q] && x !in p1[start..end] {
      forall k | 0 <= k < |s| ensures s[k] != x {
        if start <= k < end {
          assert s[k] == p1[start..end][k - start];
        }
      }
    }
  }

  /** How many genes of `p2[..m]` the fill loop has placed. */
  function Placed(p2: seq<int>, seg: seq<int>, m: nat): nat
    requires m <= |p2|
  {
    |Without(p2[..m], seg)|
  }

  /** Gene `p2[m]` is skipped when the segment holds it; otherwise it is the next gene of `rest`. */
  lemma PlacedStep(p2: seq<int>, seg: seq<int>, m: nat)
    requires m < |p2|
    ensures Placed(p2, seg, m + 1) == Placed(p2, seg, m) + (if p2[m] in seg then 0 else 1)
    ensures Placed(p2, seg, m + 1) <= |Without(p2, seg)|
    ensures p2[m] !in seg ==> Without(p2, seg)[Placed(p2, seg, m)] == p2[m]
  {
    var gene := p2[m];
    assert p2[..m + 1] == p2[..m] + [gene];
    WithoutAppend(p2[..m], [gene], seg);
    assert Without([gene], seg) == (if gene in seg then [] else [gene]) + Without([], seg);
    WithoutAppend(p2[..m + 1], p2[m + 1..], seg);
    assert p2[..m + 1] + p2[m + 1..] == p2;
  }

  /** The fill loop over the genes of parent 2 from position `m` on ends in the full layout. */
  lemma {:induction false} FillFrom(p1: seq<int>, p2: seq<int>, start: nat, end: nat, rest: seq<int>, m: nat)
    requires start < end < |p1| && m <= |p2|
    requires rest == Without(p2, p1[start..end]) && Distinct(rest) && Empty !in rest
    requires |rest| == |p1| - (end - start) && Placed(p2, p1[start..end], m) <= |rest|
    ensures var q := Placed(p2, p1[start..end], m);
      Fill(Layout(p1, rest, start, end, q), NextPos(|p1|, end, q), p2, m)
      == Layout(p1, rest, start, end, |rest|)
    decreases |p2| - m
  {
    var seg := p1[start..end];
    var q := Placed(p2, seg, m);
    if m < |p2| {
      var gene := p2[m];
      PlacedStep(p2, seg, m);
      FillFrom(p1, p2, start, end, rest, m + 1);
      LayoutMembers(p1, rest, start, end, q, gene);
      if gene !in seg {
        PlaceStep(p1, rest, start, end, q);
      }
    } else {
      assert p2[..m] == p2;
    }
  }

  lemma SeededLayout(p1: seq<int>, rest: seq<int>, start: nat, end: nat)
    requires start < end <= |p1|
    ensures Layout(p1, rest, start, end, 0) == Seeded(p1, start, end)
  {
    var s := Seeded(p1, start, end);
    forall k | 0 <= k < |p1| ensures Layout(p1, rest, start, end, 0)[k] == s[k] {
      if start <= k < end {
        assert s[k] == p1[start..end][k - start];
      } else if k >= end {
        assert s[k] == Blanks(|p1| - end)[k - end];
      }
    }
  }

  lemma FullLayout(p1: seq<int>, rest: seq<int>, start: nat, end: nat)
    requires start < end <= |p1| && |rest| == |p1| - (end - start)
    ensures var t := |p1| - end;
      Layout(p1, rest, start, end, |rest|) == rest[t..] + p1[start..end] + rest[..t]
  {
    var t := |p1| - end;
    var full := rest[t..] + p1[start..end] + rest[..t];
    forall k | 0 <= k < |p1| ensures Layout(p1, rest, start, end, |rest|)[k] == full[k] {
      if k < start {
        assert full[k] == rest[t..][k];
      } else if k < end {
        assert full[k] == p1[start..end][k - start];
      } else {
        assert full[k] == rest[..t][k - end];
      }
    }
  }

  /**
   * The child of two permutations of the same distinct genes: the genes of parent 2 outside
   * parent 1's segment, in parent 2's order, fill the positions after the segment and then
   * wrap around to the front.
   */
  lemma ChildLayout(p1: seq<int>, p2: seq<int>, a: nat, b: nat)
    requires Parents(p1, p2) && |p1| >= 2 && ValidCuts(|p1|, a, b)
    ensures var start, end := if a < b then a else b, if a < b then b else a;
      var rest := Without(p2, p1[start..end]);
      |rest| == |p1| - (end - start)
      && Child(p1, p2, a, b) == Success(rest[|p1| - end..] + p1[start..end] + rest[..|p1| - end])
  {
    var start, end := if a < b then a else b, if a < b then b else a;
    var seg := p1[start..end];
    var rest := Without(p2, seg);
    RestFacts(p1, p2, start, end);
    assert p2[..0] == [];
    FillFrom(p1, p2, start, end, rest, 0);
    SeededLayout(p1, rest, start, end);
    FullLayout(p1, rest, start, end);
  }

  /**
   * The child of two permutations of the same distinct genes is again such a permutation,
   * and it holds parent 1's segment at the segment's own positions.
   */
  lemma ChildIsPermutation(p1: seq<int>, p2: seq<int>, a: nat, b: nat)
    requires Parents(p1, p2) && ValidCuts(|p1|, a, b) && |p1| != 1
    ensures var r := Child(p1, p2, a, b);
      && r.Success?
      && multiset(r.value) == multiset(p1) && Distinct(r.value)
      && var start, end := if a < b then a else b, if a < b then b else a;
         |p1| >= 2 ==> r.value[start..end] == p1[start..end]
  {
    if |p1| >= 2 {
      var start, end := if a < b then a else b, if a < b then b else a;
      var seg := p1[start..end];
      var rest := Without(p2, seg);
      var t := |p1| - end;
      ChildLayout(p1, p2, a, b);
      RestFacts(p1, p2, start, end);
      Rotation(rest, seg, t, p1);
      assert |rest| - t == start && |rest| - t + |seg| == end;
      assert Child(p1, p2, a, b).value == rest[t..] + seg + rest[..t];
    }
  }

  /**
   * The tail of `rest` from `t`, then `seg`, then the head of `rest`, arranges the genes of
   * `whole` when `rest` and `seg` together do, and holds `seg` right after the tail.
   */
  lemma Rotation(rest: seq<int>, seg: seq<int>, t: nat, whole: seq<int>)
    requires t <= |rest| && multiset(rest) + multiset(seg) == multiset(whole) && Distinct(whole)
    ensures var c := rest[t..] + seg + rest[..t];
      && multiset(c) == multiset(whole) && Distinct(c)
      && c[|rest| - t..|rest| - t + |seg|] == seg
  {
    var c := rest[t..] + seg + rest[..t];
    assert rest == rest[..t] + rest[t..];
    assert multiset(c) == multiset(rest) + multiset(seg);
    PermutationKeepsDistinct(c, whole);
    assert c[|rest| - t..|rest| - t + |seg|] == seg;
  }

  /** Parent 1 = [1,2,3,4], parent 2 = [3,1,4,2], cuts 1 and 3 give [4,2,3,1]. */
  lemma FourGeneExample()
    ensures Child([1, 2, 3, 4], [3, 1, 4, 2], 1, 3) == Success([4, 2, 3, 1])
  {
    var p1, p2 := [1, 2, 3, 4], [3, 1, 4, 2];
    var s0 := Seeded(p1, 1, 3);
    assert s0 == [Empty, 2, 3, Empty];
    assert 3 in s0;
    var s1 := s0[3 := 1];
    assert s1 == [Empty, 2, 3, 1];
    assert 1 !in s0 && 4 !in s1;
    var s2 := s1[0 := 4];
    assert s2 == [4, 2, 3, 1];
    assert 2 in s2;
    assert Fill(s2, 1, p2, 3) == Fill(s2, 1, p2, 4) == s2;
    assert Fill(s1, 4, p2, 2) == s2;
    assert Fill(s0, 3, p2, 1) == s2;
    assert Fill(s0, 3, p2, 0) == s2;
  }
}
