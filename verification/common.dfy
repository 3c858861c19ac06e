/** Option and Result: the model's stand-ins for Python's `None` and raised exceptions. */
module Wrappers {
  datatype Option<+T> = None | Some(value: T)

  datatype Result<+T, +E> = Success(value: T) | Failure(error: E)
}

/** The exceptions the solver can raise, one constructor per raising call site. */
module Faults {
  datatype Fault =
    | SampleLargerThanPopulation  // random.sample(populacao, k) with k < 0 or k > len(populacao)
    | EmptyTournament             // min() over zero competitors (k == 0)
    | NoCutPoints                 // random.sample(range(1), 2) in crossover
    | NoSwapPoints                // random.sample(range(len), 2) in a firing mutation with len < 2
    | EmptyPopulation             // scores[0] on an empty population
    | NoBestChromosome            // splitting melhor_global == None after zero generations
}

/** Facts about integer sequences used by the genetic operators. */
module Sequences {

  /** No value occurs twice. */
  predicate Distinct(s: seq<int>) {
    forall i, j :: 0 <= i < j < |s| ==> s[i] != s[j]
  }

  /** `s` with the values at positions `i` and `j` exchanged, as a Python tuple swap does. */
  function Swapped(s: seq<int>, i: nat, j: nat): (r: seq<int>)
    requires i < |s| && j < |s|
    ensures |r| == |s| && r[i] == s[j] && r[j] == s[i]
    ensures forall k :: 0 <= k < |s| && k != i && k != j ==> r[k] == s[k]
    ensures multiset(r) == multiset(s)
  {
    s[i := s[j]][j := s[i]]
  }

  /** `s` in reverse order. */
  function Rev(s: seq<int>): (r: seq<int>)
    ensures |r| == |s|
    ensures forall k :: 0 <= k < |s| ==> r[k] == s[|s| - 1 - k]
  {
    if s == [] then [] else Rev(s[1..]) + [s[0]]
  }

  lemma {:induction false} RevMultiset(s: seq<int>)
    ensures multiset(Rev(s)) == multiset(s)
  {
    if s != [] {
      RevMultiset(s[1..]);
      assert s == [s[0]] + s[1..];
    }
  }

  /** `s` with the closed index range [i, j] reversed: Python's `s[i:j+1] = reversed(s[i:j+1])`. */
  function ReverseRange(s: seq<int>, i: nat, j: nat): (r: seq<int>)
    requires i <= j < |s|
    ensures |r| == |s|
  {
    s[..i] + Rev(s[i..j + 1]) + s[j + 1..]
  }

  /** Reversing a range rearranges the sequence. */
  lemma ReverseRangePermutes(s: seq<int>, i: nat, j: nat)
    requires i <= j < |s|
    ensures multiset(ReverseRange(s, i, j)) == multiset(s)
  {
    ReversedSliceMultiset(s, i, j);
  }

  /** Reversing a range mirrors the positions inside it and keeps the others. */
  lemma ReverseRangeIndices(s: seq<int>, i: nat, j: nat)
    requires i <= j < |s|
    ensures var r := ReverseRange(s, i, j);
      && (forall k :: 0 <= k < |s| && (k < i || j < k) ==> r[k] == s[k])
      && (forall k :: i <= k <= j ==> r[k] == s[i + j - k])
  {
    ReversedSliceIndices(s, i, j);
  }

  lemma ReversedSliceMultiset(s: seq<int>, i: nat, j: nat)
    requires i <= j < |s|
    ensures multiset(s[..i] + Rev(s[i..j + 1]) + s[j + 1..]) == multiset(s)
  {
    RevMultiset(s[i..j + 1]);
    MiddleMultiset(s[..i], Rev(s[i..j + 1]), s[i..j + 1], s[j + 1..]);
    SplitThree(s, i, j + 1);
  }

  /** Replacing the middle part by a rearrangement of it rearranges the whole. */
  lemma MiddleMultiset(a: seq<int>, m: seq<int>, m2: seq<int>, b: seq<int>)
    requires multiset(m) == multiset(m2)
    ensures multiset(a + m + b) == multiset(a + m2 + b)
  {
  }

  /** A sequence is its three slices cut at `i` and `j`, put back together. */
  lemma SplitThree(s: seq<int>, i: nat, j: nat)
    requires i <= j <= |s|
    ensures s[..i] + s[i..j] + s[j..] == s
  {
  }

  lemma ReversedSliceIndices(s: seq<int>, i: nat, j: nat)
    requires i <= j < |s|
    ensures var r := s[..i] + Rev(s[i..j + 1]) + s[j + 1..];
      && |r| == |s|
      && (forall k :: 0 <= k < |s| && (k < i || j < k) ==> r[k] == s[k])
      && (forall k :: i <= k <= j ==> r[k] == s[i + j - k])
  {
    ReversedSliceInside(s, i, j);
    ReversedSliceOutside(s, i, j);
  }

  /** Inside the range, the reversal mirrors the positions. */
  lemma ReversedSliceInside(s: seq<int>, i: nat, j: nat)
    requires i <= j < |s|
    ensures var r := s[..i] + Rev(s[i..j + 1]) + s[j + 1..];
      forall k :: i <= k <= j ==> r[k] == s[i + j - k]
  {
    var mid, r := s[i..j + 1], s[..i] + Rev(s[i..j + 1]) + s[j + 1..];
    forall k | i <= k <= j ensures r[k] == s[i + j - k] {
      assert r[k] == Rev(mid)[k - i] == mid[j - k];
    }
  }

  /** Outside the range, the reversal keeps every element in place. */
  lemma ReversedSliceOutside(s: seq<int>, i: nat, j: nat)
    requires i <= j < |s|
    ensures var r := s[..i] + Rev(s[i..j + 1]) + s[j + 1..];
      forall k :: 0 <= k < |s| && (k < i || j < k) ==> r[k] == s[k]
  {
    var r := s[..i] + Rev(s[i..j + 1]) + s[j + 1..];
    forall k | j < k < |s| ensures r[k] == s[k] {
      assert r[k] == s[j + 1..][k - j - 1];
    }
  }

  /** The elements of `s` that do not occur in `t`, in the order of `s`. */
  function Without(s: seq<int>, t: seq<int>): (r: seq<int>)
    ensures |r| <= |s|
  {
    if s == [] then [] else (if s[0] in t then [] else [s[0]]) + Without(s[1..], t)
  }

  lemma {:induction false} WithoutAppend(a: seq<int>, b: seq<int>, t: seq<int>)
    ensures Without(a + b, t) == Without(a, t) + Without(b, t)
  {
    if a != [] {
      assert (a + b)[0] == a[0];
      assert (a + b)[1..] == a[1..] + b;
      WithoutAppend(a[1..], b, t);
    } else {
      assert a + b == b;
    }
  }

  lemma {:induction false} WithoutCount(s: seq<int>, t: seq<int>, x: int)
    ensures multiset(Without(s, t))[x] == if x in t then 0 else multiset(s)[x]
  {
    if s != [] {
      WithoutCount(s[1..], t, x);
      assert s == [s[0]] + s[1..];
    }
  }

  /** Distinctness is "every multiplicity is at most one". */
  lemma {:induction false} DistinctIffSingleCounts(s: seq<int>)
    ensures Distinct(s) <==> forall x :: multiset(s)[x] <= 1
  {
    if s != [] {
      DistinctIffSingleCounts(s[1..]);
      assert s == [s[0]] + s[1..];
      if Distinct(s) {
        assert Distinct(s[1..]) by {
          forall i, j | 0 <= i < j < |s[1..]| ensures s[1..][i] != s[1..][j] {
            assert s[1..][i] == s[i + 1] && s[1..][j] == s[j + 1];
          }
        }
        assert s[0] !in s[1..] by {
          forall k | 0 <= k < |s[1..]| ensures s[1..][k] != s[0] {
            assert s[1..][k] == s[k + 1];
          }
        }
      } else {
        var i, j :| 0 <= i < j < |s| && s[i] == s[j];
        if i == 0 {
          assert s[1..][j - 1] == s[0];
          assert multiset(s)[s[0]] >= 2;
        } else {
          assert s[1..][i - 1] == s[1..][j - 1];
          assert !Distinct(s[1..]);
          var x :| multiset(s[1..])[x] > 1;
          assert multiset(s)[x] > 1;
        }
      }
    }
  }

  /** A rearrangement of a sequence without repetitions has none either. */
  lemma PermutationKeepsDistinct(a: seq<int>, b: seq<int>)
    requires multiset(a) == multiset(b) && Distinct(b)
    ensures Distinct(a)
  {
    DistinctIffSingleCounts(a);
    DistinctIffSingleCounts(b);
  }
}
