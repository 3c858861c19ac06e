/**
 * `selecao_torneio`: draw `k` distinct individuals with `random.sample` and return the one
 * of lowest cost, as `min` with a key does (the first of equal minima). The positions the
 * sample draws are a parameter.
 */
module Selection {
  import opened Wrappers
  import opened Faults
  import opened Points
  import opened FitnessEvaluator

  /** Position of the first smallest cost: what `min` with a key, or a stable sort's head, picks. */
  function FirstMin(costs: seq<real>): (i: nat)
    requires |costs| >= 1
    ensures i < |costs|
    ensures forall k :: 0 <= k < |costs| ==> costs[i] <= costs[k]
    ensures forall k :: 0 <= k < i ==> costs[k] > costs[i]
    decreases |costs|
  {
    if |costs| == 1 then 0
    else
      var i := FirstMin(costs[..|costs| - 1]);
      if costs[|costs| - 1] < costs[i] then |costs| - 1 else i
  }

  /** The key `min` compares individuals by. */
  type Key = seq<int> -> real

  /** Every individual can be costed: the depot and all its ids are known points. */
  predicate Evaluable(pop: seq<seq<int>>, pts: seq<Point>) {
    Depot in Ids(pts) && forall c :: c in pop ==> AllPresent(c, pts)
  }

  /** The tournament's key: `funcao_fitness_vrp` with its default cost per unit of 1. */
  function Cost(c: seq<int>, pts: seq<Point>, cap: int, dist: Distance): real
    requires AllPresent(c, pts) && Depot in Ids(pts)
  {
    Fitness(c, pts, cap, 1.0, dist)
  }

  /** The key of every individual, in population order. */
  function Costs(pop: seq<seq<int>>, key: Key): (costs: seq<real>)
    ensures |costs| == |pop|
  {
    seq(|pop|, j requires 0 <= j < |pop| => key(pop[j]))
  }

  /**
   * The positions `random.sample(populacao, k)` draws when `0 <= k <= len(populacao)`:
   * `k` distinct positions of the population, in draw order.
   */
  predicate ValidSample(picks: seq<nat>, k: int, size: nat) {
    0 <= k <= size ==>
      && |picks| == k
      && (forall j :: 0 <= j < |picks| ==> picks[j] < size)
      && (forall i, j :: 0 <= i < j < |picks| ==> picks[i] != picks[j])
  }

  /** The keys of the drawn competitors, in draw order. */
  function PickCosts(pop: seq<seq<int>>, key: Key, picks: seq<nat>): (costs: seq<real>)
    requires forall j :: 0 <= j < |picks| ==> picks[j] < |pop|
    ensures |costs| == |picks|
  {
    seq(|picks|, j requires 0 <= j < |picks| => key(pop[picks[j]]))
  }

  /**
   * The tournament winner. `random.sample` raises for a negative `k` or one larger than the
   * population; `min` raises for `k == 0`.
   */
  function Tournament(pop: seq<seq<int>>, key: Key, k: int, picks: seq<nat>): (r: Result<seq<int>, Fault>)
    requires ValidSample(picks, k, |pop|)
    ensures r.Failure? <==> !(1 <= k <= |pop|)
    ensures r.Failure? ==> r.error == if k == 0 then EmptyTournament else SampleLargerThanPopulation
  {
    if k < 0 || k > |pop| then Failure(SampleLargerThanPopulation)
    else if k == 0 then Failure(EmptyTournament)
    else
      var costs := PickCosts(pop, key, picks);
      Success(pop[picks[FirstMin(costs)]])
  }

  /**
   * The winner is a drawn competitor no dearer than any other, and strictly cheaper than
   * every competitor drawn before it.
   */
  lemma TournamentWinner(pop: seq<seq<int>>, key: Key, k: int, picks: seq<nat>)
    requires ValidSample(picks, k, |pop|)
    ensures var r := Tournament(pop, key, k, picks);
      && (r.Success? ==>
            exists j :: 0 <= j < k && r.value == pop[picks[j]]
              && forall i :: 0 <= i < j ==> key(pop[picks[i]]) > key(r.value))
      && (r.Success? ==> forall j :: 0 <= j < k ==> key(r.value) <= key(pop[picks[j]]))
  {
    if 1 <= k <= |pop| {
      var costs := PickCosts(pop, key, picks);
      assert forall i :: 0 <= i < k ==> costs[i] == key(pop[picks[i]]);
      var j := FirstMin(costs);
      assert Tournament(pop, key, k, picks) == Success(pop[picks[j]]);
    }
  }

  /** The winner is one of the individuals of the population. */
  lemma WinnerFromPopulation(pop: seq<seq<int>>, key: Key, k: int, picks: seq<nat>)
    requires ValidSample(picks, k, |pop|)
    ensures var r := Tournament(pop, key, k, picks);
      r.Success? ==> r.value in pop
  {
    var r := Tournament(pop, key, k, picks);
    TournamentWinner(pop, key, k, picks);
    if r.Success? {
      var j :| 0 <= j < k && r.value == pop[picks[j]];
      assert pop[picks[j]] in pop;
    }
  }

  /**
   * A tournament that draws the whole population, in order, picks the same individual as the
   * head of the generation's stable sort by cost.
   */
  lemma WholePopulationTournament(pop: seq<seq<int>>, key: Key, picks: seq<nat>)
    requires |pop| >= 1
    requires |picks| == |pop| && forall j :: 0 <= j < |picks| ==> picks[j] == j
    ensures ValidSample(picks, |pop|, |pop|)
    ensures Tournament(pop, key, |pop|, picks) == Success(pop[FirstMin(Costs(pop, key))])
  {
    assert PickCosts(pop, key, picks) == Costs(pop, key);
  }
}
