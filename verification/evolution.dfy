/**
 * `executar_ga`: the generational loop. Each generation costs every individual, keeps the
 * best chromosome ever seen (replaced only by a strictly cheaper one), records its cost, and
 * breeds the next population from the best-ever chromosome plus children of tournament
 * winners. The best chromosome is finally split into routes, each refined by 2-opt.
 * Every random draw of the run is a parameter.
 */
module Evolution {
  import opened Wrappers
  import opened Faults
  import opened Sequences
  import opened Points
  import opened RouteSplitter
  import opened FitnessEvaluator
  import opened Population
  import opened Selection
  import opened Crossover
  import opened Mutation
  import opened TwoOpt

  /** `selecao_torneio`'s default `k`. */
  const TournamentSize: int := 3

  /** The draws behind one child: two tournaments, the crossover positions, the mutation coin and swap. */
  datatype BreedDraws = BreedDraws(picks1: seq<nat>, picks2: seq<nat>, cutA: nat, cutB: nat,
                                   fire: bool, swapA: nat, swapB: nat)

  /** All draws of a run: one shuffle per initial individual, one `BreedDraws` per child per generation. */
  datatype GaDraws = GaDraws(shuffles: seq<seq<nat>>, breeding: seq<seq<BreedDraws>>)

  /** A best-ever chromosome with its cost (`melhor_global`, `melhor_fitness_global`). */
  datatype Scored = Scored(chromosome: seq<int>, fitness: real)

  /** What `executar_ga` returns: the refined routes and the convergence history. */
  datatype GaOutput = GaOutput(routes: seq<Route>, history: seq<real>)

  function Clamp(n: int): nat {
    if n > 0 then n else 0
  }

  /** The genes every chromosome arranges: all point ids but the depot. */
  function Genes(pts: seq<Point>): seq<int> {
    Deliveries(Ids(pts))
  }

  predicate IsChromosome(c: seq<int>, pts: seq<Point>) {
    multiset(c) == multiset(Genes(pts))
  }

  predicate AllChromosomes(pop: seq<seq<int>>, pts: seq<Point>) {
    forall c :: c in pop ==> IsChromosome(c, pts)
  }

  predicate ValidBreed(b: BreedDraws, popSize: nat, genes: nat) {
    && ValidSample(b.picks1, TournamentSize, popSize)
    && ValidSample(b.picks2, TournamentSize, popSize)
    && ValidCuts(genes, b.cutA, b.cutB)
    && ValidSwap(genes, b.fire, b.swapA, b.swapB)
  }

  /** Draws for every generation of a population of `popSize`. */
  predicate ValidBreeding(breeding: seq<seq<BreedDraws>>, popSize: nat, genes: nat) {
    && (forall g :: 0 <= g < |breeding| ==> |breeding[g]| == Clamp(popSize - 1))
    && (forall g, c :: 0 <= g < |breeding| && 0 <= c < |breeding[g]| ==> ValidBreed(breeding[g][c], popSize, genes))
  }

  predicate ValidDraws(d: GaDraws, generations: int, popSize: int, genes: nat) {
    && |d.shuffles| == Clamp(popSize)
    && (forall p :: 0 <= p < |d.shuffles| ==> ValidShuffle(d.shuffles[p], genes))
    && |d.breeding| == Clamp(generations)
    && ValidBreeding(d.breeding, Clamp(popSize), genes)
  }

  /**
   * What crossover needs of the genes: no gene repeats and none is the placeholder of an
   * unfilled position. Distinct nonnegative ids guarantee it.
   */
  predicate ValidGenes(pts: seq<Point>) {
    Distinct(Genes(pts)) && Empty !in Genes(pts)
  }

  lemma {:induction false} GenesOfWellFormedIds(pts: seq<Point>)
    requires WellFormedIds(pts)
    ensures ValidGenes(pts)
  {
    DeliveriesWellFormed(pts);
  }

  /** A chromosome arranges known ids other than the depot, as many as there are deliveries. */
  lemma {:induction false} ChromosomePresent(c: seq<int>, pts: seq<Point>)
    requires IsChromosome(c, pts)
    ensures |c| == |Genes(pts)| && AllPresent(c, pts) && Depot !in c
  {
    assert |multiset(c)| == |multiset(Genes(pts))|;
    DeliveriesCounts(Ids(pts));
    forall x | x in c ensures x in Ids(pts) && x != Depot {
      assert multiset(Genes(pts))[x] > 0;
      assert x != Depot;
      assert multiset(Ids(pts))[x] > 0;
    }
  }

  /** Moreover a chromosome of valid genes has no repeated gene and no placeholder. */
  lemma {:induction false} ChromosomeFacts(c: seq<int>, pts: seq<Point>)
    requires ValidGenes(pts) && IsChromosome(c, pts)
    ensures |c| == |Genes(pts)| && Distinct(c) && AllPresent(c, pts) && Empty !in c && Depot !in c
  {
    ChromosomePresent(c, pts);
    PermutationKeepsDistinct(c, Genes(pts));
    assert multiset(c)[Empty] == multiset(Genes(pts))[Empty] == 0;
  }

  lemma {:induction false} ChromosomeLengths(pop: seq<seq<int>>, pts: seq<Point>)
    requires AllChromosomes(pop, pts)
    ensures forall c :: c in pop ==> |c| == |Genes(pts)|
  {
    forall c | c in pop ensures |c| == |Genes(pts)| {
      assert |multiset(c)| == |multiset(Genes(pts))|;
    }
  }

  lemma {:induction false} ChromosomesEvaluable(pop: seq<seq<int>>, pts: seq<Point>)
    requires Depot in Ids(pts) && AllChromosomes(pop, pts)
    ensures Evaluable(pop, pts)
  {
    forall c | c in pop ensures AllPresent(c, pts) {
      ChromosomePresent(c, pts);
    }
  }

  // ---------------------------------------------------------------------------
  // The fitness key

  /** `key` is the fitness function on every individual it can cost. */
  ghost predicate Keyed(key: Key, pts: seq<Point>, cap: int, dist: Distance) {
    forall c {:trigger Cost(c, pts, cap, dist)} :: AllPresent(c, pts) && Depot in Ids(pts) ==> key(c) == Cost(c, pts, cap, dist)
  }

  /** `lambda ind: funcao_fitness_vrp(ind, pontos, cap_veiculo)`, on the individuals it can cost. */
  method FitnessKey(pts: seq<Point>, cap: int, dist: Distance) returns (key: Key)
    ensures Keyed(key, pts, cap, dist)
  {
    key := c => if AllPresent(c, pts) && Depot in Ids(pts) then Cost(c, pts, cap, dist) else 0.0;
  }

  // ---------------------------------------------------------------------------
  // One child

  /** `mutacao(crossover(pai1, pai2))`. */
  function Bred(p1: seq<int>, p2: seq<int>, b: BreedDraws): Result<seq<int>, Fault>
    requires ValidCuts(|p1|, b.cutA, b.cutB) && ValidSwap(|p1|, b.fire, b.swapA, b.swapB)
  {
    var x := Child(p1, p2, b.cutA, b.cutB);
    if x.Failure? then Failure(x.error)
    else Mutated(x.value, b.fire, b.swapA, b.swapB)
  }

  /** Two tournament winners drawn from `pop`, crossed and mutated. */
  function Offspring(pop: seq<seq<int>>, pts: seq<Point>, key: Key, b: BreedDraws): Result<seq<int>, Fault>
    requires AllChromosomes(pop, pts) && ValidBreed(b, |pop|, |Genes(pts)|)
  {
    ChromosomeLengths(pop, pts);
    var t1 := Tournament(pop, key, TournamentSize, b.picks1);
    if t1.Failure? then Failure(t1.error)
    else
      // The second tournament fails exactly when the first does, so it succeeds here.
      var t2 := Tournament(pop, key, TournamentSize, b.picks2);
      WinnerFromPopulation(pop, key, TournamentSize, b.picks1);
      Bred(t1.value, t2.value, b)
  }

  /** A child of two chromosomes is a chromosome. */
  lemma {:induction false} OffspringIsChromosome(pop: seq<seq<int>>, pts: seq<Point>, key: Key, b: BreedDraws)
    requires ValidGenes(pts) && AllChromosomes(pop, pts) && ValidBreed(b, |pop|, |Genes(pts)|)
    ensures var r := Offspring(pop, pts, key, b);
      r.Success? ==> IsChromosome(r.value, pts)
  {
    ChromosomeLengths(pop, pts);
    var r := Offspring(pop, pts, key, b);
    if r.Success? {
      var t1 := Tournament(pop, key, TournamentSize, b.picks1);
      var t2 := Tournament(pop, key, TournamentSize, b.picks2);
      WinnerFromPopulation(pop, key, TournamentSize, b.picks1);
      WinnerFromPopulation(pop, key, TournamentSize, b.picks2);
      ChromosomeFacts(t1.value, pts);
      ChromosomeFacts(t2.value, pts);
      ChildIsPermutation(t1.value, t2.value, b.cutA, b.cutB);
    }
  }

  /**
   * How breeding one child from a population of `n` chromosomes of `d` genes fails: fewer
   * than three individuals cannot hold a tournament of three; a single gene leaves no two
   * cut points; no gene at all leaves a firing mutation nothing to swap.
   */
  function ChildFault(n: nat, d: nat, fire: bool): Option<Fault> {
    if n < TournamentSize then Some(SampleLargerThanPopulation)
    else if d == 1 then Some(NoCutPoints)
    else if d == 0 && fire then Some(NoSwapPoints)
    else None
  }

  /** A child is bred exactly when `ChildFault` finds no fault, and otherwise fails with it. */
  lemma {:induction false} OffspringOutcome(pop: seq<seq<int>>, pts: seq<Point>, key: Key, b: BreedDraws)
    requires AllChromosomes(pop, pts) && ValidBreed(b, |pop|, |Genes(pts)|) && |pop| >= 1
    ensures var r := Offspring(pop, pts, key, b); var f := ChildFault(|pop|, |Genes(pts)|, b.fire);
      && (r.Failure? <==> f.Some?)
      && (r.Failure? ==> r.error == f.value)
  {
    ChromosomeLengths(pop, pts);
    if |pop| >= 3 {
      WinnerFromPopulation(pop, key, TournamentSize, b.picks1);
    }
  }

  /** `mutacao(crossover(pai1, pai2))` as the source runs it, on a fresh list. */
  method CrossAndMutate(p1: seq<int>, p2: seq<int>, b: BreedDraws) returns (r: Result<seq<int>, Fault>)
    requires ValidCuts(|p1|, b.cutA, b.cutB) && ValidSwap(|p1|, b.fire, b.swapA, b.swapB)
    ensures r == Bred(p1, p2, b)
  {
    var x := Recombine(p1, p2, b.cutA, b.cutB);
    if x.Failure? {
      return Failure(x.error);
    }
    var child := x.value;
    var a := new int[|child|](k requires 0 <= k < |child| => child[k]);
    assert a[..] == child;
    var ok := MutateInPlace(a, b.fire, b.swapA, b.swapB);
    if !ok {
      return Failure(NoSwapPoints);
    }
    return Success(a[..]);
  }

  /** One `nova_populacao.append(mutacao(crossover(pai1, pai2)))`. */
  method Breed(pop: seq<seq<int>>, pts: seq<Point>, key: Key, b: BreedDraws) returns (r: Result<seq<int>, Fault>)
    requires AllChromosomes(pop, pts) && ValidBreed(b, |pop|, |Genes(pts)|)
    ensures r == Offspring(pop, pts, key, b)
  {
    ChromosomeLengths(pop, pts);
    var t1 := Tournament(pop, key, TournamentSize, b.picks1);
    if t1.Failure? {
      return Failure(t1.error);
    }
    // The second tournament fails exactly when the first does, so it succeeds here.
    var t2 := Tournament(pop, key, TournamentSize, b.picks2);
    WinnerFromPopulation(pop, key, TournamentSize, b.picks1);
    r := CrossAndMutate(t1.value, t2.value, b);
  }

  // ---------------------------------------------------------------------------
  // The next population

  /**
   * `nova_populacao` after appending the children one at a time after the elite: the first
   * child that cannot be bred aborts the generation with its error.
   */
  function Collect(elite: seq<int>, children: seq<Result<seq<int>, Fault>>): Result<seq<seq<int>>, Fault>
    decreases |children|, 1
  {
    if children == [] then Success([elite]) else CollectLast(elite, children)
  }

  /** All children but the last collected, then the last one appended, or its error. */
  function CollectLast(elite: seq<int>, children: seq<Result<seq<int>, Fault>>): Result<seq<seq<int>>, Fault>
    requires children != []
    decreases |children|, 0
  {
    var sofar := Collect(elite, children[..|children| - 1]);
    var last := children[|children| - 1];
    if sofar.Failure? then sofar
    else if last.Failure? then Failure(last.error)
    else Success(sofar.value + [last.value])
  }

  /**
   * Collecting succeeds exactly when every child does, and then lists the elite followed by
   * the children in order; otherwise its error is that of the first child that failed.
   */
  lemma {:induction false} CollectOutcome(elite: seq<int>, children: seq<Result<seq<int>, Fault>>)
    ensures var r := Collect(elite, children);
      && (r.Success? <==> forall c :: 0 <= c < |children| ==> children[c].Success?)
      && (r.Failure? ==> exists c :: 0 <= c < |children| && children[c] == Failure(r.error)
                                      && forall e :: 0 <= e < c ==> children[e].Success?)
      && (r.Success? ==> |r.value| == |children| + 1 && r.value[0] == elite
                         && forall c :: 0 <= c < |children| ==> children[c] == Success(r.value[c + 1]))
    decreases |children|
  {
    if children != [] {
      var n := |children|;
      var init, last := children[..n - 1], children[n - 1];
      CollectOutcome(elite, init);
      assert forall c :: 0 <= c < n - 1 ==> children[c] == init[c];
      var sofar := Collect(elite, init);
      if sofar.Failure? {
        assert Collect(elite, children) == sofar;
        var c :| 0 <= c < |init| && init[c] == Failure(sofar.error) && forall e :: 0 <= e < c ==> init[e].Success?;
        assert children[c] == init[c];
      } else if last.Failure? {
        assert Collect(elite, children) == Failure(last.error);
        assert forall e :: 0 <= e < n - 1 ==> children[e].Success?;
      } else {
        var all := sofar.value + [last.value];
        assert Collect(elite, children) == Success(all);
        assert forall c :: 0 <= c < n ==> all[c] == sofar.value[c];
      }
    }
  }

  /** Collecting one more child after a successful prefix adds it, or fails with its error. */
  lemma CollectStep(elite: seq<int>, children: seq<Result<seq<int>, Fault>>, m: nat)
    requires m < |children| && Collect(elite, children[..m]).Success?
    ensures Collect(elite, children[..m + 1])
      == if children[m].Failure? then Failure(children[m].error)
         else Success(Collect(elite, children[..m]).value + [children[m].value])
  {
    assert children[..m + 1][..m] == children[..m];
  }

  /** Once a prefix of the children has failed, the remaining children change nothing. */
  lemma {:induction false} CollectAborts(elite: seq<int>, children: seq<Result<seq<int>, Fault>>, m: nat)
    requires m <= |children| && Collect(elite, children[..m]).Failure?
    ensures Collect(elite, children) == Collect(elite, children[..m])
    decreases |children| - m
  {
    if m < |children| {
      var init := children[..|children| - 1];
      assert init[..m] == children[..m];
      CollectAborts(elite, init, m);
    } else {
      assert children[..m] == children;
    }
  }

  /** One breeding outcome per draw: two tournaments on `pop`, a crossover, a mutation. */
  function Children(pop: seq<seq<int>>, pts: seq<Point>, key: Key, draws: seq<BreedDraws>)
    : (r: seq<Result<seq<int>, Fault>>)
    requires AllChromosomes(pop, pts)
    requires forall c :: 0 <= c < |draws| ==> ValidBreed(draws[c], |pop|, |Genes(pts)|)
    ensures |r| == |draws|
  {
    seq(|draws|, c requires 0 <= c < |draws| => Offspring(pop, pts, key, draws[c]))
  }

  /** The population a generation breeds around the elite. */
  function Breeding(pop: seq<seq<int>>, elite: seq<int>, pts: seq<Point>, key: Key, draws: seq<BreedDraws>)
    : Result<seq<seq<int>>, Fault>
    requires AllChromosomes(pop, pts)
    requires forall c :: 0 <= c < |draws| ==> ValidBreed(draws[c], |pop|, |Genes(pts)|)
  {
    Collect(elite, Children(pop, pts, key, draws))
  }

  /** Breeding succeeds exactly when every child does; otherwise it fails as one of them does. */
  lemma {:induction false} BreedingFails(pop: seq<seq<int>>, elite: seq<int>, pts: seq<Point>, key: Key, draws: seq<BreedDraws>)
    requires AllChromosomes(pop, pts)
    requires forall c :: 0 <= c < |draws| ==> ValidBreed(draws[c], |pop|, |Genes(pts)|)
    ensures var r := Breeding(pop, elite, pts, key, draws);
      && (r.Success? <==> forall c :: 0 <= c < |draws| ==> Offspring(pop, pts, key, draws[c]).Success?)
      && (r.Failure? ==> exists c :: 0 <= c < |draws| && Offspring(pop, pts, key, draws[c]) == Failure(r.error))
  {
    var children := Children(pop, pts, key, draws);
    CollectOutcome(elite, children);
    var r := Collect(elite, children);
    if r.Failure? {
      var c :| 0 <= c < |children| && children[c] == Failure(r.error) && forall e :: 0 <= e < c ==> children[e].Success?;
      assert children[c] == Offspring(pop, pts, key, draws[c]);
    } else {
      forall c | 0 <= c < |draws| ensures Offspring(pop, pts, key, draws[c]).Success? {
        assert children[c] == Offspring(pop, pts, key, draws[c]);
      }
    }
  }

  /** Collected children that are all chromosomes, after a chromosome elite, are all chromosomes. */
  lemma {:induction false} CollectKeepsChromosomes(elite: seq<int>, children: seq<Result<seq<int>, Fault>>, pts: seq<Point>)
    requires IsChromosome(elite, pts)
    requires forall c :: 0 <= c < |children| && children[c].Success? ==> IsChromosome(children[c].value, pts)
    ensures var r := Collect(elite, children);
      r.Success? ==> |r.value| == |children| + 1 && r.value[0] == elite && AllChromosomes(r.value, pts)
  {
    CollectOutcome(elite, children);
    var r := Collect(elite, children);
    if r.Success? {
      forall x | x in r.value ensures IsChromosome(x, pts) {
        var k :| 0 <= k < |r.value| && r.value[k] == x;
        if k > 0 {
          assert children[k - 1] == Success(x);
        }
      }
    }
  }

  /** A bred population is the elite followed by one child per draw. */
  lemma {:induction false} BreedingElite(pop: seq<seq<int>>, elite: seq<int>, pts: seq<Point>, key: Key, draws: seq<BreedDraws>)
    requires AllChromosomes(pop, pts)
    requires forall c :: 0 <= c < |draws| ==> ValidBreed(draws[c], |pop|, |Genes(pts)|)
    ensures var r := Breeding(pop, elite, pts, key, draws);
      r.Success? ==> |r.value| == |draws| + 1 && r.value[0] == elite
  {
    CollectOutcome(elite, Children(pop, pts, key, draws));
  }

  /** Every child bred from a population of chromosomes is a chromosome. */
  lemma {:induction false} ChildrenAreChromosomes(pop: seq<seq<int>>, pts: seq<Point>, key: Key, draws: seq<BreedDraws>)
    requires ValidGenes(pts) && AllChromosomes(pop, pts)
    requires forall c :: 0 <= c < |draws| ==> ValidBreed(draws[c], |pop|, |Genes(pts)|)
    ensures var children := Children(pop, pts, key, draws);
      forall c :: 0 <= c < |children| && children[c].Success? ==> IsChromosome(children[c].value, pts)
  {
    var children := Children(pop, pts, key, draws);
    forall c | 0 <= c < |children| && children[c].Success? ensures IsChromosome(children[c].value, pts) {
      OffspringIsChromosome(pop, pts, key, draws[c]);
    }
  }

  /** A bred population is as large as the old one, headed by the elite, all chromosomes. */
  lemma {:induction false} BreedingKeepsChromosomes(pop: seq<seq<int>>, elite: seq<int>, pts: seq<Point>, key: Key, draws: seq<BreedDraws>)
    requires ValidGenes(pts) && AllChromosomes(pop, pts) && IsChromosome(elite, pts)
    requires forall c :: 0 <= c < |draws| ==> ValidBreed(draws[c], |pop|, |Genes(pts)|)
    ensures var r := Breeding(pop, elite, pts, key, draws);
      r.Success? ==> |r.value| == |draws| + 1 && r.value[0] == elite && AllChromosomes(r.value, pts)
  {
    ChildrenAreChromosomes(pop, pts, key, draws);
    CollectKeepsChromosomes(elite, Children(pop, pts, key, draws), pts);
  }

  /**
   * How breeding the children of a population of `n` chromosomes of `d` genes turns out:
   * a population of one breeds nothing; a population of two cannot hold a tournament of
   * three; with three or more, a single gene leaves no two cut points, two or more always
   * breed, and no gene at all fails exactly when some mutation fires.
   */
  function BreedFault(n: nat, d: nat, draws: seq<BreedDraws>): Option<Fault> {
    if n <= 1 || (n >= 3 && d >= 2) then None
    else if n == 2 then Some(SampleLargerThanPopulation)
    else if d == 1 then Some(NoCutPoints)
    else if exists c :: 0 <= c < |draws| && draws[c].fire then Some(NoSwapPoints)
    else None
  }

  /** The generation's fault is the fault of any of its children that has one. */
  lemma {:induction false} BreedFaultOfChildren(n: nat, d: nat, draws: seq<BreedDraws>)
    requires n >= 1 && |draws| == n - 1
    ensures BreedFault(n, d, draws).None? <==> forall c :: 0 <= c < |draws| ==> ChildFault(n, d, draws[c].fire).None?
    ensures forall c :: 0 <= c < |draws| && ChildFault(n, d, draws[c].fire).Some? ==>
      ChildFault(n, d, draws[c].fire) == BreedFault(n, d, draws)
  {
    if n >= 2 {
      assert ChildFault(n, d, draws[0].fire) == ChildFault(n, d, false) || draws[0].fire;
    }
  }

  /** Each child's outcome, as `ChildFault` classifies it. */
  lemma {:induction false} ChildrenOutcome(pop: seq<seq<int>>, pts: seq<Point>, key: Key, draws: seq<BreedDraws>)
    requires AllChromosomes(pop, pts) && |pop| >= 1
    requires forall c :: 0 <= c < |draws| ==> ValidBreed(draws[c], |pop|, |Genes(pts)|)
    ensures forall c :: 0 <= c < |draws| ==>
      var r := Offspring(pop, pts, key, draws[c]); var f := ChildFault(|pop|, |Genes(pts)|, draws[c].fire);
      (r.Failure? <==> f.Some?) && (r.Failure? ==> r.error == f.value)
  {
    forall c | 0 <= c < |draws| ensures
      var r := Offspring(pop, pts, key, draws[c]); var f := ChildFault(|pop|, |Genes(pts)|, draws[c].fire);
      (r.Failure? <==> f.Some?) && (r.Failure? ==> r.error == f.value)
    {
      OffspringOutcome(pop, pts, key, draws[c]);
    }
  }

  /** Breeding fails exactly as `BreedFault` says. */
  lemma {:induction false} BreedingOutcome(pop: seq<seq<int>>, elite: seq<int>, pts: seq<Point>, key: Key, draws: seq<BreedDraws>)
    requires AllChromosomes(pop, pts) && |pop| >= 1 && |draws| == |pop| - 1
    requires forall c :: 0 <= c < |draws| ==> ValidBreed(draws[c], |pop|, |Genes(pts)|)
    ensures var r := Breeding(pop, elite, pts, key, draws); var f := BreedFault(|pop|, |Genes(pts)|, draws);
      && (r.Failure? <==> f.Some?)
      && (r.Failure? ==> r.error == f.value)
  {
    var n, d := |pop|, |Genes(pts)|;
    BreedingFails(pop, elite, pts, key, draws);
    ChildrenOutcome(pop, pts, key, draws);
    BreedFaultOfChildren(n, d, draws);
    var r := Breeding(pop, elite, pts, key, draws);
    if r.Failure? {
      var c :| 0 <= c < |draws| && Offspring(pop, pts, key, draws[c]) == Failure(r.error);
      assert ChildFault(n, d, draws[c].fire) == Some(r.error);
    } else {
      assert forall c :: 0 <= c < |draws| ==> ChildFault(n, d, draws[c].fire).None?;
    }
  }

  /** `while len(nova_populacao) < tam_populacao`: the elite followed by `|pop| - 1` children of `pop`. */
  method NextGeneration(pop: seq<seq<int>>, elite: seq<int>, pts: seq<Point>, key: Key, draws: seq<BreedDraws>)
    returns (r: Result<seq<seq<int>>, Fault>)
    requires AllChromosomes(pop, pts)
    requires |pop| >= 1 && |draws| == |pop| - 1
    requires forall c :: 0 <= c < |draws| ==> ValidBreed(draws[c], |pop|, |Genes(pts)|)
    ensures r == Breeding(pop, elite, pts, key, draws)
  {
    ghost var children := Children(pop, pts, key, draws);
    var next := [elite];
    assert children[..0] == [];
    while |next| < |pop|
      invariant 1 <= |next| <= |pop|
      invariant Collect(elite, children[..|next| - 1]) == Success(next)
      decreases |pop| - |next|
    {
      var c := |next| - 1;
      var child := Breed(pop, pts, key, draws[c]);
      assert child == children[c];
      CollectStep(elite, children, c);
      if child.Failure? {
        CollectAborts(elite, children, c + 1);
        return Failure(child.error);
      }
      next := next + [child.value];
    }
    assert children[..|children|] == children;
    return Success(next);
  }

  // ---------------------------------------------------------------------------
  // One generation

  /** Shuffles of the genes are chromosomes. */
  lemma {:induction false} ShuffledAreChromosomes(pop: seq<seq<int>>, pts: seq<Point>, shuffles: seq<seq<nat>>)
    requires |pop| == |shuffles|
    requires forall p :: 0 <= p < |shuffles| ==> ValidShuffle(shuffles[p], |Genes(pts)|)
    requires forall p :: 0 <= p < |pop| ==> pop[p] == Shuffled(Genes(pts), shuffles[p])
    ensures AllChromosomes(pop, pts)
  {
    forall c | c in pop ensures IsChromosome(c, pts) {
      var p :| 0 <= p < |pop| && pop[p] == c;
      ShuffledIsPermutation(Genes(pts), shuffles[p]);
    }
  }

  /** `[criar_individuo(ids_locais) for _ in range(tam_populacao)]`. */
  method InitialPopulation(pts: seq<Point>, shuffles: seq<seq<nat>>) returns (pop: seq<seq<int>>)
    requires forall p :: 0 <= p < |shuffles| ==> ValidShuffle(shuffles[p], |Genes(pts)|)
    ensures |pop| == |shuffles|
    ensures forall p :: 0 <= p < |pop| ==> pop[p] == Shuffled(Genes(pts), shuffles[p])
    ensures AllChromosomes(pop, pts)
  {
    pop := [];
    for p := 0 to |shuffles|
      invariant |pop| == p
      invariant forall q :: 0 <= q < p ==> pop[q] == Shuffled(Genes(pts), shuffles[q])
    {
      var c := CreateIndividual(Ids(pts), shuffles[p]);
      pop := pop + [c];
    }
    ShuffledAreChromosomes(pop, pts, shuffles);
  }

  /** `scores = [(ind, funcao_fitness_vrp(ind, ...)) for ind in populacao]`. */
  method ScorePopulation(pop: seq<seq<int>>, pts: seq<Point>, cap: int, dist: Distance, key: Key)
    returns (scores: seq<real>)
    requires Evaluable(pop, pts) && Keyed(key, pts, cap, dist)
    ensures scores == Costs(pop, key)
  {
    scores := [];
    for k := 0 to |pop|
      invariant |scores| == k
      invariant forall q :: 0 <= q < k ==> scores[q] == key(pop[q])
    {
      assert pop[k] in pop;
      var f := ScoreIndividual(pop[k], pts, cap, dist, key);
      scores := scores + [f];
    }
  }

  /** `funcao_fitness_vrp(ind, pontos, cap_veiculo)` for one individual: its key. */
  method ScoreIndividual(c: seq<int>, pts: seq<Point>, cap: int, dist: Distance, key: Key) returns (f: real)
    requires AllPresent(c, pts) && Depot in Ids(pts) && Keyed(key, pts, cap, dist)
    ensures f == key(c)
  {
    f := EvaluateFitness(c, pts, cap, 1.0, dist);
    assert f == Cost(c, pts, cap, dist);
  }

  /**
   * Steps 2 and 3 of a generation: the head of the stable sort by cost (the first individual
   * of least cost) replaces the best-ever record `prev` only when strictly cheaper. `None`
   * stands for the initial `float("inf")`, which the first generation always beats.
   */
  function NextRecord(pop: seq<seq<int>>, prev: Option<Scored>, key: Key): Scored
    requires |pop| >= 1
  {
    var costs := Costs(pop, key);
    var i := FirstMin(costs);
    if prev.None? || costs[i] < prev.value.fitness then Scored(pop[i], costs[i]) else prev.value
  }

  /**
   * The new record is the generation's cheapest individual with its cost, or the old record
   * kept; it costs no more than any individual of the generation nor than the old record; it
   * differs from the old record only when strictly cheaper; and a record already no dearer
   * than the whole generation is kept.
   */
  lemma {:induction false} NextRecordSpec(pop: seq<seq<int>>, prev: Option<Scored>, key: Key)
    requires |pop| >= 1
    ensures var rec := NextRecord(pop, prev, key);
      && ((rec.chromosome in pop && rec.fitness == key(rec.chromosome)) || prev == Some(rec))
      && (forall c :: c in pop ==> rec.fitness <= key(c))
      && (prev.Some? ==> rec.fitness <= prev.value.fitness)
      && (prev.Some? && rec != prev.value ==> rec.fitness < prev.value.fitness)
      && (prev.Some? && (forall c :: c in pop ==> prev.value.fitness <= key(c)) ==> rec == prev.value)
      && (prev.None? || rec != prev.value ==> rec.chromosome == pop[FirstMin(Costs(pop, key))])
  {
    var costs := Costs(pop, key);
    var i := FirstMin(costs);
    assert forall k :: 0 <= k < |pop| ==> costs[k] == key(pop[k]);
    assert pop[i] in pop;
  }

  /**
   * Steps 1 to 4 of a generation: cost the population, take the head of the stable sort,
   * update the best-ever record, and breed the next population around the record.
   */
  method Generation(pop: seq<seq<int>>, record: Option<Scored>, pts: seq<Point>, cap: int, dist: Distance,
                    key: Key, draws: seq<BreedDraws>) returns (next: Result<seq<seq<int>>, Fault>, best: Scored)
    requires Depot in Ids(pts) && Keyed(key, pts, cap, dist) && AllChromosomes(pop, pts)
    requires |pop| >= 1 && |draws| == |pop| - 1
    requires forall c :: 0 <= c < |draws| ==> ValidBreed(draws[c], |pop|, |Genes(pts)|)
    ensures best == NextRecord(pop, record, key)
    ensures next == Breeding(pop, best.chromosome, pts, key, draws)
  {
    ChromosomesEvaluable(pop, pts);
    var scores := ScorePopulation(pop, pts, cap, dist, key);
    var i := FirstMin(scores);
    if record.None? || scores[i] < record.value.fitness {
      best := Scored(pop[i], scores[i]);
    } else {
      best := record.value;
    }
    next := NextGeneration(pop, best.chromosome, pts, key, draws);
  }

  // ---------------------------------------------------------------------------
  // The generational loop

  /** The population a generation costs and the best-ever record after it. */
  datatype Round = Round(population: seq<seq<int>>, best: Scored)

  /** Each record of a trace is what its generation makes of the record before it. */
  ghost predicate RecordChain(rounds: seq<Round>, prev: Option<Scored>, key: Key) {
    && (forall k :: 0 <= k < |rounds| ==> |rounds[k].population| >= 1)
    && (rounds != [] ==> rounds[0].best == NextRecord(rounds[0].population, prev, key))
    && (forall k :: 0 < k < |rounds| ==> rounds[k].best == NextRecord(rounds[k].population, Some(rounds[k - 1].best), key))
  }

  /**
   * `rounds` is the trace of a run entered with population `pop0` and no record, whose last
   * round bred `pop` and left the record `record`; the empty trace has bred nothing.
   */
  ghost predicate Reaches(pop0: seq<seq<int>>, rounds: seq<Round>, pop: seq<seq<int>>, record: Option<Scored>,
                          pts: seq<Point>, key: Key, breeding: seq<seq<BreedDraws>>)
    requires ValidBreeding(breeding, |pop0|, |Genes(pts)|)
    decreases |rounds|, 1
  {
    if rounds == [] then pop == pop0 && record == None
    else Extends(pop0, rounds, pop, record, pts, key, breeding)
  }

  /**
   * A nonempty trace: all rounds but the last are a trace reaching the last round's
   * population; that generation costs it, makes its record of the record before it, and
   * breeds `pop` around the new record with the draws of its generation.
   */
  ghost predicate Extends(pop0: seq<seq<int>>, rounds: seq<Round>, pop: seq<seq<int>>, record: Option<Scored>,
                          pts: seq<Point>, key: Key, breeding: seq<seq<BreedDraws>>)
    requires ValidBreeding(breeding, |pop0|, |Genes(pts)|) && rounds != []
    decreases |rounds|, 0
  {
    var n := |rounds|;
    var last := rounds[n - 1];
    var before := if n == 1 then None else Some(rounds[n - 2].best);
    && n <= |breeding|
    && Reaches(pop0, rounds[..n - 1], last.population, before, pts, key, breeding)
    && |last.population| == |pop0| >= 1 && AllChromosomes(last.population, pts)
    && last.best == NextRecord(last.population, before, key)
    && record == Some(last.best)
    && Breeding(last.population, last.best.chromosome, pts, key, breeding[n - 1]) == Success(pop)
  }

  /** The last round of a nonempty trace: what `Extends` says of it. */
  lemma {:induction false} LastRound(pop0: seq<seq<int>>, rounds: seq<Round>, pop: seq<seq<int>>, record: Option<Scored>,
                                     pts: seq<Point>, key: Key, breeding: seq<seq<BreedDraws>>)
    requires ValidBreeding(breeding, |pop0|, |Genes(pts)|)
    requires Reaches(pop0, rounds, pop, record, pts, key, breeding) && rounds != []
    ensures var n := |rounds|; var last := rounds[n - 1];
      var before := if n == 1 then None else Some(rounds[n - 2].best);
      && n <= |breeding|
      && Reaches(pop0, rounds[..n - 1], last.population, before, pts, key, breeding)
      && |last.population| == |pop0| >= 1 && AllChromosomes(last.population, pts)
      && last.best == NextRecord(last.population, before, key)
      && record == Some(last.best)
      && Breeding(last.population, last.best.chromosome, pts, key, breeding[n - 1]) == Success(pop)
  {
    assert Extends(pop0, rounds, pop, record, pts, key, breeding);
  }


  /** Every round costs a population of `size` chromosomes and keeps a chromosome as its record. */
  ghost predicate Shaped(rounds: seq<Round>, size: nat, pts: seq<Point>) {
    forall g :: 0 <= g < |rounds| ==>
      && |rounds[g].population| == size && AllChromosomes(rounds[g].population, pts)
      && IsChromosome(rounds[g].best.chromosome, pts)
  }

  /**
   * Each round's population breeds, around that round's record and with the draws of its
   * generation, the next round's population, or `pop` after the last round.
   */
  ghost predicate Linked(rounds: seq<Round>, pop: seq<seq<int>>, size: nat, pts: seq<Point>, key: Key,
                         breeding: seq<seq<BreedDraws>>)
    requires ValidBreeding(breeding, size, |Genes(pts)|) && Shaped(rounds, size, pts) && |rounds| <= |breeding|
  {
    forall g :: 0 <= g < |rounds| ==>
      Breeding(rounds[g].population, rounds[g].best.chromosome, pts, key, breeding[g])
        == Success(if g + 1 < |rounds| then rounds[g + 1].population else pop)
  }

  /**
   * The trace of a run, stated round by round: the first round costs `pop0`, every round is
   * shaped as `Shaped` says, its record is the one its generation makes of the record before
   * it, the rounds are linked by breeding up to `pop`, and `record` is the last round's
   * record; the empty trace has bred nothing.
   */
  ghost predicate Trace(pop0: seq<seq<int>>, rounds: seq<Round>, pop: seq<seq<int>>, record: Option<Scored>,
                        pts: seq<Point>, key: Key, breeding: seq<seq<BreedDraws>>)
    requires ValidBreeding(breeding, |pop0|, |Genes(pts)|)
  {
    && |rounds| <= |breeding|
    && (rounds == [] ==> pop == pop0 && record == None)
    && (rounds != [] ==> rounds[0].population == pop0 && record == Some(rounds[|rounds| - 1].best))
    && Shaped(rounds, |pop0|, pts)
    && RecordChain(rounds, None, key)
    && Linked(rounds, pop, |pop0|, pts, key, breeding)
  }

  lemma {:induction false} ShapedExtends(rounds: seq<Round>, size: nat, pts: seq<Point>, r: Round)
    requires Shaped(rounds, size, pts)
    requires |r.population| == size && AllChromosomes(r.population, pts) && IsChromosome(r.best.chromosome, pts)
    ensures Shaped(rounds + [r], size, pts)
  {
    assert forall g :: 0 <= g < |rounds| ==> (rounds + [r])[g] == rounds[g];
  }

  lemma {:induction false} ChainedExtends(rounds: seq<Round>, key: Key, r: Round)
    requires RecordChain(rounds, None, key) && |r.population| >= 1
    requires r.best == NextRecord(r.population, if rounds == [] then None else Some(rounds[|rounds| - 1].best), key)
    ensures RecordChain(rounds + [r], None, key)
  {
    assert forall g :: 0 <= g < |rounds| ==> (rounds + [r])[g] == rounds[g];
  }

  lemma {:induction false} LinkedExtends(rounds: seq<Round>, pop: seq<seq<int>>, size: nat, pts: seq<Point>, key: Key,
                                         breeding: seq<seq<BreedDraws>>, b: Scored, next: seq<seq<int>>)
    requires ValidBreeding(breeding, size, |Genes(pts)|) && |rounds| < |breeding|
    requires Shaped(rounds, size, pts) && Linked(rounds, pop, size, pts, key, breeding)
    requires |pop| == size && AllChromosomes(pop, pts) && IsChromosome(b.chromosome, pts)
    requires Breeding(pop, b.chromosome, pts, key, breeding[|rounds|]) == Success(next)
    ensures Shaped(rounds + [Round(pop, b)], size, pts)
    ensures Linked(rounds + [Round(pop, b)], next, size, pts, key, breeding)
  {
    ShapedExtends(rounds, size, pts, Round(pop, b));
    var longer := rounds + [Round(pop, b)];
    forall g | 0 <= g < |longer| ensures
      Breeding(longer[g].population, longer[g].best.chromosome, pts, key, breeding[g])
        == Success(if g + 1 < |longer| then longer[g + 1].population else next)
    {
      LinkedExtendsAt(rounds, pop, size, pts, key, breeding, b, next, g);
    }
  }

  /** One link of the extended rounds: an old link, or the new round's breeding. */
  lemma {:induction false} LinkedExtendsAt(rounds: seq<Round>, pop: seq<seq<int>>, size: nat, pts: seq<Point>, key: Key,
                                           breeding: seq<seq<BreedDraws>>, b: Scored, next: seq<seq<int>>, g: nat)
    requires ValidBreeding(breeding, size, |Genes(pts)|) && |rounds| < |breeding| && g <= |rounds|
    requires Shaped(rounds, size, pts) && Linked(rounds, pop, size, pts, key, breeding)
    requires |pop| == size && AllChromosomes(pop, pts) && IsChromosome(b.chromosome, pts)
    requires Breeding(pop, b.chromosome, pts, key, breeding[|rounds|]) == Success(next)
    ensures Shaped(rounds + [Round(pop, b)], size, pts)
    ensures var longer := rounds + [Round(pop, b)];
      Breeding(longer[g].population, longer[g].best.chromosome, pts, key, breeding[g])
        == Success(if g + 1 < |longer| then longer[g + 1].population else next)
  {
    ShapedExtends(rounds, size, pts, Round(pop, b));
    var longer := rounds + [Round(pop, b)];
    if g < |rounds| {
      var target := if g + 1 < |rounds| then rounds[g + 1].population else pop;
      assert longer[g] == rounds[g];
      assert (if g + 1 < |longer| then longer[g + 1].population else next) == target by {
        if g + 1 < |rounds| {
          assert longer[g + 1] == rounds[g + 1];
        } else {
          assert longer[g + 1] == Round(pop, b);
        }
      }
      LinkAt(rounds, pop, size, pts, key, breeding, g);
    } else {
      assert longer[g] == Round(pop, b);
    }
  }

  /** The link `Linked` states for round `g`. */
  lemma LinkAt(rounds: seq<Round>, pop: seq<seq<int>>, size: nat, pts: seq<Point>, key: Key,
               breeding: seq<seq<BreedDraws>>, g: nat)
    requires ValidBreeding(breeding, size, |Genes(pts)|) && Shaped(rounds, size, pts) && |rounds| <= |breeding|
    requires Linked(rounds, pop, size, pts, key, breeding) && g < |rounds|
    ensures Breeding(rounds[g].population, rounds[g].best.chromosome, pts, key, breeding[g])
      == Success(if g + 1 < |rounds| then rounds[g + 1].population else pop)
  {
  }

  /** A nonempty sequence is its prefix followed by its last element. */
  lemma SplitLast<T>(s: seq<T>)
    requires s != []
    ensures s == s[..|s| - 1] + [s[|s| - 1]]
  {
  }

  /** A record made from chromosomes, and from a chromosome record if any, is a chromosome. */
  lemma {:induction false} RecordIsChromosome(pop: seq<seq<int>>, prev: Option<Scored>, key: Key, pts: seq<Point>)
    requires |pop| >= 1 && AllChromosomes(pop, pts)
    requires prev.Some? ==> IsChromosome(prev.value.chromosome, pts)
    ensures IsChromosome(NextRecord(pop, prev, key).chromosome, pts)
  {
    NextRecordSpec(pop, prev, key);
  }

  /**
   * A trace built generation by generation starts at `pop0`, ends at `record`, and each of
   * its rounds is shaped as `Shaped` says.
   */
  lemma {:induction false} ReachesShaped(pop0: seq<seq<int>>, rounds: seq<Round>, pop: seq<seq<int>>, record: Option<Scored>,
                                         pts: seq<Point>, key: Key, breeding: seq<seq<BreedDraws>>)
    requires ValidBreeding(breeding, |pop0|, |Genes(pts)|)
    requires Reaches(pop0, rounds, pop, record, pts, key, breeding)
    ensures |rounds| <= |breeding|
    ensures rounds == [] ==> pop == pop0 && record == None
    ensures rounds != [] ==> rounds[0].population == pop0 && record == Some(rounds[|rounds| - 1].best)
    ensures Shaped(rounds, |pop0|, pts)
    decreases |rounds|
  {
    if rounds != [] {
      var n := |rounds|;
      var init, last := rounds[..n - 1], rounds[n - 1];
      var before := if n == 1 then None else Some(rounds[n - 2].best);
      LastRound(pop0, rounds, pop, record, pts, key, breeding);
      ReachesShaped(pop0, init, last.population, before, pts, key, breeding);
      if n > 1 {
        assert init[0] == rounds[0] && init[n - 2] == rounds[n - 2];
      }
      RecordIsChromosome(last.population, before, key, pts);
      ShapedExtends(init, |pop0|, pts, last);
      SplitLast(rounds);
    }
  }

  /** Along a trace built generation by generation, each record is made of the one before. */
  lemma {:induction false} ReachesChained(pop0: seq<seq<int>>, rounds: seq<Round>, pop: seq<seq<int>>, record: Option<Scored>,
                                          pts: seq<Point>, key: Key, breeding: seq<seq<BreedDraws>>)
    requires ValidBreeding(breeding, |pop0|, |Genes(pts)|)
    requires Reaches(pop0, rounds, pop, record, pts, key, breeding)
    ensures RecordChain(rounds, None, key)
    decreases |rounds|
  {
    if rounds != [] {
      var n := |rounds|;
      var init, last := rounds[..n - 1], rounds[n - 1];
      var before := if n == 1 then None else Some(rounds[n - 2].best);
      LastRound(pop0, rounds, pop, record, pts, key, breeding);
      ReachesChained(pop0, init, last.population, before, pts, key, breeding);
      if n > 1 {
        assert init[n - 2] == rounds[n - 2];
      }
      ChainedExtends(init, key, last);
      SplitLast(rounds);
    }
  }

  /** Along a trace built generation by generation, each round breeds the next population. */
  lemma {:induction false} ReachesLinked(pop0: seq<seq<int>>, rounds: seq<Round>, pop: seq<seq<int>>, record: Option<Scored>,
                                         pts: seq<Point>, key: Key, breeding: seq<seq<BreedDraws>>)
    requires ValidBreeding(breeding, |pop0|, |Genes(pts)|)
    requires Reaches(pop0, rounds, pop, record, pts, key, breeding)
    requires Shaped(rounds, |pop0|, pts) && |rounds| <= |breeding|
    ensures Linked(rounds, pop, |pop0|, pts, key, breeding)
    decreases |rounds|
  {
    if rounds != [] {
      var n := |rounds|;
      var init, last := rounds[..n - 1], rounds[n - 1];
      var before := if n == 1 then None else Some(rounds[n - 2].best);
      LastRound(pop0, rounds, pop, record, pts, key, breeding);
      ReachesShaped(pop0, init, last.population, before, pts, key, breeding);
      ReachesLinked(pop0, init, last.population, before, pts, key, breeding);
      LinkedExtends(init, last.population, |pop0|, pts, key, breeding, last.best, pop);
      SplitLast(rounds);
    }
  }

  /** A trace built generation by generation is a trace round by round. */
  lemma {:induction false} ReachesTrace(pop0: seq<seq<int>>, rounds: seq<Round>, pop: seq<seq<int>>, record: Option<Scored>,
                                        pts: seq<Point>, key: Key, breeding: seq<seq<BreedDraws>>)
    requires ValidBreeding(breeding, |pop0|, |Genes(pts)|)
    requires Reaches(pop0, rounds, pop, record, pts, key, breeding)
    ensures Trace(pop0, rounds, pop, record, pts, key, breeding)
  {
    ReachesShaped(pop0, rounds, pop, record, pts, key, breeding);
    ReachesChained(pop0, rounds, pop, record, pts, key, breeding);
    ReachesLinked(pop0, rounds, pop, record, pts, key, breeding);
  }

  /** The fault of the first generation from generation `from` on whose breeding fails, if any. */
  function FirstFault(n: nat, d: nat, breeding: seq<seq<BreedDraws>>, from: nat): Option<Fault>
    decreases |breeding| - from
  {
    if from >= |breeding| then None
    else if BreedFault(n, d, breeding[from]).Some? then BreedFault(n, d, breeding[from])
    else FirstFault(n, d, breeding, from + 1)
  }

  /**
   * `FirstFault` finds no fault exactly when no generation's breeding from `from` on fails,
   * and otherwise the fault of such a generation after which all earlier ones succeed.
   */
  lemma {:induction false} FirstFaultSpec(n: nat, d: nat, breeding: seq<seq<BreedDraws>>, from: nat)
    ensures FirstFault(n, d, breeding, from).None? <==>
      forall g :: from <= g < |breeding| ==> BreedFault(n, d, breeding[g]).None?
    ensures FirstFault(n, d, breeding, from).Some? ==>
      exists g :: from <= g < |breeding| && BreedFault(n, d, breeding[g]) == FirstFault(n, d, breeding, from)
        && forall h :: from <= h < g ==> BreedFault(n, d, breeding[h]).None?
    decreases |breeding| - from
  {
    if from < |breeding| {
      FirstFaultSpec(n, d, breeding, from + 1);
    }
  }

  /** Breeding generation `g` fails with the first fault from `g` on, or leaves it to the later ones. */
  lemma {:induction false} StepFault(pop: seq<seq<int>>, elite: seq<int>, pts: seq<Point>, key: Key,
                                     breeding: seq<seq<BreedDraws>>, g: nat)
    requires ValidBreeding(breeding, |pop|, |Genes(pts)|) && g < |breeding|
    requires AllChromosomes(pop, pts) && |pop| >= 1
    ensures var r := Breeding(pop, elite, pts, key, breeding[g]); var n, d := |pop|, |Genes(pts)|;
      && (r.Failure? ==> FirstFault(n, d, breeding, g) == Some(r.error))
      && (r.Success? ==> FirstFault(n, d, breeding, g) == FirstFault(n, d, breeding, g + 1))
  {
    BreedingOutcome(pop, elite, pts, key, breeding[g]);
  }

  /** The draws of generation `g`: one breeding per child after the elite. */
  lemma GenerationDraws(breeding: seq<seq<BreedDraws>>, n: nat, d: nat, g: nat)
    requires ValidBreeding(breeding, n, d) && g < |breeding| && n >= 1
    ensures |breeding[g]| == n - 1 && forall c :: 0 <= c < |breeding[g]| ==> ValidBreed(breeding[g][c], n, d)
  {
  }

  /** The record a generation makes and the population it breeds are chromosomes. */
  lemma {:induction false} StepShapes(pop: seq<seq<int>>, record: Option<Scored>, pts: seq<Point>, key: Key,
                                      draws: seq<BreedDraws>, b: Scored, next: seq<seq<int>>)
    requires ValidGenes(pts) && AllChromosomes(pop, pts) && |pop| >= 1
    requires record.Some? ==> IsChromosome(record.value.chromosome, pts)
    requires forall c :: 0 <= c < |draws| ==> ValidBreed(draws[c], |pop|, |Genes(pts)|)
    requires b == NextRecord(pop, record, key)
    requires Breeding(pop, b.chromosome, pts, key, draws) == Success(next)
    ensures IsChromosome(b.chromosome, pts) && AllChromosomes(next, pts) && |next| == |draws| + 1
  {
    RecordIsChromosome(pop, record, key, pts);
    BreedingKeepsChromosomes(pop, b.chromosome, pts, key, draws);
  }

  /** A generation whose breeding succeeds extends the trace by its round. */
  lemma {:induction false} StepExtends(pop0: seq<seq<int>>, rounds: seq<Round>, pop: seq<seq<int>>, record: Option<Scored>,
                                       pts: seq<Point>, key: Key, breeding: seq<seq<BreedDraws>>,
                                       b: Scored, next: seq<seq<int>>)
    requires ValidBreeding(breeding, |pop0|, |Genes(pts)|) && |rounds| < |breeding|
    requires AllChromosomes(pop, pts) && |pop| == |pop0| >= 1
    requires Reaches(pop0, rounds, pop, record, pts, key, breeding)
    requires b == NextRecord(pop, record, key)
    requires Breeding(pop, b.chromosome, pts, key, breeding[|rounds|]) == Success(next)
    ensures Reaches(pop0, rounds + [Round(pop, b)], next, Some(b), pts, key, breeding)
  {
    var g, longer := |rounds|, rounds + [Round(pop, b)];
    assert longer[..g] == rounds && longer[g] == Round(pop, b);
    if g > 0 {
      LastRound(pop0, rounds, pop, record, pts, key, breeding);
      assert longer[g - 1] == rounds[g - 1];
    }
    var before := if g == 0 then None else Some(longer[g - 1].best);
    assert before == record;
    assert Reaches(pop0, longer[..g], pop, before, pts, key, breeding);
    assert Extends(pop0, longer, next, Some(b), pts, key, breeding);
  }

  /**
   * One more generation of a trace of `g` rounds: breeding fails exactly when the first
   * fault from generation `g` on is this generation's; otherwise the trace extends by one
   * round, the new population is one of chromosomes of the same size, and the record is a
   * chromosome.
   */
  lemma {:induction false} GenerationStep(pop0: seq<seq<int>>, rounds: seq<Round>, pop: seq<seq<int>>, record: Option<Scored>,
                       pts: seq<Point>, key: Key, breeding: seq<seq<BreedDraws>>,
                       b: Scored, next: Result<seq<seq<int>>, Fault>)
    requires ValidGenes(pts) && ValidBreeding(breeding, |pop0|, |Genes(pts)|) && |rounds| < |breeding|
    requires AllChromosomes(pop, pts) && |pop| == |pop0| >= 1
    requires record.Some? ==> IsChromosome(record.value.chromosome, pts)
    requires Reaches(pop0, rounds, pop, record, pts, key, breeding)
    requires b == NextRecord(pop, record, key)
    requires next == Breeding(pop, b.chromosome, pts, key, breeding[|rounds|])
    ensures var n, d, g := |pop0|, |Genes(pts)|, |rounds|;
      && (next.Failure? ==> FirstFault(n, d, breeding, g) == Some(next.error))
      && (next.Success? ==>
            && FirstFault(n, d, breeding, g) == FirstFault(n, d, breeding, g + 1)
            && AllChromosomes(next.value, pts) && |next.value| == |pop0| && IsChromosome(b.chromosome, pts)
            && Reaches(pop0, rounds + [Round(pop, b)], next.value, Some(b), pts, key, breeding))
  {
    GenerationDraws(breeding, |pop0|, |Genes(pts)|, |rounds|);
    StepFault(pop, b.chromosome, pts, key, breeding, |rounds|);
    if next.Success? {
      StepShapes(pop, record, pts, key, breeding[|rounds|], b, next.value);
      StepExtends(pop0, rounds, pop, record, pts, key, breeding, b, next.value);
    }
  }

  /**
   * `for g in range(geracoes)` over an initial population `pop0`, one list of breeding draws
   * per generation. Ghost outputs: the rounds of the run and the population its last
   * generation bred.
   */
  method Evolve(pop0: seq<seq<int>>, pts: seq<Point>, cap: int, dist: Distance, key: Key,
                breeding: seq<seq<BreedDraws>>)
    returns (best: Result<Scored, Fault>, history: seq<real>, ghost rounds: seq<Round>, ghost last: seq<seq<int>>)
    requires ValidGenes(pts) && Depot in Ids(pts) && Keyed(key, pts, cap, dist) && AllChromosomes(pop0, pts)
    requires ValidBreeding(breeding, |pop0|, |Genes(pts)|)
    ensures breeding == [] ==> best == Failure(NoBestChromosome)
    ensures breeding != [] && |pop0| == 0 ==> best == Failure(EmptyPopulation)
    ensures breeding != [] && |pop0| >= 1 ==>
      && (best.Success? <==> FirstFault(|pop0|, |Genes(pts)|, breeding, 0).None?)
      && (best.Failure? ==> best.error == FirstFault(|pop0|, |Genes(pts)|, breeding, 0).value)
    ensures best.Success? ==>
      && |rounds| == |history| == |breeding|
      && Reaches(pop0, rounds, last, Some(best.value), pts, key, breeding)
      && forall g :: 0 <= g < |history| ==> history[g] == rounds[g].best.fitness
  {
    if breeding == [] {
      return Failure(NoBestChromosome), [], [], pop0;
    }
    if |pop0| == 0 {
      // `scores[0]` on an empty list.
      return Failure(EmptyPopulation), [], [], pop0;
    }
    best, history, rounds, last := Generations(pop0, pts, cap, dist, key, breeding);
  }

  /**
   * What a run of all generations leaves: it fails exactly with the first fault of any
   * generation's breeding; otherwise its rounds are a trace of the whole run and the history
   * lists each round's record cost.
   */
  ghost predicate Ran(pop0: seq<seq<int>>, pts: seq<Point>, key: Key, breeding: seq<seq<BreedDraws>>,
                      best: Result<Scored, Fault>, history: seq<real>, rounds: seq<Round>, last: seq<seq<int>>)
    requires ValidBreeding(breeding, |pop0|, |Genes(pts)|)
  {
    && (best.Success? <==> FirstFault(|pop0|, |Genes(pts)|, breeding, 0).None?)
    && (best.Failure? ==> best.error == FirstFault(|pop0|, |Genes(pts)|, breeding, 0).value)
    && (best.Success? ==>
          && |rounds| == |history| == |breeding|
          && Reaches(pop0, rounds, last, Some(best.value), pts, key, breeding)
          && forall g :: 0 <= g < |history| ==> history[g] == rounds[g].best.fitness)
  }

  /** The generations of a run with at least one generation and a nonempty population. */
  method Generations(pop0: seq<seq<int>>, pts: seq<Point>, cap: int, dist: Distance, key: Key,
                     breeding: seq<seq<BreedDraws>>)
    returns (best: Result<Scored, Fault>, history: seq<real>, ghost rounds: seq<Round>, ghost last: seq<seq<int>>)
    requires ValidGenes(pts) && Depot in Ids(pts) && Keyed(key, pts, cap, dist) && AllChromosomes(pop0, pts)
    requires ValidBreeding(breeding, |pop0|, |Genes(pts)|) && breeding != [] && |pop0| >= 1
    ensures Ran(pop0, pts, key, breeding, best, history, rounds, last)
  {
    history, rounds, last := [], [], pop0;
    var pop := pop0;
    var record: Option<Scored> := None;
    ghost var n, d := |pop0|, |Genes(pts)|;
    for g := 0 to |breeding|
      invariant AllChromosomes(pop, pts) && |pop| == n
      invariant record.Some? ==> IsChromosome(record.value.chromosome, pts)
      invariant |history| == |rounds| == g
      invariant forall h :: 0 <= h < g ==> history[h] == rounds[h].best.fitness
      invariant Reaches(pop0, rounds, pop, record, pts, key, breeding)
      invariant FirstFault(n, d, breeding, 0) == FirstFault(n, d, breeding, g)
    {
      GenerationDraws(breeding, n, d, g);
      var next, b := Generation(pop, record, pts, cap, dist, key, breeding[g]);
      GenerationStep(pop0, rounds, pop, record, pts, key, breeding, b, next);
      HistoryStep(history, rounds, Round(pop, b));
      if next.Failure? {
        RanFails(pop0, pts, key, breeding, next.error, history + [b.fitness], rounds + [Round(pop, b)], pop);
        return Failure(next.error), history + [b.fitness], rounds + [Round(pop, b)], pop;
      }
      history, rounds := history + [b.fitness], rounds + [Round(pop, b)];
      record := Some(b);
      pop := next.value;
    }
    best, last := Success(record.value), pop;
    RanSucceeds(pop0, pts, key, breeding, best.value, history, rounds, last);
  }

  /** The history grows by the record cost of the round the trace grows by. */
  lemma HistoryStep(history: seq<real>, rounds: seq<Round>, r: Round)
    requires |history| == |rounds|
    requires forall h :: 0 <= h < |history| ==> history[h] == rounds[h].best.fitness
    ensures var longer := history + [r.best.fitness]; var more := rounds + [r];
      forall h :: 0 <= h < |longer| ==> longer[h] == more[h].best.fitness
  {
  }

  /** A run stopped by the first fault of its generations has run as `Ran` says. */
  lemma RanFails(pop0: seq<seq<int>>, pts: seq<Point>, key: Key, breeding: seq<seq<BreedDraws>>,
                 e: Fault, history: seq<real>, rounds: seq<Round>, last: seq<seq<int>>)
    requires ValidBreeding(breeding, |pop0|, |Genes(pts)|)
    requires FirstFault(|pop0|, |Genes(pts)|, breeding, 0) == Some(e)
    ensures Ran(pop0, pts, key, breeding, Failure(e), history, rounds, last)
  {
  }

  /** A run without fault whose rounds trace all its generations has run as `Ran` says. */
  lemma RanSucceeds(pop0: seq<seq<int>>, pts: seq<Point>, key: Key, breeding: seq<seq<BreedDraws>>,
                    b: Scored, history: seq<real>, rounds: seq<Round>, last: seq<seq<int>>)
    requires ValidBreeding(breeding, |pop0|, |Genes(pts)|)
    requires FirstFault(|pop0|, |Genes(pts)|, breeding, 0) == None
    requires |rounds| == |history| == |breeding|
    requires Reaches(pop0, rounds, last, Some(b), pts, key, breeding)
    requires forall h :: 0 <= h < |history| ==> history[h] == rounds[h].best.fitness
    ensures Ran(pop0, pts, key, breeding, Success(b), history, rounds, last)
  {
  }

  /** The record of round `k` carries the true cost of its chromosome. */
  lemma {:induction false} ChainedRecord(rounds: seq<Round>, prev: Option<Scored>, key: Key, k: nat)
    requires RecordChain(rounds, prev, key) && k < |rounds|
    requires prev.Some? ==> key(prev.value.chromosome) == prev.value.fitness
    ensures key(rounds[k].best.chromosome) == rounds[k].best.fitness
    decreases k
  {
    if k > 0 {
      ChainedRecord(rounds, prev, key, k - 1);
    }
    NextRecordSpec(rounds[k].population, if k == 0 then prev else Some(rounds[k - 1].best), key);
  }

  /**
   * Along chained rounds whose first record `prev` carries its true cost: every record
   * carries its true cost, the recorded cost never rises, and a record changes only to a
   * strictly cheaper one.
   */
  lemma {:induction false} ChainedRecords(rounds: seq<Round>, prev: Option<Scored>, key: Key)
    requires RecordChain(rounds, prev, key)
    requires prev.Some? ==> key(prev.value.chromosome) == prev.value.fitness
    ensures forall k :: 0 <= k < |rounds| ==> key(rounds[k].best.chromosome) == rounds[k].best.fitness
    ensures forall k :: 0 < k < |rounds| ==> rounds[k].best.fitness <= rounds[k - 1].best.fitness
    ensures forall k :: 0 < k < |rounds| ==>
      rounds[k].best == rounds[k - 1].best || rounds[k].best.fitness < rounds[k - 1].best.fitness
  {
    forall k | 0 <= k < |rounds| ensures
      && key(rounds[k].best.chromosome) == rounds[k].best.fitness
      && (k > 0 ==> rounds[k].best.fitness <= rounds[k - 1].best.fitness)
      && (k > 0 ==> rounds[k].best == rounds[k - 1].best || rounds[k].best.fitness < rounds[k - 1].best.fitness)
    {
      ChainedRecord(rounds, prev, key, k);
      NextRecordSpec(rounds[k].population, if k == 0 then prev else Some(rounds[k - 1].best), key);
    }
  }

  /** The record after round `k` costs no more than an individual `c` costed in round `j <= k`. */
  lemma {:induction false} ChainedBelow(rounds: seq<Round>, prev: Option<Scored>, key: Key, j: nat, k: nat, c: seq<int>)
    requires RecordChain(rounds, prev, key) && j <= k < |rounds| && c in rounds[j].population
    ensures rounds[k].best.fitness <= key(c)
    decreases k - j
  {
    NextRecordSpec(rounds[k].population, if k == 0 then prev else Some(rounds[k - 1].best), key);
    if j < k {
      ChainedBelow(rounds, prev, key, j, k - 1, c);
    }
  }

  /** The record after round `k` costs no more than any individual costed in rounds up to `k`. */
  lemma {:induction false} ChainedBest(rounds: seq<Round>, prev: Option<Scored>, key: Key)
    requires RecordChain(rounds, prev, key)
    ensures forall k, j, c :: 0 <= j <= k < |rounds| && c in rounds[j].population ==> rounds[k].best.fitness <= key(c)
  {
    forall k, j, c | 0 <= j <= k < |rounds| && c in rounds[j].population ensures rounds[k].best.fitness <= key(c) {
      ChainedBelow(rounds, prev, key, j, k, c);
    }
  }

  /**
   * The populations of a run of `size` individuals: each one of chromosomes, each record a
   * chromosome, and each population breeding the next with the draws of its generation,
   * the next one headed by the record of its generation.
   */
  ghost predicate Populations(rounds: seq<Round>, size: nat, pts: seq<Point>, key: Key, breeding: seq<seq<BreedDraws>>)
    requires ValidBreeding(breeding, size, |Genes(pts)|)
  {
    && |rounds| <= |breeding|
    && (forall g :: 0 <= g < |rounds| ==>
          AllChromosomes(rounds[g].population, pts) && |rounds[g].population| == size
          && IsChromosome(rounds[g].best.chromosome, pts))
    && (forall g :: 0 <= g < |rounds| - 1 ==>
          && Breeding(rounds[g].population, rounds[g].best.chromosome, pts, key, breeding[g])
               == Success(rounds[g + 1].population)
          && rounds[g + 1].population[0] == rounds[g].best.chromosome)
  }

  /** Along a trace, each bred population is headed by the record it was bred around. */
  lemma {:induction false} TracePopulations(pop0: seq<seq<int>>, rounds: seq<Round>, pop: seq<seq<int>>, record: Option<Scored>,
                                            pts: seq<Point>, key: Key, breeding: seq<seq<BreedDraws>>)
    requires ValidBreeding(breeding, |pop0|, |Genes(pts)|)
    requires Trace(pop0, rounds, pop, record, pts, key, breeding)
    ensures Populations(rounds, |pop0|, pts, key, breeding)
  {
    forall g | 0 <= g < |rounds| - 1 ensures rounds[g + 1].population[0] == rounds[g].best.chromosome {
      BreedingElite(rounds[g].population, rounds[g].best.chromosome, pts, key, breeding[g]);
    }
  }

  /**
   * The records of a run: each what its generation makes of the one before, at the true cost
   * of its chromosome, never dearer than the one before and different from it only when
   * strictly cheaper, and no dearer than any individual costed up to its generation.
   */
  ghost predicate Records(rounds: seq<Round>, key: Key) {
    && RecordChain(rounds, None, key)
    && (forall g :: 0 <= g < |rounds| ==> key(rounds[g].best.chromosome) == rounds[g].best.fitness)
    && (forall g :: 0 < g < |rounds| ==> rounds[g].best.fitness <= rounds[g - 1].best.fitness)
    && (forall g :: 0 < g < |rounds| ==>
          rounds[g].best == rounds[g - 1].best || rounds[g].best.fitness < rounds[g - 1].best.fitness)
    && (forall g, h, c :: 0 <= h <= g < |rounds| && c in rounds[h].population ==> rounds[g].best.fitness <= key(c))
  }

  /** Rounds chained from no record keep records as `Records` describes. */
  lemma {:induction false} ChainedKeepsRecords(rounds: seq<Round>, key: Key)
    requires RecordChain(rounds, None, key)
    ensures Records(rounds, key)
  {
    ChainedRecords(rounds, None, key);
    ChainedBest(rounds, None, key);
  }

  /** `[aplicar_2opt(r, dict_pontos) for r in rotas_finais]`. */
  method RefineAll(routes: seq<Route>, table: Table, dist: Distance, passLimit: nat)
    returns (refined: seq<Route>, ghost converged: seq<bool>)
    requires forall k :: 0 <= k < |routes| ==> Known(routes[k], table)
    ensures |refined| == |routes| == |converged|
    ensures forall k :: 0 <= k < |routes| ==> (refined[k], converged[k]) == Refined(routes[k], table, dist, passLimit)
    ensures forall k :: 0 <= k < |routes| ==> Refinement(routes[k], refined[k], converged[k], table, dist, passLimit)
  {
    refined, converged := [], [];
    for k := 0 to |routes|
      invariant |refined| == |converged| == k
      invariant forall m :: 0 <= m < k ==> (refined[m], converged[m]) == Refined(routes[m], table, dist, passLimit)
      invariant forall m :: 0 <= m < k ==> Refinement(routes[m], refined[m], converged[m], table, dist, passLimit)
    {
      var r, done := Refine(routes[k], table, dist, passLimit);
      refined, converged := refined + [r], converged + [done];
    }
  }

  /** Every stop of a decoded chromosome has an entry in `dict_pontos`. */
  lemma {:induction false} SplitRoutesKnown(c: seq<int>, pts: seq<Point>, cap: int)
    requires AllPresent(c, pts) && Depot in Ids(pts)
    ensures forall k :: 0 <= k < |Split(c, pts, cap)| ==> Known(Split(c, pts, cap)[k], IndexById(pts))
  {
    SplitVisitsOnly(c, pts, cap);
    var rs := Split(c, pts, cap);
    forall k | 0 <= k < |rs| ensures Known(rs[k], IndexById(pts)) {
      assert rs[k] in rs;
    }
  }

  /**
   * What `FirstFault` makes of a run over a population of `n` chromosomes of `d` genes: a
   * population of two fails at its first tournament, a single gene at its first crossover;
   * a population of one or of three or more with two or more genes never fails; and with no
   * gene, a run fails, and then for want of swap positions, exactly when a mutation fires.
   */
  lemma {:induction false} FaultsOfRun(n: nat, d: nat, breeding: seq<seq<BreedDraws>>, from: nat)
    ensures from < |breeding| && n == 2 ==> FirstFault(n, d, breeding, from) == Some(SampleLargerThanPopulation)
    ensures from < |breeding| && n >= 3 && d == 1 ==> FirstFault(n, d, breeding, from) == Some(NoCutPoints)
    ensures n == 1 || (n >= 3 && d >= 2) ==> FirstFault(n, d, breeding, from) == None
    ensures n >= 3 && d == 0 ==>
      && (FirstFault(n, d, breeding, from).None? <==>
            forall g, c :: from <= g < |breeding| && 0 <= c < |breeding[g]| ==> !breeding[g][c].fire)
      && FirstFault(n, d, breeding, from) in {None, Some(NoSwapPoints)}
    decreases |breeding| - from
  {
    if from < |breeding| {
      FaultsOfRun(n, d, breeding, from + 1);
    }
  }

  /**
   * `executar_ga`: the initial population, the generations, then the best-ever chromosome
   * decoded into routes and each route refined by 2-opt. Ghost outputs: the rounds of the
   * run (the population costed at each generation and the record after it) and whether the
   * 2-opt passes of each route converged.
   */
  method RunGA(pts: seq<Point>, cap: int, generations: int, popSize: int, dist: Distance, passLimit: nat, draws: GaDraws)
    returns (outcome: Result<GaOutput, Fault>, ghost key: Key, ghost rounds: seq<Round>, ghost converged: seq<bool>)
    requires WellFormedIds(pts) && Depot in Ids(pts) && ValidDraws(draws, generations, popSize, |Genes(pts)|)
    ensures Keyed(key, pts, cap, dist)
    // How the run fails (algoritmo_genetico.py): no generation leaves `melhor_global` as None
    // for the split at line 160; an empty population has no `scores[0]` at line 142;
    // tournament sampling at line 153 needs three individuals; crossover and mutation at
    // line 155 need cut and swap points.
    ensures generations <= 0 ==> outcome == Failure(NoBestChromosome)
    ensures generations >= 1 && popSize <= 0 ==> outcome == Failure(EmptyPopulation)
    ensures generations >= 1 && popSize == 2 ==> outcome == Failure(SampleLargerThanPopulation)
    ensures generations >= 1 && popSize >= 3 && |Genes(pts)| == 1 ==> outcome == Failure(NoCutPoints)
    ensures generations >= 1 && popSize >= 3 && |Genes(pts)| == 0 ==>
      (outcome.Success? <==> forall g, c :: 0 <= g < |draws.breeding| && 0 <= c < |draws.breeding[g]| ==> !draws.breeding[g][c].fire)
    ensures generations >= 1 && popSize >= 3 && |Genes(pts)| == 0 && outcome.Failure? ==> outcome.error == NoSwapPoints
    ensures generations >= 1 && (popSize == 1 || (popSize >= 3 && |Genes(pts)| >= 2)) ==> outcome.Success?
    // The populations and the records: line 131 builds the first population from the
    // shuffles, lines 137-156 build each next one from the elite and the children, lines
    // 142-144 keep the best so far and line 146 records its fitness each generation.
    ensures outcome.Success? ==>
      && |outcome.value.history| == |rounds| == generations
      && |rounds[0].population| == popSize
      && (forall p :: 0 <= p < popSize ==> rounds[0].population[p] == Shuffled(Genes(pts), draws.shuffles[p]))
    ensures outcome.Success? ==> Populations(rounds, popSize, pts, key, draws.breeding)
    ensures outcome.Success? ==> Records(rounds, key)
    ensures outcome.Success? ==> forall g :: 0 <= g < generations ==> outcome.value.history[g] == rounds[g].best.fitness
    // The routes: line 160 splits the best chromosome by capacity and line 161 refines
    // every route with 2-opt.
    ensures outcome.Success? ==> AllPresent(rounds[generations - 1].best.chromosome, pts)
    ensures outcome.Success? ==>
      var planned := Split(rounds[generations - 1].best.chromosome, pts, cap);
      && |outcome.value.routes| == |planned| == |converged|
      && (forall k :: 0 <= k < |planned| ==> Known(planned[k], IndexById(pts)))
      && (forall k :: 0 <= k < |planned| ==>
           (outcome.value.routes[k], converged[k]) == Refined(planned[k], IndexById(pts), dist, passLimit))
      && forall k :: 0 <= k < |planned| ==>
           Refinement(planned[k], outcome.value.routes[k], converged[k], IndexById(pts), dist, passLimit)
  {
    GenesOfWellFormedIds(pts);
    var table := IndexById(pts);
    var pop0 := InitialPopulation(pts, draws.shuffles);
    var fitness := FitnessKey(pts, cap, dist);
    key := fitness;
    var best, history;
    ghost var last;
    best, history, rounds, last := Evolve(pop0, pts, cap, dist, fitness, draws.breeding);
    converged := [];
    FaultsOfRun(|pop0|, |Genes(pts)|, draws.breeding, 0);
    if best.Failure? {
      return Failure(best.error), key, rounds, converged;
    }
    ReachesTrace(pop0, rounds, last, Some(best.value), pts, key, draws.breeding);
    TracePopulations(pop0, rounds, last, Some(best.value), pts, key, draws.breeding);
    ChainedKeepsRecords(rounds, key);
    var chosen := best.value.chromosome;
    ChromosomePresent(chosen, pts);
    var planned := SplitRoutes(chosen, pts, cap);
    SplitRoutesKnown(chosen, pts, cap);
    var routes;
    routes, converged := RefineAll(planned, table, dist, passLimit);
    outcome := Success(GaOutput(routes, history));
  }
}
