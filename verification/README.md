# A verified model of the CVRP genetic-algorithm solver

This project models the optimisation engine in `algoritmo_genetico.py`. It is a genetic
algorithm for the capacitated vehicle-routing problem: it finds delivery routes that start
and end at a depot, fit within a vehicle capacity and keep the travelled distance short.
The model covers these pieces:

- **RouteSplitter** (`route_splitter.dfy`) — `separar_rotas_por_capacidade`. A greedy
  left-to-right decoder cuts a chromosome (an ordering of delivery ids) into routes that
  start and end at the depot. The loop with its running load is a method. It is proved
  equal to a function over the loop's state. Lemmas then show the result is an
  order-preserving partition of the chromosome, cut by the capacity rule.
- **FitnessEvaluator** (`fitness.dfy`) — `funcao_fitness_vrp`. Each route is walked from
  the depot. A leg into a critical point counts at half its length. The total is scaled by
  the cost per unit of distance. Both nested accumulating loops are methods proved against
  a recursive specification.
- **Population** (`population.dfy`) — `criar_individuo`. It drops the depot id and runs
  `random.shuffle`, which is a Fisher-Yates loop; its draws are a parameter.
- **Selection** (`selection.dfy`) — `selecao_torneio`. It draws `k` distinct competitors,
  whose positions are a parameter, and returns the first of least cost, as `min` does.
- **Crossover** (`crossover.dfy`) — `crossover`, an order crossover. The `-1` placeholder
  and the wrapping `pos_atual` cursor are kept. The two drawn cut positions are parameters.
- **Mutation** (`mutation.dfy`) — `mutacao`, an in-place swap. The coin flip and the two
  drawn positions are parameters.
- **TwoOpt** (`two_opt.dfy`) — `aplicar_2opt`. Segment reversal works in place on an
  array. Passes repeat until one finds no improving pair or `passLimit` passes have run.
  The functions `RowScan`, `PassScan` and `Refined` say what one `j` loop, one pass and
  the capped `while otimizou` loop compute; the methods are proved to compute exactly
  that, and the lemmas say what those results are.
- **Evolution** (`evolution.dfy`) — `executar_ga`. It covers the initial population, the
  generation loop with its best-ever record, the convergence history, elitism and
  breeding, and then the decoding and 2-opt refinement of the best chromosome.
- `points.dfy` holds the delivery points and the two id lookups: the `next(...)` scan over
  the list and the `dict_pontos` dictionary. `common.dfy` holds `Option`/`Result`, one
  `Fault` per raising call site, and sequence facts.

The Euclidean distance `calcular_distancia` is a parameter `dist: (Coord, Coord) -> real`.
Results that need it assume it is nonnegative (`NonNegative`) or symmetric (`Symmetric`).
Each random draw of the source is an explicit argument, constrained to the values the
Python draw can produce (`ValidShuffle`, `ValidSample`, `ValidCuts`, `ValidSwap`,
`ValidDraws`). Every exception the source can raise on valid data is a `Failure` of the
matching `Fault`:

- a tournament of 3 in a population of fewer than 3 raises in `random.sample`;
- a crossover of one-gene parents has no two cut points;
- a firing mutation on an empty chromosome has nothing to swap;
- zero generations leave `melhor_global` as `None`, and decoding it raises;
- an empty population makes `scores[0]` raise.

An unknown id would raise `StopIteration` or `KeyError`. That case is a precondition
(`AllPresent`, `Known`, `Depot in Ids(pts)`).

## Behaviour worth knowing

- Crossover cut points come from `random.sample(range(len), 2)`. The second cut is
  therefore at most `len - 1`, and a one-gene parent raises.
- 2-opt does not restart after an improving reversal. It keeps scanning the changed route
  in the same pass and only notes that the pass improved.
- With parents `[1,2,3,4]` and `[3,1,4,2]` and cuts 1 and 3, the crossover yields
  `[4,2,3,1]` (`Crossover.FourGeneExample`).
- The tournament size (3) and the mutation rate are fixed inside `executar_ga`. So a
  population of 2 fails at its first tournament (`Evolution.RunGA`, `Evolution.FaultsOfRun`).
- The last population a run breeds is never costed. The best-ever record is no dearer than
  every individual that was costed, in every generation (`Evolution.Records`). Nothing is
  claimed about the final children.
- The elite is placed in the next population without a new copy. Chromosomes here are
  values, and no operator of the source changes a chromosome it did not create, so this
  sharing has no observable effect.

## Model

| member | source | states |
|---|---|---|
| `Points.IdsAt` | algoritmo_genetico.py:127 | `ids_locais` lists the id of each point, position by position |
| `Points.Lookup` | algoritmo_genetico.py:17 | the point found carries the requested id and is the first point in the list with that id |
| `Points.IndexById` | algoritmo_genetico.py:129 | the dictionary has exactly the ids of the points; each maps to a point with that id, and a later point with the same id overrides an earlier one |
| `Points.IndexAgreesWithLookup` | algoritmo_genetico.py:129 | with unique ids, the dictionary used by 2-opt and the list scan used by the decoder and the fitness return the same point |
| `RouteSplitter.SplitRoutes` | algoritmo_genetico.py:11-31 | the append-and-accumulate loop returns exactly the routes of the decoder's state-transition specification `Split` |
| `RouteSplitter.SplitIsGreedyPartition` | algoritmo_genetico.py:16-27 | there is at least one route; every route starts and ends at the depot; the route interiors concatenated in order give back the chromosome; a route is opened exactly when the next delivery would exceed the capacity, and every other delivery kept the running load within it |
| `RouteSplitter.EmptyChromosome` | algoritmo_genetico.py:29-31 | an empty chromosome decodes to exactly `[[0, 0]]` |
| `RouteSplitter.RouteCapacity` | algoritmo_genetico.py:20-27 | every route's load is at most the capacity unless the route holds a single delivery |
| `RouteSplitter.EmptyRoutes` | algoritmo_genetico.py:20-24 | the first route is empty exactly when the chromosome is empty or its first delivery alone exceeds the capacity; no later route is empty |
| `RouteSplitter.SplitVisitsOnly` | algoritmo_genetico.py:16-30 | every stop of every route is the depot or an id of the chromosome |
| `RouteSplitter.TwoVehiclesExample` | test_logistica.py:13-16 | loads 150 and 60 under capacity 200 give the two routes `[0,1,0]` and `[0,2,0]` |
| `RouteSplitter.SingleDelivery` | test_logistica.py:18-22 | one delivery within capacity gives the single route `[0, id, 0]`, anchored at the depot |
| `FitnessEvaluator.WalkRoute` | algoritmo_genetico.py:73-83 | the inner loop's `dist_rota` equals the weighted walk of the route from the depot point |
| `FitnessEvaluator.SumRoutes` | algoritmo_genetico.py:72-84 | the outer loop's `custo_total` equals the sum over the routes of their weighted walks |
| `FitnessEvaluator.EvaluateFitness` | algoritmo_genetico.py:68-85 | the cost equals the cost per unit times the weighted length of the decoded routes, each walked from the depot |
| `FitnessEvaluator.FitnessBounds` | algoritmo_genetico.py:68-85 | for nonnegative distances and cost per unit, the cost is nonnegative and lies between half and all of the undiscounted length times the cost per unit |
| `FitnessEvaluator.NoCriticalRoutes` | algoritmo_genetico.py:80-81 | when no point is critical, no leg is discounted: the weighted and the plain route lengths coincide |
| `FitnessEvaluator.EmptyChromosomeCost` | algoritmo_genetico.py:74-79 | the walk starts at the depot although each route also starts with id 0, so an empty chromosome costs two depot-to-depot legs |
| `Population.Deliveries` | algoritmo_genetico.py:90 | the result never holds the depot id |
| `Population.DeliveriesCounts` | algoritmo_genetico.py:90 | every id other than the depot's is kept exactly as often as it occurs in the input |
| `Population.DeliveriesWellFormed` | algoritmo_genetico.py:90 | from distinct nonnegative point ids, the deliveries are distinct, never the crossover placeholder -1, and all known points |
| `Population.ShuffledIsPermutation` | algoritmo_genetico.py:91 | the shuffle keeps the length and the multiset of the list |
| `Population.ShuffleInPlace` | algoritmo_genetico.py:91 | the in-place Fisher-Yates loop leaves the array holding the shuffle its draws specify |
| `Population.CreateIndividual` | algoritmo_genetico.py:89-92 | the individual is the shuffled deliveries; it lacks the depot and holds every other id as often as the input |
| `Selection.FirstMin` | algoritmo_genetico.py:97-99 | the position returned holds a least cost, and every earlier position costs strictly more (`min` keeps the first minimum) |
| `Selection.Tournament` | algoritmo_genetico.py:95-99 | fails exactly when `k` is outside 1..population size, with the matching error (`random.sample` for a sample too large or negative, `min` for an empty one) |
| `Selection.TournamentWinner` | algoritmo_genetico.py:95-99 | the winner is a drawn competitor no dearer than any other, and strictly cheaper than every one drawn before it |
| `Selection.WinnerFromPopulation` | algoritmo_genetico.py:95-99 | the tournament winner is a member of the population |
| `Selection.WholePopulationTournament` | algoritmo_genetico.py:137-142 | a tournament over the whole population, in order, picks the head of the generation's stable sort by cost |
| `Crossover.Child` | algoritmo_genetico.py:102-116 | fails exactly for a one-gene parent; an empty parent is returned unchanged; otherwise the child has the parent's length |
| `Crossover.Recombine` | algoritmo_genetico.py:102-116 | the in-place fill of `filho` with the wrapping cursor yields exactly `Child` |
| `Crossover.ChildLayout` | algoritmo_genetico.py:106-116 | for parents arranging the same distinct genes, the child is parent 2's genes outside the segment, in parent 2's order, placed from the second cut to the end and then wrapped to the front, with parent 1's segment in place |
| `Crossover.ChildIsPermutation` | algoritmo_genetico.py:106-116 | for parents arranging the same distinct genes, none -1, the child arranges exactly parent 1's genes without repeats and keeps parent 1's segment at its own positions |
| `Crossover.FourGeneExample` | algoritmo_genetico.py:106-116 | parents `[1,2,3,4]` and `[3,1,4,2]` with cuts 1 and 3 give `[4,2,3,1]` |
| `Mutation.Mutated` | algoritmo_genetico.py:119-123 | a coin that does not fire leaves the individual untouched; a firing coin fails exactly on fewer than two genes, and otherwise exchanges the two drawn positions and keeps every other position, the length and the multiset |
| `Mutation.MutateInPlace` | algoritmo_genetico.py:119-123 | the in-place tuple swap leaves the array holding the `Mutated` result, and does not change it on failure |
| `Mutation.MutationKeepsDistinct` | algoritmo_genetico.py:119-123 | mutating an individual without repeated genes leaves none |
| `Mutation.FiringMutationChanges` | algoritmo_genetico.py:120-122 | a firing mutation on distinct genes always changes the individual |
| `TwoOpt.ReverseSegment` | algoritmo_genetico.py:63 | the slice assignment reverses positions `i..j` inclusive and keeps the rest |
| `TwoOpt.RowScan` | algoritmo_genetico.py:44-64 | the route after one `j` loop has the input's length and every stop keeps its `pontos` entry, so each lookup at lines 47-60 succeeds |
| `TwoOpt.RowColumn` | algoritmo_genetico.py:47-64 | testing column `j` and the columns after it keeps the length and the entries |
| `TwoOpt.PassScan` | algoritmo_genetico.py:43-64 | the route after the rows from `i` on has the input's length and every stop keeps its entry |
| `TwoOpt.PassRow` | algoritmo_genetico.py:43-64 | one row followed by the rows after it keeps the length and the entries |
| `TwoOpt.Refined` | algoritmo_genetico.py:41-64 | the capped `while otimizou` loop keeps the length and the entries |
| `TwoOpt.RefinePass` | algoritmo_genetico.py:41-64 | one pass, then the rest of the loop unless it reversed nothing, keeps the length and the entries |
| `TwoOpt.Iterate` | algoritmo_genetico.py:41-64 | the route after `k` passes keeps the length and the entries |
| `TwoOpt.ScanRow` | algoritmo_genetico.py:44-64 | the in-place `j` loop leaves exactly the route and flag of `RowScan`: each `j` from `i + 1` to `len - 2` is tested on the route as it stands, and reversed at once when `d3 + d4 < d1 + d2` |
| `TwoOpt.Pass` | algoritmo_genetico.py:43-64 | the double loop leaves exactly the route and flag of `PassScan` from row 1: rows `1 .. len - 3` in order, each over the route the rows before it left |
| `TwoOpt.Refine` | algoritmo_genetico.py:38-65 | the copied route is refined to exactly `Refined`, and the result is a `Refinement` of the input: same stops, length and depot anchors; a 2-opt optimum when converged; an optimum returned unchanged and converged when `passLimit >= 1`; for a symmetric distance unchanged or strictly shorter, and strictly shorter when `passLimit >= 1` and the input was not an optimum |
| `TwoOpt.RowScanPermutes` | algoritmo_genetico.py:44-64 | a row rearranges the route: the multiset of stops is kept |
| `TwoOpt.RowScanKeeps` | algoritmo_genetico.py:44-64 | a row keeps every position before `i` and the last position |
| `TwoOpt.RowScanUnchanged` | algoritmo_genetico.py:44-64 | a row that reports no reversal leaves the route unchanged |
| `TwoOpt.RowScanQuiet` | algoritmo_genetico.py:44-64 | a row reports a reversal exactly when some `j` from the start column on passes the test on the route the row started from |
| `TwoOpt.RowScanShortens` | algoritmo_genetico.py:44-64 | for a symmetric distance, a row that reports a reversal leaves a strictly shorter route |
| `TwoOpt.PassScanPermutes` | algoritmo_genetico.py:43-64 | the rows from `i` on rearrange the route |
| `TwoOpt.PassScanKeeps` | algoritmo_genetico.py:43-64 | the rows from `i` on keep every position before `i` and the last position |
| `TwoOpt.PassScanUnchanged` | algoritmo_genetico.py:43-64 | rows that report no reversal leave the route unchanged |
| `TwoOpt.PassScanQuiet` | algoritmo_genetico.py:43-64 | the rows from `i` on report a reversal exactly when some pair `i <= i' < j <= len - 2` passes the test on the route they started from |
| `TwoOpt.PassScanShortens` | algoritmo_genetico.py:43-64 | for a symmetric distance, rows that report a reversal leave a strictly shorter route |
| `TwoOpt.PassQuiet` | algoritmo_genetico.py:42-64 | a whole pass leaves `otimizou` false exactly on a 2-opt optimum, and then leaves the route unchanged |
| `TwoOpt.RefinedPermutes` | algoritmo_genetico.py:38-65 | the loop rearranges the route |
| `TwoOpt.RefinedKeeps` | algoritmo_genetico.py:38-65 | the loop keeps the first and the last stop |
| `TwoOpt.RefinedOptimal` | algoritmo_genetico.py:41-64 | a converged result is a 2-opt optimum, and an optimum is returned unchanged and converged when `passLimit >= 1` |
| `TwoOpt.RefinedShortens` | algoritmo_genetico.py:41-64 | for a symmetric distance the loop leaves the route unchanged or strictly shorter, and strictly shorter when `passLimit >= 1` and the input was not an optimum |
| `TwoOpt.RefinedIsRefinement` | algoritmo_genetico.py:38-65 | the loop's result is a `Refinement` of its input |
| `TwoOpt.RefinedStops` | algoritmo_genetico.py:39-64 | an unconverged result is the route after all `passLimit` passes, each of which reversed something; a converged one is the route after some `k < passLimit` passes that each reversed something, followed by a pass that reversed nothing |
| `TwoOpt.ReversalGain` | algoritmo_genetico.py:47-63 | for a symmetric distance, reversing `i..j` changes the path length by exactly `(d3 + d4) - (d1 + d2)` |
| `TwoOpt.ImprovingShortens` | algoritmo_genetico.py:62-63 | for a symmetric distance, an improving reversal strictly shortens the route |
| `Evolution.FitnessKey` | algoritmo_genetico.py:98 | the tournament key is the fitness at cost per unit 1 on every individual that can be costed |
| `Evolution.OffspringIsChromosome` | algoritmo_genetico.py:152-154 | a child bred from a population of chromosomes is a chromosome |
| `Evolution.OffspringOutcome` | algoritmo_genetico.py:152-154 | breeding one child fails exactly when the population is below 3, there is one gene, or the mutation fires on no genes, with the matching error |
| `Evolution.CrossAndMutate` | algoritmo_genetico.py:154 | the crossover followed by the in-place mutation yields exactly the specified bred child |
| `Evolution.Breed` | algoritmo_genetico.py:152-155 | two tournaments, a crossover and a mutation yield exactly the specified offspring |
| `Evolution.CollectOutcome` | algoritmo_genetico.py:150-155 | the next population is the elite followed by the children in order when every child succeeds; otherwise it fails with the first child's error |
| `Evolution.BreedingOutcome` | algoritmo_genetico.py:150-155 | a generation's breeding fails exactly when `BreedFault` says so, and with its error |
| `Evolution.BreedingKeepsChromosomes` | algoritmo_genetico.py:150-156 | a bred population has the old size, is headed by the elite and consists of chromosomes |
| `Evolution.NextGeneration` | algoritmo_genetico.py:150-155 | the `while len(nova_populacao) < tam_populacao` loop yields exactly the specified breeding outcome |
| `Evolution.InitialPopulation` | algoritmo_genetico.py:131 | one shuffled individual per shuffle draw, each a chromosome |
| `Evolution.ScorePopulation` | algoritmo_genetico.py:137-139 | the scores are the fitness of each individual, in population order |
| `Evolution.NextRecordSpec` | algoritmo_genetico.py:140-144 | the new record is the old one or a costed individual at its true cost; it is no dearer than the generation and the old record; it changes only on a strict decrease; when it changes it is the head of the stable sort |
| `Evolution.Generation` | algoritmo_genetico.py:137-155 | one generation produces the specified record and the population bred around it |
| `Evolution.Generations` | algoritmo_genetico.py:136-156 | the `for geracao` loop, for at least one generation and a nonempty population, fails exactly with the first generation's breeding fault; otherwise its rounds trace every generation and the history lists each round's record cost (`Ran`) |
| `Evolution.Evolve` | algoritmo_genetico.py:136-156 | the loop fails exactly at the first generation whose breeding fails; otherwise the history has one entry per generation, each the record's cost after that generation |
| `Evolution.FirstFaultSpec` | algoritmo_genetico.py:136-156 | the first fault of a run is none exactly when no generation's breeding fails, and otherwise the fault of a failing generation after which all earlier ones succeed |
| `Evolution.ReachesTrace` | algoritmo_genetico.py:136-156 | a run built generation by generation is a trace round by round: the first round costs the initial population, each record is made from the one before, each population breeds the next around its record, and the final record is the last round's |
| `Evolution.ChainedRecords` | algoritmo_genetico.py:142-146 | every record carries the true cost of its chromosome; recorded costs never rise; a record changes only to a strictly cheaper one |
| `Evolution.ChainedBest` | algoritmo_genetico.py:142-146 | the record after a generation is no dearer than any individual costed in that generation or an earlier one |
| `Evolution.TracePopulations` | algoritmo_genetico.py:150-156 | each population has the configured size and consists of chromosomes, and each bred population is headed by the record of its generation |
| `Evolution.ChainedKeepsRecords` | algoritmo_genetico.py:142-146 | the records of a run satisfy all of `Records`: true costs, a non-increasing history, changes only on strict improvement, and dominance over every costed individual |
| `Evolution.RefineAll` | algoritmo_genetico.py:161 | one refined route per decoded route, each exactly the capped 2-opt loop `Refined` of it and so a `Refinement` of it: same stops and anchors, an optimum when converged, and for a symmetric distance unchanged or strictly shorter, strictly shorter when `passLimit >= 1` and it was not an optimum |
| `Evolution.FaultsOfRun` | algoritmo_genetico.py:126-156 | which configurations fail: a population of 2 at the first tournament, one gene at the first crossover, no genes exactly when a mutation fires; populations of 1, or of 3 or more with two or more genes, never fail |
| `Evolution.RunGA` | algoritmo_genetico.py:126-162 | the whole run: its failure cases; a history of one entry per generation that never rises; populations of the configured size headed by the elite; the returned routes are the best-ever chromosome decoded, each route exactly `Refined` of its decoded route and a `Refinement` of it |

## Left out

- `calcular_distancia` (algoritmo_genetico.py:7-8): the square root and the float formula are replaced by an abstract distance, and reals are exact. Float rounding is not modelled. Symmetry and nonnegativity are hypotheses of the lemmas that need them.
- The kilometre conversion and the `print` of each generation (algoritmo_genetico.py:147-148, 158) are output only and are left out.
- `random.shuffle`, `random.sample` and `random.random` are replaced by explicit draws. Nothing is claimed about their distribution.
- TwoOpt.Refine: runs at most `passLimit` passes, while the source's `while otimizou` loop runs until a pass finds nothing. With an abstract distance that loop need not terminate, so the model does not claim it does. `TwoOpt.RefinedStops` states how the capped loop ends: after a pass that reversed nothing (a 2-opt optimum, `TwoOpt.PassQuiet`), or after `passLimit` passes that all reversed something. A route left unconverged is not claimed to be a 2-opt optimum. It is claimed strictly shorter than the input when the distance is symmetric, `passLimit >= 1` and the input was not already an optimum.
- Evolution.RunGA: requires distinct, nonnegative point ids and a depot point. The source also runs with duplicate ids, but its chromosomes are then not permutations; the permutation results rest on this hypothesis.
- Point data: deliveries without a `carga` key are represented with load 0, and loads are integers, as the callers supply them. A delivery without a `prioridade` key is Regular.
- `copy.deepcopy` of the best chromosome (algoritmo_genetico.py:144) and the shared, uncopied elite (algoritmo_genetico.py:150) are not modelled as aliasing. Chromosomes are values here.
- The callers' HTTP layer, report generation, scenario generation and visualisation are not part of this model.
