# Generational loop of the `genetic` task engine, in Dafny

This project models the core of `lib/genetic/Task.js`: a generational
evolutionary-optimisation engine. A caller supplies a random-solution
generator, a fitness function, crossover and mutation operators, their
probabilities, a population size and a stop predicate. The engine then:

1. fills a population of `popSize` random solutions (`init`);
2. tests the stop predicate before every iteration (`loop`);
3. in each iteration, counts the generation up, scores every individual,
   copies the population into the parents, and reproduces;
4. in reproduction, records the generation statistics (minimum, maximum,
   average), inverts the scores when minimising, and forms exactly `popSize`
   children by roulette-wheel selection, optional crossover with a uniform
   partner, and optional mutation;
5. replaces the population with the children.

The model is functional. Scores are exact `real`s. Every `Math.random()`
value is an explicit draw of the subset type `Fraction` (a real in [0, 1)). The
caller's operators are function-typed inputs:

- `Operators.fitness`, `Operators.crossover` and `Operators.mutate`;
- `supply(i)` is the i-th random solution;
- the stop predicate is a function of the observable `TaskState`.

The modules follow the source's stages:

- `Scores`: scored individuals and prefix sums.
- `Statistics`: the statistics scan.
- `Roulette`: the roulette walk.
- `Configuration`: the constructor.
- `Reproduction`: inversion, child forming and reproduction.
- `Generations`: the stop-checked `until` loop, over any step that may fail.
- `Task`: init, iteration, loop and run. `Task.Loop` is the loop of
  `Generations` with one iteration as its step (`Task.Advance`).

The statistics scan and the roulette walk are written as `while` loops
(`Statistics.ScanParents`, `Roulette.Walk`). Each is proved equal to the
functional definition the engine uses. The other loops are modelled as follows:

- The `until` loops of `init` and `loop` are recursive functions
  (`Task.Fill`, `Generations.Loop`).
- The `until` loop of child forming is a recursive function
  (`Reproduction.FormChildren`). It is also a `while` loop inside
  `Reproduction.ReproductionSteps`.
- The `forEach` over the population in `calcFitness` and the inversion's
  `forEach` are sequence comprehensions (`Task.CalcFitness`,
  `Reproduction.Normalize`).
- The `forEach` copies of parent and child selection are `while` loops
  (`Task.ParentSelection`, `Task.ChildSelection`).

`Reproduction.ReproductionSteps` and `Task.IterationSteps` chain the stages
in the source's order. They are proved to compute exactly
`Reproduction.Reproduce` and `Task.Iteration`.

Where descriptions of the engine and the code differ, the model follows
`Task.js`:

- Fitness is evaluated only at the start of each iteration
  (lib/genetic/Task.js:75), never after `init`.
- Statistics are recorded only inside reproduction
  (lib/genetic/Task.js:162). The first stop test therefore sees generation 0
  with statistics undefined (`None`). The test at
  mochaTests/upgradeTests.js:59-61 expects statistics there.
- The statistics left after an iteration describe the population that entered
  it, not the new children.
- There are no run-wide (global) statistics. `run` hands back the last
  recorded generation statistics.

## Model

| member | source | states |
|---|---|---|
| Configuration.NewConfig | lib/genetic/Task.js:4-16 | `popSize` is 10 when absent or 0 and the given value otherwise, so it is never 0. `minimize`, the crossover probability and the mutation probability are each taken unchanged from their own option. The roulette point is drawn against the pre-inversion sum. |
| Task.Fill | lib/genetic/Task.js:44-45 | The `until` loop grows the population to exactly `popSize` members. It keeps the members already present and appends the i-th random solution at position i. |
| Task.Init | lib/genetic/Task.js:41-54 | Initialisation ends exactly when `popSize` is not negative. It then yields exactly `popSize` individuals, in call order. |
| Task.DefaultPopulation | lib/genetic/Task.js:6 | Without a size, or with size 0, initialisation yields ten individuals. |
| Task.CalcFitness | lib/genetic/Task.js:90-108 | Scoring keeps every solution in its place: stripping the scores gives back the population. Each score is the fitness of that individual's own solution. |
| Task.FitnessIsPerIndividual | lib/genetic/Task.js:90-108 | Each individual is scored on its own: scoring two parts of a population separately gives the scoring of the whole. Two individuals holding equal solutions get equal scores. |
| Task.ParentSelection | lib/genetic/Task.js:110-128 | The parents are the population, in the same order. |
| Task.ChildSelection | lib/genetic/Task.js:260-277 | The population becomes the children, in the same order. The generation and the statistics do not change. |
| Task.Iteration | lib/genetic/Task.js:71-88 | A successful iteration raises the generation by exactly one. The population keeps exactly `popSize` members. |
| Task.IterationRecordsParents | lib/genetic/Task.js:75-77 | The statistics an iteration records are those of the population that entered it, scored by the fitness function. |
| Task.IterationSteps | lib/genetic/Task.js:71-88 | The staged iteration computes exactly `Iteration`. The stages are fitness, parent-selection copy, the scan, the walk loop and the child-selection copy. |
| Task.Steps | lib/genetic/Task.js:73 | `n` successful iterations raise the generation by exactly `n` and keep the population size. |
| Task.Loop | lib/genetic/Task.js:56-69 | The loop only stops in a state that satisfies the stop predicate. The generation there is the start generation plus the number of iterations. A crash lies in a generation after the start and at most `fuel` generations later. |
| Generations.Loop | lib/genetic/Task.js:56-69 | The loop only stops in a state that satisfies the stop predicate, after at most `fuel` steps. A failure comes after fewer than `fuel` successful steps. |
| Generations.LoopStopsAtFirst | lib/genetic/Task.js:59-60 | The stopped state is the one the step sequence reaches after `iterations` steps. Every earlier state of the sequence exists and answered false to the stop test. A failure is the step taken from the state `iterations` steps reach, after that state and every earlier one answered false. |
| Generations.StepsCount | lib/genetic/Task.js:60 | Steps that keep an invariant and raise a counter by one keep the invariant over `n` steps and raise the counter by exactly `n`. |
| Generations.LoopNeverFails | lib/genetic/Task.js:59-66 | If every step from a state satisfying an invariant succeeds and keeps the invariant, the loop never ends in a failure. |
| Task.LoopStopsAtFirst | lib/genetic/Task.js:59-60 | The stop test runs before every iteration. The final state is the first state of the iteration sequence that satisfies it, and every earlier state answered false. |
| Task.LoopCrashesAfterPassing | lib/genetic/Task.js:59-60 | Before a crash in generation `g`, every state from the start up to generation `g - 1` exists and answered false to the stop test. |
| Task.LoopCrashIsIteration | lib/genetic/Task.js:59-60 | A crash in generation `g` is the iteration taken from the state that the successful iterations reach at generation `g - 1`: that iteration throws. |
| Task.LoopNeverCrashes | lib/genetic/Task.js:198-211 | No iteration ever throws when the wheel matches the weights the walk visits: maximising a fitness that is never negative, or minimising with the point drawn against the weight sum. |
| Task.Run | lib/genetic/Task.js:4-39 | This is the first `run()` of a newly constructed Task. A run fails to initialise exactly when `popSize` is negative. A stopped run ends at generation = number of iterations, with a positive, full population that satisfies the stop predicate. |
| Task.RunImmediateStop | lib/genetic/Task.js:56-60 | On the first run of a new Task, a stop predicate that holds at once gives zero iterations. The initial solutions are untouched, no crossover happens, and the statistics stay undefined. |
| Statistics.MinIndexIsEarliest | lib/genetic/Task.js:140-156 | The strict `<` scan picks a minimal score, at the earliest position holding it. |
| Statistics.MaxIndexIsEarliest | lib/genetic/Task.js:140-156 | The strict `>` scan picks a maximal score, at the earliest position holding it. |
| Statistics.StatisticsAreExtremes | lib/genetic/Task.js:162-167 | `minScore <= s <= maxScore` for every parent score `s`. `min` and `max` are the parents at the earliest extreme positions, with their raw scores. `avg * popSize` is the score sum. |
| Statistics.Average | lib/genetic/Task.js:166 | The average times the population size gives back the sum. |
| Statistics.ScanParents | lib/genetic/Task.js:137-174 | The single pass yields the statistics record and the raw score sum. With no parents it fails, because reading the undefined extreme throws. |
| Roulette.Spin | lib/genetic/Task.js:201-211 | Whenever the wheel stops, it stops on an existing parent. |
| Roulette.SpinIsFirstReaching | lib/genetic/Task.js:202-211 | The wheel stops at the smallest index whose inclusive prefix sum reaches the point. It fails exactly when no prefix sum does. |
| Roulette.SpinInRange | lib/genetic/Task.js:201-211 | Any point up to the total weight lands on a parent. With non-negative weights, the wheel succeeds exactly when the point is at most the total. |
| Roulette.Walk | lib/genetic/Task.js:202-211 | The `while (point > level)` walk returns the first index whose prefix sum reaches the point. It fails (runs past the last parent) exactly when none does, and agrees with `Spin`. |
| Reproduction.Fires | lib/genetic/Task.js:217-223 | A probability that is absent or at most 0 never fires. A probability of at least 1 always fires. |
| Reproduction.PartnerIndex | lib/genetic/Task.js:219 | `floor(r * n)` always lies in `[0, n)` and is the floor of `r * n`. |
| Reproduction.SecondParent | lib/genetic/Task.js:214-221 | The second parent is a valid index. It is the first parent unless the crossover draw fires, and then it is `floor(r * n)`. |
| Reproduction.FormChild | lib/genetic/Task.js:214-233 | The child is mutated exactly when the mutation draw fires; otherwise it is the crossover of the first parent with the second parent. With neither draw firing, it is the crossover of the first parent with itself. With only crossover firing, the partner is the parent at `floor(r * n)`. |
| Reproduction.NormalizeReversesOrder | lib/genetic/Task.js:175-193 | When minimising against a maximum that bounds every score, every weight is non-negative. When minimising, a strictly lower raw score gets a strictly higher weight. Solutions keep their places. Without minimise nothing changes. |
| Reproduction.InvertedTotal | lib/genetic/Task.js:177-182 | The inverted weights total `n * abs(maxScore)` minus the raw score sum. |
| Reproduction.MinimizeExample | lib/genetic/Task.js:177-182 | Scores 5, 1, 3 invert to weights 0, 4, 2. |
| Reproduction.FormChildren | lib/genetic/Task.js:198-199 | Child forming stops at exactly the requested number of children. |
| Reproduction.FormChildrenMeaning | lib/genetic/Task.js:198-235 | Forming fails exactly when one walk runs past the end. Otherwise child `k` is the crossover, mutated or not, of the parent its own draws select. |
| Reproduction.Reproduce | lib/genetic/Task.js:130-258 | Reproduction yields exactly `popSize` children. Its statistics are those of the raw, uninverted parents. |
| Reproduction.ReproduceFailsExactly | lib/genetic/Task.js:198-235 | Reproduction fails exactly when one child's walk runs past the last parent. Otherwise it fixes every child. |
| Reproduction.ReproduceSucceeds | lib/genetic/Task.js:201-211 | Reproduction never fails when the point is drawn against a non-negative total of the weights the walk visits. |
| Reproduction.MinimizeOverrun | lib/genetic/Task.js:201-211 | As written, minimising scores 5, 1, 3 with a draw of 0.8 makes the walk run past the last parent. |
| Reproduction.PointOnWheel | lib/genetic/Task.js:201 | `Math.random() * wheel` lies in `[0, wheel]` for a non-negative wheel, and in `[0, wheel)` for a positive one. |
| Reproduction.ReproductionSteps | lib/genetic/Task.js:130-258 | The three stages compute exactly `Reproduce`. The stages are the scan, the inversion, and the loop that walks the wheel until `popSize` children exist. |

## Findings

| source | as written | input that shows it | evidently intended | confidence | as-written member | corrected member |
|---|---|---|---|---|---|---|
| lib/genetic/Task.js:201 | With `minimize` set, the point is `Math.random() * sum`. Here `sum` is the raw score total, but the walk adds up the inverted scores, which total `n * abs(max) - sum`. | Minimise with scores 5, 1, 3 and a draw of 0.8. The point is 7.2, but the weights 0, 4, 2 total 6. The walk reads `parents[3]`, which is undefined, and throws a TypeError. | Draw the point against the total of the weights the walk visits. | not executed | Reproduction.MinimizeOverrun | Task.LoopNeverCrashes |

The wheel total is a field of `Config`:

- `PreInversionSum` is the source's convention. `NewConfig` chooses it, so
  `Task.Run` models the code as written.
- `WeightSum` is the corrected convention. With it, `Task.LoopNeverCrashes`
  proves that no iteration throws, for any scores, when minimising.
- When maximising, the two conventions coincide.

## Left out

- The `async` library, `setImmediate` and the callback plumbing are left out.
  Stages are plain sequential functions. The inversion's `forEach` runs its
  item function synchronously over all parents before line 192 continues, so
  all scores are inverted before child forming starts.
- `EventEmitter` and every `emit` have no effect on the algorithm, so they are
  left out.
- The `err` paths of the async callbacks are left out. The modelled operators
  are total functions and never report errors. The one failure modelled is the
  TypeError the roulette walk throws when it reads past the last parent.
  Reading an undefined extreme over no parents also throws; the engine never
  reaches that case.
- `Math.random` is left out, because floating-point sampling is not modelled.
  Each child has four explicit draws. The partner draw is always present and
  is ignored unless the crossover draw fires. The source draws it only when
  crossover fires, so the draw order differs but the distribution does not.
- The caller's `fitness`, `crossover` and `mutate` are modelled as
  deterministic functions: equal arguments give equal results. A caller's
  callback may itself draw random numbers, as the demo operators in
  test/mytest.js:14-48 do. Such a callback is covered only when its own
  draws are folded into its argument.
- The `JSON.parse(JSON.stringify(...))` deep copies are treated as value
  copies. The copy at line 212 is dead.
- Fractional, NaN or non-numeric sizes and scores are left out. `popSize` is
  an `int` and scores are exact reals.
- Object aliasing is left out, because the model has value semantics. If
  crossover or mutation returned an object already in the population, the
  source would invert the shared object once per occurrence.
- `test/mytest.js` is a demo script and is not part of this model.
- `calcStatistics`, `globalStatistics`, fitness after `init`, and statistics
  at generation 0 are left out. Only the mocha tests describe them
  (mochaTests/tests.js:16-24, mochaTests/upgradeTests.js:47-68); they do not
  exist in `Task.js`.
- The stop predicate sees the generation, the population and the statistics.
  It does not see the engine's `parents` and `children` fields or its options.
- Task.Loop: models at most `fuel` iterations and reports `OutOfFuel` beyond
  that. The source loops for as long as the stop predicate answers false.
- Task.Run: inherits the `fuel` bound of `Loop`. It models only the first
  `run()` of a newly constructed Task (lib/genetic/Task.js:4-39). `run` resets
  only the population (line 22). The generation is set only by the
  constructor (line 5), and the statistics are never reset. A second `run()`
  on the same object therefore starts from the last generation and the last
  statistics, and that case is not modelled.
