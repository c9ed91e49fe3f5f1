/** The generational loop of lib/genetic/Task.js: initialisation, the
    stop-checked loop, and one iteration of fitness, parent selection,
    reproduction and child selection. */
module Task {
  import opened Wrappers
  import opened Scores
  import opened Statistics
  import opened Configuration
  import opened Reproduction
  import Generations

  /** What the stop predicate can observe. `statistics` stays undefined until
      the first reproduction records it. */
  datatype TaskState<T> = TaskState(
    generation: nat,
    population: seq<T>,
    statistics: Option<GenerationStatistics<T>>)

  /** How a run ends. `OutOfFuel` bounds the model, not the source, whose
      loop runs for as long as the stop predicate answers false;
      `InitNeverEnds` is an initialisation that never reaches its size. */
  datatype Outcome<T> =
    | Stopped(state: TaskState<T>, iterations: nat)
    | Crashed(generation: nat)
    | OutOfFuel(state: TaskState<T>)
    | InitNeverEnds

  /** The population has the configured size, and that size is positive. */
  predicate Valid<T>(cfg: Config, st: TaskState<T>)
  {
    1 <= cfg.popSize && |st.population| == cfg.popSize
  }

  /** Init's `until` loop: ask for one more random solution until the
      population has `popSize` members; the i-th call yields `supply(i)`. */
  function Fill<T>(population: seq<T>, popSize: nat, supply: nat -> T): (r: seq<T>)
    requires |population| <= popSize
    ensures |r| == popSize
    ensures r[..|population|] == population
    ensures forall i :: |population| <= i < popSize ==> r[i] == supply(i)
    decreases popSize - |population|
  {
    if |population| == popSize then population
    else Fill(population + [supply(|population|)], popSize, supply)
  }

  /** Initialisation from an empty population. A negative size is never
      reached by the growing length, so that loop never ends. */
  function Init<T>(popSize: int, supply: nat -> T): (r: Option<seq<T>>)
    ensures r.Some? <==> 0 <= popSize
    ensures r.Some? ==> |r.value| == popSize
    ensures r.Some? ==> forall i :: 0 <= i < popSize ==> r.value[i] == supply(i)
  {
    if popSize < 0 then None else Some(Fill([], popSize, supply))
  }

  /** Every individual receives its own fitness value, in place. */
  function CalcFitness<T>(population: seq<T>, fitness: T -> real): (scored: seq<Scored<T>>)
    ensures SolutionsOf(scored) == population
    ensures forall i :: 0 <= i < |population| ==> scored[i].score == fitness(population[i])
  {
    var scored := seq(|population|, i requires 0 <= i < |population| => Scored(population[i], fitness(population[i])));
    assert SolutionsOf(scored) == population;
    scored
  }

  /** Scoring treats each individual on its own: scoring two parts of a
      population separately gives the scoring of the whole, and two
      individuals holding the same solution get the same score. */
  lemma FitnessIsPerIndividual<T>(front: seq<T>, back: seq<T>, fitness: T -> real)
    ensures CalcFitness(front + back, fitness) == CalcFitness(front, fitness) + CalcFitness(back, fitness)
    ensures var scored := CalcFitness(front + back, fitness);
            forall i, j :: 0 <= i < |scored| && 0 <= j < |scored| && scored[i].solution == scored[j].solution ==>
              scored[i].score == scored[j].score
  {
    var whole := CalcFitness(front + back, fitness);
    var parts := CalcFitness(front, fitness) + CalcFitness(back, fitness);
    assert |SolutionsOf(whole)| == |front + back|;
    assert |SolutionsOf(CalcFitness(front, fitness))| == |front|;
    assert |SolutionsOf(CalcFitness(back, fitness))| == |back|;
    forall i | 0 <= i < |whole|
      ensures whole[i] == parts[i]
    {
      assert SolutionsOf(whole)[i] == (front + back)[i];
      if i < |front| {
        assert SolutionsOf(CalcFitness(front, fitness))[i] == front[i];
      } else {
        assert SolutionsOf(CalcFitness(back, fitness))[i - |front|] == back[i - |front|];
      }
    }
    forall i, j | 0 <= i < |whole| && 0 <= j < |whole| && whole[i].solution == whole[j].solution
      ensures whole[i].score == whole[j].score
    {
      assert SolutionsOf(whole)[i] == (front + back)[i];
      assert SolutionsOf(whole)[j] == (front + back)[j];
    }
  }

  /** Parent selection pushes every member of the population, in order. */
  method ParentSelection<T>(population: seq<Scored<T>>) returns (parents: seq<Scored<T>>)
    ensures parents == population
  {
    parents := [];
    var i := 0;
    while i < |population|
      invariant 0 <= i <= |population|
      invariant parents == population[..i]
    {
      parents := parents + [population[i]];
      i := i + 1;
    }
  }

  /** Child selection empties the population and pushes every child, in
      order; nothing else in the state changes. */
  method ChildSelection<T>(st: TaskState<T>, children: seq<T>) returns (next: TaskState<T>)
    ensures next.population == children
    ensures next.generation == st.generation
    ensures next.statistics == st.statistics
  {
    var population: seq<T> := [];
    var i := 0;
    while i < |children|
      invariant 0 <= i <= |children|
      invariant population == children[..i]
    {
      population := population + [children[i]];
      i := i + 1;
    }
    next := st.(population := population);
  }

  /** One iteration: the generation counter goes up first, then fitness,
      parent selection, reproduction (which records the statistics of the
      scored parents) and child selection. `draws(g)` are the draws of
      generation `g`. `None` is an iteration whose roulette walk throws. */
  function Iteration<T>(cfg: Config, ops: Operators<T>, draws: nat -> nat -> ChildDraws, st: TaskState<T>)
    : (r: Option<TaskState<T>>)
    requires Valid(cfg, st)
    ensures r.Some? ==> Valid(cfg, r.value)
    ensures r.Some? ==> r.value.generation == st.generation + 1
  {
    var generation := st.generation + 1;
    var parents := CalcFitness(st.population, ops.fitness);
    match Reproduce(parents, cfg, ops, draws(generation))
    case None => None
    case Some(reproduced) => Some(TaskState(generation, reproduced.children, Some(reproduced.statistics)))
  }

  /** The statistics an iteration leaves behind describe the population that
      entered it, scored by the fitness function, and not the new children. */
  lemma IterationRecordsParents<T>(cfg: Config, ops: Operators<T>, draws: nat -> nat -> ChildDraws, st: TaskState<T>)
    requires Valid(cfg, st)
    requires Iteration(cfg, ops, draws, st).Some?
    ensures Iteration(cfg, ops, draws, st).value.statistics
              == Some(ComputeStatistics(CalcFitness(st.population, ops.fitness), cfg.popSize))
  {
  }

  /** The iteration as the source sequences it, with the loops of parent
      selection, the statistics scan, the roulette walk and child selection. */
  method IterationSteps<T>(cfg: Config, ops: Operators<T>, draws: nat -> nat -> ChildDraws, st: TaskState<T>)
    returns (r: Option<TaskState<T>>)
    requires Valid(cfg, st)
    ensures r == Iteration(cfg, ops, draws, st)
  {
    var generation := st.generation + 1;
    var scored := CalcFitness(st.population, ops.fitness);
    var parents := ParentSelection(scored);
    var reproduced := ReproductionSteps(parents, cfg, ops, draws(generation));
    if reproduced.None? {
      return None;
    }
    var next := ChildSelection(TaskState(generation, st.population, Some(reproduced.value.statistics)),
                               reproduced.value.children);
    return Some(next);
  }

  /** One iteration as a step of the loop. Only states of the configured
      size are ever stepped; any other state is a dead end. */
  function Advance<T>(cfg: Config, ops: Operators<T>, draws: nat -> nat -> ChildDraws): TaskState<T> -> Option<TaskState<T>>
  {
    st => if Valid(cfg, st) then Iteration(cfg, ops, draws, st) else None
  }

  lemma AdvanceIsIteration<T>(cfg: Config, ops: Operators<T>, draws: nat -> nat -> ChildDraws, st: TaskState<T>)
    requires Valid(cfg, st)
    ensures Advance(cfg, ops, draws)(st) == Iteration(cfg, ops, draws, st)
  {
  }

  /** The configured size as a property of states. */
  function ValidFor<T>(cfg: Config): TaskState<T> -> bool
  {
    (st: TaskState<T>) => Valid(cfg, st)
  }

  /** `n` iterations in a row, with no stop test in between. */
  function Steps<T>(cfg: Config, ops: Operators<T>, draws: nat -> nat -> ChildDraws, st: TaskState<T>, n: nat)
    : (r: Option<TaskState<T>>)
    requires Valid(cfg, st)
    ensures r.Some? ==> Valid(cfg, r.value)
    ensures r.Some? ==> r.value.generation == st.generation + n
  {
    StepsCounted(cfg, ops, draws, st, n);
    Generations.Steps(Advance(cfg, ops, draws), st, n)
  }

  lemma StepsCounted<T>(cfg: Config, ops: Operators<T>, draws: nat -> nat -> ChildDraws, st: TaskState<T>, n: nat)
    requires Valid(cfg, st)
    ensures var r := Generations.Steps(Advance(cfg, ops, draws), st, n);
            r.Some? ==> Valid(cfg, r.value) && r.value.generation == st.generation + n
  {
    var next := Advance(cfg, ops, draws);
    var inv := (t: TaskState<T>) => Valid(cfg, t);
    var count := (t: TaskState<T>) => t.generation as int;
    forall t | inv(t) && next(t).Some?
      ensures inv(next(t).value) && count(next(t).value) == count(t) + 1
    {
      AdvanceIsIteration(cfg, ops, draws, t);
    }
    Generations.StepsCount(next, inv, count, st, n);
  }

  /** The loop: test the stop predicate, and iterate while it answers false.
      At most `fuel` iterations are modelled. */
  function Loop<T>(cfg: Config, ops: Operators<T>, draws: nat -> nat -> ChildDraws,
                   stop: TaskState<T> -> bool, st: TaskState<T>, fuel: nat): (r: Outcome<T>)
    requires Valid(cfg, st)
    ensures !r.InitNeverEnds?
    ensures r.Stopped? ==> stop(r.state) && Valid(cfg, r.state)
    ensures r.Stopped? ==> r.state.generation == st.generation + r.iterations && r.iterations <= fuel
    ensures r.Crashed? ==> st.generation < r.generation <= st.generation + fuel
  {
    LoopCounted(cfg, ops, draws, stop, st, fuel);
    Ended(st.generation, Generations.Loop(Advance(cfg, ops, draws), stop, st, fuel))
  }

  /** The loop's ending as a run outcome: a failed step is a crash in the
      generation after the last successful one. */
  function Ended<T>(start: nat, ending: Generations.Ending<TaskState<T>>): Outcome<T>
  {
    match ending
    case Stopped(last, n) => Stopped(last, n)
    case Failed(n) => Crashed(start + n + 1)
    case OutOfFuel(last) => OutOfFuel(last)
  }

  lemma LoopCounted<T>(cfg: Config, ops: Operators<T>, draws: nat -> nat -> ChildDraws,
                       stop: TaskState<T> -> bool, st: TaskState<T>, fuel: nat)
    requires Valid(cfg, st)
    ensures var r := Generations.Loop(Advance(cfg, ops, draws), stop, st, fuel);
            r.Stopped? ==> Valid(cfg, r.state) && r.state.generation == st.generation + r.iterations
  {
    var r := Generations.Loop(Advance(cfg, ops, draws), stop, st, fuel);
    Generations.LoopStopsAtFirst(Advance(cfg, ops, draws), stop, st, fuel);
    if r.Stopped? {
      StepsCounted(cfg, ops, draws, st, r.iterations);
    }
  }

  /** The loop stops at the first state of the iteration sequence that
      satisfies the stop predicate: every earlier state was tested and
      answered false. */
  lemma LoopStopsAtFirst<T>(cfg: Config, ops: Operators<T>, draws: nat -> nat -> ChildDraws,
                            stop: TaskState<T> -> bool, st: TaskState<T>, fuel: nat)
    requires Valid(cfg, st)
    ensures var r := Loop(cfg, ops, draws, stop, st, fuel);
            r.Stopped? ==>
              && Steps(cfg, ops, draws, st, r.iterations) == Some(r.state)
              && forall m :: 0 <= m < r.iterations ==>
                   Steps(cfg, ops, draws, st, m).Some? && !stop(Steps(cfg, ops, draws, st, m).value)
  {
    var next := Advance(cfg, ops, draws);
    Generations.LoopStopsAtFirst(next, stop, st, fuel);
    var g := Generations.Loop(next, stop, st, fuel);
    LoopIsEnded(cfg, ops, draws, stop, st, fuel);
    if g.Stopped? {
      assert Generations.PassedBefore(next, stop, st, g.iterations);
    }
  }

  /** Before a crash, the stop predicate was tested on every state the
      successful iterations reached, including the last, and answered false. */
  lemma LoopCrashesAfterPassing<T>(cfg: Config, ops: Operators<T>, draws: nat -> nat -> ChildDraws,
                                   stop: TaskState<T> -> bool, st: TaskState<T>, fuel: nat)
    requires Valid(cfg, st)
    ensures var r := Loop(cfg, ops, draws, stop, st, fuel);
            r.Crashed? ==>
              && st.generation < r.generation
              && forall m :: 0 <= m <= r.generation - st.generation - 1 ==>
                   Steps(cfg, ops, draws, st, m).Some? && !stop(Steps(cfg, ops, draws, st, m).value)
  {
    CrashedIsFailed(cfg, ops, draws, stop, st, fuel);
    FailedAfterPassing(cfg, ops, draws, stop, st, fuel);
  }

  /** A crash is the iteration that starts from the state the successful
      iterations reach: that iteration throws. */
  lemma LoopCrashIsIteration<T>(cfg: Config, ops: Operators<T>, draws: nat -> nat -> ChildDraws,
                                stop: TaskState<T> -> bool, st: TaskState<T>, fuel: nat)
    requires Valid(cfg, st)
    ensures var r := Loop(cfg, ops, draws, stop, st, fuel);
            r.Crashed? ==>
              && st.generation < r.generation
              && Steps(cfg, ops, draws, st, r.generation - st.generation - 1).Some?
              && Iteration(cfg, ops, draws, Steps(cfg, ops, draws, st, r.generation - st.generation - 1).value).None?
  {
    CrashedIsFailed(cfg, ops, draws, stop, st, fuel);
    FailedThrows(cfg, ops, draws, stop, st, fuel);
  }

  /** A crash of the loop is a failed ending of the generic loop, one
      generation after its successful steps. */
  lemma CrashedIsFailed<T>(cfg: Config, ops: Operators<T>, draws: nat -> nat -> ChildDraws,
                           stop: TaskState<T> -> bool, st: TaskState<T>, fuel: nat)
    requires Valid(cfg, st)
    ensures var g := Generations.Loop(Advance(cfg, ops, draws), stop, st, fuel);
            Loop(cfg, ops, draws, stop, st, fuel).Crashed? ==>
              && st.generation < Loop(cfg, ops, draws, stop, st, fuel).generation
              && g.Failed?
              && Loop(cfg, ops, draws, stop, st, fuel).generation - st.generation - 1 == g.iterations
              && Steps(cfg, ops, draws, st, Loop(cfg, ops, draws, stop, st, fuel).generation - st.generation - 1)
                 == Steps(cfg, ops, draws, st, g.iterations)
  {
    LoopIsEnded(cfg, ops, draws, stop, st, fuel);
  }

  /** A failed ending of the generic loop over `Advance` comes after states
      that all answered false, the last of them included. */
  lemma FailedAfterPassing<T>(cfg: Config, ops: Operators<T>, draws: nat -> nat -> ChildDraws,
                              stop: TaskState<T> -> bool, st: TaskState<T>, fuel: nat)
    requires Valid(cfg, st)
    ensures var g := Generations.Loop(Advance(cfg, ops, draws), stop, st, fuel);
            g.Failed? ==>
              forall m :: 0 <= m <= g.iterations ==>
                Steps(cfg, ops, draws, st, m).Some? && !stop(Steps(cfg, ops, draws, st, m).value)
  {
    var next := Advance(cfg, ops, draws);
    Generations.LoopStopsAtFirst(next, stop, st, fuel);
    var g := Generations.Loop(next, stop, st, fuel);
    if g.Failed? {
      assert Generations.PassedBefore(next, stop, st, g.iterations + 1);
    }
  }

  /** A failed ending of the generic loop over `Advance` is an iteration that
      throws from the state its successful steps reach. */
  lemma FailedThrows<T>(cfg: Config, ops: Operators<T>, draws: nat -> nat -> ChildDraws,
                        stop: TaskState<T> -> bool, st: TaskState<T>, fuel: nat)
    requires Valid(cfg, st)
    ensures var g := Generations.Loop(Advance(cfg, ops, draws), stop, st, fuel);
            g.Failed? ==>
              && Steps(cfg, ops, draws, st, g.iterations).Some?
              && Iteration(cfg, ops, draws, Steps(cfg, ops, draws, st, g.iterations).value).None?
  {
    var next := Advance(cfg, ops, draws);
    Generations.LoopStopsAtFirst(next, stop, st, fuel);
    var g := Generations.Loop(next, stop, st, fuel);
    if g.Failed? {
      assert Generations.PassedBefore(next, stop, st, g.iterations + 1);
      FailedIteration(cfg, ops, draws, st, g.iterations);
    }
  }

  /** A failed step of `Advance` after `n` successful ones is an iteration
      that throws, from the state the `n` iterations reach. */
  lemma FailedIteration<T>(cfg: Config, ops: Operators<T>, draws: nat -> nat -> ChildDraws, st: TaskState<T>, n: nat)
    requires Valid(cfg, st)
    ensures var reached := Generations.Steps(Advance(cfg, ops, draws), st, n);
            reached.Some? && Advance(cfg, ops, draws)(reached.value).None? ==>
              && Steps(cfg, ops, draws, st, n).Some?
              && Iteration(cfg, ops, draws, Steps(cfg, ops, draws, st, n).value).None?
  {
    if Steps(cfg, ops, draws, st, n).Some? {
      AdvanceIsIteration(cfg, ops, draws, Steps(cfg, ops, draws, st, n).value);
    }
  }

  /** The wheel matches the weights the walk visits: minimizing with the
      weight sum, or maximizing a fitness that is never negative. */
  ghost predicate WheelCoversWeights<T(!new)>(cfg: Config, ops: Operators<T>)
  {
    if cfg.minimize then cfg.wheel == WeightSum else forall x :: 0.0 <= ops.fitness(x)
  }

  lemma IterationSucceeds<T(!new)>(cfg: Config, ops: Operators<T>, draws: nat -> nat -> ChildDraws, st: TaskState<T>)
    requires Valid(cfg, st)
    requires WheelCoversWeights(cfg, ops)
    ensures Iteration(cfg, ops, draws, st).Some?
  {
    var parents := CalcFitness(st.population, ops.fitness);
    if !cfg.minimize {
      SumNonNegative(ScoresOf(parents));
    }
    ReproduceSucceeds(parents, cfg, ops, draws(st.generation + 1));
  }

  /** Whenever the wheel matches the weights, no iteration ever throws. */
  lemma LoopNeverCrashes<T(!new)>(cfg: Config, ops: Operators<T>, draws: nat -> nat -> ChildDraws,
                                  stop: TaskState<T> -> bool, st: TaskState<T>, fuel: nat)
    requires Valid(cfg, st)
    requires WheelCoversWeights(cfg, ops)
    ensures !Loop(cfg, ops, draws, stop, st, fuel).Crashed?
  {
    AdvanceNeverFails(cfg, ops, draws);
    Generations.LoopNeverFails(Advance(cfg, ops, draws), stop, ValidFor(cfg), st, fuel);
    LoopIsEnded(cfg, ops, draws, stop, st, fuel);
  }

  /** From a state of the configured size, an iteration whose wheel matches
      the weights succeeds and keeps the size. */
  lemma AdvanceNeverFails<T(!new)>(cfg: Config, ops: Operators<T>, draws: nat -> nat -> ChildDraws)
    requires WheelCoversWeights(cfg, ops)
    ensures Generations.NeverFailsFrom(Advance(cfg, ops, draws), ValidFor(cfg))
  {
    forall t | ValidFor(cfg)(t)
      ensures Advance(cfg, ops, draws)(t).Some? && ValidFor(cfg)(Advance(cfg, ops, draws)(t).value)
    {
      IterationSucceeds(cfg, ops, draws, t);
      AdvanceIsIteration(cfg, ops, draws, t);
    }
  }

  /** The loop's outcome is the generic loop's ending over `Advance`. */
  lemma LoopIsEnded<T>(cfg: Config, ops: Operators<T>, draws: nat -> nat -> ChildDraws,
                       stop: TaskState<T> -> bool, st: TaskState<T>, fuel: nat)
    requires Valid(cfg, st)
    ensures Loop(cfg, ops, draws, stop, st, fuel) == Ended(st.generation, Generations.Loop(Advance(cfg, ops, draws), stop, st, fuel))
  {
  }

  /** A run: construct, initialise from generation 0 with no statistics,
      then loop. `supply` answers the random-solution calls in order. */
  function Run<T>(options: Options, ops: Operators<T>, supply: nat -> T, draws: nat -> nat -> ChildDraws,
                  stop: TaskState<T> -> bool, fuel: nat): (r: Outcome<T>)
    ensures r.InitNeverEnds? <==> NewConfig(options).popSize < 0
    ensures r.Stopped? ==> stop(r.state) && r.state.generation == r.iterations
    ensures r.Stopped? ==> 1 <= |r.state.population| == NewConfig(options).popSize
  {
    var cfg := NewConfig(options);
    match Init(cfg.popSize, supply)
    case None => InitNeverEnds
    case Some(population) => Loop(cfg, ops, draws, stop, TaskState(0, population, None), fuel)
  }

  /** A stop predicate that holds at once ends the run at generation 0 with
      the initial solutions untouched, no reproduction, and statistics still
      undefined. */
  lemma RunImmediateStop<T>(options: Options, ops: Operators<T>, supply: nat -> T, draws: nat -> nat -> ChildDraws,
                            stop: TaskState<T> -> bool, fuel: nat)
    requires 0 <= NewConfig(options).popSize
    requires stop(TaskState(0, Init(NewConfig(options).popSize, supply).value, None))
    ensures Run(options, ops, supply, draws, stop, fuel)
              == Stopped(TaskState(0, Init(NewConfig(options).popSize, supply).value, None), 0)
  {
  }

  /** Without a size, or with size 0, initialisation asks for ten solutions. */
  lemma DefaultPopulation<T>(options: Options, supply: nat -> T)
    requires options.popSize.None? || options.popSize == Some(0)
    ensures Init(NewConfig(options).popSize, supply).Some?
    ensures |Init(NewConfig(options).popSize, supply).value| == 10
  {
  }
}
