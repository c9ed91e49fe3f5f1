/** The constructor's options and the caller's operators
    (lib/genetic/Task.js:4-16). */
module Configuration {
  import opened Wrappers
  import opened Scores

  /** What the caller passes in. `None` is an option left out; a left-out
      probability compares false against every draw. */
  datatype Options = Options(
    popSize: Option<int>,
    minimize: bool,
    crossoverProbability: Option<real>,
    mutateProbability: Option<real>)

  /** Which total the roulette point is drawn against. The source draws it
      against the raw score sum, also when minimizing (`PreInversionSum`);
      `WeightSum` draws it against the total of the weights the walk visits. */
  datatype Wheel = PreInversionSum | WeightSum

  datatype Config = Config(
    popSize: int,
    minimize: bool,
    crossoverProbability: Option<real>,
    mutateProbability: Option<real>,
    wheel: Wheel)

  /** The caller's operators. Crossover sees both parents as the engine holds
      them, score included; what it returns is a fresh solution. */
  datatype Operators<!T> = Operators(
    fitness: T -> real,
    crossover: (Scored<T>, Scored<T>) -> T,
    mutate: T -> T)

  /** The constructor: `options.popSize || 10`, so an absent or zero size
      falls back to 10 and the configured size is never zero. */
  function NewConfig(options: Options): (cfg: Config)
    ensures cfg.popSize != 0
    ensures options.popSize.None? || options.popSize == Some(0) ==> cfg.popSize == 10
    ensures options.popSize.Some? && options.popSize.value != 0 ==> cfg.popSize == options.popSize.value
    ensures cfg.minimize == options.minimize
    ensures cfg.crossoverProbability == options.crossoverProbability
    ensures cfg.mutateProbability == options.mutateProbability
    ensures cfg.wheel == PreInversionSum
  {
    var size := if options.popSize.Some? && options.popSize.value != 0 then options.popSize.value else 10;
    Config(size, options.minimize, options.crossoverProbability, options.mutateProbability, PreInversionSum)
  }
}
