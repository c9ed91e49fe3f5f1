/** The reproduction step: statistics, minimize inversion and child forming
    (lib/genetic/Task.js:130-258). */
module Reproduction {
  import opened Wrappers
  import opened Scores
  import opened Statistics
  import opened Roulette
  import opened Configuration

  /** A value of `Math.random()`: a real in [0, 1). */
  type Fraction = r: real | 0.0 <= r < 1.0 witness 0.0

  /** The random draws one child consumes: where the roulette point falls,
      whether crossover fires, which partner it picks, whether mutation fires.
      The source only draws the partner when crossover fires; here the
      partner draw is always present and ignored otherwise. */
  datatype ChildDraws = ChildDraws(point: Fraction, crossover: Fraction, partner: Fraction, mutate: Fraction)

  /** `Math.random() < probability`. A left-out probability compares false. */
  function Fires(draw: Fraction, probability: Option<real>): (fires: bool)
    ensures probability.None? ==> !fires
    ensures probability.Some? && probability.value <= 0.0 ==> !fires
    ensures probability.Some? && 1.0 <= probability.value ==> fires
  {
    probability.Some? && draw < probability.value
  }

  /** `Math.floor(draw * n)`: a uniform pick among `n` positions. */
  function PartnerIndex(draw: Fraction, n: nat): (k: nat)
    requires 0 < n
    ensures k < n
    ensures k as real <= draw * n as real < k as real + 1.0
  {
    var x := draw * n as real;
    ScaleBelow(draw, n as real);
    x.Floor
  }

  /** A fraction in [0, 1) of a positive length lies in [0, length). */
  lemma ScaleBelow(draw: Fraction, length: real)
    requires 0.0 < length
    ensures 0.0 <= draw * length < length
  {
    var gap := 1.0 - draw;
    assert length - draw * length == gap * length;
    assert 0.0 < gap;
    assert 0.0 < gap * length;
  }

  /** The second parent: the first one itself, unless the crossover draw
      fires, in which case a partner picked uniformly from all parents. */
  function SecondParent(n: nat, first: nat, draws: ChildDraws, crossoverProbability: Option<real>): (k: nat)
    requires first < n
    ensures k < n
    ensures !Fires(draws.crossover, crossoverProbability) ==> k == first
    ensures Fires(draws.crossover, crossoverProbability) ==> k as real <= draws.partner * n as real < k as real + 1.0
  {
    if Fires(draws.crossover, crossoverProbability) then PartnerIndex(draws.partner, n) else first
  }

  /** One child: the crossover of the two parents, mutated when the
      mutation draw fires and appended unchanged otherwise. */
  function FormChild<T>(parents: seq<Scored<T>>, first: nat, draws: ChildDraws, cfg: Config, ops: Operators<T>): (child: T)
    requires first < |parents|
    ensures var crossed := ops.crossover(parents[first], parents[SecondParent(|parents|, first, draws, cfg.crossoverProbability)]);
            child == if Fires(draws.mutate, cfg.mutateProbability) then ops.mutate(crossed) else crossed
    ensures !Fires(draws.crossover, cfg.crossoverProbability) && !Fires(draws.mutate, cfg.mutateProbability) ==>
              child == ops.crossover(parents[first], parents[first])
    ensures Fires(draws.crossover, cfg.crossoverProbability) && !Fires(draws.mutate, cfg.mutateProbability) ==>
              child == ops.crossover(parents[first], parents[PartnerIndex(draws.partner, |parents|)])
  {
    var second := SecondParent(|parents|, first, draws, cfg.crossoverProbability);
    var crossed := ops.crossover(parents[first], parents[second]);
    if Fires(draws.mutate, cfg.mutateProbability) then ops.mutate(crossed) else crossed
  }

  function Abs(x: real): real
  {
    if x < 0.0 then -x else x
  }

  /** The minimize inversion: every score becomes `abs(maxScore) - score`.
      When not minimizing the parents pass through untouched. */
  function Normalize<T>(parents: seq<Scored<T>>, minimize: bool, maxScore: real): (weighted: seq<Scored<T>>)
    ensures |weighted| == |parents|
  {
    if minimize then
      seq(|parents|, i requires 0 <= i < |parents| => Scored(parents[i].solution, Abs(maxScore) - parents[i].score))
    else
      parents
  }

  /** The inversion keeps every solution in its place. Against a maximum
      that bounds every score it yields non-negative weights, and it reverses
      the order: a strictly lower raw score gets a strictly higher weight.
      Without minimize nothing changes. */
  lemma NormalizeReversesOrder<T>(parents: seq<Scored<T>>, minimize: bool, maxScore: real)
    ensures var weighted := Normalize(parents, minimize, maxScore);
            && (forall i :: 0 <= i < |parents| ==> weighted[i].solution == parents[i].solution)
            && (!minimize ==> weighted == parents)
            && (minimize && (forall i :: 0 <= i < |parents| ==> parents[i].score <= maxScore) ==>
                  NonNegative(ScoresOf(weighted)))
            && (minimize ==>
                  forall i, j :: 0 <= i < |parents| && 0 <= j < |parents| && parents[i].score < parents[j].score ==>
                    weighted[j].score < weighted[i].score)
  {
  }

  /** The inverted weights total `n * abs(maxScore)` less the raw score sum,
      which is not the raw sum the source draws the point against. */
  lemma {:induction false} InvertedTotal<T>(parents: seq<Scored<T>>, maxScore: real)
    ensures Sum(ScoresOf(Normalize(parents, true, maxScore)))
              == |parents| as real * Abs(maxScore) - Sum(ScoresOf(parents))
    decreases |parents|
  {
    if 0 < |parents| {
      var n := |parents| as real;
      InvertedTotal(parents[1..], maxScore);
      assert ScoresOf(Normalize(parents, true, maxScore))[1..] == ScoresOf(Normalize(parents[1..], true, maxScore));
      assert ScoresOf(parents)[1..] == ScoresOf(parents[1..]);
      assert n * Abs(maxScore) == Abs(maxScore) + (n - 1.0) * Abs(maxScore);
    }
  }

  /** The roulette point: `Math.random() * wheel`. */
  function Point(draw: Fraction, wheel: real): real
  {
    draw * wheel
  }

  lemma PointOnWheel(draw: Fraction, wheel: real)
    requires 0.0 <= wheel
    ensures 0.0 <= Point(draw, wheel) <= wheel
    ensures 0.0 < wheel ==> Point(draw, wheel) < wheel
  {
    assert wheel - draw * wheel == (1.0 - draw) * wheel;
    if 0.0 < wheel {
      assert 0.0 < (1.0 - draw) * wheel;
    }
  }

  /** Where the wheel stops for one child's draws. */
  function FirstParent<T>(weighted: seq<Scored<T>>, wheel: real, draws: ChildDraws): (r: Option<nat>)
    ensures r.Some? ==> r.value < |weighted|
  {
    Spin(ScoresOf(weighted), Point(draws.point, wheel))
  }

  /** The first `count` children, formed one after the other; `None` when the
      walk for one of them runs past the last parent. */
  function FormChildren<T>(weighted: seq<Scored<T>>, wheel: real, cfg: Config, ops: Operators<T>,
                           draws: nat -> ChildDraws, count: nat): (r: Option<seq<T>>)
    ensures r.Some? ==> |r.value| == count
    decreases count
  {
    if count == 0 then Some([])
    else
      match FormChildren(weighted, wheel, cfg, ops, draws, count - 1)
      case None => None
      case Some(earlier) =>
        match FirstParent(weighted, wheel, draws(count - 1))
        case None => None
        case Some(first) => Some(earlier + [FormChild(weighted, first, draws(count - 1), cfg, ops)])
  }

  /** Forming fails exactly when the walk for one of the children runs past
      the last parent; otherwise child `k` is the one formed from where the
      wheel stops for the draws of child `k`. */
  lemma {:induction false} FormChildrenMeaning<T>(weighted: seq<Scored<T>>, wheel: real, cfg: Config, ops: Operators<T>,
                                                  draws: nat -> ChildDraws, count: nat)
    ensures var r := FormChildren(weighted, wheel, cfg, ops, draws, count);
            && (r.Some? <==> forall k :: 0 <= k < count ==> FirstParent(weighted, wheel, draws(k)).Some?)
            && (r.Some? ==>
                  forall k :: 0 <= k < count ==>
                    r.value[k] == FormChild(weighted, FirstParent(weighted, wheel, draws(k)).value, draws(k), cfg, ops))
    decreases count
  {
    if 0 < count {
      FormChildrenMeaning(weighted, wheel, cfg, ops, draws, count - 1);
    }
  }

  /** The parents as the walk sees them: inverted when minimizing against the
      generation's maximum. */
  function Weighted<T>(parents: seq<Scored<T>>, cfg: Config): (weighted: seq<Scored<T>>)
    requires 0 < |parents|
    requires 1 <= cfg.popSize
  {
    Normalize(parents, cfg.minimize, ComputeStatistics(parents, cfg.popSize).maxScore)
  }

  /** The total the roulette point is drawn against. */
  function WheelTotal<T>(parents: seq<Scored<T>>, cfg: Config): real
    requires 0 < |parents|
    requires 1 <= cfg.popSize
  {
    match cfg.wheel
    case PreInversionSum => Sum(ScoresOf(parents))
    case WeightSum => Sum(ScoresOf(Weighted(parents, cfg)))
  }

  datatype Reproduced<T> = Reproduced(statistics: GenerationStatistics<T>, children: seq<T>)

  /** One reproduction step: record the raw statistics, invert when
      minimizing, then form exactly `popSize` children. */
  function Reproduce<T>(parents: seq<Scored<T>>, cfg: Config, ops: Operators<T>, draws: nat -> ChildDraws): (r: Option<Reproduced<T>>)
    requires 0 < |parents|
    requires 1 <= cfg.popSize
    ensures r.Some? ==> |r.value.children| == cfg.popSize
    ensures r.Some? ==> r.value.statistics == ComputeStatistics(parents, cfg.popSize)
  {
    var statistics := ComputeStatistics(parents, cfg.popSize);
    match FormChildren(Weighted(parents, cfg), WheelTotal(parents, cfg), cfg, ops, draws, cfg.popSize)
    case None => None
    case Some(children) => Some(Reproduced(statistics, children))
  }

  /** Reproduction fails exactly when the walk for one of the `popSize`
      children runs past the last parent; otherwise child `k` is the one
      formed from where the wheel stops for the draws of child `k`. */
  lemma ReproduceFailsExactly<T>(parents: seq<Scored<T>>, cfg: Config, ops: Operators<T>, draws: nat -> ChildDraws)
    requires 0 < |parents|
    requires 1 <= cfg.popSize
    ensures var r := Reproduce(parents, cfg, ops, draws);
            var weighted := Weighted(parents, cfg);
            var wheel := WheelTotal(parents, cfg);
            && (r.Some? <==> forall k :: 0 <= k < cfg.popSize ==> FirstParent(weighted, wheel, draws(k)).Some?)
            && (r.Some? ==>
                  forall k :: 0 <= k < cfg.popSize ==>
                    r.value.children[k] == FormChild(weighted, FirstParent(weighted, wheel, draws(k)).value, draws(k), cfg, ops))
  {
    FormChildrenMeaning(Weighted(parents, cfg), WheelTotal(parents, cfg), cfg, ops, draws, cfg.popSize);
  }

  /** The wheel cannot run off the end when the point is drawn against a
      non-negative total of exactly the weights the walk visits: maximizing
      with a non-negative score sum, or minimizing with the weight sum. */
  lemma ReproduceSucceeds<T>(parents: seq<Scored<T>>, cfg: Config, ops: Operators<T>, draws: nat -> ChildDraws)
    requires 0 < |parents|
    requires 1 <= cfg.popSize
    requires if cfg.minimize then cfg.wheel == WeightSum else 0.0 <= Sum(ScoresOf(parents))
    ensures Reproduce(parents, cfg, ops, draws).Some?
  {
    var weighted := Weighted(parents, cfg);
    var wheel := WheelTotal(parents, cfg);
    var stats := ComputeStatistics(parents, cfg.popSize);
    NormalizeReversesOrder(parents, cfg.minimize, stats.maxScore);
    assert wheel == Sum(ScoresOf(weighted));
    if cfg.minimize {
      StatisticsAreExtremes(parents, cfg.popSize);
      SumNonNegative(ScoresOf(weighted));
    }
    forall k | 0 <= k < cfg.popSize
      ensures FirstParent(weighted, wheel, draws(k)).Some?
    {
      PointOnWheel(draws(k).point, wheel);
      SpinInRange(ScoresOf(weighted), Point(draws(k).point, wheel));
    }
    ReproduceFailsExactly(parents, cfg, ops, draws);
  }

  /** The minimize inversion on the scores 5, 1, 3: the maximum is 5, the
      weights become 0, 4, 2, and the lowest raw score gets the most weight. */
  lemma MinimizeExample<T>(a: T, b: T, c: T)
    ensures Normalize([Scored(a, 5.0), Scored(b, 1.0), Scored(c, 3.0)], true, 5.0)
              == [Scored(a, 0.0), Scored(b, 4.0), Scored(c, 2.0)]
  {
  }

  /** As written, minimizing draws the point against the raw score sum while
      the walk visits the inverted weights. For the scores 5, 1, 3 the raw sum
      is 9 but the weights 0, 4, 2 total 6, so a point drawn at 0.8 of the
      wheel (7.2) lies beyond every prefix sum: the walk reads past the last
      parent and the step throws. */
  lemma MinimizeOverrun<T>(a: T, b: T, c: T, cfg: Config, ops: Operators<T>, draws: nat -> ChildDraws)
    requires cfg.popSize == 3
    requires cfg.minimize && cfg.wheel == PreInversionSum
    requires draws(0).point == 0.8
    ensures Reproduce([Scored(a, 5.0), Scored(b, 1.0), Scored(c, 3.0)], cfg, ops, draws).None?
  {
    var parents := [Scored(a, 5.0), Scored(b, 1.0), Scored(c, 3.0)];
    var stats := ComputeStatistics(parents, cfg.popSize);
    StatisticsAreExtremes(parents, cfg.popSize);
    assert stats.maxScore == 5.0 by {
      var k: nat :| IsEarliestMax(ScoresOf(parents), k) && stats.max == parents[k];
      assert parents[k].score <= 5.0;
      assert ScoresOf(parents)[0] <= ScoresOf(parents)[k];
    }
    var weighted := Weighted(parents, cfg);
    assert ScoresOf(weighted) == [0.0, 4.0, 2.0];
    assert ScoresOf(parents) == [5.0, 1.0, 3.0];
    assert Sum([3.0]) == 3.0 by { assert [3.0][1..] == []; }
    assert Sum([1.0, 3.0]) == 4.0 by { assert [1.0, 3.0][1..] == [3.0]; }
    assert Sum([5.0, 1.0, 3.0]) == 9.0 by { assert [5.0, 1.0, 3.0][1..] == [1.0, 3.0]; }
    assert WheelTotal(parents, cfg) == 9.0;
    var point := Point(draws(0).point, 9.0);
    assert point == 7.2;
    assert [0.0, 4.0, 2.0][1..] == [4.0, 2.0];
    assert [4.0, 2.0][1..] == [2.0];
    assert [2.0][1..] == [];
    assert Spin([0.0, 4.0, 2.0], 7.2) == None;
    assert FirstParent(weighted, WheelTotal(parents, cfg), draws(0)).None?;
    ReproduceFailsExactly(parents, cfg, ops, draws);
  }

  /** One more child extends the earlier ones by the child the wheel picks. */
  lemma ChildrenStep<T>(weighted: seq<Scored<T>>, wheel: real, cfg: Config, ops: Operators<T>,
                        draws: nat -> ChildDraws, count: nat)
    requires FormChildren(weighted, wheel, cfg, ops, draws, count).Some?
    requires FirstParent(weighted, wheel, draws(count)).Some?
    ensures FormChildren(weighted, wheel, cfg, ops, draws, count + 1)
              == Some(FormChildren(weighted, wheel, cfg, ops, draws, count).value
                      + [FormChild(weighted, FirstParent(weighted, wheel, draws(count)).value, draws(count), cfg, ops)])
  {
  }

  /** The three stages as the source runs them: the scan, the inversion, and
      the child-forming loop that repeats the roulette walk until the children
      number exactly `popSize`. The result is the one `Reproduce` describes. */
  method ReproductionSteps<T>(parents: seq<Scored<T>>, cfg: Config, ops: Operators<T>, draws: nat -> ChildDraws)
    returns (r: Option<Reproduced<T>>)
    requires 0 < |parents|
    requires 1 <= cfg.popSize
    ensures r == Reproduce(parents, cfg, ops, draws)
  {
    var stats, sum := ScanParents(parents, cfg.popSize);
    var weighted := Normalize(parents, cfg.minimize, stats.value.maxScore);
    var wheel := if cfg.wheel == PreInversionSum then sum else Sum(ScoresOf(weighted));
    assert weighted == Weighted(parents, cfg);
    assert wheel == WheelTotal(parents, cfg);
    var weights := ScoresOf(weighted);
    var children: seq<T> := [];
    while |children| != cfg.popSize
      invariant |children| <= cfg.popSize
      invariant FormChildren(weighted, wheel, cfg, ops, draws, |children|) == Some(children)
      decreases cfg.popSize - |children|
    {
      var d := draws(|children|);
      var first := Walk(weights, Point(d.point, wheel));
      assert first == FirstParent(weighted, wheel, d);
      if first.None? {
        FormChildrenMeaning(weighted, wheel, cfg, ops, draws, cfg.popSize);
        return None;
      }
      ChildrenStep(weighted, wheel, cfg, ops, draws, |children|);
      children := children + [FormChild(weighted, first.value, d, cfg, ops)];
    }
    return Some(Reproduced(stats.value, children));
  }
}
