/** The per-generation statistics the reproduction step records
    (lib/genetic/Task.js:137-174). */
module Statistics {
  import opened Wrappers
  import opened Scores

  /** `k` holds the least score, and no earlier position holds a score as low. */
  predicate IsEarliestMin(s: seq<real>, k: nat)
  {
    && k < |s|
    && (forall j :: 0 <= j < |s| ==> s[k] <= s[j])
    && (forall j :: 0 <= j < k ==> s[k] < s[j])
  }

  /** `k` holds the greatest score, and no earlier position holds a score as high. */
  predicate IsEarliestMax(s: seq<real>, k: nat)
  {
    && k < |s|
    && (forall j :: 0 <= j < |s| ==> s[j] <= s[k])
    && (forall j :: 0 <= j < k ==> s[j] < s[k])
  }

  /** The position of the minimum, kept by a strict `<` comparison so that a
      later equal score never displaces an earlier one. */
  function MinIndex(s: seq<real>): (k: nat)
    requires 0 < |s|
    ensures k < |s|
    decreases |s|
  {
    if |s| == 1 then 0
    else
      var k := MinIndex(s[..|s| - 1]);
      if s[|s| - 1] < s[k] then |s| - 1 else k
  }

  /** The position of the maximum, by a strict `>` comparison. */
  function MaxIndex(s: seq<real>): (k: nat)
    requires 0 < |s|
    ensures k < |s|
    decreases |s|
  {
    if |s| == 1 then 0
    else
      var k := MaxIndex(s[..|s| - 1]);
      if s[|s| - 1] > s[k] then |s| - 1 else k
  }

  lemma {:induction false} MinIndexIsEarliest(s: seq<real>)
    requires 0 < |s|
    ensures IsEarliestMin(s, MinIndex(s))
    decreases |s|
  {
    if 1 < |s| {
      var init := s[..|s| - 1];
      MinIndexIsEarliest(init);
      assert forall j :: 0 <= j < |init| ==> init[j] == s[j];
    }
  }

  lemma {:induction false} MaxIndexIsEarliest(s: seq<real>)
    requires 0 < |s|
    ensures IsEarliestMax(s, MaxIndex(s))
    decreases |s|
  {
    if 1 < |s| {
      var init := s[..|s| - 1];
      MaxIndexIsEarliest(init);
      assert forall j :: 0 <= j < |init| ==> init[j] == s[j];
    }
  }

  /** The record the source stores in `statistics`. The individuals are
      snapshots taken before any minimize inversion, so their scores are raw. */
  datatype GenerationStatistics<T> = GenerationStatistics(
    minScore: real,
    maxScore: real,
    min: Scored<T>,
    max: Scored<T>,
    avg: real)

  /** `sum / popSize`, the mean score over the configured population size. */
  function Average(sum: real, popSize: int): (avg: real)
    requires 1 <= popSize
    ensures avg * popSize as real == sum
  {
    sum / popSize as real
  }

  /** The statistics of one generation of parents. `avg` divides by the
      configured population size, which equals the number of parents
      whenever the engine calls this. */
  function ComputeStatistics<T>(parents: seq<Scored<T>>, popSize: int): GenerationStatistics<T>
    requires 0 < |parents|
    requires 1 <= popSize
  {
    var scores := ScoresOf(parents);
    var lo := MinIndex(scores);
    var hi := MaxIndex(scores);
    GenerationStatistics(parents[lo].score, parents[hi].score, parents[lo], parents[hi], Average(Sum(scores), popSize))
  }

  /** The recorded scores bound every parent's score; the recorded extremes
      are the parents at the earliest positions attaining them; and the
      average times the population size is the score sum. */
  lemma StatisticsAreExtremes<T>(parents: seq<Scored<T>>, popSize: int)
    requires 0 < |parents|
    requires 1 <= popSize
    ensures var st := ComputeStatistics(parents, popSize);
            && (forall i :: 0 <= i < |parents| ==> st.minScore <= parents[i].score <= st.maxScore)
            && (exists k: nat :: IsEarliestMin(ScoresOf(parents), k) && st.min == parents[k])
            && (exists k: nat :: IsEarliestMax(ScoresOf(parents), k) && st.max == parents[k])
            && st.minScore == st.min.score && st.maxScore == st.max.score
            && st.avg * popSize as real == Sum(ScoresOf(parents))
  {
    StatisticsBound(parents, popSize);
    StatisticsPositions(parents, popSize);
    StatisticsAverage(parents, popSize);
  }

  lemma StatisticsBound<T>(parents: seq<Scored<T>>, popSize: int)
    requires 0 < |parents|
    requires 1 <= popSize
    ensures var st := ComputeStatistics(parents, popSize);
            forall i :: 0 <= i < |parents| ==> st.minScore <= parents[i].score <= st.maxScore
  {
    ExtremeParents(parents);
  }

  lemma StatisticsPositions<T>(parents: seq<Scored<T>>, popSize: int)
    requires 0 < |parents|
    requires 1 <= popSize
    ensures var st := ComputeStatistics(parents, popSize);
            && (exists k: nat :: IsEarliestMin(ScoresOf(parents), k) && st.min == parents[k])
            && (exists k: nat :: IsEarliestMax(ScoresOf(parents), k) && st.max == parents[k])
            && st.minScore == st.min.score && st.maxScore == st.max.score
  {
    var scores := ScoresOf(parents);
    ExtremeParents(parents);
    assert IsEarliestMin(scores, MinIndex(scores));
    assert IsEarliestMax(scores, MaxIndex(scores));
  }

  lemma StatisticsAverage<T>(parents: seq<Scored<T>>, popSize: int)
    requires 0 < |parents|
    requires 1 <= popSize
    ensures ComputeStatistics(parents, popSize).avg * popSize as real == Sum(ScoresOf(parents))
  {
  }

  /** The parents at the scan's extreme positions bound every parent's score. */
  lemma ExtremeParents<T>(parents: seq<Scored<T>>)
    requires 0 < |parents|
    ensures var scores := ScoresOf(parents);
            && IsEarliestMin(scores, MinIndex(scores))
            && IsEarliestMax(scores, MaxIndex(scores))
            && forall i :: 0 <= i < |parents| ==>
                 parents[MinIndex(scores)].score <= parents[i].score <= parents[MaxIndex(scores)].score
  {
    var scores := ScoresOf(parents);
    MinIndexIsEarliest(scores);
    MaxIndexIsEarliest(scores);
  }

  /** The single pass of the source: the first parent seeds both extremes,
      every parent adds to the sum and replaces an extreme only when strictly
      beyond it. With no parents the extremes stay undefined and reading
      their scores throws, which is the `None` result. */
  method ScanParents<T>(parents: seq<Scored<T>>, popSize: int) returns (stats: Option<GenerationStatistics<T>>, sum: real)
    requires 1 <= popSize
    ensures stats.Some? <==> 0 < |parents|
    ensures stats.Some? ==> stats.value == ComputeStatistics(parents, popSize)
    ensures sum == Sum(ScoresOf(parents))
  {
    sum := 0.0;
    if |parents| == 0 {
      return None, sum;
    }
    var scores := ScoresOf(parents);
    var lo, hi := 0, 0;
    var i := 0;
    while i < |parents|
      invariant 0 <= i <= |parents|
      invariant lo < |parents| && hi < |parents|
      invariant sum == Sum(scores[..i])
      invariant 0 < i ==> lo == MinIndex(scores[..i]) && hi == MaxIndex(scores[..i])
      invariant i == 0 ==> lo == 0 && hi == 0
    {
      assert scores[..i + 1] == scores[..i] + [scores[i]];
      assert scores[..i + 1][..i] == scores[..i];
      SumAppend(scores[..i], scores[i]);
      sum := sum + parents[i].score;
      if parents[i].score > parents[hi].score {
        hi := i;
      }
      if parents[i].score < parents[lo].score {
        lo := i;
      }
      i := i + 1;
    }
    assert scores[..|parents|] == scores;
    stats := Some(GenerationStatistics(parents[lo].score, parents[hi].score, parents[lo], parents[hi], Average(sum, popSize)));
  }
}
