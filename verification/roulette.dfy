/** The roulette wheel: the walk over the parents that turns a point on the
    wheel into the index of the first parent (lib/genetic/Task.js:201-211). */
module Roulette {
  import opened Wrappers
  import opened Scores

  /** `k` is the first position whose inclusive prefix sum reaches `point`. */
  predicate IsFirstReaching(weights: seq<real>, point: real, k: nat)
  {
    && k < |weights|
    && point <= Prefix(weights, k)
    && forall j :: 0 <= j < k ==> Prefix(weights, j) < point
  }

  /** No prefix sum reaches `point`: the walk would run past the last parent. */
  predicate NoneReaching(weights: seq<real>, point: real)
  {
    forall j :: 0 <= j < |weights| ==> Prefix(weights, j) < point
  }

  /** Where the wheel stops for `point`, or `None` when it runs off the end.
      Defined by peeling off the first weight and lowering the point, which is
      independent of the accumulating walk that `Walk` performs. */
  function Spin(weights: seq<real>, point: real): (r: Option<nat>)
    ensures r.Some? ==> r.value < |weights|
  {
    if |weights| == 0 then None
    else if point <= weights[0] then Some(0)
    else
      match Spin(weights[1..], point - weights[0])
      case None => None
      case Some(k) => Some(k + 1)
  }

  /** The wheel stops at the first index whose prefix sum reaches the point,
      and fails exactly when no prefix sum does. No sign condition is needed. */
  lemma {:induction false} SpinIsFirstReaching(weights: seq<real>, point: real)
    ensures Spin(weights, point).Some? ==> IsFirstReaching(weights, point, Spin(weights, point).value)
    ensures Spin(weights, point).None? <==> NoneReaching(weights, point)
  {
    if |weights| == 0 {
    } else if point <= weights[0] {
      PrefixFirst(weights);
    } else {
      var tail := weights[1..];
      var lowered := point - weights[0];
      SpinIsFirstReaching(tail, lowered);
      PrefixFirst(weights);
      forall j | 0 < j < |weights|
        ensures Prefix(weights, j) < point <==> Prefix(tail, j - 1) < lowered
      {
        PrefixTail(weights, j);
      }
      match Spin(tail, lowered)
      case None =>
        forall j | 0 <= j < |weights|
          ensures Prefix(weights, j) < point
        {
          if 0 < j {
            assert Prefix(tail, j - 1) < lowered;
          }
        }
      case Some(k) =>
        assert IsFirstReaching(tail, lowered, k);
        PrefixTail(weights, k + 1);
        forall j | 0 <= j < k + 1
          ensures Prefix(weights, j) < point
        {
          if 0 < j {
            assert Prefix(tail, j - 1) < lowered;
          }
        }
    }
  }

  /** Any point up to the total weight lands on a parent; with non-negative
      weights a point beyond the total is exactly the case that fails. */
  lemma SpinInRange(weights: seq<real>, point: real)
    requires 0 < |weights|
    ensures point <= Sum(weights) ==> Spin(weights, point).Some?
    ensures NonNegative(weights) ==> (Spin(weights, point).Some? <==> point <= Sum(weights))
  {
    SpinIsFirstReaching(weights, point);
    PrefixLast(weights);
    if NonNegative(weights) && Spin(weights, point).Some? {
      PrefixAtMostSum(weights, Spin(weights, point).value);
    }
  }

  /** The walk as the source writes it: start at position 0 with the first
      weight as the level, and step on while the point lies above the level.
      Stepping past the last parent reads an undefined entry, which throws;
      that is the `None` result. An empty wheel throws at the first read. */
  method Walk(weights: seq<real>, point: real) returns (r: Option<nat>)
    ensures r.Some? ==> IsFirstReaching(weights, point, r.value)
    ensures r.None? <==> NoneReaching(weights, point)
    ensures r == Spin(weights, point)
  {
    SpinIsFirstReaching(weights, point);
    if |weights| == 0 {
      return None;
    }
    var position := 0;
    var level := weights[0];
    PrefixFirst(weights);
    while point > level
      invariant 0 <= position < |weights|
      invariant level == Prefix(weights, position)
      invariant forall j :: 0 <= j < position ==> Prefix(weights, j) < point
      decreases |weights| - position
    {
      position := position + 1;
      if position == |weights| {
        return None;
      }
      PrefixStep(weights, position);
      level := level + weights[position];
    }
    return Some(position);
  }
}
