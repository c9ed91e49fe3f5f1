/** Scored individuals and the sums the engine takes over their scores. */
module Scores {

  /** An individual of caller-defined shape together with the score the
      engine attached to it. */
  datatype Scored<T> = Scored(solution: T, score: real)

  /** The scores of a sequence of individuals, in order. */
  function ScoresOf<T>(individuals: seq<Scored<T>>): (s: seq<real>)
    ensures |s| == |individuals|
    ensures forall i :: 0 <= i < |s| ==> s[i] == individuals[i].score
  {
    seq(|individuals|, i requires 0 <= i < |individuals| => individuals[i].score)
  }

  /** The solutions of a sequence of individuals, in order. */
  function SolutionsOf<T>(individuals: seq<Scored<T>>): (s: seq<T>)
    ensures |s| == |individuals|
    ensures forall i :: 0 <= i < |s| ==> s[i] == individuals[i].solution
  {
    seq(|individuals|, i requires 0 <= i < |individuals| => individuals[i].solution)
  }

  function Sum(s: seq<real>): real
  {
    if |s| == 0 then 0.0 else s[0] + Sum(s[1..])
  }

  /** The inclusive prefix sum: the sum of `s[0]` through `s[j]`. */
  function Prefix(s: seq<real>, j: nat): real
    requires j < |s|
  {
    Sum(s[..j + 1])
  }

  predicate NonNegative(s: seq<real>)
  {
    forall i :: 0 <= i < |s| ==> 0.0 <= s[i]
  }

  lemma {:induction false} SumAppend(s: seq<real>, x: real)
    ensures Sum(s + [x]) == Sum(s) + x
  {
    if |s| == 0 {
      assert s + [x] == [x];
      assert [x][1..] == [];
    } else {
      assert (s + [x])[1..] == s[1..] + [x];
      SumAppend(s[1..], x);
    }
  }

  lemma PrefixFirst(s: seq<real>)
    requires 0 < |s|
    ensures Prefix(s, 0) == s[0]
  {
    assert s[..1] == [s[0]];
    assert [s[0]][1..] == [];
    assert Sum([s[0]]) == s[0] + Sum([]);
  }

  lemma PrefixStep(s: seq<real>, j: nat)
    requires 0 < j < |s|
    ensures Prefix(s, j) == Prefix(s, j - 1) + s[j]
  {
    assert s[..j + 1] == s[..j] + [s[j]];
    SumAppend(s[..j], s[j]);
  }

  lemma PrefixTail(s: seq<real>, j: nat)
    requires 0 < j < |s|
    ensures Prefix(s, j) == s[0] + Prefix(s[1..], j - 1)
  {
    assert s[..j + 1][1..] == s[1..][..j];
  }

  lemma PrefixLast(s: seq<real>)
    requires 0 < |s|
    ensures Prefix(s, |s| - 1) == Sum(s)
  {
    assert s[..|s|] == s;
  }

  /** With non-negative entries no prefix sum exceeds the total. */
  lemma {:induction false} PrefixAtMostSum(s: seq<real>, j: nat)
    requires NonNegative(s)
    requires j < |s|
    ensures Prefix(s, j) <= Sum(s)
    decreases |s| - j
  {
    if j == |s| - 1 {
      PrefixLast(s);
    } else {
      PrefixStep(s, j + 1);
      PrefixAtMostSum(s, j + 1);
    }
  }

  lemma {:induction false} SumNonNegative(s: seq<real>)
    requires NonNegative(s)
    ensures 0.0 <= Sum(s)
  {
    if 0 < |s| {
      assert NonNegative(s[1..]) by {
        forall i | 0 <= i < |s[1..]| ensures 0.0 <= s[1..][i] {
          assert s[1..][i] == s[i + 1];
        }
      }
      SumNonNegative(s[1..]);
    }
  }
}
