/** src/gics/metrics.ts: the two entropy measures the health monitor looks at. */
module Metrics {
  import opened FieldMath

  /** new Set(xs).size / xs.length, and 0 for nothing. */
  function UniqueRatio(xs: seq<int>): (r: real)
    ensures 0.0 <= r
  {
    if xs == [] then 0.0 else |set x | x in xs| as real / |xs| as real
  }

  /** The steps inside a chunk. */
  function Steps(values: seq<int>): seq<int>
  {
    if values == [] then [] else ValueDeltas(values[1..], values[0])
  }

  lemma {:induction false} UniqueAtMost(xs: seq<int>)
    ensures |set x | x in xs| <= |xs|
  {
    if xs != [] {
      var rest := xs[1..];
      UniqueAtMost(rest);
      assert (set x | x in xs) == (set x | x in rest) + {xs[0]} by {
        assert xs == [xs[0]] + rest;
      }
    }
  }

  /** No ratio exceeds 1. */
  lemma RatioAtMost(xs: seq<int>)
    ensures UniqueRatio(xs) <= 1.0
  {
    UniqueAtMost(xs);
  }

  /** computeDeltas, as far as the steps go. */
  method ComputeDeltas(values: seq<int>) returns (deltas: seq<int>)
    ensures deltas == Steps(values)
  {
    deltas := [];
    if |values| == 0 {
      return;
    }
    hide ValueDeltas;
    for i := 1 to |values|
      invariant deltas + ValueDeltas(values[i..], values[i - 1]) == ValueDeltas(values[1..], values[0])
    {
      StepsCons(values, i);
      deltas := deltas + [values[i] - values[i - 1]];
    }
    StepsNone(values[|values| - 1]);
    assert values[|values|..] == [] && deltas + [] == deltas;
  }

  lemma StepsCons(values: seq<int>, i: nat)
    requires 1 <= i < |values|
    ensures ValueDeltas(values[i..], values[i - 1])
         == [values[i] - values[i - 1]] + ValueDeltas(values[i + 1..], values[i])
  {
    assert values[i..][1..] == values[i + 1..];
  }

  lemma StepsNone(prev: int)
    ensures ValueDeltas([], prev) == []
  {
  }

  /** calculateBlockMetrics */
  method CalculateBlockMetrics(values: seq<int>) returns (unique: real, uniqueDelta: real)
    ensures unique == UniqueRatio(values) && uniqueDelta == UniqueRatio(Steps(values))
  {
    unique := UniqueRatio(values);
    var deltas := ComputeDeltas(values);
    uniqueDelta := UniqueRatio(deltas);
  }
}
