/** Weighted candidates, as every balancing algorithm receives them. */
module Candidates {
  import opened MachineTypes
  import opened Sums

  datatype Candidate = Candidate(id: string, weight: u32)

  function Weights(cands: seq<Candidate>): (w: seq<int>)
    ensures |w| == |cands| && forall i :: 0 <= i < |w| ==> w[i] == cands[i].weight
  {
    seq(|cands|, i requires 0 <= i < |cands| => cands[i].weight)
  }

  lemma {:induction false} WeightsBound(cands: seq<Candidate>, n: nat)
    requires n <= |cands|
    ensures 0 <= SumTo(Weights(cands), n) <= n * 0xFFFF_FFFF
  {
    if n > 0 { WeightsBound(cands, n - 1); }
  }

  /** The combined weight of the first n candidates. */
  function WeightBefore(cands: seq<Candidate>, n: nat): (t: nat)
    requires n <= |cands|
    ensures t == SumTo(Weights(cands), n)
  {
    WeightsBound(cands, n);
    SumTo(Weights(cands), n)
  }

  lemma {:induction false} WeightBeforeMonotone(cands: seq<Candidate>, i: nat, n: nat)
    requires i <= n <= |cands|
    ensures WeightBefore(cands, i) <= WeightBefore(cands, n)
  {
    if i < n { WeightBeforeMonotone(cands, i, n - 1); }
  }

  function Total(cands: seq<Candidate>): (t: nat)
    ensures t == Sum(Weights(cands))
  {
    WeightBefore(cands, |cands|)
  }
}
