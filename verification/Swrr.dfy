/**
 * Smooth weighted round robin.  Each pick adds every weight to its counter,
 * takes the leftmost largest counter, and charges that candidate the total.
 */
module Swrr {
  import opened MachineTypes
  import opened Arithmetic
  import opened Sums
  import opened Candidates

  function Raised(cands: seq<Candidate>, current: seq<int>): (r: seq<int>)
    requires |current| == |cands|
    ensures |r| == |cands|
  {
    seq(|cands|, i requires 0 <= i < |cands| => current[i] + cands[i].weight)
  }

  /** The leftmost largest entry. */
  ghost predicate IsBest(s: seq<int>, best: nat) {
    && best < |s|
    && (forall i :: 0 <= i < |s| ==> s[i] <= s[best])
    && (forall i :: 0 <= i < best ==> s[i] < s[best])
  }

  /** Scans the first n entries, keeping the earliest one no later one exceeds. */
  function BestOf(s: seq<int>, n: nat): (best: nat)
    requires 0 < n <= |s|
    ensures best < n
  {
    if n == 1 then 0 else
      var b := BestOf(s, n - 1);
      if s[n - 1] > s[b] then n - 1 else b
  }

  function Best(s: seq<int>): (best: nat)
    requires s != []
    ensures best < |s|
  {
    BestOf(s, |s|)
  }

  lemma {:induction false} BestOfIsBest(s: seq<int>, n: nat)
    requires 0 < n <= |s|
    ensures IsBest(s[..n], BestOf(s, n))
  {
    if n > 1 { BestOfIsBest(s, n - 1); }
  }

  /** The scan finds the leftmost largest entry. */
  lemma BestIsBest(s: seq<int>)
    requires s != []
    ensures IsBest(s, Best(s))
  {
    BestOfIsBest(s, |s|);
    assert s[..|s|] == s;
  }

  function Chosen(cands: seq<Candidate>, current: seq<int>): (best: nat)
    requires |current| == |cands| && cands != []
    ensures best < |cands|
  {
    Best(Raised(cands, current))
  }

  function Next(cands: seq<Candidate>, current: seq<int>): (r: seq<int>)
    requires |current| == |cands| && cands != []
    ensures |r| == |cands|
  {
    var raised := Raised(cands, current);
    var best := Best(raised);
    raised[best := raised[best] - Total(cands)]
  }

  class Swrr {
    const cands: seq<Candidate>
    const current: array<int>

    ghost predicate Valid() { current.Length == |cands| }

    constructor (cands: seq<Candidate>)
      ensures Valid() && this.cands == cands && fresh(current)
      ensures current[..] == Counters(cands, 0)
    {
      this.cands := cands;
      current := new int[|cands|](_ => 0);
    }

    method SumWeights() returns (total: int)
      ensures total == Total(cands)
    {
      total := 0;
      for i := 0 to |cands|
        invariant total == SumTo(Weights(cands), i)
      {
        total := total + cands[i].weight;
      }
    }

    method Pick() returns (picked: Option<string>)
      requires Valid()
      modifies current
      ensures cands == [] ==> picked == None && current[..] == old(current[..])
      ensures cands != [] ==> picked == Some(cands[Chosen(cands, old(current[..]))].id)
      ensures cands != [] ==> current[..] == Next(cands, old(current[..]))
    {
      if |cands| == 0 {
        return None;
      }
      var total := SumWeights();
      ghost var raised := Raised(cands, current[..]);
      var best := 0;
      for i := 0 to |cands|
        invariant forall j :: 0 <= j < |cands| ==> current[j] == if j < i then raised[j] else old(current[j])
        invariant best == if i == 0 then 0 else BestOf(raised, i)
      {
        current[i] := current[i] + cands[i].weight;
        if current[i] > current[best] {
          best := i;
        }
      }
      assert current[..] == raised;
      current[best] := current[best] - total;
      return Some(cands[best].id);
    }
  }

  // ----- Runs from fresh -----

  /** The counters after n picks. */
  function Counters(cands: seq<Candidate>, n: nat): (c: seq<int>)
    ensures |c| == |cands|
  {
    if n == 0 then seq(|cands|, _ => 0)
    else if cands == [] then []
    else Next(cands, Counters(cands, n - 1))
  }

  /** Which candidate the n-th pick takes, counting from 0. */
  function NthPick(cands: seq<Candidate>, n: nat): (i: nat)
    requires cands != []
    ensures i < |cands|
  {
    Chosen(cands, Counters(cands, n))
  }

  /** How often each candidate was taken by the first n picks. */
  function Picks(cands: seq<Candidate>, n: nat): (p: seq<int>)
    requires cands != []
    ensures |p| == |cands|
  {
    if n == 0 then seq(|cands|, _ => 0)
    else
      var before := Picks(cands, n - 1);
      before[NthPick(cands, n - 1) := before[NthPick(cands, n - 1)] + 1]
  }

  // ----- One pick -----

  lemma NextAt(cands: seq<Candidate>, current: seq<int>, i: nat)
    requires |current| == |cands| && i < |cands|
    ensures Next(cands, current)[i]
            == current[i] + cands[i].weight - (if i == Chosen(cands, current) then Total(cands) else 0)
  {
  }

  lemma RaisedSum(cands: seq<Candidate>, current: seq<int>)
    requires |current| == |cands|
    ensures Sum(Raised(cands, current)) == Sum(current) + Total(cands)
  {
    SumToAdd(current, Weights(cands), Raised(cands, current), |cands|);
  }

  lemma NextSum(cands: seq<Candidate>, current: seq<int>)
    requires |current| == |cands| && cands != []
    ensures Sum(Next(cands, current)) == Sum(current)
  {
    var raised := Raised(cands, current);
    RaisedSum(cands, current);
    var best := Best(raised);
    SumUpdate(raised, best, raised[best] - Total(cands));
    assert Next(cands, current) == raised[best := raised[best] - Total(cands)];
  }

  /** Counters that sum to zero give a positive winner, so no counter drops to minus the total. */
  lemma NextFloor(cands: seq<Candidate>, current: seq<int>, i: nat)
    requires |current| == |cands| && i < |cands| && Total(cands) > 0
    requires Sum(current) == 0 && current[i] + Total(cands) > 0
    ensures Next(cands, current)[i] + Total(cands) > 0
  {
    RaisedSum(cands, current);
    SumToPositive(Raised(cands, current), |cands|);
    BestIsBest(Raised(cands, current));
    NextAt(cands, current, i);
  }

  lemma CountersAt(cands: seq<Candidate>, n: nat, i: nat)
    requires i < |cands|
    ensures Counters(cands, n + 1)[i]
            == Counters(cands, n)[i] + cands[i].weight - (if i == NthPick(cands, n) then Total(cands) else 0)
  {
    NextAt(cands, Counters(cands, n), i);
  }

  lemma PicksAt(cands: seq<Candidate>, n: nat, i: nat)
    requires i < |cands|
    ensures Picks(cands, n + 1)[i] == Picks(cands, n)[i] + (if i == NthPick(cands, n) then 1 else 0)
  {
  }

  // ----- All picks -----

  lemma DebtStep(c: int, c': int, n: nat, w: int, total: int, p: int, hit: bool)
    requires c == n * w - total * p
    requires c' == c + w - (if hit then total else 0)
    ensures c' == (n + 1) * w - total * (p + (if hit then 1 else 0))
  {
  }

  /** Each counter is the entitlement so far minus what was charged. */
  lemma {:induction false} CounterIsDebt(cands: seq<Candidate>, n: nat, i: nat)
    requires i < |cands|
    ensures Counters(cands, n)[i] == n * cands[i].weight - Total(cands) * Picks(cands, n)[i]
  {
    if n > 0 {
      var m := n - 1;
      CounterIsDebt(cands, m, i);
      CountersAt(cands, m, i);
      PicksAt(cands, m, i);
      DebtStep(Counters(cands, m)[i], Counters(cands, n)[i], m, cands[i].weight, Total(cands), Picks(cands, m)[i],
               i == NthPick(cands, m));
    }
  }

  lemma {:induction false} CountersSumToZero(cands: seq<Candidate>, n: nat)
    ensures Sum(Counters(cands, n)) == 0
  {
    if n == 0 {
      SumToZero(Counters(cands, 0), |cands|);
    } else if cands != [] {
      CountersSumToZero(cands, n - 1);
      NextSum(cands, Counters(cands, n - 1));
    }
  }

  lemma {:induction false} PicksSum(cands: seq<Candidate>, n: nat)
    requires cands != []
    ensures Sum(Picks(cands, n)) == n
  {
    if n == 0 {
      SumToZero(Picks(cands, 0), |cands|);
    } else {
      PicksSum(cands, n - 1);
      var before := Picks(cands, n - 1);
      SumUpdate(before, NthPick(cands, n - 1), before[NthPick(cands, n - 1)] + 1);
    }
  }

  /** No counter ever falls to minus the total. */
  lemma {:induction false} CounterFloor(cands: seq<Candidate>, n: nat, i: nat)
    requires i < |cands| && Total(cands) > 0
    ensures Counters(cands, n)[i] + Total(cands) > 0
  {
    if n > 0 {
      CounterFloor(cands, n - 1, i);
      CountersSumToZero(cands, n - 1);
      NextFloor(cands, Counters(cands, n - 1), i);
    }
  }

  /** No candidate runs a whole pick ahead of its share, at any moment. */
  lemma NeverAhead(cands: seq<Candidate>, n: nat, i: nat)
    requires i < |cands| && Total(cands) > 0
    ensures Picks(cands, n)[i] * Total(cands) < n * cands[i].weight + Total(cands)
  {
    CounterIsDebt(cands, n, i);
    CounterFloor(cands, n, i);
  }

  function Due(cands: seq<Candidate>, k: nat): (d: seq<int>)
    ensures |d| == |cands| && forall i :: 0 <= i < |d| ==> d[i] == k * cands[i].weight
  {
    seq(|cands|, i requires 0 <= i < |cands| => k * cands[i].weight)
  }

  lemma AtMostDue(cands: seq<Candidate>, k: nat, n: nat, i: nat)
    requires i < |cands| && Total(cands) > 0 && n == k * Total(cands)
    ensures Picks(cands, n)[i] <= Due(cands, k)[i]
  {
    NeverAhead(cands, n, i);
    RoundUp(Picks(cands, n)[i], Due(cands, k)[i], k, cands[i].weight, Total(cands));
  }

  lemma PicksAreDue(cands: seq<Candidate>, k: nat, n: nat, i: nat)
    requires i < |cands| && Total(cands) > 0 && n == k * Total(cands)
    ensures Picks(cands, n)[i] == Due(cands, k)[i]
  {
    forall j | 0 <= j < |cands| ensures Picks(cands, n)[j] <= Due(cands, k)[j] { AtMostDue(cands, k, n, j); }
    PicksSum(cands, n);
    SumToScale(Weights(cands), Due(cands, k), k, |cands|);
    SumToPinned(Picks(cands, n), Due(cands, k), |cands|, i);
  }

  lemma SettledDebt(k: nat, total: int, w: int)
    ensures (k * total) * w - total * (k * w) == 0
  {
  }

  /** After k full rounds every candidate was taken exactly k times its weight, and all counters are zero. */
  lemma ExactShare(cands: seq<Candidate>, k: nat, i: nat)
    requires i < |cands| && Total(cands) > 0
    ensures Picks(cands, k * Total(cands))[i] == k * cands[i].weight
    ensures Counters(cands, k * Total(cands))[i] == 0
  {
    PicksAreDue(cands, k, k * Total(cands), i);
    CounterIsDebt(cands, k * Total(cands), i);
    SettledDebt(k, Total(cands), cands[i].weight);
  }

  lemma RoundUp(p: int, due: int, k: nat, w: nat, total: nat)
    requires total > 0 && due == k * w && p * total < (k * total) * w + total
    ensures p <= due
  {
    assert (k * total) * w == due * total;
    if p > due { MulMonotone(due + 1, p, total); }
  }

  /** A counter is at most one below the total for each other candidate. */
  lemma CounterCeiling(cands: seq<Candidate>, n: nat, i: nat)
    requires i < |cands| && Total(cands) > 0
    ensures Counters(cands, n)[i] <= (|cands| - 1) * (Total(cands) - 1)
  {
    var floor := seq(|cands|, _ => 1 - Total(cands));
    var c := Counters(cands, n);
    forall j | 0 <= j < |cands| ensures floor[j] <= c[j] { CounterFloor(cands, n, j); }
    CountersSumToZero(cands, n);
    SumToConst(floor, 1 - Total(cands), |cands|);
    SumUpdate(floor, i, c[i]);
    SumToLe(floor[i := c[i]], c, |cands|);
    assert |cands| * (1 - Total(cands)) == -(|cands| - 1) * (Total(cands) - 1) + (1 - Total(cands));
  }

  lemma RangeProduct(n: nat, total: nat)
    requires 0 < n < 0x8000 && total <= n * 0xFFFF_FFFF
    ensures (n - 1) * (total - 1) + total < 0x4000_0000_0000_0000
  {
    assert (n - 1) * (total - 1) + total == n * total - n + 1;
    MulMonotone(total, 0x7FFF * 0xFFFF_FFFF, n);
    MulMonotone(n, 0x7FFF, 0x7FFF * 0xFFFF_FFFF);
  }

  /** With fewer than 2^15 candidates no intermediate value leaves the range of `i64`. */
  lemma CountersFitI64(cands: seq<Candidate>, n: nat, i: nat)
    requires i < |cands| < 0x8000 && Total(cands) > 0
    ensures
      var c := Counters(cands, n);
      -0x8000_0000_0000_0000 <= c[i] <= Raised(cands, c)[i] < 0x8000_0000_0000_0000
  {
    CounterFloor(cands, n, i);
    CounterCeiling(cands, n, i);
    WeightsBound(cands, |cands|);
    RangeProduct(|cands|, Total(cands));
  }
}
