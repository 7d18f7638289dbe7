/**
 * Weighted round robin and weighted consistent hashing.  Both serve the same
 * list: every candidate repeated as often as its weight, in order.
 */
module Wrr {
  import opened MachineTypes
  import opened Arithmetic
  import opened Candidates

  /** Each index below n, repeated weight times, in order. */
  function SlotsTo(cands: seq<Candidate>, n: nat): (s: seq<nat>)
    requires n <= |cands|
    ensures |s| == WeightBefore(cands, n)
    ensures forall k :: 0 <= k < |s| ==> s[k] < n
  {
    if n == 0 then [] else SlotsTo(cands, n - 1) + seq(cands[n - 1].weight, _ => n - 1)
  }

  function Slots(cands: seq<Candidate>): (s: seq<nat>)
    ensures |s| == Total(cands)
    ensures forall k :: 0 <= k < |s| ==> s[k] < |cands|
  {
    SlotsTo(cands, |cands|)
  }

  lemma {:induction false} SlotAt(cands: seq<Candidate>, n: nat, i: nat, c: nat)
    requires i < n <= |cands| && c < cands[i].weight
    ensures WeightBefore(cands, i) + c < WeightBefore(cands, n)
    ensures SlotsTo(cands, n)[WeightBefore(cands, i) + c] == i
  {
    if i < n - 1 { SlotAt(cands, n - 1, i, c); }
  }

  /** What a run of n picks is promised: entry n mod W of the list. */
  function Nth(cands: seq<Candidate>, n: nat): (i: nat)
    requires Total(cands) > 0
    ensures i < |cands|
  {
    Slots(cands)[n % Total(cands)]
  }

  /** Stepping past a served-out candidate stays at the same list position, modulo the list. */
  lemma StepPast(cands: seq<Candidate>, cursor: nat)
    requires cursor < |cands| && Total(cands) > 0
    ensures
      var next := (cursor + 1) % |cands|;
      var here := WeightBefore(cands, cursor) + cands[cursor].weight;
      && next < |cands| && here % Total(cands) == WeightBefore(cands, next) % Total(cands)
      && (here == Total(cands) ==> (next > cursor && WeightBefore(cands, next) == here) || next == 0)
      && (here < Total(cands) ==> next > cursor && WeightBefore(cands, next) == here)
      && WeightBefore(cands, next) <= Total(cands)
  {
    if cursor + 1 < |cands| {
      DivModUnique(cursor + 1, 0, cursor + 1, |cands|);
      WeightBeforeMonotone(cands, cursor + 1, |cands|);
    } else {
      DivModUnique(cursor + 1, 1, 0, |cands|);
      DivModUnique(Total(cands), 1, 0, Total(cands));
    }
  }

  lemma ServeStep(offset: nat, served: nat, total: nat)
    requires offset < total && offset % total == served % total
    ensures offset == served % total && (offset + 1) % total == (served + 1) % total
  {
    DivModUnique(offset, 0, offset, total);
    var q := served / total;
    if offset + 1 < total {
      DivModUnique(served + 1, q, offset + 1, total);
      DivModUnique(offset + 1, 0, offset + 1, total);
    } else {
      DivModUnique(served + 1, q + 1, 0, total);
      DivModUnique(offset + 1, 1, 0, total);
    }
  }

  class Wrr {
    const cands: seq<Candidate>
    var cursor: nat
    var counter: nat
    ghost var served: nat

    /** How far into the list the cursor stands. */
    ghost function Offset(): int
      requires cursor < |cands|
      reads this
    {
      WeightBefore(cands, cursor) + counter
    }

    ghost predicate Valid()
      reads this
    {
      cands != [] ==>
        && cursor < |cands| && counter <= cands[cursor].weight
        && (Total(cands) > 0 ==> Offset() % Total(cands) == served % Total(cands))
    }

    constructor (cands: seq<Candidate>)
      ensures Valid() && this.cands == cands && served == 0
    {
      this.cands := cands;
      cursor, counter, served := 0, 0, 0;
    }

    /** `PickEndsIff` shows that a positive total is exactly what the loop needs to return. */
    method Pick() returns (picked: Option<string>)
      requires Valid()
      requires cands == [] || Total(cands) > 0
      modifies this
      ensures Valid()
      ensures cands == [] ==> picked == None
      ensures cands != [] ==> picked == Some(cands[Nth(cands, old(served))].id) && served == old(served) + 1
    {
      if |cands| == 0 {
        return None;
      }
      ghost var total := Total(cands);
      WeightBeforeMonotone(cands, cursor + 1, |cands|);
      while true
        invariant cursor < |cands| && counter <= cands[cursor].weight && served == old(served)
        invariant 0 <= Offset() <= total && Offset() % total == served % total
        decreases Offset() == total, |cands| - cursor
      {
        var c := cands[cursor];
        if counter < c.weight {
          SlotAt(cands, |cands|, cursor, counter);
          ServeStep(Offset(), served, total);
          counter := counter + 1;
          served := served + 1;
          return Some(c.id);
        }
        StepPast(cands, cursor);
        cursor := (cursor + 1) % |cands|;
        counter := 0;
      }
    }
  }

  // ----- When the loop returns -----

  /** Who is served within so many turns of the loop, if anyone. */
  function Served(cands: seq<Candidate>, cursor: nat, counter: nat, turns: nat): Option<nat>
    requires cursor < |cands|
    decreases turns
  {
    if turns == 0 then None
    else if counter < cands[cursor].weight then Some(cursor)
    else Served(cands, (cursor + 1) % |cands|, 0, turns - 1)
  }

  lemma {:induction false} NoWeightNoService(cands: seq<Candidate>, cursor: nat, counter: nat, turns: nat)
    requires cursor < |cands| && forall i :: 0 <= i < |cands| ==> cands[i].weight == 0
    ensures Served(cands, cursor, counter, turns) == None
    decreases turns
  {
    if turns > 0 { NoWeightNoService(cands, (cursor + 1) % |cands|, 0, turns - 1); }
  }

  /** From a fresh stand at any cursor the loop reaches a candidate with weight. */
  lemma {:induction false} WeightIsReached(cands: seq<Candidate>, cursor: nat, i: nat) returns (turns: nat)
    requires cursor < |cands| && i < |cands| && cands[i].weight > 0
    ensures Served(cands, cursor, 0, turns).Some?
    decreases if cursor <= i then i - cursor else |cands| - cursor + i
  {
    if cands[cursor].weight > 0 {
      turns := 1;
    } else {
      if cursor + 1 < |cands| {
        DivModUnique(cursor + 1, 0, cursor + 1, |cands|);
      } else {
        DivModUnique(cursor + 1, 1, 0, |cands|);
      }
      var rest := WeightIsReached(cands, (cursor + 1) % |cands|, i);
      turns := rest + 1;
    }
  }

  lemma ServedLater(cands: seq<Candidate>, cursor: nat, counter: nat, turns: nat)
    requires cursor < |cands| && Served(cands, (cursor + 1) % |cands|, 0, turns).Some?
    ensures Served(cands, cursor, counter, turns + 1).Some?
  {
  }

  lemma SomeWeightServes(cands: seq<Candidate>, cursor: nat, counter: nat, i: nat)
    requires cursor < |cands| && i < |cands| && cands[i].weight > 0
    ensures exists turns :: Served(cands, cursor, counter, turns).Some?
  {
    hide Served;
    var rest := WeightIsReached(cands, (cursor + 1) % |cands|, i);
    ServedLater(cands, cursor, counter, rest);
  }

  lemma SomeWeightCounts(cands: seq<Candidate>, i: nat)
    requires i < |cands| && cands[i].weight > 0
    ensures Total(cands) > 0
  {
    WeightBeforeMonotone(cands, i + 1, |cands|);
    WeightBeforeMonotone(cands, 0, i);
  }

  /** From any state the loop returns after some number of turns if and only if some weight is positive. */
  lemma PickEndsIff(cands: seq<Candidate>, cursor: nat, counter: nat)
    requires cursor < |cands|
    ensures (exists turns :: Served(cands, cursor, counter, turns).Some?) <==> Total(cands) > 0
  {
    hide Served, Total;
    if i :| 0 <= i < |cands| && cands[i].weight > 0 {
      SomeWeightServes(cands, cursor, counter, i);
      SomeWeightCounts(cands, i);
    } else {
      forall turns ensures Served(cands, cursor, counter, turns) == None {
        NoWeightNoService(cands, cursor, counter, turns);
      }
      NoTotal(cands);
    }
  }

  lemma NoTotal(cands: seq<Candidate>)
    requires forall i :: 0 <= i < |cands| ==> cands[i].weight == 0
    ensures Total(cands) == 0
  {
    NoWeightNoTotal(cands, |cands|);
  }

  lemma {:induction false} NoWeightNoTotal(cands: seq<Candidate>, n: nat)
    requires n <= |cands| && forall i :: 0 <= i < |cands| ==> cands[i].weight == 0
    ensures WeightBefore(cands, n) == 0
  {
    if n > 0 { NoWeightNoTotal(cands, n - 1); }
  }

  /** `ConsistentHash::pick` after hashing the key to h. */
  method PickByHash(cands: seq<Candidate>, h: u64) returns (picked: Option<string>)
    ensures picked == if Total(cands) == 0 then None else Some(cands[Nth(cands, h)].id)
  {
    if |cands| == 0 {
      return None;
    }
    var total := 0;
    for i := 0 to |cands|
      invariant total == WeightBefore(cands, i)
    {
      total := total + cands[i].weight;
    }
    if total == 0 {
      return None;
    }
    var bucket := h % total;
    for i := 0 to |cands|
      invariant 0 <= bucket && WeightBefore(cands, i) + bucket == h % total
    {
      var w := cands[i].weight;
      if bucket < w {
        SlotAt(cands, |cands|, i, bucket);
        return Some(cands[i].id);
      }
      bucket := bucket - w;
    }
    assert false;
  }

  // ----- Fair shares -----

  /** How many of the first n picks take candidate i. */
  function Taken(cands: seq<Candidate>, i: nat, n: nat): nat
    requires Total(cands) > 0
  {
    if n == 0 then 0 else Taken(cands, i, n - 1) + (if Nth(cands, n - 1) == i then 1 else 0)
  }

  lemma {:induction false} TakenWithin(cands: seq<Candidate>, i: nat, j: nat, c: nat)
    requires Total(cands) > 0 && ((j < |cands| && c <= cands[j].weight) || (j == |cands| && c == 0))
    ensures Taken(cands, i, WeightBefore(cands, j) + c)
            == if i < j then cands[i].weight else if i == j then c else 0
    decreases j, c
  {
    if c > 0 {
      TakenWithin(cands, i, j, c - 1);
      SlotAt(cands, |cands|, j, c - 1);
      var n := WeightBefore(cands, j) + c - 1;
      DivModUnique(n, 0, n, Total(cands));
    } else if j > 0 {
      TakenWithin(cands, i, j - 1, cands[j - 1].weight);
    }
  }

  lemma NthRepeats(cands: seq<Candidate>, n: nat)
    requires Total(cands) > 0
    ensures Nth(cands, n + Total(cands)) == Nth(cands, n)
  {
    var t := Total(cands);
    assert (n / t + 1) * t == n / t * t + t;
    DivModUnique(n + t, n / t + 1, n % t, t);
  }

  /** Any stretch of W consecutive picks takes each candidate exactly its weight. */
  lemma {:induction false} RoundShare(cands: seq<Candidate>, i: nat, start: nat)
    requires Total(cands) > 0 && i < |cands|
    ensures Taken(cands, i, start + Total(cands)) - Taken(cands, i, start) == cands[i].weight
  {
    if start == 0 {
      TakenWithin(cands, i, |cands|, 0);
    } else {
      RoundShare(cands, i, start - 1);
      NthRepeats(cands, start - 1);
    }
  }
}
