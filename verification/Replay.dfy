/**
 * Sliding-window anti-replay for MeshSec envelope counters.
 *
 * Three layers: the ideal rule over the set of every counter ever accepted, a
 * circular array of marks, and the words the cache really keeps.  The marks
 * decide as the ideal rule does in every run exactly when the window is not
 * wider than the array.
 */
module Replay {
  import opened MachineTypes
  import opened Arithmetic

  datatype Decision = Accept | Duplicate | TooOld

  // ----- The ideal rule -----

  ghost predicate IsHighest(accepted: set<u64>, h: u64) {
    h in accepted && forall c :: c in accepted ==> c <= h
  }

  lemma HighestExists(accepted: set<u64>)
    requires accepted != {}
    ensures exists h: u64 :: IsHighest(accepted, h)
  {
    var c :| c in accepted;
    if accepted == {c} {
      assert IsHighest(accepted, c);
    } else {
      HighestExists(accepted - {c});
      var h: u64 :| IsHighest(accepted - {c}, h);
      assert accepted == (accepted - {c}) + {c};
      assert IsHighest(accepted, if c > h then c else h);
    }
  }

  ghost function Highest(accepted: set<u64>): (h: u64)
    requires accepted != {}
    ensures IsHighest(accepted, h)
  {
    HighestExists(accepted);
    var h: u64 :| IsHighest(accepted, h); h
  }

  /** What a receiver that remembers every accepted counter decides. */
  ghost function IdealDecision(accepted: set<u64>, window: u64, counter: u64): Decision {
    if accepted == {} || counter > Highest(accepted) then Accept
    else if Highest(accepted) - counter >= window then TooOld
    else if counter in accepted then Duplicate
    else Accept
  }

  ghost function IdealNext(accepted: set<u64>, window: u64, counter: u64): set<u64> {
    if IdealDecision(accepted, window, counter).Accept? then accepted + {counter} else accepted
  }

  ghost function IdealRun(accepted: set<u64>, window: u64, counters: seq<u64>): (ds: seq<Decision>)
    ensures |ds| == |counters|
    decreases |counters|
  {
    if counters == [] then [] else
      [IdealDecision(accepted, window, counters[0])]
      + IdealRun(IdealNext(accepted, window, counters[0]), window, counters[1..])
  }

  // ----- The circular array of marks -----

  datatype Ring = Ring(seen: bool, highest: u64, marks: seq<bool>)

  /** Words the cache allocates for a requested window size. */
  function Words(window: u64): (n: nat)
    ensures n >= 1
    ensures window <= 64 * n <==> window <= 64 || window % 64 == 0
    ensures window <= 64 * n + 1 <==> window <= 64 || window % 64 <= 1
  {
    if window / 64 >= 1 then window / 64 else 1
  }

  function FreshRing(size: nat): Ring {
    Ring(false, 0, seq(size, _ => false))
  }

  /** Clears the slots of counters lo, lo+1, ..., hi-1 in turn. */
  function ClearSlots(marks: seq<bool>, lo: nat, hi: nat): (r: seq<bool>)
    requires |marks| > 0
    ensures |r| == |marks|
    decreases hi - lo
  {
    if lo >= hi then marks else ClearSlots(marks[lo % |marks| := false], lo + 1, hi)
  }

  function RingDecision(r: Ring, window: u64, counter: u64): Decision
    requires |r.marks| > 0
  {
    if !r.seen || counter > r.highest then Accept
    else if r.highest - counter >= window then TooOld
    else if r.marks[counter % |r.marks|] then Duplicate
    else Accept
  }

  function RingNext(r: Ring, window: u64, counter: u64): (r': Ring)
    requires |r.marks| > 0
    ensures |r'.marks| == |r.marks|
  {
    var n := |r.marks|;
    if !r.seen then Ring(true, counter, r.marks[counter % n := true])
    else if counter > r.highest then
      var cleared := if counter - r.highest >= window then seq(n, _ => false)
                     else ClearSlots(r.marks, r.highest + 1, counter);
      Ring(true, counter, cleared[counter % n := true])
    else if RingDecision(r, window, counter).Accept? then r.(marks := r.marks[counter % n := true])
    else r
  }

  function RingRun(r: Ring, window: u64, counters: seq<u64>): (ds: seq<Decision>)
    requires |r.marks| > 0
    ensures |ds| == |counters|
    decreases |counters|
  {
    if counters == [] then [] else
      [RingDecision(r, window, counters[0])] + RingRun(RingNext(r, window, counters[0]), window, counters[1..])
  }

  // ----- Marks against the ideal -----

  /** The ring agrees with the accepted set on every counter still in the window. */
  ghost predicate Tracks(r: Ring, accepted: set<u64>, window: u64) {
    && |r.marks| > 0
    && (r.seen <==> accepted != {})
    && (!r.seen ==> forall i :: 0 <= i < |r.marks| ==> !r.marks[i])
    && (r.seen ==> IsHighest(accepted, r.highest))
    && (r.seen ==> forall c: u64 {:trigger c in accepted} ::
          c <= r.highest < c + window ==> (r.marks[c % |r.marks|] <==> c in accepted))
  }

  /** A slot survives the clearing pass iff no cleared counter maps onto it. */
  lemma {:induction false} ClearedSlot(marks: seq<bool>, lo: nat, hi: nat, i: nat)
    requires i < |marks|
    ensures ClearSlots(marks, lo, hi)[i]
            <==> marks[i] && forall k: nat {:trigger k % |marks|} :: lo <= k < hi ==> k % |marks| != i
    decreases hi - lo
  {
    if lo < hi {
      ClearedSlot(marks[lo % |marks| := false], lo + 1, hi, i);
    }
  }

  lemma AdvanceTracks(r: Ring, accepted: set<u64>, window: u64, counter: u64)
    requires Tracks(r, accepted, window) && window <= |r.marks|
    requires r.seen && counter > r.highest
    ensures Tracks(RingNext(r, window, counter), accepted + {counter}, window)
  {
    var n := |r.marks|;
    var next := RingNext(r, window, counter);
    var accepted' := accepted + {counter};
    assert IsHighest(accepted', counter);
    forall c: u64 | c <= counter < c + window
      ensures next.marks[c % n] <==> c in accepted'
    {
      if c != counter {
        DistinctResidues(c, counter, n);
        if counter - r.highest < window {
          ClearedSlot(r.marks, r.highest + 1, counter, c % n);
          if c <= r.highest {
            forall k: nat | r.highest + 1 <= k < counter ensures k % n != c % n { DistinctResidues(c, k, n); }
          }
        }
      }
    }
  }

  lemma InsertTracks(r: Ring, accepted: set<u64>, window: u64, counter: u64)
    requires Tracks(r, accepted, window) && window <= |r.marks|
    requires r.seen && counter <= r.highest < counter + window
    ensures Tracks(r.(marks := r.marks[counter % |r.marks| := true]), accepted + {counter}, window)
  {
    var n := |r.marks|;
    forall c: u64 | c <= r.highest < c + window && c != counter
      ensures c % n != counter % n
    {
      if c < counter { DistinctResidues(c, counter, n); } else { DistinctResidues(counter, c, n); }
    }
    assert IsHighest(accepted + {counter}, r.highest);
  }

  lemma HighestUnique(accepted: set<u64>, h: u64)
    requires IsHighest(accepted, h)
    ensures Highest(accepted) == h
  {
  }

  /** One step: the ring decides as the ideal rule and keeps tracking it. */
  lemma StepTracks(r: Ring, accepted: set<u64>, window: u64, counter: u64)
    requires Tracks(r, accepted, window) && window <= |r.marks|
    ensures RingDecision(r, window, counter) == IdealDecision(accepted, window, counter)
    ensures Tracks(RingNext(r, window, counter), IdealNext(accepted, window, counter), window)
  {
    if !r.seen {
      assert accepted + {counter} == {counter};
      assert IsHighest({counter}, counter);
      forall c: u64 | c <= counter < c + window && c != counter
        ensures c % |r.marks| != counter % |r.marks|
      {
        DistinctResidues(c, counter, |r.marks|);
      }
    } else {
      HighestUnique(accepted, r.highest);
      if counter > r.highest {
        AdvanceTracks(r, accepted, window, counter);
      } else if r.highest - counter < window && counter !in accepted {
        InsertTracks(r, accepted, window, counter);
      }
    }
  }

  lemma {:induction false} RunTracks(r: Ring, accepted: set<u64>, window: u64, counters: seq<u64>)
    requires Tracks(r, accepted, window) && window <= |r.marks|
    ensures RingRun(r, window, counters) == IdealRun(accepted, window, counters)
    decreases |counters|
  {
    if counters != [] {
      StepTracks(r, accepted, window, counters[0]);
      RunTracks(RingNext(r, window, counters[0]), IdealNext(accepted, window, counters[0]), window, counters[1..]);
    }
  }

  /** A window wider than the array refuses a fresh counter that shares a slot with the newest one. */
  lemma WideWindowRefusesFresh(window: u64)
    requires window > 64 * Words(window)
    ensures
      var size := 64 * Words(window);
      var counters: seq<u64> := [size, 0];
      && RingRun(FreshRing(size), window, counters) == [Accept, Duplicate]
      && IdealRun({}, window, counters) == [Accept, Accept]
  {
    var size: u64 := 64 * Words(window);
    var counters: seq<u64> := [size, 0];
    var r := RingNext(FreshRing(size), window, size);
    assert size % size == 0 && 0 % size == 0;
    assert counters[1..] == [0] && counters[1..][1..] == [];
    assert RingRun(r, window, [0]) == [Duplicate];
    assert IdealNext({}, window, size) == {size};
    HighestUnique({size}, size);
    assert IdealRun({size}, window, [0]) == [Accept];
  }

  /** Two or more slots too few, and a counter can even be accepted a second time. */
  lemma WideWindowAcceptsTwice(window: u64)
    requires window > 64 * Words(window) + 1
    ensures
      var size := 64 * Words(window);
      RingRun(FreshRing(size), window, [0, size + 1, 0]) == [Accept, Accept, Accept]
  {
    var size: u64 := 64 * Words(window);
    var r1 := RingNext(FreshRing(size), window, 0);
    var r2 := RingNext(r1, window, size + 1);
    DivModUnique(size + 1, 1, 1, size);
    DivModUnique(size, 1, 0, size);
    ClearedSlot(r1.marks, 1, size + 1, 0);
    assert !r2.marks[0];
    RunOfThree(FreshRing(size), window, 0, size + 1, 0);
  }

  lemma RunOfThree(r: Ring, window: u64, a: u64, b: u64, c: u64)
    requires |r.marks| > 0
    ensures
      var r1 := RingNext(r, window, a);
      var r2 := RingNext(r1, window, b);
      RingRun(r, window, [a, b, c])
        == [RingDecision(r, window, a), RingDecision(r1, window, b), RingDecision(r2, window, c)]
  {
    var r1 := RingNext(r, window, a);
    var r2 := RingNext(r1, window, b);
    assert [a, b, c][1..] == [b, c] && [b, c][1..] == [c] && [c][1..] == [];
    assert RingRun(r2, window, [c]) == [RingDecision(r2, window, c)];
    assert RingRun(r1, window, [b, c]) == [RingDecision(r1, window, b), RingDecision(r2, window, c)];
  }

  /**
   * Every run of a cache opened for `window` counters decides as the ideal rule
   * if and only if the window fits the words allocated for it.
   */
  lemma WindowExactness(window: u64)
    ensures (forall counters: seq<u64> ::
               RingRun(FreshRing(64 * Words(window)), window, counters) == IdealRun({}, window, counters))
            <==> (window <= 64 || window % 64 == 0)
  {
    if window <= 64 * Words(window) {
      forall counters: seq<u64>
        ensures RingRun(FreshRing(64 * Words(window)), window, counters) == IdealRun({}, window, counters)
      {
        RunTracks(FreshRing(64 * Words(window)), {}, window, counters);
      }
    } else {
      WideWindowRefusesFresh(window);
    }
  }

  // ----- What the ideal rule promises over a whole run -----

  /** The counters accepted by the first `k` decisions of a run. */
  function AcceptedBefore(counters: seq<u64>, decisions: seq<Decision>, k: nat): set<u64>
    requires k <= |counters| == |decisions|
  {
    set i | 0 <= i < k && decisions[i].Accept? :: counters[i]
  }

  lemma AcceptedBeforeTail(counters: seq<u64>, decisions: seq<Decision>, k: nat)
    requires 0 < k <= |counters| == |decisions|
    ensures AcceptedBefore(counters, decisions, k)
            == (if decisions[0].Accept? then {counters[0]} else {})
               + AcceptedBefore(counters[1..], decisions[1..], k - 1)
  {
    var head := if decisions[0].Accept? then {counters[0]} else {};
    var tail := AcceptedBefore(counters[1..], decisions[1..], k - 1);
    forall c | c in AcceptedBefore(counters, decisions, k) ensures c in head + tail {
      var i :| 0 <= i < k && decisions[i].Accept? && counters[i] == c;
      if i > 0 { assert decisions[1..][i - 1].Accept? && counters[1..][i - 1] == c; }
    }
    forall c | c in tail ensures c in AcceptedBefore(counters, decisions, k) {
      var i :| 0 <= i < k - 1 && decisions[1..][i].Accept? && counters[1..][i] == c;
      assert decisions[i + 1].Accept? && counters[i + 1] == c;
    }
  }

  /** Each decision of a run is the ideal decision over everything accepted before it. */
  lemma {:induction false} IdealRunDecides(accepted: set<u64>, window: u64, counters: seq<u64>, k: nat)
    requires k < |counters|
    ensures
      var ds := IdealRun(accepted, window, counters);
      ds[k] == IdealDecision(accepted + AcceptedBefore(counters, ds, k), window, counters[k])
    decreases |counters|
  {
    var ds := IdealRun(accepted, window, counters);
    if k == 0 {
      assert accepted + AcceptedBefore(counters, ds, 0) == accepted;
    } else {
      var accepted' := IdealNext(accepted, window, counters[0]);
      IdealRunDecides(accepted', window, counters[1..], k - 1);
      assert ds[1..] == IdealRun(accepted', window, counters[1..]);
      AcceptedBeforeTail(counters, ds, k);
      assert accepted + AcceptedBefore(counters, ds, k)
          == accepted' + AcceptedBefore(counters[1..], ds[1..], k - 1);
    }
  }

  /** Nothing accepted yet, or the counter lies above the highest accepted one minus the window. */
  ghost predicate InWindow(accepted: set<u64>, window: u64, counter: u64) {
    accepted == {} || counter > Highest(accepted) || counter + window > Highest(accepted)
  }

  /**
   * For a window that fits, over any run from fresh: decision k accepts iff the
   * counter was never accepted and is in the window, calls it a duplicate iff
   * it is in the window and was accepted, and too old otherwise.
   */
  lemma RunMeansIdeal(window: u64, counters: seq<u64>, k: nat)
    requires window <= 64 || window % 64 == 0
    requires k < |counters|
    ensures
      var ds := RingRun(FreshRing(64 * Words(window)), window, counters);
      var accepted := AcceptedBefore(counters, ds, k);
      && (ds[k].Accept? <==> InWindow(accepted, window, counters[k]) && counters[k] !in accepted)
      && (ds[k].Duplicate? <==> InWindow(accepted, window, counters[k]) && counters[k] in accepted)
  {
    RunTracks(FreshRing(64 * Words(window)), {}, window, counters);
    var ds := IdealRun({}, window, counters);
    var accepted := AcceptedBefore(counters, ds, k);
    IdealRunDecides({}, window, counters, k);
    assert {} + accepted == accepted;
    IdealMeaning(accepted, window, counters[k]);
  }

  lemma IdealMeaning(accepted: set<u64>, window: u64, counter: u64)
    ensures
      var d := IdealDecision(accepted, window, counter);
      && (d.Accept? <==> InWindow(accepted, window, counter) && counter !in accepted)
      && (d.Duplicate? <==> InWindow(accepted, window, counter) && counter in accepted)
  {
  }

  // ----- Never accepting twice needs less than agreeing with the ideal -----

  /** Every accepted counter still in the window is marked; other marks may be set as well. */
  ghost predicate Covers(r: Ring, accepted: set<u64>, window: u64) {
    && |r.marks| > 0
    && (r.seen <==> accepted != {})
    && (r.seen ==> IsHighest(accepted, r.highest))
    && (r.seen ==> forall c: u64 :: c in accepted && r.highest < c + window ==> r.marks[c % |r.marks|])
  }

  lemma AdvanceCovers(r: Ring, accepted: set<u64>, window: u64, counter: u64)
    requires Covers(r, accepted, window) && window <= |r.marks| + 1
    requires r.seen && counter > r.highest
    ensures Covers(RingNext(r, window, counter), accepted + {counter}, window)
  {
    var n := |r.marks|;
    var next := RingNext(r, window, counter);
    var accepted' := accepted + {counter};
    assert IsHighest(accepted', counter);
    forall c: u64 | c in accepted' && counter < c + window
      ensures next.marks[c % n]
    {
      if c != counter {
        assert c in accepted && c <= r.highest;
        ClearedSlot(r.marks, r.highest + 1, counter, c % n);
        forall k: nat | r.highest + 1 <= k < counter ensures k % n != c % n { DistinctResidues(c, k, n); }
      }
    }
  }

  /** One step: nothing accepted before is accepted again, and the ring goes on covering. */
  lemma StepCovers(r: Ring, accepted: set<u64>, window: u64, counter: u64)
    requires Covers(r, accepted, window) && window <= |r.marks| + 1
    ensures
      var d := RingDecision(r, window, counter);
      && (d.Accept? ==> counter !in accepted)
      && Covers(RingNext(r, window, counter), if d.Accept? then accepted + {counter} else accepted, window)
  {
    if !r.seen {
      assert accepted + {counter} == {counter};
      assert IsHighest({counter}, counter);
    } else if counter > r.highest {
      AdvanceCovers(r, accepted, window, counter);
    } else if RingDecision(r, window, counter).Accept? {
      assert IsHighest(accepted + {counter}, r.highest);
    }
  }

  lemma {:induction false} RefusedFrom(r: Ring, accepted: set<u64>, window: u64, counters: seq<u64>, j: nat)
    requires Covers(r, accepted, window) && window <= |r.marks| + 1
    requires j < |counters| && counters[j] in accepted
    ensures !RingRun(r, window, counters)[j].Accept?
    decreases |counters|
  {
    StepCovers(r, accepted, window, counters[0]);
    if j > 0 {
      var accepted' := if RingDecision(r, window, counters[0]).Accept? then accepted + {counters[0]} else accepted;
      RefusedFrom(RingNext(r, window, counters[0]), accepted', window, counters[1..], j - 1);
    }
  }

  lemma {:induction false} AcceptedOnceFrom(r: Ring, accepted: set<u64>, window: u64, counters: seq<u64>,
                                            i: nat, j: nat)
    requires Covers(r, accepted, window) && window <= |r.marks| + 1
    requires i < j < |counters| && counters[i] == counters[j]
    ensures var ds := RingRun(r, window, counters); !(ds[i].Accept? && ds[j].Accept?)
    decreases |counters|
  {
    StepCovers(r, accepted, window, counters[0]);
    var d := RingDecision(r, window, counters[0]);
    var r', accepted' := RingNext(r, window, counters[0]), if d.Accept? then accepted + {counters[0]} else accepted;
    if i > 0 {
      AcceptedOnceFrom(r', accepted', window, counters[1..], i - 1, j - 1);
    } else if d.Accept? {
      RefusedFrom(r', accepted', window, counters[1..], j - 1);
    }
  }

  /** No counter is accepted twice in any run, as long as the window is at most one wider than its words. */
  lemma NeverAcceptedTwice(window: u64, counters: seq<u64>, i: nat, j: nat)
    requires window <= 64 || window % 64 <= 1
    requires i < j < |counters| && counters[i] == counters[j]
    ensures
      var ds := RingRun(FreshRing(64 * Words(window)), window, counters);
      !(ds[i].Accept? && ds[j].Accept?)
  {
    AcceptedOnceFrom(FreshRing(64 * Words(window)), {}, window, counters, i, j);
  }

  /** The run accepts no counter twice. */
  ghost predicate AcceptsOnce(window: u64, counters: seq<u64>) {
    var ds := RingRun(FreshRing(64 * Words(window)), window, counters);
    forall i, j :: 0 <= i < j < |counters| && counters[i] == counters[j] ==> !(ds[i].Accept? && ds[j].Accept?)
  }

  /** No run accepts a counter twice if and only if the window is at most one wider than its words. */
  lemma AcceptsOnceIff(window: u64)
    ensures (forall counters: seq<u64> :: AcceptsOnce(window, counters)) <==> (window <= 64 || window % 64 <= 1)
  {
    if window <= 64 || window % 64 <= 1 {
      forall counters: seq<u64> ensures AcceptsOnce(window, counters) {
        forall i, j | 0 <= i < j < |counters| && counters[i] == counters[j]
          ensures
            var ds := RingRun(FreshRing(64 * Words(window)), window, counters);
            !(ds[i].Accept? && ds[j].Accept?)
        {
          NeverAcceptedTwice(window, counters, i, j);
        }
      }
    } else {
      WideWindowAcceptsTwice(window);
      var counters: seq<u64> := [0, 64 * Words(window) + 1, 0];
      assert counters[0] == counters[2] && !AcceptsOnce(window, counters);
    }
  }
}
