/**
 * Weighted rendezvous choice: the leftmost candidate of greatest score.  The
 * hash and logarithm behind the score are a parameter.
 */
module Rendezvous {
  import opened MachineTypes
  import opened Candidates

  /** Score of (source key, generation, candidate id, weight). */
  type Score = (string, nat, string, u32) -> real

  /** One scored choice: a fixed source key and generation, and possibly one excluded id. */
  datatype Draw = Draw(score: Score, key: string, generation: nat, exclude: Option<string>) {
    predicate Eligible(c: Candidate) { exclude != Some(c.id) }
    function ScoreOf(c: Candidate): real {
      score(key, generation, c.id, if c.weight > 1 then c.weight else 1)
    }
  }

  /** Index w holds the leftmost best score among the eligible candidates. */
  ghost predicate Wins(d: Draw, cands: seq<Candidate>, w: nat) {
    && w < |cands| && d.Eligible(cands[w])
    && (forall i :: 0 <= i < |cands| && d.Eligible(cands[i]) ==> d.ScoreOf(cands[i]) <= d.ScoreOf(cands[w]))
    && (forall i :: 0 <= i < w && d.Eligible(cands[i]) ==> d.ScoreOf(cands[i]) < d.ScoreOf(cands[w]))
  }

  ghost predicate NoneEligible(d: Draw, cands: seq<Candidate>) {
    forall i :: 0 <= i < |cands| ==> !d.Eligible(cands[i])
  }

  function WinnerOf(d: Draw, cands: seq<Candidate>, n: nat): (w: Option<nat>)
    requires n <= |cands|
    ensures w.Some? ==> w.value < n
  {
    if n == 0 then None else
      var best := WinnerOf(d, cands, n - 1);
      var c := cands[n - 1];
      if !d.Eligible(c) then best
      else if best.None? || d.ScoreOf(c) > d.ScoreOf(cands[best.value]) then Some(n - 1)
      else best
  }

  function Winner(d: Draw, cands: seq<Candidate>): (w: Option<nat>)
    ensures w.Some? ==> w.value < |cands|
  {
    WinnerOf(d, cands, |cands|)
  }

  lemma {:induction false} WinnerOfWins(d: Draw, cands: seq<Candidate>, n: nat)
    requires n <= |cands|
    ensures
      match WinnerOf(d, cands, n)
      case Some(w) => Wins(d, cands[..n], w)
      case None => NoneEligible(d, cands[..n])
  {
    if n > 0 { WinnerOfWins(d, cands, n - 1); }
  }

  lemma WinnerWins(d: Draw, cands: seq<Candidate>)
    ensures
      match Winner(d, cands)
      case Some(w) => Wins(d, cands, w)
      case None => NoneEligible(d, cands)
  {
    WinnerOfWins(d, cands, |cands|);
    assert cands[..|cands|] == cands;
  }

  lemma WinsUnique(d: Draw, cands: seq<Candidate>, w: nat)
    requires Wins(d, cands, w)
    ensures Winner(d, cands) == Some(w)
  {
    WinnerWins(d, cands);
  }

  method Pick(d: Draw, cands: seq<Candidate>) returns (picked: Option<string>)
    ensures picked == match Winner(d, cands) case Some(w) => Some(cands[w].id) case None => None
  {
    var best: Option<nat> := None;
    for i := 0 to |cands|
      invariant best == WinnerOf(d, cands, i)
    {
      if d.Eligible(cands[i]) {
        if best.None? || d.ScoreOf(cands[i]) > d.ScoreOf(cands[best.value]) {
          best := Some(i);
        }
      }
    }
    picked := match best case Some(w) => Some(cands[w].id) case None => None;
  }

  function Without(cands: seq<Candidate>, r: nat): seq<Candidate>
    requires r < |cands|
  {
    cands[..r] + cands[r + 1..]
  }

  /**
   * Minimal disruption: a candidate that joins or leaves anywhere in the list
   * changes the choice only if it is itself the choice of the longer list.
   */
  lemma MinimalDisruption(d: Draw, cands: seq<Candidate>, r: nat)
    requires r < |cands| && Winner(d, cands).Some? && Winner(d, cands) != Some(r)
    ensures
      var w := Winner(d, cands).value;
      && Winner(d, Without(cands, r)) == Some(if w < r then w else w - 1)
      && Without(cands, r)[if w < r then w else w - 1] == cands[w]
  {
    WinnerWins(d, cands);
    var w := Winner(d, cands).value;
    var rest := Without(cands, r);
    assert forall i :: 0 <= i < |rest| ==> rest[i] == cands[if i < r then i else i + 1];
    WinsUnique(d, rest, if w < r then w else w - 1);
  }
}
