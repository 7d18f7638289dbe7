/** One-XOR-parity repair: the parity of a generation of chunks recovers any one lost chunk. */
module Parity {
  import opened MachineTypes

  type Chunk = seq<bv8>

  /** Byte j of a chunk padded with zeros. */
  function ByteAt(c: Chunk, j: nat): bv8 {
    if j < |c| then c[j] else 0
  }

  /** The XOR of byte j over the first n chunks. */
  function Column(chunks: seq<Chunk>, j: nat, n: nat): bv8
    requires n <= |chunks|
  {
    if n == 0 then 0 else Column(chunks, j, n - 1) ^ ByteAt(chunks[n - 1], j)
  }

  function Width(chunks: seq<Chunk>, n: nat): (w: nat)
    requires n <= |chunks|
    ensures forall k :: 0 <= k < n ==> |chunks[k]| <= w
  {
    if n == 0 then 0
    else
      var w := Width(chunks, n - 1);
      if |chunks[n - 1]| > w then |chunks[n - 1]| else w
  }

  function ParityOf(chunks: seq<Chunk>): Chunk {
    seq(Width(chunks, |chunks|), j requires 0 <= j => Column(chunks, j, |chunks|))
  }

  method XorParity(chunks: seq<Chunk>) returns (r: Chunk)
    ensures r == ParityOf(chunks)
  {
    var width := 0;
    for k := 0 to |chunks|
      invariant width == Width(chunks, k)
    {
      if |chunks[k]| > width {
        width := |chunks[k]|;
      }
    }
    var parity := new bv8[width](_ => 0);
    for k := 0 to |chunks|
      invariant forall j :: 0 <= j < width ==> parity[j] == Column(chunks, j, k)
    {
      XorInto(parity, chunks[k]);
    }
    r := parity[..];
  }

  /** `for (p, b) in out.iter_mut().zip(chunk)`: stops at the shorter of the two. */
  method XorInto(out: array<bv8>, chunk: Chunk)
    modifies out
    ensures forall j :: 0 <= j < out.Length ==> out[j] == old(out[j]) ^ ByteAt(chunk, j)
  {
    var i := 0;
    while i < out.Length && i < |chunk|
      invariant 0 <= i <= out.Length && i <= |chunk|
      invariant forall j :: 0 <= j < out.Length ==> out[j] == if j < i then old(out[j]) ^ ByteAt(chunk, j) else old(out[j])
    {
      out[i] := out[i] ^ chunk[i];
      i := i + 1;
    }
  }

  // ----- Reconstruction -----

  function Missing(present: seq<Option<Chunk>>, n: nat): nat
    requires n <= |present|
  {
    if n == 0 then 0 else Missing(present, n - 1) + (if present[n - 1].None? then 1 else 0)
  }

  /** What survives, a lost slot counting as an empty chunk. */
  function Survivors(present: seq<Option<Chunk>>): (s: seq<Chunk>)
    ensures |s| == |present|
  {
    seq(|present|, k requires 0 <= k < |present| => if present[k].Some? then present[k].value else [])
  }

  function Longest(present: seq<Option<Chunk>>, parity: Chunk): nat {
    var w := Width(Survivors(present), |present|);
    if w > |parity| then w else |parity|
  }

  function Repaired(present: seq<Option<Chunk>>, parity: Chunk): Chunk {
    seq(Longest(present, parity), j requires 0 <= j => ByteAt(parity, j) ^ Column(Survivors(present), j, |present|))
  }

  lemma {:induction false} MissingMonotone(present: seq<Option<Chunk>>, m: nat, n: nat)
    requires m <= n <= |present|
    ensures Missing(present, m) <= Missing(present, n)
  {
    if m < n { MissingMonotone(present, m, n - 1); }
  }

  method OneMissing(present: seq<Option<Chunk>>) returns (one: bool)
    ensures one <==> Missing(present, |present|) == 1
  {
    var missing: Option<nat> := None;
    for k := 0 to |present|
      invariant Missing(present, k) == if missing.Some? then 1 else 0
    {
      if present[k].None? {
        if missing.Some? {
          MissingMonotone(present, k + 1, |present|);
          return false;
        }
        missing := Some(k);
      }
    }
    return missing.Some?;
  }

  /** `resize(len, 0)` */
  method Grow(out: array<bv8>, len: nat) returns (longer: array<bv8>)
    requires len >= out.Length
    ensures fresh(longer) && longer.Length == len
    ensures forall j :: 0 <= j < len ==> longer[j] == if j < out.Length then out[j] else 0
  {
    longer := new bv8[len](_ => 0);
    for i := 0 to out.Length
      invariant forall j :: 0 <= j < len ==> longer[j] == if j < i then out[j] else 0
    {
      longer[i] := out[i];
    }
  }

  /** Folds one slot in: longer slots grow the result first, lost slots change nothing. */
  method FoldSlot(out: array<bv8>, slot: Option<Chunk>) returns (next: array<bv8>)
    modifies out
    ensures next == out || fresh(next)
    ensures
      var chunk := if slot.Some? then slot.value else [];
      && next.Length == (if |chunk| > out.Length then |chunk| else out.Length)
      && forall j :: 0 <= j < next.Length ==> next[j] == (if j < out.Length then old(out[j]) else 0) ^ ByteAt(chunk, j)
  {
    next := out;
    if slot.Some? {
      if |slot.value| > out.Length {
        next := Grow(out, |slot.value|);
      }
      XorInto(next, slot.value);
    }
  }

  /** A reconstruction is returned exactly when one slot is missing. */
  method ReconstructMissing(present: seq<Option<Chunk>>, parity: Chunk) returns (r: Option<Chunk>)
    ensures r == if Missing(present, |present|) == 1 then Some(Repaired(present, parity)) else None
  {
    var one := OneMissing(present);
    if !one {
      return None;
    }
    ghost var kept := Survivors(present);
    var out := new bv8[|parity|](j requires 0 <= j < |parity| => parity[j]);
    for k := 0 to |present|
      invariant fresh(out)
      invariant out.Length == if Width(kept, k) > |parity| then Width(kept, k) else |parity|
      invariant forall j :: 0 <= j < out.Length ==> out[j] == ByteAt(parity, j) ^ Column(kept, j, k)
    {
      BeyondWidth(kept, k, out.Length);
      ghost var before, len := out[..], out.Length;
      out := FoldSlot(out, present[k]);
      forall j | 0 <= j < out.Length ensures out[j] == ByteAt(parity, j) ^ Column(kept, j, k + 1) {
        XorAssoc(ByteAt(parity, j), Column(kept, j, k), ByteAt(kept[k], j));
      }
    }
    assert out[..] == Repaired(present, parity);
    r := Some(out[..]);
  }

  lemma XorAssoc(a: bv8, b: bv8, c: bv8)
    ensures (a ^ b) ^ c == a ^ (b ^ c) && 0 ^ c == c && (0 as bv8) ^ 0 == 0
  {
  }

  /** Past every chunk's end the column is zero. */
  lemma {:induction false} BeyondWidth(chunks: seq<Chunk>, n: nat, w: nat)
    requires n <= |chunks| && Width(chunks, n) <= w
    ensures forall j :: j >= w ==> Column(chunks, j, n) == 0
  {
    if n > 0 { BeyondWidth(chunks, n - 1, w); }
  }

  // ----- Any one lost chunk comes back -----

  /** The generation with slot m lost. */
  function Lose(chunks: seq<Chunk>, m: nat): seq<Option<Chunk>>
    requires m < |chunks|
  {
    seq(|chunks|, k requires 0 <= k < |chunks| => if k == m then None else Some(chunks[k]))
  }

  function Padded(c: Chunk, w: nat): Chunk {
    seq(w, j requires 0 <= j => ByteAt(c, j))
  }

  lemma {:induction false} LoseMissesOne(chunks: seq<Chunk>, m: nat, n: nat)
    requires m < |chunks| && n <= |chunks|
    ensures Missing(Lose(chunks, m), n) == if m < n then 1 else 0
  {
    if n > 0 { LoseMissesOne(chunks, m, n - 1); }
  }

  lemma XorMoves(a: bv8, b: bv8, c: bv8)
    ensures (a ^ b) ^ c == (a ^ c) ^ b && a ^ 0 == a && a ^ a == 0 && (a ^ b) ^ a == b
  {
  }

  /** Leaving one chunk out of a column leaves its byte out. */
  lemma {:induction false} ColumnWithout(chunks: seq<Chunk>, m: nat, j: nat, n: nat)
    requires m < |chunks| && n <= |chunks|
    ensures Column(Survivors(Lose(chunks, m)), j, n) == Column(chunks, j, n) ^ (if m < n then ByteAt(chunks[m], j) else 0)
  {
    var kept := Survivors(Lose(chunks, m));
    if n > 0 {
      ColumnWithout(chunks, m, j, n - 1);
      var c := Column(chunks, j, n - 1);
      XorMoves(c, ByteAt(chunks[n - 1], j), ByteAt(chunks[m], j));
      XorMoves(c, 0, ByteAt(chunks[n - 1], j));
      XorMoves(c, ByteAt(chunks[n - 1], j), c);
      if n - 1 == m {
        XorCancels(c, ByteAt(chunks[m], j));
      }
    }
  }

  lemma XorCancels(a: bv8, b: bv8)
    ensures (a ^ b) ^ b == a && a ^ (a ^ b) == b && a ^ 0 == a
  {
  }

  lemma {:induction false} WidthOfSurvivors(chunks: seq<Chunk>, m: nat, n: nat)
    requires m < |chunks| && n <= |chunks|
    ensures Width(Survivors(Lose(chunks, m)), n) <= Width(chunks, n)
  {
    if n > 0 { WidthOfSurvivors(chunks, m, n - 1); }
  }

  /**
   * For chunks of any lengths and any lost slot, the parity and the survivors
   * give the lost chunk back, padded with zeros to the longest length.
   */
  lemma LostChunkReturns(chunks: seq<Chunk>, m: nat)
    requires m < |chunks|
    ensures Missing(Lose(chunks, m), |chunks|) == 1
    ensures Repaired(Lose(chunks, m), ParityOf(chunks)) == Padded(chunks[m], Width(chunks, |chunks|))
  {
    var n := |chunks|;
    var w := Width(chunks, n);
    var present := Lose(chunks, m);
    LoseMissesOne(chunks, m, n);
    WidthOfSurvivors(chunks, m, n);
    var repaired := Repaired(present, ParityOf(chunks));
    assert |repaired| == w;
    forall j | 0 <= j < w ensures repaired[j] == Padded(chunks[m], w)[j] {
      ColumnWithout(chunks, m, j, n);
      XorCancels(Column(chunks, j, n), ByteAt(chunks[m], j));
    }
  }
}
