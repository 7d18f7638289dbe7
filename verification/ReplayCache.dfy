/**
 * The replay cache as it is kept in memory: per key, a window of 64-bit words
 * changed in place.  Every operation is specified by the ring it represents.
 */
module ReplayCache {
  import opened MachineTypes
  import opened Replay
  import opened WordBits

  // ----- A row of words read as a row of marks -----

  function Marks(words: seq<Word>): (m: seq<bool>)
    ensures |m| == 64 * |words|
  {
    seq(64 * |words|, i requires 0 <= i < 64 * |words| => Bit(words[i / 64], i % 64))
  }

  lemma MarksAfterSet(words: seq<Word>, i: nat)
    requires i < 64 * |words|
    ensures Marks(words[i / 64 := WithBit(words[i / 64], i % 64)]) == Marks(words)[i := true]
  {
    hide Bit, WithBit, WithoutBit;
    var after := Marks(words[i / 64 := WithBit(words[i / 64], i % 64)]);
    forall j | 0 <= j < |after| ensures after[j] == Marks(words)[i := true][j] {
      WordOperations(words[i / 64], i % 64, j % 64);
    }
  }

  lemma MarksAfterClear(words: seq<Word>, i: nat)
    requires i < 64 * |words|
    ensures Marks(words[i / 64 := WithoutBit(words[i / 64], i % 64)]) == Marks(words)[i := false]
  {
    hide Bit, WithBit, WithoutBit;
    var after := Marks(words[i / 64 := WithoutBit(words[i / 64], i % 64)]);
    forall j | 0 <= j < |after| ensures after[j] == Marks(words)[i := false][j] {
      WordOperations(words[i / 64], i % 64, j % 64);
    }
  }

  lemma BlankMarks(words: seq<Word>)
    requires forall j :: 0 <= j < |words| ==> words[j] == 0
    ensures Marks(words) == seq(64 * |words|, _ => false)
  {
    hide Bit;
    forall i | 0 <= i < 64 * |words| ensures !Marks(words)[i] {
      WordOperations(0, i % 64, i % 64);
    }
  }

  class Window {
    var highest: u64
    var seen: bool
    const bits: array<Word>

    ghost predicate Valid() { bits.Length > 0 }

    ghost function Ring(): Ring
      reads this, bits
    {
      Replay.Ring(seen, highest, Marks(bits[..]))
    }

    constructor (words: nat)
      requires words > 0
      ensures Valid() && fresh(bits) && bits.Length == words
      ensures Ring() == FreshRing(64 * words)
    {
      highest, seen := 0, false;
      bits := new Word[words](_ => 0);
      new;
      BlankMarks(bits[..]);
    }

    method Test(counter: u64) returns (hit: bool)
      requires Valid()
      ensures hit == Ring().marks[counter % |Ring().marks|]
    {
      hide Bit;
      var idx := counter % (bits.Length * 64);
      hit := Bit(bits[idx / 64], idx % 64);
      assert bits[..][idx / 64] == bits[idx / 64];
    }

    method Set(counter: u64)
      requires Valid()
      modifies bits
      ensures Marks(bits[..]) == old(Marks(bits[..]))[counter % (64 * bits.Length) := true]
    {
      hide Bit, WithBit, WithoutBit;
      var idx := counter % (bits.Length * 64);
      MarksAfterSet(bits[..], idx);
      ghost var words := bits[..];
      bits[idx / 64] := WithBit(bits[idx / 64], idx % 64);
      assert bits[..] == words[idx / 64 := WithBit(words[idx / 64], idx % 64)];
    }

    method Clear(counter: u64)
      requires Valid()
      modifies bits
      ensures Marks(bits[..]) == old(Marks(bits[..]))[counter % (64 * bits.Length) := false]
    {
      hide Bit, WithBit, WithoutBit;
      var idx := counter % (bits.Length * 64);
      MarksAfterClear(bits[..], idx);
      ghost var words := bits[..];
      bits[idx / 64] := WithoutBit(bits[idx / 64], idx % 64);
      assert bits[..] == words[idx / 64 := WithoutBit(words[idx / 64], idx % 64)];
    }

    method Wipe()
      requires Valid()
      modifies bits
      ensures Marks(bits[..]) == seq(64 * bits.Length, _ => false)
    {
      for i := 0 to bits.Length
        invariant forall j :: 0 <= j < i ==> bits[j] == 0
      {
        bits[i] := 0;
      }
      BlankMarks(bits[..]);
    }

    method ClearSkipped(counter: u64)
      requires Valid() && counter > highest
      modifies bits
      ensures Marks(bits[..]) == ClearSlots(old(Marks(bits[..])), highest + 1, counter)
    {
      ghost var goal := ClearSlots(Marks(bits[..]), highest + 1, counter);
      var skipped := highest + 1;
      while skipped < counter
        invariant highest + 1 <= skipped <= counter
        invariant ClearSlots(Marks(bits[..]), skipped, counter) == goal
      {
        Clear(skipped);
        skipped := skipped + 1;
      }
    }

    method CheckAndInsert(window: u64, counter: u64) returns (d: Decision)
      requires Valid()
      modifies this, bits
      ensures d == RingDecision(old(Ring()), window, counter)
      ensures Ring() == RingNext(old(Ring()), window, counter)
    {
      if !seen {
        seen := true;
        highest := counter;
        Set(counter);
        return Accept;
      }
      if counter > highest {
        var diff := counter - highest;
        if diff >= window {
          Wipe();
        } else {
          ClearSkipped(counter);
        }
        highest := counter;
        Set(counter);
        return Accept;
      }
      var diff := highest - counter;
      if diff >= window {
        return TooOld;
      }
      var hit := Test(counter);
      if hit {
        return Duplicate;
      }
      Set(counter);
      return Accept;
    }
  }

  // ----- The cache: one window per (peer, epoch, boot salt) -----

  datatype Key = Key(peer: string, epoch: u64, bootSalt: seq<byte>)

  type Rings = map<Key, Ring>

  predicate RingsSized(rings: Rings, window: u64) {
    forall k :: k in rings ==> |rings[k].marks| == 64 * Words(window)
  }

  function RingAt(rings: Rings, window: u64, key: Key): (r: Ring)
    ensures RingsSized(rings, window) ==> |r.marks| == 64 * Words(window)
  {
    if key in rings then rings[key] else FreshRing(64 * Words(window))
  }

  function CacheDecision(rings: Rings, window: u64, key: Key, counter: u64): Decision
    requires RingsSized(rings, window)
  {
    RingDecision(RingAt(rings, window, key), window, counter)
  }

  function CacheNext(rings: Rings, window: u64, key: Key, counter: u64): (rings': Rings)
    requires RingsSized(rings, window)
    ensures RingsSized(rings', window)
  {
    rings[key := RingNext(RingAt(rings, window, key), window, counter)]
  }

  class Cache {
    const window: u64
    const words: nat
    var windows: map<Key, Window>
    ghost var Repr: set<object>

    ghost predicate Valid()
      reads this
    {
      && words == Words(window)
      && this !in Repr
      && (forall k :: k in windows ==>
            windows[k] in Repr && windows[k].bits in Repr && windows[k].bits.Length == words)
      && (forall k, l :: k in windows && l in windows && k != l ==>
            windows[k] != windows[l] && windows[k].bits != windows[l].bits)
    }

    ghost function Contents(): (m: Rings)
      requires Valid()
      reads this, Repr
      ensures RingsSized(m, window)
    {
      map k | k in windows :: windows[k].Ring()
    }

    constructor (window: u64)
      ensures Valid() && this.window == window
      ensures Contents() == map[] && Repr == {}
    {
      this.window := window;
      words := Words(window);
      windows := map[];
      Repr := {};
    }

    /** `windows.entry(key).or_insert_with(..)` */
    method Entry(key: Key)
      requires Valid()
      modifies this
      ensures Valid() && fresh(Repr - old(Repr))
      ensures key in windows
      ensures Contents() == old(Contents())[key := RingAt(old(Contents()), window, key)]
    {
      hide RingDecision, RingNext, Marks, RingsSized;
      if key !in windows {
        var w := new Window(words);
        windows := windows[key := w];
        Repr := Repr + {w, w.bits};
      }
    }

    method Advance(key: Key, counter: u64) returns (d: Decision)
      requires Valid() && key in windows
      modifies windows[key], windows[key].bits
      ensures d == RingDecision(old(Contents())[key], window, counter)
      ensures Contents() == old(Contents())[key := RingNext(old(Contents())[key], window, counter)]
    {
      hide RingDecision, RingNext, Marks, RingsSized;
      ghost var was := Contents();
      d := windows[key].CheckAndInsert(window, counter);
      assert forall k :: k in windows && k != key ==> windows[k].Ring() == was[k];
    }

    method CheckAndInsert(peer: string, epoch: u64, bootSalt: seq<byte>, counter: u64) returns (d: Decision)
      requires Valid()
      modifies this, Repr
      ensures Valid() && fresh(Repr - old(Repr))
      ensures d == CacheDecision(old(Contents()), window, Key(peer, epoch, bootSalt), counter)
      ensures Contents() == CacheNext(old(Contents()), window, Key(peer, epoch, bootSalt), counter)
    {
      hide RingDecision, RingNext, RingAt, RingsSized, Contents;
      var key := Key(peer, epoch, bootSalt);
      Entry(key);
      d := Advance(key, counter);
    }
  }
}
