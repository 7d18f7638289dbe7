/** Reading known bytes at a known place in a longer buffer. */
module Slices {
  import opened MachineTypes
  import opened Endian

  /** `bytes` stand in `buf` at `pos`. */
  predicate At(buf: seq<byte>, pos: nat, bytes: seq<byte>) {
    pos + |bytes| <= |buf| && buf[pos..pos + |bytes|] == bytes
  }

  lemma AtSplit(buf: seq<byte>, pos: nat, a: seq<byte>, b: seq<byte>)
    requires At(buf, pos, a + b)
    ensures At(buf, pos, a) && At(buf, pos + |a|, b)
  {
    var whole := buf[pos..pos + |a + b|];
    assert buf[pos..pos + |a|] == whole[..|a|] == a;
    assert buf[pos + |a|..pos + |a| + |b|] == whole[|a|..] == b;
  }

  lemma AtIndex(buf: seq<byte>, pos: nat, bytes: seq<byte>, i: nat)
    requires At(buf, pos, bytes) && i < |bytes|
    ensures buf[pos + i] == bytes[i]
  {
    assert buf[pos..pos + |bytes|][i] == buf[pos + i];
  }

  lemma AtU16(buf: seq<byte>, pos: nat, n: u16)
    requires At(buf, pos, U16Bytes(n))
    ensures pos + 2 <= |buf| && U16At(buf, pos) == n
  {
    AtIndex(buf, pos, U16Bytes(n), 0);
    AtIndex(buf, pos, U16Bytes(n), 1);
  }

  lemma AtU32(buf: seq<byte>, pos: nat, n: u32)
    requires At(buf, pos, U32Bytes(n))
    ensures pos + 4 <= |buf| && U32At(buf, pos) == n
  {
    AtSplit(buf, pos, U16Bytes(n / 0x1_0000), U16Bytes(n % 0x1_0000));
    AtU16(buf, pos, n / 0x1_0000);
    AtU16(buf, pos + 2, n % 0x1_0000);
  }
}
