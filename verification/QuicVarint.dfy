/** Variable-length integers, as section 16 of RFC 9000 lays them out. */
module QuicVarint {
  import opened MachineTypes
  import opened Endian
  import opened Slices

  const VARINT_LIMIT: nat := 0x4000_0000_0000_0000

  type Bytes = seq<byte>

  /** `Malformed` with its two messages told apart. */
  datatype Error = ShortBuffer | PayloadTooLarge | UnsupportedFrame

  /** Bytes a value takes: 1, 2, 4 or 8. */
  function VarintLen(v: nat): nat {
    if v < 0x40 then 1 else if v < 0x4000 then 2 else if v < 0x4000_0000 then 4 else 8
  }

  function LengthBits(k: nat): byte {
    if k == 1 then 0x00 else if k == 2 then 0x40 else if k == 4 then 0x80 else 0xC0
  }

  /** The big-endian value with its length in the top two bits of the first byte. */
  function EncodeVarint(v: nat): (s: Bytes)
    requires v < VARINT_LIMIT
    ensures |s| == VarintLen(v)
  {
    var k := VarintLen(v);
    var plain := ToBe(v, k);
    TopBitsFree(v, k);
    plain[0 := plain[0] + LengthBits(k)]
  }

  function LenFrom(first: byte): nat {
    if first < 0x40 then 1 else if first < 0x80 then 2 else if first < 0xC0 then 4 else 8
  }

  /** The value at `pos` and the position after it. */
  function DecodeVarint(buf: Bytes, pos: nat): (r: Result<(nat, nat), Error>)
    ensures r.Ok? ==> pos < r.value.1 <= |buf| && r.value.1 <= pos + 8
  {
    if pos >= |buf| then Err(ShortBuffer)
    else
      var len := LenFrom(buf[pos]);
      if |buf| < pos + len then Err(ShortBuffer)
      else Ok((FromBe([buf[pos] % 64] + buf[pos + 1..pos + len]), pos + len))
  }

  lemma {:induction false} TopBitsFreeAt(v: nat, k: nat)
    requires k > 0 && v < 64 * Pow256(k - 1)
    ensures ToBe(v, k)[0] < 64
  {
    if k > 1 {
      assert Pow256(k - 1) == 256 * Pow256(k - 2);
      TopBitsFreeAt(v / 256, k - 1);
    }
  }

  lemma TopBitsFree(v: nat, k: nat)
    requires v < VARINT_LIMIT && k == VarintLen(v)
    ensures ToBe(v, k)[0] < 64
  {
    PowValues();
    assert Pow256(3) == 0x100_0000 && Pow256(7) == 0x100_0000_0000_0000 by {
      assert Pow256(4) == 256 * Pow256(3) && Pow256(8) == 256 * Pow256(7);
    }
    TopBitsFreeAt(v, k);
  }

  lemma WidthFits(v: nat)
    requires v < VARINT_LIMIT
    ensures v < Pow256(VarintLen(v))
  {
    PowValues();
  }

  /** A written integer reads back at any place in any buffer. */
  lemma VarintRoundTrip(buf: Bytes, pos: nat, v: nat)
    requires v < VARINT_LIMIT && At(buf, pos, EncodeVarint(v))
    ensures DecodeVarint(buf, pos) == Ok((v, pos + |EncodeVarint(v)|))
  {
    hide ToBe, FromBe;
    var k, enc := VarintLen(v), EncodeVarint(v);
    var plain := ToBe(v, k);
    TopBitsFree(v, k);
    AtIndex(buf, pos, enc, 0);
    assert enc[0] == plain[0] + LengthBits(k);
    assert buf[pos..pos + k] == enc;
    assert buf[pos + 1..pos + k] == buf[pos..pos + k][1..] == plain[1..];
    assert [plain[0]] + plain[1..] == plain;
    WidthFits(v);
    BeRoundTrip(v, k);
  }

  /** `1 << (first >> 6)` and `first & 0x3f` */
  lemma FirstByteBits(b: bv8)
    ensures b & 0x3F == if b < 0x40 then b else if b < 0x80 then b - 0x40 else if b < 0xC0 then b - 0x80 else b - 0xC0
    ensures b >> 6 == if b < 0x40 then 0 else if b < 0x80 then 1 else if b < 0xC0 then 2 else 3
  {
  }

  lemma {:induction false} FromBeAppend(s: Bytes, b: byte)
    ensures FromBe(s + [b]) == FromBe(s) * 256 + b
  {
    assert (s + [b])[..|s|] == s;
  }

  method ReadVarint(buf: Bytes, pos: nat) returns (r: Result<(nat, nat), Error>)
    ensures r == DecodeVarint(buf, pos)
  {
    if pos >= |buf| {
      return Err(ShortBuffer);
    }
    var first := buf[pos];
    var len := LenFrom(first);
    if |buf| < pos + len {
      return Err(ShortBuffer);
    }
    var value: nat := first % 64;
    FromBeAppend([], first % 64);
    assert [] + [first % 64] == [first % 64] + buf[pos + 1..pos + 1];
    for i := 1 to len
      invariant value == FromBe([first % 64] + buf[pos + 1..pos + i])
    {
      FromBeAppend([first % 64] + buf[pos + 1..pos + i], buf[pos + i]);
      assert [first % 64] + buf[pos + 1..pos + i] + [buf[pos + i]] == [first % 64] + buf[pos + 1..pos + i + 1];
      value := value * 256 + buf[pos + i];
    }
    r := Ok((value, pos + len));
  }
}
