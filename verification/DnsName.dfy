/** Domain names: canonical text, wire form, and compression-pointer chasing. */
module DnsName {
  import opened MachineTypes
  import opened Ascii
  import opened Slices
  import opened Splitting

  const MAX_POINTER_HOPS: nat := 16

  /** Which limit a message is too large for. */
  datatype Limit = LabelLength | OptOptions | TxtSegment | RecordData | SectionCount

  datatype DecodeError =
    | Truncated(at: nat)
    | CompressionLoop
    | InvalidLabel(len: byte)
    | Oversize(what: Limit)
    | InvalidRData(qtype: u16)
    | NotUtf8

  // ----- Canonical text -----

  predicate Canonical(s: string) {
    && s != [] && s[|s| - 1] == '.'
    && forall i :: 0 <= i < |s| ==> IsAscii(s[i]) && Lower(s[i]) == s[i]
  }

  /** Lower-case ASCII text with a trailing dot. */
  type Name = s: string | Canonical(s) witness "."

  const ROOT: Name := "."

  function FromAscii(s: string): Result<Name, DecodeError> {
    if s == [] then Err(InvalidLabel(0))
    else if exists i :: 0 <= i < |s| && !IsAscii(s[i]) then Err(NotUtf8)
    else if s[|s| - 1] == '.' then Ok(LowerAll(s))
    else Ok(LowerAll(s) + ".")
  }

  /** Names already in canonical text are kept as they are. */
  lemma FromAsciiKeeps(n: Name)
    ensures FromAscii(n) == Ok(n)
  {
    assert LowerAll(n) == n;
  }

  function Labels(n: Name): seq<string> {
    NonEmpty(Split(n, '.'))
  }

  /** Every label followed by a dot. */
  function Dotted(labels: seq<string>): string {
    if labels == [] then [] else labels[0] + "." + Dotted(labels[1..])
  }

  /** The text a decoder builds for these labels. */
  function Text(labels: seq<string>): string {
    if labels == [] then "." else Dotted(labels)
  }

  // ----- Writing -----

  predicate LabelText(lbl: string) {
    forall i :: 0 <= i < |lbl| ==> IsAscii(lbl[i]) && Lower(lbl[i]) == lbl[i]
  }

  function LabelBytes(lbl: string): (r: seq<byte>)
    requires LabelText(lbl)
    ensures |r| == |lbl|
  {
    seq(|lbl|, i requires 0 <= i < |lbl| => lbl[i] as int)
  }

  predicate AllLabelText(labels: seq<string>) {
    forall k :: 0 <= k < |labels| ==> LabelText(labels[k])
  }

  function EncodeLabels(labels: seq<string>): Result<seq<byte>, DecodeError>
    requires AllLabelText(labels)
  {
    if labels == [] then Ok([0])
    else if |labels[0]| > 63 then Err(Oversize(LabelLength))
    else
      var rest :- EncodeLabels(labels[1..]);
      Ok([|labels[0]|] + LabelBytes(labels[0]) + rest)
  }

  function EncodeName(n: Name): Result<seq<byte>, DecodeError> {
    LabelsAreText(n);
    EncodeLabels(Labels(n))
  }

  // ----- Reading -----

  /** Decoded text so far, and where the cursor goes if no pointer was followed earlier. */
  datatype Walked = Walked(text: string, next: nat)

  function LabelAt(buf: seq<byte>, pos: nat, len: nat): (r: string)
    requires pos + len <= |buf|
    requires forall i :: pos <= i < pos + len ==> buf[i] < 128
    ensures |r| == len
  {
    seq(len, i requires 0 <= i < len => Lower(buf[pos + i] as char))
  }

  /** Positions move both ways, but each move spends a hop or gets nearer the end. */
  function Walk(buf: seq<byte>, pos: nat, hops: nat): Result<Walked, DecodeError>
    requires hops <= MAX_POINTER_HOPS
    decreases MAX_POINTER_HOPS - hops, |buf| - pos
  {
    if pos >= |buf| then Err(Truncated(pos))
    else
      var len := buf[pos];
      if len == 0 then Ok(Walked([], pos + 1))
      else if len >= 0xC0 then
        if pos + 1 >= |buf| then Err(Truncated(pos))
        else
          var ptr := (len as int - 0xC0) * 256 + buf[pos + 1];
          if hops == MAX_POINTER_HOPS || ptr >= pos then Err(CompressionLoop)
          else
            var w :- Walk(buf, ptr, hops + 1);
            Ok(Walked(w.text, pos + 2))
      else if len >= 0x40 then Err(InvalidLabel(len))
      else if pos + 1 + len > |buf| then Err(Truncated(pos))
      else if exists i :: pos + 1 <= i < pos + 1 + len && buf[i] >= 128 then Err(NotUtf8)
      else
        var w :- Walk(buf, pos + 1 + len, hops);
        Ok(Walked(LabelAt(buf, pos + 1, len) + "." + w.text, w.next))
  }

  function DecodeName(buf: seq<byte>, pos: nat): Result<(Name, nat), DecodeError> {
    var w :- Walk(buf, pos, 0);
    var name :- FromAscii(if w.text == [] then "." else w.text);
    Ok((name, w.next))
  }

  /** The two top bits of a length octet, as the decoder tests them. */
  lemma LengthOctetBits(b: bv8)
    ensures (b & 0xC0 == 0xC0 <==> b >= 0xC0) && (b & 0xC0 != 0 <==> b >= 0x40)
    ensures b >= 0xC0 ==> b & 0x3F == b - 0xC0
  {
  }

  // ----- The decoder always makes progress inside the buffer -----

  lemma {:induction false} WalkProgress(buf: seq<byte>, pos: nat, hops: nat)
    requires hops <= MAX_POINTER_HOPS
    ensures Walk(buf, pos, hops).Ok? ==> pos < Walk(buf, pos, hops).value.next <= |buf|
    decreases MAX_POINTER_HOPS - hops, |buf| - pos
  {
    if pos < |buf| && 0 < buf[pos] < 0x40 {
      WalkProgress(buf, pos + 1 + buf[pos], hops);
    }
  }

  lemma NameProgress(buf: seq<byte>, pos: nat)
    ensures DecodeName(buf, pos).Ok? ==> pos < DecodeName(buf, pos).value.1 <= |buf|
  {
    WalkProgress(buf, pos, 0);
  }

  // ----- Labels of a canonical name -----

  lemma {:induction false} NonEmptyElements(parts: seq<string>)
    ensures forall p :: p in NonEmpty(parts) <==> p in parts && p != []
  {
    if parts != [] { NonEmptyElements(parts[1..]); }
  }

  lemma {:induction false} SplitCharacters(s: string, sep: char)
    ensures forall p, c :: p in Split(s, sep) && c in p ==> c in s
  {
    if s != [] { SplitCharacters(s[1..], sep); }
  }

  lemma LabelsAreText(n: Name)
    ensures AllLabelText(Labels(n))
  {
    NonEmptyElements(Split(n, '.'));
    SplitCharacters(n, '.');
    forall k | 0 <= k < |Labels(n)| ensures LabelText(Labels(n)[k]) {
      assert Labels(n)[k] in Labels(n);
      forall i | 0 <= i < |Labels(n)[k]| ensures IsAscii(Labels(n)[k][i]) && Lower(Labels(n)[k][i]) == Labels(n)[k][i] {
        assert Labels(n)[k][i] in n;
      }
    }
  }

  // ----- Which names survive a trip over the wire -----

  predicate NoEmptyLabel(s: string) {
    forall i :: 0 <= i < |s| && s[i] == '.' ==> i > 0 && s[i - 1] != '.'
  }

  predicate EndsInDot(s: string) {
    s == [] || s[|s| - 1] == '.'
  }

  function Rejoined(s: string): string {
    Dotted(NonEmpty(Split(s, '.')))
  }

  lemma NonEmptyCons(a: string, rest: seq<string>)
    ensures NonEmpty([a] + rest) == (if a == [] then [] else [a]) + NonEmpty(rest)
  {
    assert ([a] + rest)[1..] == rest;
  }

  lemma DottedCons(a: string, rest: seq<string>)
    ensures Dotted([a] + rest) == a + "." + Dotted(rest)
  {
    assert ([a] + rest)[1..] == rest;
  }

  lemma RejoinedStep(a: string, b: string)
    requires '.' !in a
    ensures Rejoined(a + "." + b) == (if a == [] then [] else a + ".") + Rejoined(b)
  {
    var rest := Split(b, '.');
    SplitAround(a, b, '.');
    NonEmptyCons(a, rest);
    if a != [] {
      DottedCons(a, NonEmpty(rest));
    } else {
      assert [] + NonEmpty(rest) == NonEmpty(rest);
      assert [] + Rejoined(b) == Rejoined(b);
    }
  }

  lemma FirstDot(s: string) returns (a: string, b: string)
    requires s != [] && EndsInDot(s)
    ensures s == a + "." + b && '.' !in a && EndsInDot(b)
  {
    var k := 0;
    while s[k] != '.'
      invariant k < |s| && '.' !in s[..k]
      decreases |s| - k
    {
      k := k + 1;
    }
    a, b := s[..k], s[k + 1..];
  }

  lemma NoEmptyLabelStep(a: string, b: string)
    requires '.' !in a
    ensures NoEmptyLabel(a + "." + b) <==> a != [] && NoEmptyLabel(b)
  {
    var s := a + "." + b;
    assert s[|a|] == '.';
    assert forall i :: 0 <= i < |b| ==> b[i] == s[|a| + 1 + i];
    if a != [] && NoEmptyLabel(b) {
      forall i | 0 <= i < |s| && s[i] == '.' ensures i > 0 && s[i - 1] != '.' {
        if i > |a| { assert b[i - |a| - 1] == '.'; }
      }
    }
    if NoEmptyLabel(s) {
      forall i | 0 <= i < |b| && b[i] == '.' ensures i > 0 && b[i - 1] != '.' {
        assert s[|a| + 1 + i] == '.';
      }
    }
  }

  /** Rejoining the non-empty labels gives the text back iff no label was empty. */
  lemma RejoinedKeeps(s: string)
    requires EndsInDot(s)
    ensures |Rejoined(s)| <= |s| && (Rejoined(s) == s <==> NoEmptyLabel(s))
    decreases |s|
  {
    if s != [] {
      var a, b := FirstDot(s);
      RejoinedStep(a, b);
      NoEmptyLabelStep(a, b);
      RejoinedKeeps(b);
      if a != [] && Rejoined(s) == s {
        assert Rejoined(b) == Rejoined(s)[|a| + 1..] == b;
      }
    }
  }

  lemma {:induction false} DottedCanonical(labels: seq<string>)
    requires AllLabelText(labels)
    ensures labels != [] ==> Canonical(Dotted(labels))
  {
    if labels != [] { DottedCanonical(labels[1..]); }
  }

  lemma LabelRead(buf: seq<byte>, pos: nat, lbl: string)
    requires LabelText(lbl) && At(buf, pos, LabelBytes(lbl))
    ensures forall i :: pos <= i < pos + |lbl| ==> buf[i] < 128
    ensures LabelAt(buf, pos, |lbl|) == lbl
  {
    forall i | 0 <= i < |lbl| ensures buf[pos + i] == lbl[i] as int { AtIndex(buf, pos, LabelBytes(lbl), i); }
    forall i | pos <= i < pos + |lbl| ensures buf[i] < 128 { assert buf[pos + (i - pos)] < 128; }
  }

  lemma WalkLabel(buf: seq<byte>, pos: nat, lbl: string, hops: nat, rest: Walked)
    requires LabelText(lbl) && 0 < |lbl| <= 63 && hops <= MAX_POINTER_HOPS
    requires At(buf, pos, [|lbl|] + LabelBytes(lbl))
    requires Walk(buf, pos + 1 + |lbl|, hops) == Ok(rest)
    ensures Walk(buf, pos, hops) == Ok(Walked(lbl + "." + rest.text, rest.next))
  {
    AtSplit(buf, pos, [|lbl|], LabelBytes(lbl));
    AtIndex(buf, pos, [|lbl|], 0);
    LabelRead(buf, pos + 1, lbl);
  }

  lemma WalkEnd(buf: seq<byte>, pos: nat, hops: nat)
    requires hops <= MAX_POINTER_HOPS && At(buf, pos, [0])
    ensures Walk(buf, pos, hops) == Ok(Walked([], pos + 1))
  {
    AtIndex(buf, pos, [0], 0);
  }

  /** Labels that can be written: non-empty, at most 63 long, lower-case ASCII. */
  predicate Writable(labels: seq<string>) {
    AllLabelText(labels) && forall k :: 0 <= k < |labels| ==> 0 < |labels[k]| <= 63
  }

  function Written(labels: seq<string>): (r: seq<byte>)
    requires Writable(labels)
    ensures EncodeLabels(labels) == Ok(r)
  {
    if labels == [] then [0]
    else
      assert labels[0] == labels[0];
      [|labels[0]|] + LabelBytes(labels[0]) + Written(labels[1..])
  }

  /** Reading back written labels, at any place in any buffer. */
  lemma {:induction false} WalkWritten(buf: seq<byte>, pos: nat, labels: seq<string>, hops: nat)
    requires Writable(labels) && hops <= MAX_POINTER_HOPS && At(buf, pos, Written(labels))
    ensures Walk(buf, pos, hops) == Ok(Walked(Dotted(labels), pos + |Written(labels)|))
    decreases |labels|
  {
    hide Walk, LabelBytes;
    if labels == [] {
      WalkEnd(buf, pos, hops);
    } else {
      var lbl, rest := labels[0], labels[1..];
      AtSplit(buf, pos, [|lbl|] + LabelBytes(lbl), Written(rest));
      WalkWritten(buf, pos + 1 + |lbl|, rest, hops);
      WalkLabel(buf, pos, lbl, hops, Walked(Dotted(rest), pos + 1 + |lbl| + |Written(rest)|));
    }
  }

  lemma NameWritten(n: Name)
    requires EncodeName(n).Ok?
    ensures Writable(Labels(n)) && EncodeName(n).value == Written(Labels(n))
  {
    var labels := Labels(n);
    LabelsAreText(n);
    NonEmptyElements(Split(n, '.'));
    EncodeLabelsOk(labels);
    forall k | 0 <= k < |labels| ensures labels[k] != [] { assert labels[k] in labels; }
  }

  lemma DecodeWritten(buf: seq<byte>, pos: nat, labels: seq<string>)
    requires Writable(labels) && At(buf, pos, Written(labels))
    ensures Canonical(Text(labels))
    ensures DecodeName(buf, pos) == Ok((Text(labels), pos + |Written(labels)|))
  {
    hide Walk, Written, FromAscii;
    WalkWritten(buf, pos, labels, 0);
    DottedCanonical(labels);
    FromAsciiKeeps(Text(labels));
  }

  /** A name written anywhere reads back as its non-empty labels, rejoined. */
  lemma NameReadsBack(buf: seq<byte>, pos: nat, n: Name)
    requires EncodeName(n).Ok? && At(buf, pos, EncodeName(n).value)
    ensures Canonical(Text(Labels(n)))
    ensures DecodeName(buf, pos) == Ok((Text(Labels(n)), pos + |EncodeName(n).value|))
  {
    hide *;
    NameWritten(n);
    DecodeWritten(buf, pos, Labels(n));
  }

  lemma {:induction false} EncodeLabelsOk(labels: seq<string>)
    requires AllLabelText(labels)
    ensures EncodeLabels(labels).Ok? <==> forall k :: 0 <= k < |labels| ==> |labels[k]| <= 63
  {
    if labels != [] { EncodeLabelsOk(labels[1..]); }
  }

  /** The name itself comes back iff it is the root or has no empty label. */
  lemma NameRoundTrip(buf: seq<byte>, pos: nat, n: Name)
    requires EncodeName(n).Ok? && At(buf, pos, EncodeName(n).value)
    ensures DecodeName(buf, pos) == Ok((n, pos + |EncodeName(n).value|)) <==> n == ROOT || NoEmptyLabel(n)
  {
    NameReadsBack(buf, pos, n);
    RejoinedKeeps(n);
    if n == ROOT { RejoinedStep([], []); assert [] + "." + [] == n; }
    if Labels(n) == [] && n != ROOT {
      assert Rejoined(n) == [];
    }
  }

  /** A concrete case: the empty label of "a..b" is not written, and the name comes back without it. */
  lemma EmptyLabelIsLost()
    ensures
      var n: Name := "a..b.";
      && FromAscii("a..b") == Ok(n) && EncodeName(n).Ok?
      && DecodeName(EncodeName(n).value, 0) == Ok(("a.b.", |EncodeName(n).value|))
  {
    hide Labels, DecodeName, EncodeLabels, LowerAll, Dotted;
    LabelsOfTwo();
    TextOfTwo();
    var n: Name := "a..b.";
    LabelsAreText(n);
    EncodeLabelsOk(Labels(n));
    NameReadsBack(EncodeName(n).value, 0, n);
  }

  lemma TextOfTwo()
    ensures FromAscii("a..b") == Ok("a..b.") && Text(["a", "b"]) == "a.b."
  {
    assert LowerAll("a..b") + "." == "a..b.";
    assert ["a", "b"][1..] == ["b"] && ["b"][1..] == [];
    assert Dotted(["b"]) == "b.";
  }

  lemma LabelsOfTwo()
    ensures Canonical("a..b.") && Labels("a..b.") == ["a", "b"]
  {
    SplitAround("a", ".b.", '.');
    SplitAround("", "b.", '.');
    SplitAround("b", "", '.');
    assert "a" + "." + ".b." == "a..b." && "" + "." + "b." == ".b." && "b" + "." + "" == "b.";
    assert Split("a..b.", '.') == ["a"] + (["" ] + (["b"] + [""]));
    NonEmptyCons("a", [""] + (["b"] + [""]));
    NonEmptyCons("", ["b"] + [""]);
    NonEmptyCons("b", [""]);
  }
}
