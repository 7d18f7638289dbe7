/** Well-formed UTF-8, as table 3-7 of the Unicode Standard lists the byte sequences. */
module Utf8 {
  import opened MachineTypes

  predicate Tail(b: byte) { 0x80 <= b <= 0xBF }

  /** Length of the well-formed character at the front of s, or 0. */
  function FrontLen(s: seq<byte>): (n: nat)
    ensures n <= |s|
  {
    if |s| >= 1 && s[0] <= 0x7F then 1
    else if |s| >= 2 && 0xC2 <= s[0] <= 0xDF && Tail(s[1]) then 2
    else if |s| >= 3 && Tail(s[2])
         && (|| (s[0] == 0xE0 && 0xA0 <= s[1] <= 0xBF)
             || ((0xE1 <= s[0] <= 0xEC || 0xEE <= s[0] <= 0xEF) && Tail(s[1]))
             || (s[0] == 0xED && 0x80 <= s[1] <= 0x9F)) then 3
    else if |s| >= 4 && Tail(s[2]) && Tail(s[3])
         && (|| (s[0] == 0xF0 && 0x90 <= s[1] <= 0xBF)
             || (0xF1 <= s[0] <= 0xF3 && Tail(s[1]))
             || (s[0] == 0xF4 && 0x80 <= s[1] <= 0x8F)) then 4
    else 0
  }

  /** `str::from_utf8(s).is_ok()` */
  predicate WellFormed(s: seq<byte>) {
    s == [] || (FrontLen(s) > 0 && WellFormed(s[FrontLen(s)..]))
  }

  // ----- The same set of byte strings, from the text they spell -----

  /** The low six bits of n behind a tail mark. */
  function TailOf(n: nat): (b: byte)
    ensures Tail(b)
  {
    0x80 + n % 64
  }

  /** The UTF-8 form of one scalar value: its bits six at a time, behind a byte that tells the length. */
  function CharBytes(c: char): (r: seq<byte>)
    ensures 1 <= |r| <= 4
  {
    var n := c as int;
    var six, twelve, eighteen := n / 64, n / 64 / 64, n / 64 / 64 / 64;
    if n < 0x80 then [n]
    else if n < 0x800 then [0xC0 + six, TailOf(n)]
    else if n < 0x1_0000 then [0xE0 + twelve, TailOf(six), TailOf(n)]
    else [0xF0 + eighteen, TailOf(twelve), TailOf(six), TailOf(n)]
  }

  function TextBytes(s: string): seq<byte> {
    if s == [] then [] else CharBytes(s[0]) + TextBytes(s[1..])
  }

  function Join(high: int, tail: byte): int {
    high * 64 + (tail as int - 0x80)
  }

  lemma JoinSplits(high: nat, tail: byte)
    requires Tail(tail)
    ensures Join(high, tail) >= 0 && Join(high, tail) / 64 == high && TailOf(Join(high, tail)) == tail
  {
  }

  /** The code point a leading character spells. */
  function FrontCode(s: seq<byte>): int
    requires FrontLen(s) > 0
  {
    match FrontLen(s)
    case 1 => s[0]
    case 2 => Join(s[0] as int - 0xC0, s[1])
    case 3 => Join(Join(s[0] as int - 0xE0, s[1]), s[2])
    case _ => Join(Join(Join(s[0] as int - 0xF0, s[1]), s[2]), s[3])
  }

  /** A leading character spells a scalar value, and its bytes are that value's form. */
  lemma FrontSpells(s: seq<byte>)
    requires FrontLen(s) > 0
    ensures 0 <= FrontCode(s) < 0xD800 || 0xE000 <= FrontCode(s) < 0x11_0000
    ensures CharBytes(FrontCode(s) as char) == s[..FrontLen(s)]
  {
    match FrontLen(s)
    case 1 =>
    case 2 => JoinSplits(s[0] as int - 0xC0, s[1]);
    case 3 =>
      var a: nat := s[0] as int - 0xE0;
      JoinSplits(a, s[1]);
      JoinSplits(Join(a, s[1]), s[2]);
    case _ =>
      var a: nat := s[0] as int - 0xF0;
      JoinSplits(a, s[1]);
      JoinSplits(Join(a, s[1]), s[2]);
      JoinSplits(Join(Join(a, s[1]), s[2]), s[3]);
  }

  lemma CharReadsBack(c: char, rest: seq<byte>)
    ensures FrontLen(CharBytes(c) + rest) == |CharBytes(c)| && FrontCode(CharBytes(c) + rest) == c as int
  {
    var n := c as int;
    var r := CharBytes(c);
    var s := r + rest;
    assert forall i :: 0 <= i < |r| ==> s[i] == r[i];
    assert Join(n / 64, TailOf(n)) == n && Join(n / 64 / 64, TailOf(n / 64)) == n / 64
        && Join(n / 64 / 64 / 64, TailOf(n / 64 / 64)) == n / 64 / 64;
  }

  lemma {:induction false} TextIsWellFormed(s: string)
    ensures WellFormed(TextBytes(s))
  {
    if s != [] {
      TextIsWellFormed(s[1..]);
      CharReadsBack(s[0], TextBytes(s[1..]));
      assert TextBytes(s)[|CharBytes(s[0])|..] == TextBytes(s[1..]);
    }
  }

  /** The text a well-formed byte string spells. */
  function TextOf(b: seq<byte>): string
    requires WellFormed(b)
  {
    if b == [] then []
    else
      FrontSpells(b);
      [FrontCode(b) as char] + TextOf(b[FrontLen(b)..])
  }

  lemma TextBytesCons(c: char, s: string)
    ensures TextBytes([c] + s) == CharBytes(c) + TextBytes(s)
  {
    hide CharBytes;
    assert ([c] + s)[1..] == s;
  }

  lemma {:induction false} WellFormedSpells(b: seq<byte>)
    requires WellFormed(b)
    ensures TextBytes(TextOf(b)) == b
  {
    hide FrontLen, FrontCode, CharBytes, TextBytes;
    if b == [] {
      NoText();
    } else {
      var n := FrontLen(b);
      FrontSpells(b);
      WellFormedSpells(b[n..]);
      TextBytesCons(FrontCode(b) as char, TextOf(b[n..]));
      assert b == b[..n] + b[n..];
    }
  }

  lemma NoText()
    ensures TextBytes([]) == []
  {
  }

  /** A byte string is accepted if and only if it is the UTF-8 form of some text. */
  lemma WellFormedIffText(b: seq<byte>)
    ensures WellFormed(b) <==> exists s :: TextBytes(s) == b
  {
    if WellFormed(b) { WellFormedSpells(b); }
    if s :| TextBytes(s) == b { TextIsWellFormed(s); }
  }

  /** Different texts have different forms. */
  lemma {:induction false} TextBytesInjective(s: string, t: string)
    requires TextBytes(s) == TextBytes(t)
    ensures s == t
  {
    if s != [] && t != [] {
      CharReadsBack(s[0], TextBytes(s[1..]));
      CharReadsBack(t[0], TextBytes(t[1..]));
      var n := |CharBytes(s[0])|;
      assert TextBytes(s)[n..] == TextBytes(s[1..]) && TextBytes(t)[n..] == TextBytes(t[1..]);
      TextBytesInjective(s[1..], t[1..]);
      assert s == [s[0]] + s[1..] && t == [t[0]] + t[1..];
    }
  }
}
