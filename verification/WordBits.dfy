/** 64-bit machine words: single bits tested, set and cleared with a shifted one. */
module WordBits {

  type Word = bv64

  function And(a: Word, b: Word): Word { a & b }

  function Or(a: Word, b: Word): Word { a | b }

  function AndNot(a: Word, b: Word): Word { a & !b }

  function Mask(p: bv6): Word { 1 << p }

  lemma MasksMeet(i: bv6, j: bv6)
    ensures And(Mask(i), Mask(j)) == 0 <==> i != j
  {
  }

  lemma SetKeeps(w: Word, m: Word, n: Word)
    requires And(m, n) == 0
    ensures And(Or(w, m), n) == And(w, n)
  {
  }

  lemma ClearKeeps(w: Word, m: Word, n: Word)
    requires And(m, n) == 0
    ensures And(AndNot(w, m), n) == And(w, n)
  {
  }

  lemma OwnMask(w: Word, m: Word)
    ensures And(Or(w, m), m) == And(m, m) && And(AndNot(w, m), m) == 0 && And(0, m) == 0
  {
  }

  /** A bit number as a shift amount. */
  function Pos(k: nat): bv6
    requires k < 64
  {
    k as bv6
  }

  lemma PosInverse(k: nat)
    requires k < 64
    ensures Pos(k) as nat == k
  {
  }

  lemma PosInjective(j: nat, k: nat)
    requires j < 64 && k < 64
    ensures Pos(j) == Pos(k) <==> j == k
  {
    hide Pos;
    PosInverse(j);
    PosInverse(k);
  }

  predicate Bit(w: Word, k: nat)
    requires k < 64
  {
    And(w, Mask(Pos(k))) != 0
  }

  function WithBit(w: Word, k: nat): Word
    requires k < 64
  {
    Or(w, Mask(Pos(k)))
  }

  function WithoutBit(w: Word, k: nat): Word
    requires k < 64
  {
    AndNot(w, Mask(Pos(k)))
  }

  /** Machine `|=` and `&= !` with a shifted one set and clear exactly that bit; zero has none. */
  lemma WordOperations(w: Word, k: nat, j: nat)
    requires k < 64 && j < 64
    ensures Bit(WithBit(w, k), j) <==> j == k || Bit(w, j)
    ensures Bit(WithoutBit(w, k), j) <==> j != k && Bit(w, j)
    ensures !Bit(0, j)
  {
    hide Pos, And, Or, AndNot, Mask;
    PosInjective(j, k);
    MasksMeet(Pos(k), Pos(j));
    OwnMask(w, Mask(Pos(j)));
    if j != k {
      SetKeeps(w, Mask(Pos(k)), Mask(Pos(j)));
      ClearKeeps(w, Mask(Pos(k)), Mask(Pos(j)));
    }
  }
}
