/** Single bits of a byte, as the drivers test, set, clear and shift them. */
module Bits {

  const MASKS: seq<bv8> := [0x01, 0x02, 0x04, 0x08, 0x10, 0x20, 0x40, 0x80]

  /** The byte `1 << k`. */
  function Mask(k: nat): bv8
    requires k < 8
  {
    MASKS[k]
  }

  /** `(b >> k) & 1` */
  predicate Bit(b: bv8, k: nat)
    requires k < 8
  {
    b & Mask(k) != 0
  }

  lemma MasksAreDisjoint(k: nat, j: nat)
    requires k < 8 && j < 8
    ensures Mask(k) & Mask(j) == if k == j then Mask(k) else 0
    ensures Mask(k) != 0
  {
    assert k == 0 || k == 1 || k == 2 || k == 3 || k == 4 || k == 5 || k == 6 || k == 7;
    assert j == 0 || j == 1 || j == 2 || j == 3 || j == 4 || j == 5 || j == 6 || j == 7;
  }

  lemma MaskSet(b: bv8, m: bv8, n: bv8)
    ensures m & n == 0 ==> (b | m) & n == b & n
    ensures (b | m) & m == m
  {
  }

  lemma MaskCleared(b: bv8, m: bv8, n: bv8)
    ensures m & n == 0 ==> (b & !m) & n == b & n
    ensures (b & !m) & m == 0
  {
  }

  lemma OneBitSet(b: bv8, k: nat, j: nat)
    requires k < 8 && j < 8
    ensures Bit(b | Mask(k), j) <==> j == k || Bit(b, j)
  {
    MasksAreDisjoint(k, j);
    MaskSet(b, Mask(k), Mask(j));
  }

  lemma OneBitCleared(b: bv8, k: nat, j: nat)
    requires k < 8 && j < 8
    ensures Bit(b & !Mask(k), j) <==> j != k && Bit(b, j)
  {
    MasksAreDisjoint(k, j);
    MaskCleared(b, Mask(k), Mask(j));
  }

  /** `b |= 1 << k` or `b &= ~(1 << k)` */
  function WithBit(b: bv8, k: nat, on: bool): bv8
    requires k < 8
  {
    if on then b | Mask(k) else b & !Mask(k)
  }

  lemma OneBitWritten(b: bv8, k: nat, on: bool, j: nat)
    requires k < 8 && j < 8
    ensures Bit(WithBit(b, k, on), j) == if j == k then on else Bit(b, j)
  {
    if on {
      OneBitSet(b, k, j);
    } else {
      OneBitCleared(b, k, j);
    }
  }

  lemma FullByte(k: nat)
    requires k < 8
    ensures Bit(0xFF, k) && !Bit(0, k)
  {
    MasksAreDisjoint(k, k);
  }

  /** Shifting a bit in from the right moves every other bit up by one. */
  lemma ShiftedIn(b: bv8, low: bool, j: nat)
    requires j < 8
    ensures Bit((b << 1) | (if low then 1 else 0), j) <==> if j == 0 then low else Bit(b, j - 1)
  {
    assert j == 0 || j == 1 || j == 2 || j == 3 || j == 4 || j == 5 || j == 6 || j == 7;
  }

  /** A byte is determined by its eight bits. */
  lemma SameBits(a: bv8, b: bv8)
    requires forall k: nat | k < 8 :: Bit(a, k) == Bit(b, k)
    ensures a == b
  {
    assert Bit(a, 0) == Bit(b, 0) && Bit(a, 1) == Bit(b, 1) && Bit(a, 2) == Bit(b, 2) && Bit(a, 3) == Bit(b, 3);
    assert Bit(a, 4) == Bit(b, 4) && Bit(a, 5) == Bit(b, 5) && Bit(a, 6) == Bit(b, 6) && Bit(a, 7) == Bit(b, 7);
  }
}
