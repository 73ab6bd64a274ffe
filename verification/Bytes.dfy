/** The numbers that bytes stand for. */
module Bytes {
  function Value(b: bv8): nat { b as nat }

  /** The byte that a C int argument is converted to. */
  function ByteOf(n: nat): bv8 { (n % 256) as bv8 }

  lemma Converted(n: nat)
    requires n < 256
    ensures n as bv8 as nat == n
  {
  }

  lemma ByteKept(n: nat)
    ensures Value(ByteOf(n)) == n % 256
  {
    Converted(n % 256);
  }

  lemma LowHalfKept(n: nat)
    ensures Value(ByteOf(n)) % 16 == n % 16
  {
    hide Value, ByteOf;
    ByteKept(n);
    Sixteens(n, Value(ByteOf(n)));
  }

  lemma Sixteens(n: nat, m: nat)
    requires m == n % 256
    ensures m % 16 == n % 16
  {
    hide *;
  }

  lemma Halves(b: bv8)
    ensures Value(b >> 4) == Value(b) / 16 && Value(b & 0x0F) == Value(b) % 16
    ensures Value(b) == 0 <==> b == 0
  {
  }
}
