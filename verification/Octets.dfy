/** Bytes and the bits of strings of them. */
module Octets {

  newtype Byte = b: int | 0 <= b < 256

  /** n >> j. */
  function Shift(n: nat, j: nat): nat {
    if j == 0 then n else Shift(n, j - 1) / 2
  }

  /** Bit k of a byte, from the most significant one. */
  function BitOf(b: Byte, k: nat): bool
    requires k < 8
  {
    Shift(b as int, 7 - k) % 2 == 1
  }

  /** Bit i of a string, from the most significant bit of its first byte. */
  function Bit(s: seq<Byte>, i: nat): bool
    requires i < 8 * |s|
  {
    BitOf(s[i / 8], i % 8)
  }

  lemma ShiftedOut(b: Byte)
    ensures Shift(b as int, 8) == 0
  {
    var n := b as int;
    assert Shift(n, 1) < 128;
    assert Shift(n, 2) < 64;
    assert Shift(n, 3) < 32;
    assert Shift(n, 4) < 16;
    assert Shift(n, 5) < 8;
    assert Shift(n, 6) < 4;
    assert Shift(n, 7) < 2;
  }
}
