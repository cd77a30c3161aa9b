/** Finding the first bit of a kind a word at a time. */
module Bitpos {
  import opened Powers
  import opened Octets
  import opened Packed
  import opened Popcount

  // ---------------------------------------------------------------- shifts

  lemma {:induction false} ShiftAdd(n: nat, i: nat, j: nat)
    ensures Shift(n, i + j) == Shift(Shift(n, i), j)
  {
    if j > 0 {
      ShiftAdd(n, i, j - 1);
    }
  }

  /** The bits below 2^k do not depend on what is added above. */
  lemma {:induction false} ShiftSum(a: nat, x: nat, k: nat, j: nat)
    requires j <= k
    ensures Shift(a + Power(2, k) * x, j) == Shift(a, j) + Power(2, k - j) * x
  {
    if j > 0 {
      ShiftSum(a, x, k, j - 1);
      Halve(Shift(a, j - 1), Power(2, k - j), x);
    }
  }

  lemma Halve(a: nat, p: nat, x: nat)
    ensures (a + (2 * p) * x) / 2 == a / 2 + p * x
  {
    Doubled(p, x);
  }

  lemma ShiftLow(b: nat, x: nat, j: nat)
    requires j < 8
    ensures Shift(b + 256 * x, j) % 2 == Shift(b, j) % 2
  {
    assert Power(2, 4) == 16 && Power(2, 8) == 256;
    ShiftSum(b, x, 8, j);
    Doubled(Power(2, 7 - j), x);
    SameParity(Shift(b, j), Power(2, 7 - j) * x);
  }

  lemma SameParity(a: nat, y: nat)
    ensures (a + 2 * y) % 2 == a % 2
  {
  }

  lemma ShiftByte(b: Byte, x: nat)
    ensures Shift(b as int + 256 * x, 8) == x
  {
    assert Power(2, 4) == 16 && Power(2, 8) == 256;
    ShiftSum(b as int, x, 8, 8);
    ShiftedOut(b);
  }

  lemma {:induction false} MaskedBit(f: Both, m: nat, x: nat)
    requires AndLaws(f)
    ensures f(Power(2, m), x) != 0 <==> Shift(x, m) % 2 == 1
  {
    var a, y := x % 2, x / 2;
    assert AndZero(f, a) && AndZero(f, y) && AndZero(f, 1);
    if m == 0 {
      assert AndAt(f, 1, 0, a, y);
    } else {
      MaskedBit(f, m - 1, y);
      assert AndAt(f, 0, Power(2, m - 1), a, y);
      ShiftAdd(x, 1, m - 1);
      assert Shift(x, 1) == y;
    }
  }

  /** Testing a single bit with a mask. */
  lemma AndPower(m: nat, x: nat)
    ensures BitAnd(Power(2, m), x) != 0 <==> Shift(x, m) % 2 == 1
  {
    AndHasLaws();
    MaskedBit(BitAnd, m, x);
  }

  // ---------------------------------------------------------------- words

  /** The number that the bytes are, most significant byte first. */
  function BigEndian(t: seq<Byte>): nat {
    if t == [] then 0 else t[|t| - 1] as int + 256 * BigEndian(t[..|t| - 1])
  }

  lemma {:induction false} ShiftBytes(t: seq<Byte>, m: nat)
    requires m <= |t|
    ensures Shift(BigEndian(t), 8 * m) == BigEndian(t[..|t| - m])
  {
    if m == 0 {
      assert t[..|t|] == t;
    } else {
      var n := |t| - m;
      ShiftBytes(t, m - 1);
      ShiftAdd(BigEndian(t), 8 * (m - 1), 8);
      assert t[..n + 1][..n] == t[..n];
      ShiftByte(t[n], BigEndian(t[..n]));
    }
  }

  /** Its bits are the bits of the string, in order. */
  lemma BigEndianBit(t: seq<Byte>, i: nat)
    requires i < 8 * |t|
    ensures Shift(BigEndian(t), 8 * |t| - 1 - i) % 2 == 1 <==> Bit(t, i)
  {
    var q, r := i / 8, i % 8;
    var m := |t| - 1 - q;
    ShiftBytes(t, m);
    ShiftAdd(BigEndian(t), 8 * m, 7 - r);
    assert t[..q + 1][..q] == t[..q];
    ShiftLow(t[q] as int, BigEndian(t[..q]), 7 - r);
  }

  lemma {:induction false} UnsignedZero(t: seq<Byte>)
    ensures Unsigned(t) == 0 <==> forall i :: 0 <= i < |t| ==> t[i] == 0
  {
    if t != [] {
      UnsignedZero(t[1..]);
      if Unsigned(t) == 0 {
        forall i | 0 <= i < |t| ensures t[i] == 0 {
          assert i > 0 ==> t[i] == t[1..][i - 1];
        }
      }
    }
  }

  lemma {:induction false} UnsignedOnes(t: seq<Byte>)
    ensures Unsigned(t) == Power(256, |t|) - 1 <==> forall i :: 0 <= i < |t| ==> t[i] == 255
  {
    if t != [] {
      UnsignedOnes(t[1..]);
      UnsignedBound(t[1..]);
      if Unsigned(t) == Power(256, |t|) - 1 {
        forall i | 0 <= i < |t| ensures t[i] == 255 {
          assert i > 0 ==> t[i] == t[1..][i - 1];
        }
      }
    }
  }

  predicate ShiftBit(n: nat, i: nat) {
    Shift(n, i) % 2 == 1
  }

  lemma {:induction false} ClearFrom(n: nat, j: nat)
    requires j <= 8 && Shift(n, 8) == 0
    ensures Shift(n, j) == 0 <==> forall i: nat :: j <= i < 8 ==> !ShiftBit(n, i)
    decreases 8 - j
  {
    if j < 8 {
      ClearFrom(n, j + 1);
      var x := Shift(n, j);
      assert Shift(n, j + 1) == x / 2 && ShiftBit(n, j) == (x % 2 == 1);
    }
  }

  lemma {:induction false} SetFrom(n: nat, j: nat)
    requires j <= 8 && Shift(n, 8) == 0
    ensures Shift(n, j) == Power(2, 8 - j) - 1 <==> forall i: nat :: j <= i < 8 ==> ShiftBit(n, i)
    decreases 8 - j
  {
    if j < 8 {
      SetFrom(n, j + 1);
      var x, p := Shift(n, j), Power(2, 8 - (j + 1));
      assert Shift(n, j + 1) == x / 2 && ShiftBit(n, j) == (x % 2 == 1) && Power(2, 8 - j) == 2 * p;
    }
  }

  lemma ByteKinds(b: Byte)
    ensures b == 0 <==> forall k: nat :: k < 8 ==> !BitOf(b, k)
    ensures b == 255 <==> forall k: nat :: k < 8 ==> BitOf(b, k)
  {
    var n := b as int;
    ShiftedOut(b);
    ClearFrom(n, 0);
    SetFrom(n, 0);
    assert Power(2, 4) == 16 && Power(2, 8) == 256;
    assert forall k: nat :: k < 8 ==> BitOf(b, k) == ShiftBit(n, 7 - k);
    forall i: nat | i < 8
      ensures ShiftBit(n, i) == BitOf(b, 7 - i)
    {
    }
  }

  lemma {:induction false} BigEndianBound(t: seq<Byte>)
    ensures BigEndian(t) < Power(256, |t|)
  {
    if t != [] {
      BigEndianBound(t[..|t| - 1]);
    }
  }

  lemma {:induction false} BigEndianZero(t: seq<Byte>)
    ensures BigEndian(t) == 0 <==> forall i :: 0 <= i < |t| ==> t[i] == 0
  {
    if t != [] {
      BigEndianZero(t[..|t| - 1]);
    }
  }

  // ---------------------------------------------------------------- the search

  ghost predicate NoneBefore(bits: nat -> bool, bit: bool, n: nat) {
    forall i: nat :: i < n ==> bits(i) != bit
  }

  function Skipped(bit: bool): Byte {
    if bit then 0 else 255
  }

  lemma SkipByte(s: seq<Byte>, c: nat, bit: bool)
    requires c < |s| && s[c] == Skipped(bit) && NoneBefore(BitsOf(s), bit, 8 * c)
    ensures NoneBefore(BitsOf(s), bit, 8 * c + 8)
  {
    ByteKinds(s[c]);
    forall i: nat | i < 8 * c + 8
      ensures BitsOf(s)(i) != bit
    {
      if i >= 8 * c {
        var k := i - 8 * c;
        assert BitOf(s[c], k) != bit;
        BitOfString(s, c, k);
      }
    }
  }

  lemma {:induction false} SkipBytes(s: seq<Byte>, c: nat, n: nat, bit: bool)
    requires c + n <= |s| && NoneBefore(BitsOf(s), bit, 8 * c) && forall i :: c <= i < c + n ==> s[i] == Skipped(bit)
    ensures NoneBefore(BitsOf(s), bit, 8 * (c + n))
  {
    if n > 0 {
      SkipBytes(s, c, n - 1, bit);
      SkipByte(s, c + n - 1, bit);
    }
  }

  /** The word of eight bytes in memory; whether it has only bits to skip does not depend on the order
      of its bytes. */
  function Loaded(s: seq<Byte>, c: nat): nat
    requires c + 8 <= |s|
  {
    Unsigned(s[c..c + 8])
  }

  function SkippedWord(bit: bool): nat {
    if bit then 0 else 0xFFFF_FFFF_FFFF_FFFF
  }

  lemma LoadedIsSkipped(s: seq<Byte>, c: nat, bit: bool)
    requires c + 8 <= |s|
    ensures Loaded(s, c) == SkippedWord(bit) <==> forall i :: c <= i < c + 8 ==> s[i] == Skipped(bit)
  {
    var t := s[c..c + 8];
    UnsignedZero(t);
    UnsignedOnes(t);
    WidthBounds();
    assert forall i :: c <= i < c + 8 ==> s[i] == t[i - c];
    assert forall i :: 0 <= i < 8 ==> t[i] == s[c + i];
  }

  /** The eight bytes from c on, with zeros behind the end. */
  function Padded(s: seq<Byte>, c: nat): (t: seq<Byte>)
    ensures |t| == 8
  {
    seq(8, k requires 0 <= k => if c + k < |s| then s[c + k] else 0)
  }

  lemma PaddedBit(s: seq<Byte>, c: nat, i: nat)
    requires i < 64
    ensures Bit(Padded(s, c), i) == BitsOf(s)(8 * c + i)
  {
    var k, r := i / 8, i % 8;
    if c + k < |s| {
      BitOfString(s, c + k, r);
    } else {
      ByteKinds(0);
    }
  }

  /** A byte of another kind has a bit of the kind looked for. */
  lemma BitInByte(s: seq<Byte>, c: nat, bit: bool) returns (k: nat)
    requires c < |s| && s[c] != Skipped(bit)
    ensures k < 8 && BitsOf(s)(8 * c + k) == bit
  {
    ByteKinds(s[c]);
    k :| k < 8 && BitOf(s[c], k) == bit;
    BitOfString(s, c, k);
  }

  /** Behind the skipped words there is a bit to be found among the next 64, unless no bit of the whole
      string is set. */
  lemma Hit(s: seq<Byte>, c: nat, bit: bool) returns (hit: nat)
    requires c <= |s| && (c + 8 <= |s| ==> Loaded(s, c) != SkippedWord(bit))
    requires bit ==> BigEndian(Padded(s, c)) != 0
    ensures hit < 64 && BitsOf(s)(8 * c + hit) == bit
  {
    if c + 8 <= |s| {
      LoadedIsSkipped(s, c, bit);
      var i :| c <= i < c + 8 && s[i] != Skipped(bit);
      var k := BitInByte(s, i, bit);
      hit := 8 * (i - c) + k;
    } else if bit {
      BigEndianZero(Padded(s, c));
      var i :| 0 <= i < 8 && Padded(s, c)[i] != 0;
      var k := BitInByte(s, c + i, bit);
      hit := 8 * i + k;
    } else {
      hit := 8 * (|s| - c);
    }
  }

  lemma Nothing(s: seq<Byte>, c: nat)
    requires c <= |s| && (c + 8 <= |s| ==> Loaded(s, c) != 0) && NoneBefore(BitsOf(s), true, 8 * c)
    requires BigEndian(Padded(s, c)) == 0
    ensures forall i: nat :: !BitsOf(s)(i)
  {
    BigEndianZero(Padded(s, c));
    assert forall k: nat :: k < 8 ==> Padded(s, c)[k] == 0;
    if c + 8 <= |s| {
      LoadedIsSkipped(s, c, true);
      assert forall i :: c <= i < c + 8 ==> s[i] == Padded(s, c)[i - c];
    } else {
      assert forall i :: c <= i < |s| ==> s[i] == Padded(s, c)[i - c];
      SkipBytes(s, c, |s| - c, true);
    }
  }

  /** The loop that loads the last word. */
  method LoadPadded(s: seq<Byte>, c0: nat) returns (word: nat)
    requires c0 <= |s|
    ensures word == BigEndian(Padded(s, c0))
  {
    var c, count := c0, |s| - c0;
    word := 0;
    ghost var t := Padded(s, c0);
    for j := 0 to 8
      invariant c == (if c0 + j < |s| then c0 + j else |s|) && count == |s| - c
      invariant word == BigEndian(t[..j])
    {
      BigEndianBound(t[..j]);
      NoOverflow(j);
      word := word * 256 % 0x1_0000_0000_0000_0000;
      assert t[..j + 1][..j] == t[..j];
      if count > 0 {
        word := word + s[c] as int;
        c := c + 1;
        count := count - 1;
      }
    }
    assert t[..8] == t;
  }

  lemma NoOverflow(j: nat)
    requires j < 8
    ensures Power(256, j) * 256 <= 0x1_0000_0000_0000_0000
  {
    WidthBounds();
    PowerGrows(256, j, 7);
    assert Power(256, 8) == 256 * Power(256, 7);
  }

  /** redisBitpos on a string that starts at the given address: the first bit of the kind, where the
      string is followed by zeros, or -1 if there is none. */
  method Bitpos(s: seq<Byte>, address: nat, bit: bool) returns (pos: int)
    ensures pos == -1 <==> bit && forall i: nat :: !BitsOf(s)(i)
    ensures pos != -1 ==> pos >= 0 && BitsOf(s)(pos) == bit && NoneBefore(BitsOf(s), bit, pos)
  {
    var c, count: nat := 0, |s|;
    pos := 0;
    while (address + c) % 8 != 0 && count > 0
      invariant c + count == |s| && pos == 8 * c && NoneBefore(BitsOf(s), bit, 8 * c)
      decreases count
    {
      if s[c] != Skipped(bit) {
        break;
      }
      SkipByte(s, c, bit);
      c := c + 1;
      count := count - 1;
      pos := pos + 8;
    }
    while count >= 8
      invariant c + count == |s| && pos == 8 * c && NoneBefore(BitsOf(s), bit, 8 * c)
    {
      if Loaded(s, c) != SkippedWord(bit) {
        break;
      }
      LoadedIsSkipped(s, c, bit);
      SkipBytes(s, c, 8, bit);
      c := c + 8;
      count := count - 8;
      pos := pos + 64;
    }
    assert c + 8 <= |s| ==> Loaded(s, c) != SkippedWord(bit);
    var word := LoadPadded(s, c);
    if bit && word == 0 {
      Nothing(s, c);
      return -1;
    }
    ghost var hit := Hit(s, c, bit);
    forall m: nat | m < 64
      ensures MaskTests(BitAnd, BitsOf(s), 8 * c, word, m)
    {
      ScanBit(s, c, word, m);
    }
    pos := ScanWord(BitAnd, word, bit, pos, BitsOf(s), hit);
  }

  /** The mask of bit m tests, counting from the high end of the word, a bit of the string. */
  ghost predicate MaskTests(and: Both, bits: nat -> bool, start: nat, word: nat, m: nat)
    requires m < 64
  {
    and(Power(2, m), word) != 0 <==> bits(start + 63 - m)
  }

  /** The loop that scans the last word bit by bit; it never runs off the word. */
  method ScanWord(and: Both, word: nat, bit: bool, start: nat, ghost bits: nat -> bool, ghost hit: nat) returns (pos: nat)
    requires forall m: nat :: m < 64 ==> MaskTests(and, bits, start, word, m)
    requires NoneBefore(bits, bit, start) && hit < 64 && bits(start + hit) == bit
    ensures bits(pos) == bit && NoneBefore(bits, bit, pos)
  {
    pos := start;
    var one := 0x8000_0000_0000_0000;
    ghost var m: int := 63;
    HighBit();
    while one != 0
      invariant -1 <= m <= 63 && one == (if m == -1 then 0 else Power(2, m))
      invariant m >= 0 ==> one >= 1
      invariant pos + m == start + 63 && pos <= start + hit && NoneBefore(bits, bit, pos)
      decreases m
    {
      assert MaskTests(and, bits, start, word, m);
      if (and(one, word) != 0) == bit {
        return;
      }
      pos := pos + 1;
      one := one / 2;
      m := m - 1;
    }
    assert false;
  }

  lemma HighBit()
    ensures Power(2, 63) == 0x8000_0000_0000_0000
  {
    assert Power(2, 3) == 0x8;
    assert Power(2, 6) == 0x40;
    assert Power(2, 9) == 0x200;
    assert Power(2, 12) == 0x1000;
    assert Power(2, 15) == 0x8000;
    assert Power(2, 18) == 0x40000;
    assert Power(2, 21) == 0x200000;
    assert Power(2, 24) == 0x1000000;
    assert Power(2, 27) == 0x8000000;
    assert Power(2, 30) == 0x40000000;
    assert Power(2, 33) == 0x200000000;
    assert Power(2, 36) == 0x1000000000;
    assert Power(2, 39) == 0x8000000000;
    assert Power(2, 42) == 0x40000000000;
    assert Power(2, 45) == 0x200000000000;
    assert Power(2, 48) == 0x1000000000000;
    assert Power(2, 51) == 0x8000000000000;
    assert Power(2, 54) == 0x40000000000000;
    assert Power(2, 57) == 0x200000000000000;
    assert Power(2, 60) == 0x1000000000000000;
  }

  lemma ScanBit(s: seq<Byte>, c: nat, word: nat, m: nat)
    requires word == BigEndian(Padded(s, c)) && m < 64
    ensures MaskTests(BitAnd, BitsOf(s), 8 * c, word, m)
  {
    AndPower(m, word);
    BigEndianBit(Padded(s, c), 63 - m);
    PaddedBit(s, c, 63 - m);
  }
}
