/** BITFIELD: integers of any width at any bit offset of a string. */
module Bitfield {
  import opened Powers
  import opened Octets
  import opened Popcount
  import opened Bitpos
  import opened Bitop

  // ---------------------------------------------------------------- one bit

  /** 1 << m. */
  function Mask1(m: nat): Byte
    requires m < 8
  {
    match m
    case 0 => 1 case 1 => 2 case 2 => 4 case 3 => 8 case 4 => 16 case 5 => 32 case 6 => 64 case _ => 128
  }

  lemma Mask1Bit(m: nat, k: nat)
    requires m < 8 && k < 8
    ensures BitOf(Mask1(m), k) <==> k == 7 - m
  {
    assert Power(2, 3) == 8 && Power(2, 6) == 64 && Power(2, 7) == 128;
    PowerBit(m, 7 - k);
    assert Mask1(m) as int == Power(2, m);
  }

  lemma {:induction false} PowerBit(m: nat, j: nat)
    ensures Shift(Power(2, m), j) % 2 == 1 <==> j == m
  {
    if j > 0 {
      ShiftAdd(Power(2, m), 1, j - 1);
      if m > 0 {
        PowerBit(m - 1, j - 1);
        assert Shift(Power(2, m), 1) == Power(2, m - 1);
      } else {
        assert Shift(1, 1) == 0;
        ZeroShift(j - 1);
      }
    }
  }

  lemma {:induction false} ZeroShift(j: nat)
    ensures Shift(0, j) == 0
  {
    if j > 0 {
      ZeroShift(j - 1);
    }
  }

  /** byteval &= ~(1 << m); byteval |= v << m. */
  function WithBit(b: Byte, m: nat, v: bool): Byte
    requires m < 8
  {
    OpByte(Or, OpByte(And, b, OpByte(Not, Mask1(m), Mask1(m))), if v then Mask1(m) else 0)
  }

  lemma WithBitBits(b: Byte, m: nat, v: bool, k: nat)
    requires m < 8 && k < 8
    ensures BitOf(WithBit(b, m, v), k) == if k == 7 - m then v else BitOf(b, k)
  {
    var not := OpByte(Not, Mask1(m), Mask1(m));
    var cleared := OpByte(And, b, not);
    var put: Byte := if v then Mask1(m) else 0;
    Mask1Bit(m, k);
    ByteKinds(0);
    OpByteBit(Not, Mask1(m), Mask1(m), k);
    OpByteBit(And, b, not, k);
    OpByteBit(Or, cleared, put, k);
  }

  // ---------------------------------------------------------------- fields

  /** Bit k of the field of an integer, the most significant one first. */
  function FieldBit(value: nat, bits: nat, k: nat): bool
    requires k < bits
  {
    Shift(value, bits - 1 - k) % 2 == 1
  }

  /** setUnsignedBitfield: the field's bits are those of the value, and no other bit changes. */
  method SetUnsigned(p: array<Byte>, offset0: nat, bits: nat, value: nat)
    requires bits <= 64 && offset0 + bits <= 8 * p.Length
    modifies p
    ensures forall i: nat :: i < 8 * p.Length ==>
              Bit(p[..], i) == if offset0 <= i < offset0 + bits then FieldBit(value, bits, i - offset0) else old(Bit(p[..], i))
  {
    var offset := offset0;
    for j := 0 to bits
      invariant offset == offset0 + j
      invariant forall i: nat :: i < 8 * p.Length ==>
                  Bit(p[..], i) == if offset0 <= i < offset0 + j then FieldBit(value, bits, i - offset0) else old(Bit(p[..], i))
    {
      SetBit(p, offset, Shift(value, bits - 1 - j) % 2 == 1);
      offset := offset + 1;
    }
  }

  method SetBit(p: array<Byte>, i: nat, v: bool)
    requires i < 8 * p.Length
    modifies p
    ensures forall k: nat :: k < 8 * p.Length ==> Bit(p[..], k) == if k == i then v else old(Bit(p[..], k))
  {
    var byte, m := i / 8, 7 - i % 8;
    ghost var s := p[..];
    p[byte] := WithBit(p[byte], m, v);
    forall k: nat | k < 8 * p.Length
      ensures Bit(p[..], k) == if k == i then v else Bit(s, k)
    {
      WithBitBits(s[byte], m, v, k % 8);
      assert k == 8 * (k / 8) + k % 8 && i == 8 * byte + i % 8;
    }
  }

  /** The number whose bits, the most significant one first, are n bits of the string. */
  function FieldValue(s: seq<Byte>, offset: nat, n: nat): nat
    requires offset + n <= 8 * |s|
  {
    if n == 0 then 0 else 2 * FieldValue(s, offset, n - 1) + One(Bit(s, offset + n - 1))
  }

  /** getUnsignedBitfield. */
  method GetUnsigned(p: array<Byte>, offset0: nat, bits: nat) returns (value: nat)
    requires bits <= 64 && offset0 + bits <= 8 * p.Length
    ensures value == FieldValue(p[..], offset0, bits)
  {
    value := 0;
    var offset := offset0;
    for j := 0 to bits
      invariant offset == offset0 + j && value == FieldValue(p[..], offset0, j)
    {
      var byte, bit := offset / 8, 7 - offset % 8;
      var bitval := Shift(p[byte] as int, bit) % 2;
      assert Bit(p[..], offset) == (bitval == 1);
      value := value * 2 + bitval;
      offset := offset + 1;
    }
  }

  lemma {:induction false} FieldPrefix(s: seq<Byte>, offset: nat, bits: nat, value: nat, k: nat)
    requires k <= bits && HoldsField(s, offset, bits, value)
    ensures FieldValue(s, offset, k) == Shift(value, bits - k) % Power(2, k)
  {
    if k > 0 {
      FieldPrefix(s, offset, bits, value, k - 1);
      assert FieldBit(value, bits, k - 1) == Bit(s, offset + (k - 1));
      var x := Shift(value, bits - k);
      assert Shift(value, bits - k + 1) == x / 2;
      DoubleMod(x, Power(2, k - 1));
    }
  }

  lemma DoubleMod(x: nat, p: nat)
    requires p >= 1
    ensures x % (2 * p) == 2 * (x / 2 % p) + x % 2
  {
    var q, r := x / 2 / p, x / 2 % p;
    assert x / 2 == p * q + r;
    assert x == 2 * (p * q + r) + x % 2;
    Doubled(p, q);
    ModUnique(x, 2 * p, q, 2 * r + x % 2);
  }

  lemma ModUnique(x: int, m: nat, q: int, r: nat)
    requires m >= 1 && x == m * q + r && r < m
    ensures x % m == r
  {
    var d := x / m - q;
    assert m * d == r - x % m;
  }

  /** The field of a string holds the bits of the value. */
  ghost predicate HoldsField(s: seq<Byte>, offset: nat, bits: nat, value: nat) {
    offset + bits <= 8 * |s| && forall j: nat :: j < bits ==> FieldBit(value, bits, j) == Bit(s, offset + j)
  }

  lemma FieldRoundTrip(s: seq<Byte>, offset: nat, bits: nat, value: nat)
    requires HoldsField(s, offset, bits, value)
    ensures FieldValue(s, offset, bits) == value % Power(2, bits)
  {
    FieldPrefix(s, offset, bits, value, bits);
    assert Shift(value, 0) == value;
  }

  /** Setting a field and reading it back gives the value modulo 2^bits. */
  method SetGetUnsigned(p: array<Byte>, offset: nat, bits: nat, value: nat) returns (got: nat)
    requires bits <= 64 && offset + bits <= 8 * p.Length
    modifies p
    ensures got == value % Power(2, bits)
    ensures forall i: nat :: i < 8 * p.Length && !(offset <= i < offset + bits) ==> Bit(p[..], i) == old(Bit(p[..], i))
  {
    SetUnsigned(p, offset, bits, value);
    got := GetUnsigned(p, offset, bits);
    forall j: nat | j < bits
      ensures FieldBit(value, bits, j) == Bit(p[..], offset + j)
    {
      assert Bit(p[..], offset + j) == FieldBit(value, bits, (offset + j) - offset);
    }
    FieldRoundTrip(p[..], offset, bits, value);
  }

  // ---------------------------------------------------------------- signed fields

  const TWO64: nat := 0x1_0000_0000_0000_0000
  const TWO63: nat := 0x8000_0000_0000_0000

  predicate Int64(v: int) {
    0 <= v + TWO63 < TWO64
  }

  /** The number in the range of a signed integer of that many bits that is equal to x modulo 2^bits. */
  function Wrapped(x: int, bits: nat): int
    requires bits >= 1
  {
    var u := x % Power(2, bits);
    if u >= Power(2, bits - 1) then u - Power(2, bits) else u
  }

  lemma WrappedFits(x: int, bits: nat)
    requires bits >= 1
    ensures 0 <= Wrapped(x, bits) + Power(2, bits - 1) < Power(2, bits)
    ensures 0 <= x + Power(2, bits - 1) < Power(2, bits) ==> Wrapped(x, bits) == x
  {
    var p := Power(2, bits - 1);
    assert Power(2, bits) == 2 * p;
    if 0 <= x < p {
      ModUnique(x, 2 * p, 0, x);
    } else if 0 <= x + p < p {
      ModUnique(x, 2 * p, -1, x + 2 * p);
    }
  }

  /** setSignedBitfield: the cast adds 2^64 to a negative value. */
  method SetSigned(p: array<Byte>, offset: nat, bits: nat, value: int)
    requires bits <= 64 && offset + bits <= 8 * p.Length && Int64(value)
    modifies p
    ensures forall i: nat :: i < 8 * p.Length ==>
              Bit(p[..], i) == if offset <= i < offset + bits then FieldBit(value % TWO64, bits, i - offset) else old(Bit(p[..], i))
  {
    var uv := value % TWO64;
    SetUnsigned(p, offset, bits, uv);
  }

  /** getSignedBitfield: a field whose top bit is set gets ones in all the bits above it. */
  method GetSigned(p: array<Byte>, offset: nat, bits: nat) returns (value: int)
    requires 1 <= bits <= 63 && offset + bits <= 8 * p.Length
    ensures value == Wrapped(FieldValue(p[..], offset, bits), bits)
  {
    var u := GetUnsigned(p, offset, bits);
    FieldBound(p[..], offset, bits);
    TopBit(u, bits);
    ModUnique(u, Power(2, bits), 0, u);
    value := u;
    if BitAnd(u, Power(2, bits - 1)) != 0 {
      value := u - Power(2, bits);
    }
  }

  lemma {:induction false} FieldBound(s: seq<Byte>, offset: nat, n: nat)
    requires offset + n <= 8 * |s|
    ensures FieldValue(s, offset, n) < Power(2, n)
  {
    if n > 0 {
      FieldBound(s, offset, n - 1);
    }
  }

  lemma {:induction false} AndCommutes(x: nat, y: nat)
    ensures BitAnd(x, y) == BitAnd(y, x)
  {
    if x != 0 && y != 0 {
      AndCommutes(x / 2, y / 2);
    }
  }

  lemma TopBit(u: nat, bits: nat)
    requires bits >= 1 && u < Power(2, bits)
    ensures BitAnd(u, Power(2, bits - 1)) != 0 <==> u >= Power(2, bits - 1)
  {
    BitTest(u, bits - 1);
    TopShift(u, bits - 1);
  }

  lemma {:induction false} TopShift(u: nat, k: nat)
    requires u < 2 * Power(2, k)
    ensures Shift(u, k) == if u >= Power(2, k) then 1 else 0
  {
    if k > 0 {
      TopShift(u / 2, k - 1);
      ShiftAdd(u, 1, k - 1);
      assert Shift(u, 1) == u / 2;
    }
  }

  lemma {:induction false} PowerSum(i: nat, j: nat)
    ensures Power(2, i + j) == Power(2, i) * Power(2, j)
  {
    if i > 0 {
      PowerSum(i - 1, j);
      Doubled(Power(2, i - 1), Power(2, j));
    }
  }

  lemma Power64()
    ensures Power(2, 64) == TWO64 && Power(2, 63) == TWO63
  {
    HighBit();
  }

  /** Only the low bits of the cast matter. */
  lemma CastKeepsLowBits(value: int, bits: nat)
    requires bits <= 64
    ensures value % TWO64 % Power(2, bits) == value % Power(2, bits)
  {
    Power64();
    PowerSum(bits, 64 - bits);
    ModOfMultiple(value, Power(2, bits), Power(2, 64 - bits), TWO64);
  }

  lemma ModOfMultiple(x: int, m: nat, k: nat, n: nat)
    requires m >= 1 && k >= 1 && n == m * k
    ensures x % n % m == x % m
  {
    var r := x % n;
    var q := x / n;
    assert x == n * q + r;
    var q1, r1 := r / m, r % m;
    assert r == m * q1 + r1;
    assert n * q == m * (k * q);
    assert x == m * (k * q + q1) + r1;
    ModUnique(x, m, k * q + q1, r1);
  }

  /** Setting a signed field and reading it back wraps the value, so a value that fits comes back. */
  method SetGetSigned(p: array<Byte>, offset: nat, bits: nat, value: int) returns (got: int)
    requires 1 <= bits <= 63 && offset + bits <= 8 * p.Length && Int64(value)
    modifies p
    ensures got == Wrapped(value, bits)
    ensures 0 <= value + Power(2, bits - 1) < Power(2, bits) ==> got == value
    ensures forall i: nat :: i < 8 * p.Length && !(offset <= i < offset + bits) ==> Bit(p[..], i) == old(Bit(p[..], i))
  {
    SetSigned(p, offset, bits, value);
    got := GetSigned(p, offset, bits);
    var uv := value % TWO64;
    forall j: nat | j < bits
      ensures FieldBit(uv, bits, j) == Bit(p[..], offset + j)
    {
      assert Bit(p[..], offset + j) == FieldBit(uv, bits, (offset + j) - offset);
    }
    FieldRoundTrip(p[..], offset, bits, uv);
    CastKeepsLowBits(value, bits);
    ModUnique(uv % Power(2, bits), Power(2, bits), 0, uv % Power(2, bits));
    WrappedFits(value, bits);
  }

  // ---------------------------------------------------------------- overflow

  datatype Overflow = Wrap | Sat | Fail

  /** The code that the two checks return, and the limit if they set one. */
  datatype Verdict = Verdict(code: int, limit: Limit)
  datatype Limit = Unset | Set(value: int)

  /** A difference as the machine's signed subtraction gives it. */
  function Diff(a: int, b: int): int {
    (a - b + TWO63) % TWO64 - TWO63
  }

  lemma DiffExact(a: int, b: int)
    ensures Int64(a - b) ==> Diff(a, b) == a - b
    ensures TWO63 <= a - b < TWO64 ==> Diff(a, b) == a - b - TWO64
  {
    var x := a - b + TWO63;
    if Int64(a - b) {
      ModUnique(x, TWO64, 0, x);
    } else if TWO63 <= a - b < TWO64 {
      ModUnique(x, TWO64, 1, x - TWO64);
    }
  }

  /** checkUnsignedBitfieldOverflow, with a limit to be set. */
  function CheckUnsigned(value: nat, incr: int, bits: nat, ow: Overflow): Verdict {
    var max := Power(2, bits) - 1;
    var maxincr := Diff(max, value);
    var minincr := Diff(0, value);
    var wrap := Verdict(1, Set((value + incr) % TWO64 % Power(2, bits)));
    if value > max || (incr > 0 && incr > maxincr) then
      match ow case Wrap => wrap case Sat => Verdict(1, Set(max)) case Fail => Verdict(1, Unset)
    else if incr < 0 && incr < minincr then
      match ow case Wrap => wrap case Sat => Verdict(-1, Set(0)) case Fail => Verdict(-1, Unset)
    else Verdict(0, Unset)
  }

  /** checkSignedBitfieldOverflow; wrapping is for fields of less than 64 bits. */
  function CheckSigned(value: int, incr: int, bits: nat, ow: Overflow): Verdict
    requires bits >= 1
  {
    var max := Power(2, bits - 1) - 1;
    var min := -max - 1;
    var maxincr := Diff(max, value);
    var minincr := Diff(min, value);
    if value > max || (bits != 64 && incr > maxincr) || (value >= 0 && incr > 0 && incr > maxincr) then
      match ow case Wrap => WrapSigned(value, incr, bits) case Sat => Verdict(1, Set(max)) case Fail => Verdict(1, Unset)
    else if value < min || (bits != 64 && incr < minincr) || (value < 0 && incr < 0 && incr < minincr) then
      match ow case Wrap => WrapSigned(value, incr, bits) case Sat => Verdict(-1, Set(min)) case Fail => Verdict(-1, Unset)
    else Verdict(0, Unset)
  }

  /** The unsigned sum; its sign bit is propagated to all higher bits, or they are cleared. */
  function WrapSigned(value: int, incr: int, bits: nat): Verdict
    requires bits >= 1
  {
    var c := (value % TWO64 + incr % TWO64) % TWO64;
    Verdict(1, Set(Propagated(c, bits)))
  }

  function Propagated(c: nat, bits: nat): int
    requires bits >= 1
  {
    var low := c % Power(2, bits);
    if BitAnd(c, Power(2, bits - 1)) != 0 then low - Power(2, bits) else low
  }

  function Clamp(x: int, min: int, max: int): int {
    if x < min then min else if x > max then max else x
  }

  function Sign(x: int, min: int, max: int): int {
    if x < min then -1 else if x > max then 1 else 0
  }

  /** For every value and increment, and fields of up to 63 bits, the unsigned check is 0 exactly when neither the value nor the sum
      leaves the range; wrapping gives the sum modulo 2^bits, and saturation the clamped sum if the
      value was in range. Wrapping reports 1 for an underflow as well. */
  lemma UnsignedCheckExact(value: nat, incr: int, bits: nat, ow: Overflow)
    requires 1 <= bits <= 63 && value < TWO64 && Int64(incr)
    ensures var max := Power(2, bits) - 1;
            var sum := value + incr;
            var v := CheckUnsigned(value, incr, bits, ow);
            && (v.code == 0 <==> value <= max && 0 <= sum <= max)
            && (v.code != 0 && ow == Wrap ==> v == Verdict(1, Set(sum % Power(2, bits))))
            && (v.code != 0 && value <= max && ow == Sat ==> v == Verdict(Sign(sum, 0, max), Set(Clamp(sum, 0, max))))
            && (v.code != 0 && value <= max && ow == Fail ==> v == Verdict(Sign(sum, 0, max), Unset))
            && (value > max && ow == Sat ==> v == Verdict(1, Set(max)))
  {
    SmallPower(bits);
    CastKeepsLowBits(value + incr, bits);
    DiffExact(Power(2, bits) - 1, value);
    DiffExact(0, value);
  }

  /** For 64 bits, which BITFIELD does not admit, the check of an increment is right exactly if the room on
      that side of the value fits a signed integer. */
  lemma Unsigned64Exact(value: nat, incr: int, ow: Overflow)
    requires value < TWO64 && Int64(incr)
    ensures (CheckUnsigned(value, incr, 64, ow).code == 0 <==> 0 <= value + incr < TWO64)
      <==> incr == 0 || (incr > 0 && value >= TWO63) || (incr < 0 && value <= TWO63)
  {
    Power64();
    DiffExact(TWO64 - 1, value);
    DiffExact(0, value);
    if value > TWO63 {
      ModUnique(0 - value + TWO63, TWO64, -1, TWO64 + TWO63 - value);
    }
  }

  lemma SmallPower(bits: nat)
    requires bits <= 63
    ensures Power(2, bits) <= TWO63
  {
    Power64();
    PowerGrows(2, bits, 63);
  }

  lemma SumOfCasts(a: int, b: int)
    ensures (a % TWO64 + b % TWO64) % TWO64 == (a + b) % TWO64
  {
    var q := a / TWO64 + b / TWO64;
    var r := a % TWO64 + b % TWO64;
    assert a + b == TWO64 * q + r;
    if r < TWO64 {
      ModUnique(a + b, TWO64, q, r);
      ModUnique(r, TWO64, 0, r);
    } else {
      ModUnique(a + b, TWO64, q + 1, r - TWO64);
      ModUnique(r, TWO64, 1, r - TWO64);
    }
  }

  lemma PropagatedIsWrapped(c: nat, bits: nat, p: nat)
    requires bits >= 1 && p == Power(2, bits)
    ensures Propagated(c, bits) == Wrapped(c, bits)
  {
    Divide(c, p);
    LowTopBit(c, c % p, c / p, bits - 1);
    TopBit(c % p, bits);
  }

  /** Wrapping a signed sum gives the number of that width that is equal to it modulo 2^bits. */
  lemma WrapSignedExact(value: int, incr: int, bits: nat)
    requires 1 <= bits <= 63
    ensures WrapSigned(value, incr, bits) == Verdict(1, Set(Wrapped(value + incr, bits)))
  {
    var c := (value + incr) % TWO64;
    SumOfCasts(value, incr);
    PropagatedIsWrapped(c, bits, Power(2, bits));
    CastKeepsLowBits(value + incr, bits);
  }

  lemma BitTest(c: nat, m: nat)
    ensures BitAnd(c, Power(2, m)) != 0 <==> Shift(c, m) % 2 == 1
  {
    AndCommutes(c, Power(2, m));
    AndPower(m, c);
  }

  lemma Divide(c: nat, p: nat)
    requires p >= 1
    ensures c == c % p + p * (c / p)
  {
  }

  lemma LowTopBit(c: nat, low: nat, q: nat, m: nat)
    requires c == low + Power(2, m + 1) * q
    ensures BitAnd(c, Power(2, m)) != 0 <==> BitAnd(low, Power(2, m)) != 0
  {
    BitTest(c, m);
    BitTest(low, m);
    SameBit(c, low, q, m);
  }

  lemma SameBit(c: nat, low: nat, q: nat, m: nat)
    requires c == low + Power(2, m + 1) * q
    ensures Shift(c, m) % 2 == Shift(low, m) % 2
  {
    ShiftSum(low, q, m + 1, m);
    assert Power(2, 1) == 2 * Power(2, 0) == 2;
    assert Shift(c, m) == Shift(low, m) + 2 * q;
  }

  /** For a value in range the signed check is exact for every increment, in fields of 64 bits too unless
      the sum is to be wrapped. */
  lemma SignedCheckExact(value: int, incr: int, bits: nat, ow: Overflow)
    requires 1 <= bits <= 64 && Int64(incr) && 0 <= value + Power(2, bits - 1) < Power(2, bits)
    ensures var max := Power(2, bits - 1) - 1;
            var min := -max - 1;
            var sum := value + incr;
            var v := CheckSigned(value, incr, bits, ow);
            && (v.code == 0 <==> min <= sum <= max)
            && (v.code != 0 && ow == Wrap && bits <= 63 ==> v == Verdict(1, Set(Wrapped(sum, bits))))
            && (v.code != 0 && ow == Sat ==> v == Verdict(Sign(sum, min, max), Set(Clamp(sum, min, max))))
            && (v.code != 0 && ow == Fail ==> v == Verdict(Sign(sum, min, max), Unset))
  {
    var p := Power(2, bits - 1);
    if bits == 64 {
      Power64();
    } else {
      SmallPower(bits);
      WrapSignedExact(value, incr, bits);
    }
    DiffExact(p - 1, value);
    DiffExact(-(p as int), value);
    RoomIsExact(value, incr, p, bits);
  }

  /** The tests of the signed check, for a value in range and exact differences. */
  lemma RoomIsExact(value: int, incr: int, p: nat, bits: nat)
    requires -(p as int) <= value < p && (if bits == 64 then p == TWO63 else 2 * p <= TWO63) && Int64(incr)
    requires Int64(p - 1 - value) ==> Diff(p - 1, value) == p - 1 - value
    requires Int64(-(p as int) - value) ==> Diff(-(p as int), value) == -(p as int) - value
    ensures var hi, lo := Diff(p - 1, value), Diff(-(p as int), value);
            && ((bits != 64 && incr > hi) || (value >= 0 && incr > 0 && incr > hi) <==> value + incr >= p)
            && ((bits != 64 && incr < lo) || (value < 0 && incr < 0 && incr < lo) <==> value + incr < -(p as int))
  {
  }

  /** Setting any 64-bit value saturates to the nearer bound exactly when the difference to the greatest
      value of the field fits 64 bits; a value so low that it does not saturates to the greatest. */
  lemma SignedSetSaturates(value: int, bits: nat)
    requires 1 <= bits <= 64 && Int64(value)
    ensures var max := Power(2, bits - 1) - 1;
            var min := -max - 1;
            var v := CheckSigned(value, 0, bits, Sat);
            && (v.code == 0 <==> min <= value <= max)
            && (v.code != 0 ==> (v == Verdict(Sign(value, min, max), Set(Clamp(value, min, max))) <==> max - value < TWO63))
  {
    var p := Power(2, bits - 1);
    if bits == 64 {
      Power64();
    } else {
      SmallPower(bits);
    }
    DiffExact(p - 1, value);
    DiffExact(-(p as int), value);
  }

  /** The least 64-bit integer, set in a field of 8 bits, saturates to 127. */
  lemma SaturatesTheWrongWay()
    ensures CheckSigned(-(TWO63 as int), 0, 8, Sat) == Verdict(1, Set(127))
  {
    assert Power(2, 7) == 128;
    DiffExact(127, -(TWO63 as int));
  }
}
