/** BITOP: combining strings bit by bit, four words at a time where all of them have data. */
module Bitop {
  import opened Powers
  import opened Octets
  import opened Packed
  import opened Popcount
  import opened Bitpos

  datatype Op = And | Or | Xor | Not

  predicate Gate(op: Op, a: bool, b: bool) {
    match op
    case And => a && b
    case Or => a || b
    case Xor => a != b
    case Not => !a
  }

  // ---------------------------------------------------------------- bytes and words

  /** The machine's bitwise operation on n bits. */
  function Bitwise(op: Op, x: nat, y: nat, n: nat): nat {
    if n == 0 then 0 else One(Gate(op, x % 2 == 1, y % 2 == 1)) + 2 * Bitwise(op, x / 2, y / 2, n - 1)
  }

  lemma {:induction false} BitwiseBound(op: Op, x: nat, y: nat, n: nat)
    ensures Bitwise(op, x, y, n) < Power(2, n)
  {
    if n > 0 {
      BitwiseBound(op, x / 2, y / 2, n - 1);
    }
  }

  lemma {:induction false} BitwiseBit(op: Op, x: nat, y: nat, n: nat, j: nat)
    requires j < n
    ensures Shift(Bitwise(op, x, y, n), j) % 2 == 1 <==> Gate(op, Shift(x, j) % 2 == 1, Shift(y, j) % 2 == 1)
  {
    if j > 0 {
      var r := Bitwise(op, x, y, n);
      BitwiseBit(op, x / 2, y / 2, n - 1, j - 1);
      assert r / 2 == Bitwise(op, x / 2, y / 2, n - 1);
      ShiftAdd(r, 1, j - 1);
      ShiftAdd(x, 1, j - 1);
      ShiftAdd(y, 1, j - 1);
      assert Shift(r, 1) == r / 2 && Shift(x, 1) == x / 2 && Shift(y, 1) == y / 2;
    }
  }

  type Gated = (nat, nat, nat) -> nat

  function BitwiseOf(op: Op): Gated {
    (x, y, n) => Bitwise(op, x, y, n)
  }

  ghost predicate GatedAt(g: Gated, a: nat, x: nat, b: nat, y: nat, n: nat) {
    a < 2 && b < 2 ==> g(a + 2 * x, b + 2 * y, n + 1) == g(a, b, 1) + 2 * g(x, y, n)
  }

  /** g works on each bit by itself. */
  ghost predicate GatedBits(g: Gated) {
    forall a: nat, x: nat, b: nat, y: nat, n: nat :: GatedAt(g, a, x, b, y, n)
  }

  lemma BitwiseStep(op: Op, a: nat, x: nat, b: nat, y: nat, n: nat)
    requires a < 2 && b < 2
    ensures Bitwise(op, a + 2 * x, b + 2 * y, n + 1) == One(Gate(op, a == 1, b == 1)) + 2 * Bitwise(op, x, y, n)
  {
    Halves(a + 2 * x, a, x);
    Halves(b + 2 * y, b, y);
  }

  lemma BitwiseAt(op: Op, a: nat, x: nat, b: nat, y: nat, n: nat)
    ensures GatedAt(BitwiseOf(op), a, x, b, y, n)
  {
    if a < 2 && b < 2 {
      BitwiseStep(op, a, x, b, y, n);
      BitwiseStep(op, a, 0, b, 0, 0);
    }
  }

  lemma BitwiseIsGated(op: Op)
    ensures GatedBits(BitwiseOf(op))
  {
    forall a: nat, x: nat, b: nat, y: nat, n: nat
      ensures GatedAt(BitwiseOf(op), a, x, b, y, n)
    {
      BitwiseAt(op, a, x, b, y, n);
    }
  }

  lemma TwoBits(g: Gated, a: nat, x: nat, b: nat, y: nat, n: nat)
    requires GatedBits(g) && a < 4 && b < 4
    ensures g(a + 4 * x, b + 4 * y, n + 2) == g(a, b, 2) + 4 * g(x, y, n)
  {
    var a0, a1, b0, b1 := a % 2, a / 2, b % 2, b / 2;
    assert GatedAt(g, a0, a1 + 2 * x, b0, b1 + 2 * y, n + 1) && GatedAt(g, a1, x, b1, y, n) && GatedAt(g, a0, a1, b0, b1, 1);
  }

  lemma FourBits(g: Gated, a: nat, x: nat, b: nat, y: nat, n: nat)
    requires GatedBits(g) && a < 16 && b < 16
    ensures g(a + 16 * x, b + 16 * y, n + 4) == g(a, b, 4) + 16 * g(x, y, n)
  {
    var a0, a1, b0, b1 := a % 4, a / 4, b % 4, b / 4;
    TwoBits(g, a0, a1 + 4 * x, b0, b1 + 4 * y, n + 2);
    TwoBits(g, a1, x, b1, y, n);
    TwoBits(g, a0, a1, b0, b1, 2);
  }

  lemma EightGates(g: Gated, a: nat, x: nat, b: nat, y: nat, n: nat)
    requires GatedBits(g) && a < 256 && b < 256
    ensures g(a + 256 * x, b + 256 * y, n + 8) == g(a, b, 8) + 256 * g(x, y, n)
  {
    var a0, a1, b0, b1 := a % 16, a / 16, b % 16, b / 16;
    FourBits(g, a0, a1 + 16 * x, b0, b1 + 16 * y, n + 4);
    FourBits(g, a1, x, b1, y, n);
    FourBits(g, a0, a1, b0, b1, 4);
  }

  function OpByte(op: Op, a: Byte, b: Byte): Byte {
    BitwiseBound(op, a as int, b as int, 8);
    assert Power(2, 4) == 16;
    Bitwise(op, a as int, b as int, 8) as Byte
  }

  lemma OpByteBit(op: Op, a: Byte, b: Byte, k: nat)
    requires k < 8
    ensures BitOf(OpByte(op, a, b), k) == Gate(op, BitOf(a, k), BitOf(b, k))
  {
    BitwiseBit(op, a as int, b as int, 8, 7 - k);
  }

  type ByteOp = (Byte, Byte) -> Byte

  function OpOf(op: Op): ByteOp {
    (a, b) => OpByte(op, a, b)
  }

  function OpBytes(f: ByteOp, t: seq<Byte>, u: seq<Byte>): seq<Byte>
    requires |t| == |u|
  {
    if t == [] then [] else [f(t[0], u[0])] + OpBytes(f, t[1..], u[1..])
  }

  lemma {:induction false} OpBytesAt(f: ByteOp, t: seq<Byte>, u: seq<Byte>)
    requires |t| == |u|
    ensures |OpBytes(f, t, u)| == |t| && forall i :: 0 <= i < |t| ==> OpBytes(f, t, u)[i] == f(t[i], u[i])
  {
    if t != [] {
      OpBytesAt(f, t[1..], u[1..]);
    }
  }

  /** g on a word with one byte more is f on that byte and g on the rest. */
  ghost predicate ByteStep(g: Gated, f: ByteOp, a: Byte, x: nat, b: Byte, y: nat, n: nat) {
    g(a as int + 256 * x, b as int + 256 * y, n + 8) == f(a, b) as int + 256 * g(x, y, n)
  }

  lemma OneByteMore(op: Op, a: Byte, x: nat, b: Byte, y: nat, n: nat)
    ensures ByteStep(BitwiseOf(op), OpOf(op), a, x, b, y, n)
  {
    BitwiseIsGated(op);
    EightGates(BitwiseOf(op), a as int, x, b as int, y, n);
  }

  /** An operation on words is the operation on their bytes. */
  lemma {:induction false} WordIsBytes(g: Gated, f: ByteOp, t: seq<Byte>, u: seq<Byte>)
    requires |t| == |u| && g(0, 0, 0) == 0
    requires forall a: Byte, x: nat, b: Byte, y: nat, n: nat :: ByteStep(g, f, a, x, b, y, n)
    ensures g(Unsigned(t), Unsigned(u), 8 * |t|) == Unsigned(OpBytes(f, t, u))
  {
    if t != [] {
      WordIsBytes(g, f, t[1..], u[1..]);
      assert ByteStep(g, f, t[0], Unsigned(t[1..]), u[0], Unsigned(u[1..]), 8 * |t[1..]|);
      assert OpBytes(f, t, u)[1..] == OpBytes(f, t[1..], u[1..]);
    }
  }

  lemma BitwiseIsBytes(op: Op, t: seq<Byte>, u: seq<Byte>)
    requires |t| == |u|
    ensures BitwiseOf(op)(Unsigned(t), Unsigned(u), 8 * |t|) == Unsigned(OpBytes(OpOf(op), t, u))
  {
    forall a: Byte, x: nat, b: Byte, y: nat, n: nat
      ensures ByteStep(BitwiseOf(op), OpOf(op), a, x, b, y, n)
    {
      OneByteMore(op, a, x, b, y, n);
    }
    WordIsBytes(BitwiseOf(op), OpOf(op), t, u);
  }

  lemma {:induction false} LittleEndianOfUnsigned(t: seq<Byte>)
    ensures LittleEndian(Unsigned(t), |t|) == t
  {
    if t != [] {
      LittleEndianOfUnsigned(t[1..]);
      assert Unsigned(t) % 256 == t[0] as int && Unsigned(t) / 256 == Unsigned(t[1..]);
      assert [t[0]] + t[1..] == t;
    }
  }

  // ---------------------------------------------------------------- the specification

  /** The sources; a key that does not exist is Missing. */
  type Sources = seq<Source>
  datatype Source = Missing | Stored(bytes: seq<Byte>)

  function Text(s: Source): seq<Byte> {
    if s.Missing? then [] else s.bytes
  }

  function Pad(s: seq<Byte>, j: nat): Byte {
    if |s| <= j then 0 else s[j]
  }

  /** Byte j of the result of the first k sources. */
  function Combined(op: Op, src: Sources, j: nat, k: nat): Byte
    requires 1 <= k <= |src|
  {
    if k == 1 then
      var b := Pad(Text(src[0]), j);
      if op == Not then OpByte(Not, b, b) else b
    else OpByte(op, Combined(op, src, j, k - 1), Pad(Text(src[k - 1]), j))
  }

  /** Bit i of the result: the gate applied to the bits of the sources, each followed by zeros. */
  function CombinedBit(op: Op, src: Sources, i: nat, k: nat): bool
    requires 1 <= k <= |src|
  {
    if k == 1 then Gate(if op == Not then Not else Or, BitsOf(Text(src[0]))(i), false)
    else Gate(op, CombinedBit(op, src, i, k - 1), BitsOf(Text(src[k - 1]))(i))
  }

  lemma PadBit(s: seq<Byte>, j: nat, r: nat)
    requires r < 8
    ensures BitOf(Pad(s, j), r) == BitsOf(s)(8 * j + r)
  {
    if j < |s| {
      BitOfString(s, j, r);
    } else {
      ByteKinds(0);
    }
  }

  lemma {:induction false} CombinedIsBitwise(op: Op, src: Sources, j: nat, r: nat, k: nat)
    requires 1 <= k <= |src| && r < 8
    ensures BitOf(Combined(op, src, j, k), r) == CombinedBit(op, src, 8 * j + r, k)
  {
    var b := Pad(Text(src[k - 1]), j);
    PadBit(Text(src[k - 1]), j, r);
    if k == 1 {
      OpByteBit(Not, b, b, r);
    } else {
      CombinedIsBitwise(op, src, j, r, k - 1);
      OpByteBit(op, Combined(op, src, j, k - 1), b, r);
    }
  }

  // ---------------------------------------------------------------- the fast path

  /** lres[0] op= lp[i][0], on the word at the offset. */
  method OpWord(op: Op, res: array<Byte>, u: seq<Byte>, at: nat)
    requires at + 8 <= res.Length && at + 8 <= |u|
    modifies res
    ensures forall k :: 0 <= k < res.Length ==>
              res[k] == if at <= k < at + 8 then OpByte(op, old(res[k]), u[k]) else old(res[k])
  {
    var t, v := res[at..at + 8], u[at..at + 8];
    var bytes := WordOp(op, t, v);
    forall k | 0 <= k < 8 {
      res[at + k] := bytes[k];
    }
  }

  /** The operation on two words, in the machine's byte order. */
  method WordOp(op: Op, t: seq<Byte>, v: seq<Byte>) returns (bytes: seq<Byte>)
    requires |t| == |v| == 8
    ensures |bytes| == 8 && forall k :: 0 <= k < 8 ==> bytes[k] == OpByte(op, t[k], v[k])
  {
    var word := Bitwise(op, Unsigned(t), Unsigned(v), 64);
    bytes := LittleEndian(word, 8);
    BitwiseIsBytes(op, t, v);
    OpBytesAt(OpOf(op), t, v);
    LittleEndianOfUnsigned(OpBytes(OpOf(op), t, v));
    assert bytes == OpBytes(OpOf(op), t, v);
  }

  method OpFourWords(op: Op, res: array<Byte>, u: seq<Byte>, at: nat)
    requires at + 32 <= res.Length && at + 32 <= |u|
    modifies res
    ensures forall k :: 0 <= k < res.Length ==>
              res[k] == if at <= k < at + 32 then OpByte(op, old(res[k]), u[k]) else old(res[k])
  {
    OpWord(op, res, u, at);
    OpWord(op, res, u, at + 8);
    OpWord(op, res, u, at + 16);
    OpWord(op, res, u, at + 24);
  }

  /** ~lres[0] to ~lres[3]. */
  method NotFourWords(res: array<Byte>, at: nat)
    requires at + 32 <= res.Length
    modifies res
    ensures forall k :: 0 <= k < res.Length ==>
              res[k] == if at <= k < at + 32 then OpByte(Not, old(res[k]), old(res[k])) else old(res[k])
  {
    var u := res[..];
    OpFourWords(Not, res, u, at);
  }

  lemma CombinedNext(op: Op, src: Sources, j: nat, k: nat)
    requires 1 <= k < |src| && j < |Text(src[k])|
    ensures Combined(op, src, j, k + 1) == OpByte(op, Combined(op, src, j, k), Text(src[k])[j])
  {
  }

  /** 32 bytes of all sources but the first. */
  method FastBlock(op: Op, src: Sources, res: array<Byte>, at: nat)
    requires src != [] && op != Not && at + 32 <= res.Length
    requires forall i :: 0 <= i < |src| ==> at + 32 <= |Text(src[i])|
    requires forall k :: at <= k < at + 32 ==> res[k] == Combined(op, src, k, 1)
    modifies res
    ensures forall k :: 0 <= k < res.Length ==>
              res[k] == if at <= k < at + 32 then Combined(op, src, k, |src|) else old(res[k])
  {
    for i := 1 to |src|
      invariant forall k :: 0 <= k < res.Length ==>
                  res[k] == if at <= k < at + 32 then Combined(op, src, k, i) else old(res[k])
    {
      OpFourWords(op, res, Text(src[i]), at);
      forall k | at <= k < at + 32
        ensures Combined(op, src, k, i + 1) == OpByte(op, Combined(op, src, k, i), Text(src[i])[k])
      {
        CombinedNext(op, src, k, i);
      }
    }
  }

  /** The fast path: how far it gets, with the result in place up to there. */
  method FastPath(op: Op, src: Sources, res: array<Byte>, minlen0: nat) returns (j: nat)
    requires src != [] && (op == Not ==> |src| == 1) && minlen0 <= res.Length
    requires forall i :: 0 <= i < |src| ==> minlen0 <= |Text(src[i])|
    modifies res
    ensures j <= minlen0 < j + 32 && forall k :: 0 <= k < j ==> res[k] == Combined(op, src, k, |src|)
  {
    forall k | 0 <= k < minlen0 {
      res[k] := Text(src[0])[k];
    }
    j := 0;
    var minlen := minlen0;
    while minlen >= 32
      invariant j + minlen == minlen0
      invariant forall k :: 0 <= k < j ==> res[k] == Combined(op, src, k, |src|)
      invariant forall k :: j <= k < minlen0 ==> res[k] == Text(src[0])[k]
    {
      if op == Not {
        NotFourWords(res, j);
      } else {
        FastBlock(op, src, res, j);
      }
      j := j + 32;
      minlen := minlen - 32;
    }
  }

  /** The loop over the remaining bytes. */
  method SlowPath(op: Op, src: Sources, res: array<Byte>, start: nat)
    requires src != [] && (op == Not ==> |src| == 1) && start <= res.Length
    requires forall k :: 0 <= k < start ==> res[k] == Combined(op, src, k, |src|)
    modifies res
    ensures forall k :: 0 <= k < res.Length ==> res[k] == Combined(op, src, k, |src|)
  {
    for j := start to res.Length
      invariant forall k :: 0 <= k < j ==> res[k] == Combined(op, src, k, |src|)
    {
      var output := if |Text(src[0])| <= j then 0 else Text(src[0])[j];
      if op == Not {
        output := OpByte(Not, output, output);
      }
      for i := 1 to |src|
        invariant output == Combined(op, src, j, i)
      {
        var byte := if |Text(src[i])| <= j then 0 else Text(src[i])[j];
        output := OpByte(op, output, byte);
      }
      res[j] := output;
    }
  }

  /** The lengths: the greatest, and one that no source falls short of (0 if a key is missing). */
  method Lengths(src: Sources) returns (minlen: nat, maxlen: nat)
    ensures forall i :: 0 <= i < |src| ==> minlen <= |Text(src[i])| <= maxlen
    ensures maxlen == 0 || exists i :: 0 <= i < |src| && |Text(src[i])| == maxlen
  {
    minlen, maxlen := 0, 0;
    for j := 0 to |src|
      invariant forall i :: 0 <= i < j ==> minlen <= |Text(src[i])| <= maxlen
      invariant maxlen == 0 || exists i :: 0 <= i < j && |Text(src[i])| == maxlen
      invariant j == 0 ==> minlen == 0
    {
      if src[j].Missing? {
        minlen := 0;
        continue;
      }
      var len := |src[j].bytes|;
      if len > maxlen {
        maxlen := len;
      }
      if j == 0 || len < minlen {
        minlen := len;
      }
    }
  }

  /** The computing part of bitopCommand. */
  method BitopString(op: Op, src: Sources) returns (r: seq<Byte>)
    requires src != [] && (op == Not ==> |src| == 1)
    ensures forall i :: 0 <= i < |src| ==> |Text(src[i])| <= |r|
    ensures r == [] || exists i :: 0 <= i < |src| && |Text(src[i])| == |r|
    ensures forall i: nat :: i < 8 * |r| ==> Bit(r, i) == CombinedBit(op, src, i, |src|)
  {
    var minlen, maxlen := Lengths(src);
    if maxlen == 0 {
      return [];
    }
    var res := new Byte[maxlen];
    forall k | 0 <= k < maxlen {
      res[k] := 0;
    }
    var j := 0;
    if minlen >= 32 && |src| <= 16 {
      assert minlen <= |Text(src[0])| <= maxlen;
      j := FastPath(op, src, res, minlen);
    }
    SlowPath(op, src, res, j);
    r := res[..];
    forall i: nat | i < 8 * |r|
      ensures Bit(r, i) == CombinedBit(op, src, i, |src|)
    {
      CombinedIsBitwise(op, src, i / 8, i % 8, |src|);
    }
  }
}
