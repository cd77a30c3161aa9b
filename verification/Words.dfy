/** C's unsigned long as a string of 64 bits, bit 0 (the least significant) first.
    Hashes, size masks and scan cursors are words. */
module Words {
  import opened Powers

  const WIDTH := 64

  type Word = w: seq<bool> | |w| == WIDTH witness seq(WIDTH, _ => false)

  function Zero(): Word {
    seq(WIDTH, i requires 0 <= i < WIDTH => false)
  }

  function And(a: Word, b: Word): Word {
    seq(WIDTH, i requires 0 <= i < WIDTH => a[i] && b[i])
  }

  function Or(a: Word, b: Word): Word {
    seq(WIDTH, i requires 0 <= i < WIDTH => a[i] || b[i])
  }

  function Xor(a: Word, b: Word): Word {
    seq(WIDTH, i requires 0 <= i < WIDTH => a[i] != b[i])
  }

  function Not(a: Word): Word {
    seq(WIDTH, i requires 0 <= i < WIDTH => !a[i])
  }

  function ShiftRight(a: Word, s: nat): Word {
    seq(WIDTH, i requires 0 <= i < WIDTH => i + s < WIDTH && a[i + s])
  }

  function ShiftLeft(a: Word, s: nat): Word {
    seq(WIDTH, i requires 0 <= i < WIDTH => i >= s && a[i - s])
  }

  /** Adding one, carrying from the first bit on and wrapping around at the end. */
  function Increment(b: seq<bool>): (r: seq<bool>)
    ensures |r| == |b|
  {
    if b == [] then [] else if b[0] then [false] + Increment(b[1..]) else [true] + b[1..]
  }

  /** The mask 2^n - 1. */
  function Mask(n: nat): Word {
    seq(WIDTH, i requires 0 <= i < WIDTH => i < n)
  }

  /** The number a bit string denotes. */
  function Num(b: seq<bool>): nat {
    if b == [] then 0 else (if b[0] then 1 else 0) + 2 * Num(b[1..])
  }

  lemma {:induction false} NumBound(b: seq<bool>)
    ensures Num(b) < Power(2, |b|)
  {
    if b != [] {
      NumBound(b[1..]);
    }
  }

  lemma {:induction false} NumInjective(a: seq<bool>, b: seq<bool>)
    requires |a| == |b| && Num(a) == Num(b)
    ensures a == b
  {
    if a != [] {
      NumInjective(a[1..], b[1..]);
      assert a == [a[0]] + a[1..] && b == [b[0]] + b[1..];
    }
  }

  /** Increment is plus one, except that all ones wrap around to zero. */
  lemma {:induction false} NumIncrement(b: seq<bool>)
    ensures (forall i :: 0 <= i < |b| ==> b[i]) ==> forall i :: 0 <= i < |b| ==> !Increment(b)[i]
    ensures !(forall i :: 0 <= i < |b| ==> b[i]) ==> Num(Increment(b)) == Num(b) + 1
  {
    if b != [] {
      assert b == [b[0]] + b[1..];
      NumIncrement(b[1..]);
      assert Increment(b)[1..] == if b[0] then Increment(b[1..]) else b[1..];
      assert (forall i :: 0 <= i < |b| ==> b[i]) ==> forall i :: 0 <= i < |b[1..]| ==> b[1..][i];
    }
  }

  /** Only the low n bits of a word matter for the bucket it selects in a table of 2^n. */
  lemma {:induction false} NumTrailingZeros(b: seq<bool>, n: nat)
    requires n <= |b|
    requires forall i :: n <= i < |b| ==> !b[i]
    ensures Num(b) == Num(b[..n])
  {
    if |b| > 0 {
      if n == 0 {
        NumTrailingZeros(b[1..], 0);
      } else {
        NumTrailingZeros(b[1..], n - 1);
        assert b[..n][1..] == b[1..][..n - 1];
      }
    }
  }

  /** The bucket that hash h selects in a table of size 2^n: h & sizemask. */
  function Bucket(h: Word, n: nat): nat {
    Num(And(h, Mask(n)))
  }

  lemma BucketIsLowBits(h: Word, n: nat)
    requires n <= WIDTH
    ensures Bucket(h, n) == Num(h[..n]) < Power(2, n)
  {
    var m := And(h, Mask(n));
    NumTrailingZeros(m, n);
    assert m[..n] == h[..n];
    NumBound(h[..n]);
  }

  lemma SameBucket(g: Word, h: Word, n: nat)
    requires n <= WIDTH
    ensures Bucket(g, n) == Bucket(h, n) <==> g[..n] == h[..n]
  {
    BucketIsLowBits(g, n);
    BucketIsLowBits(h, n);
    if Bucket(g, n) == Bucket(h, n) {
      NumInjective(g[..n], h[..n]);
    }
  }

  /** The word read backwards. */
  function Reversed(v: Word): Word {
    seq(WIDTH, i requires 0 <= i < WIDTH => v[WIDTH - 1 - i])
  }

  /** x is a multiple of t. */
  ghost predicate Aligned(x: nat, t: nat) {
    x == 0 || (0 < t <= x && Aligned(x - t, t))
  }

  lemma {:induction false} AlignedTimes(t: nat, k: nat)
    ensures Aligned(t * k, t)
  {
    if t > 0 && k > 0 {
      assert t * k - t == t * (k - 1);
      AlignedTimes(t, k - 1);
    }
  }

  lemma {:induction false} AlignedHalf(x: nat, s: nat)
    requires Aligned(x, s)
    ensures Aligned(x, 2 * s) || (x >= s && Aligned(x - s, 2 * s))
  {
    if x != 0 {
      AlignedHalf(x - s, s);
    }
  }

  lemma {:induction false} AlignedGap(x: nat, y: nat, t: nat)
    requires Aligned(x, t) && Aligned(y, t) && x < y
    ensures x + t <= y
  {
    if x != 0 {
      AlignedGap(x - t, y - t, t);
    }
  }

  function At(x: nat, o: nat): nat {
    x + o
  }

  /** v has the blocks of t bits of v0 in reverse order, each still reading forwards. */
  ghost predicate BlocksReversed(v: Word, v0: Word, t: nat) {
    forall x: nat, o: nat {:trigger At(x, o)} :: Aligned(x, t) && o < t && x + t <= WIDTH ==>
      v[At(x, o)] == v0[WIDTH - t - x + o]
  }

  /** The mask selects the lower of every two blocks of t bits. */
  ghost predicate SelectsLower(mask: Word, t: nat) {
    forall x: nat, o: nat {:trigger At(x, o)} :: Aligned(x, 2 * t) && o < 2 * t && x + o < WIDTH ==>
      mask[At(x, o)] == (o < t)
  }

  lemma HalveMask(mask: Word, s: nat)
    requires s > 0 && SelectsLower(mask, 2 * s)
    ensures SelectsLower(Xor(mask, ShiftLeft(mask, s)), s)
  {
    var m := Xor(mask, ShiftLeft(mask, s));
    forall x: nat, o: nat | Aligned(x, 2 * s) && o < 2 * s && x + o < WIDTH
      ensures m[At(x, o)] == (o < s)
    {
      AlignedHalf(x, 2 * s);
      if Aligned(x, 2 * (2 * s)) {
        assert At(x, o) == x + o;
        if o >= s {
          assert At(x, o - s) == x + o - s;
        } else if x > 0 {
          assert At(x - 4 * s, o + 3 * s) == x + o - s;
        }
      } else {
        assert At(x - 2 * s, o + 2 * s) == x + o;
        assert At(x - 2 * s, o + s) == x + o - s;
      }
    }
  }

  lemma SwapBlocks(v: Word, v0: Word, mask: Word, s: nat)
    requires s > 0 && BlocksReversed(v, v0, 2 * s) && SelectsLower(mask, s) && Aligned(WIDTH, 2 * s)
    ensures BlocksReversed(Or(And(ShiftRight(v, s), mask), And(ShiftLeft(v, s), Not(mask))), v0, s)
  {
    var w := Or(And(ShiftRight(v, s), mask), And(ShiftLeft(v, s), Not(mask)));
    forall x: nat, o: nat | Aligned(x, s) && o < s && x + s <= WIDTH
      ensures w[At(x, o)] == v0[WIDTH - s - x + o]
    {
      AlignedHalf(x, s);
      if Aligned(x, 2 * s) {
        AlignedGap(x, WIDTH, 2 * s);
        assert At(x, o) == x + o && At(x, o + s) == x + o + s;
      } else {
        assert At(x - s, o) == x - s + o && At(x - s, o + s) == x + o;
      }
    }
  }

  /** rev(): swap halves, then quarters, down to single bits. */
  method Rev(v0: Word) returns (v: Word)
    ensures v == Reversed(v0)
  {
    v := v0;
    var s := WIDTH / 2;
    var mask := Not(Zero());
    ghost var t := WIDTH;
    assert forall x: nat :: x < WIDTH && Aligned(x, t) ==> x == 0;
    assert SelectsLower(mask, t) && BlocksReversed(v, v0, t);
    while s > 0
      invariant (s, t) in {(32, 64), (16, 32), (8, 16), (4, 8), (2, 4), (1, 2), (0, 1)}
      invariant SelectsLower(mask, t) && BlocksReversed(v, v0, t)
      decreases s
    {
      HalveMask(mask, s);
      mask := Xor(mask, ShiftLeft(mask, s));
      AlignedTimes(t, WIDTH / t);
      SwapBlocks(v, v0, mask, s);
      v := Or(And(ShiftRight(v, s), mask), And(ShiftLeft(v, s), Not(mask)));
      s, t := s / 2, s;
    }
    forall i: nat | i < WIDTH
      ensures v[i] == v0[WIDTH - 1 - i]
    {
      AlignedTimes(1, i);
      assert At(i, 0) == i;
    }
  }
}
