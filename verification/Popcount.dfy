/** Counting ones seven words at a time. */
module Popcount {
  import opened Powers
  import opened Octets

  // ---------------------------------------------------------------- bits of numbers

  /** The number of ones in x. */
  function Pop(x: nat): nat {
    if x == 0 then 0 else x % 2 + Pop(x / 2)
  }

  /** The bitwise and of two numbers. */
  function BitAnd(x: nat, y: nat): nat {
    if x == 0 || y == 0 then 0 else (if x % 2 == 1 && y % 2 == 1 then 1 else 0) + 2 * BitAnd(x / 2, y / 2)
  }

  // ---------------------------------------------------------------- their laws, digit by digit

  type Both = (nat, nat) -> nat
  type Weight = nat -> nat

  ghost predicate AndAt(f: Both, a: nat, x: nat, b: nat, y: nat) {
    a < 2 && b < 2 ==> f(a + 2 * x, b + 2 * y) == f(a, b) + 2 * f(x, y)
  }

  ghost predicate AndZero(f: Both, x: nat) {
    f(x, 0) == 0 == f(0, x)
  }

  /** f works on each bit by itself, as "and" does. */
  ghost predicate AndLaws(f: Both) {
    && f(0, 1) == 0 && f(1, 1) == 1 && (forall x: nat :: AndZero(f, x))
    && (forall a: nat, x: nat, b: nat, y: nat :: AndAt(f, a, x, b, y))
  }

  ghost predicate PopAt(pop: Weight, a: nat, x: nat) {
    a < 2 ==> pop(a + 2 * x) == a + pop(x)
  }

  /** pop adds up the bits. */
  ghost predicate PopLaws(pop: Weight) {
    pop(0) == 0 && forall a: nat, x: nat :: PopAt(pop, a, x)
  }

  lemma AndStep(a: nat, x: nat, b: nat, y: nat)
    requires a < 2 && b < 2
    ensures BitAnd(a + 2 * x, b + 2 * y) == (if a == 1 && b == 1 then 1 else 0) + 2 * BitAnd(x, y)
  {
    assert (a + 2 * x) % 2 == a && (a + 2 * x) / 2 == x && (b + 2 * y) % 2 == b && (b + 2 * y) / 2 == y;
  }

  lemma AndHasLaws()
    ensures AndLaws(BitAnd)
  {
    AndStep(0, 0, 1, 0);
    AndStep(1, 0, 1, 0);
    forall a: nat, x: nat, b: nat, y: nat
      ensures AndAt(BitAnd, a, x, b, y)
    {
      if a < 2 && b < 2 {
        AndStep(a, x, b, y);
        AndStep(a, 0, b, 0);
      }
    }
  }

  lemma Halves(y: nat, a: nat, x: nat)
    requires y == a + 2 * x && a < 2
    ensures y % 2 == a && y / 2 == x
  {
  }

  lemma PopOf(y: nat, a: nat, x: nat)
    requires y % 2 == a && y / 2 == x
    ensures Pop(y) == a + Pop(x)
  {
  }

  lemma PopStep(a: nat, x: nat)
    requires a < 2
    ensures Pop(a + 2 * x) == a + Pop(x)
  {
    Halves(a + 2 * x, a, x);
    PopOf(a + 2 * x, a, x);
  }

  lemma PopHasLaws()
    ensures PopLaws(Pop)
  {
    forall a: nat, x: nat
      ensures PopAt(Pop, a, x)
    {
      if a < 2 {
        PopStep(a, x);
      }
    }
  }

  lemma AndPairs(f: Both, a0: nat, a1: nat, x: nat, b0: nat, b1: nat, y: nat)
    requires AndLaws(f) && a0 < 2 && a1 < 2 && b0 < 2 && b1 < 2
    ensures f(a0 + 2 * a1 + 4 * x, b0 + 2 * b1 + 4 * y) == f(a0 + 2 * a1, b0 + 2 * b1) + 4 * f(x, y)
  {
    assert AndAt(f, a0, a1 + 2 * x, b0, b1 + 2 * y);
    assert AndAt(f, a1, x, b1, y);
    assert AndAt(f, a0, a1, b0, b1);
  }

  lemma And4(f: Both, a: nat, x: nat, b: nat, y: nat)
    requires AndLaws(f) && a < 4 && b < 4
    ensures f(a + 4 * x, b + 4 * y) == f(a, b) + 4 * f(x, y)
  {
    AndPairs(f, a % 2, a / 2, x, b % 2, b / 2, y);
  }

  lemma AndNibbles(f: Both, a0: nat, a1: nat, x: nat, b0: nat, b1: nat, y: nat)
    requires AndLaws(f) && a0 < 4 && a1 < 4 && b0 < 4 && b1 < 4
    ensures f(a0 + 4 * a1 + 16 * x, b0 + 4 * b1 + 16 * y) == f(a0 + 4 * a1, b0 + 4 * b1) + 16 * f(x, y)
  {
    And4(f, a0, a1 + 4 * x, b0, b1 + 4 * y);
    And4(f, a1, x, b1, y);
    And4(f, a0, a1, b0, b1);
  }

  lemma And16(f: Both, a: nat, x: nat, b: nat, y: nat)
    requires AndLaws(f) && a < 16 && b < 16
    ensures f(a + 16 * x, b + 16 * y) == f(a, b) + 16 * f(x, y)
  {
    AndNibbles(f, a % 4, a / 4, x, b % 4, b / 4, y);
  }

  lemma And256(f: Both, a0: nat, a1: nat, x: nat, b0: nat, b1: nat, y: nat)
    requires AndLaws(f) && a0 < 16 && a1 < 16 && b0 < 16 && b1 < 16
    ensures f(a0 + 16 * a1 + 256 * x, b0 + 16 * b1 + 256 * y) == f(a0 + 16 * a1, b0 + 16 * b1) + 256 * f(x, y)
  {
    And16(f, a0, a1 + 16 * x, b0, b1 + 16 * y);
    And16(f, a1, x, b1, y);
    And16(f, a0, a1, b0, b1);
  }

  lemma Low1(f: Both, a: nat)
    requires AndLaws(f) && a < 2
    ensures f(a, 1) == a
  {
  }

  lemma Low2(f: Both, a: nat, b: nat)
    requires AndLaws(f) && a < 4
    ensures f(a + 4 * b, 3) == a
  {
    And4(f, a, b, 3, 0);
    assert AndZero(f, b);
    var a0, a1 := a % 2, a / 2;
    assert AndAt(f, a0, a1, 1, 1);
    Low1(f, a0);
    Low1(f, a1);
  }

  lemma Low4(f: Both, a: nat, b: nat)
    requires AndLaws(f) && a < 16
    ensures f(a + 16 * b, 15) == a
  {
    And16(f, a, b, 15, 0);
    assert AndZero(f, b);
    var a0, a1 := a % 4, a / 4;
    And4(f, a0, a1, 3, 3);
    Low2(f, a0, 0);
    Low2(f, a1, 0);
  }

  lemma PopPair(pop: Weight, a: nat, b: nat)
    requires PopLaws(pop) && a < 4
    ensures pop(a + 4 * b) == pop(a) + pop(b) && pop(a) == a - a / 2 <= 2
  {
    var a0, a1 := a % 2, a / 2;
    assert PopAt(pop, a0, a1 + 2 * b) && PopAt(pop, a1, b) && PopAt(pop, a0, a1) && PopAt(pop, a1, 0);
  }

  lemma PopNibble(pop: Weight, a: nat, b: nat)
    requires PopLaws(pop) && a < 16
    ensures pop(a + 16 * b) == pop(a) + pop(b) && pop(a) <= 4
  {
    var a0, a1 := a % 4, a / 4;
    PopPair(pop, a0, a1 + 4 * b);
    PopPair(pop, a1, b);
    PopPair(pop, a0, a1);
  }

  // ---------------------------------------------------------------- the three folding steps

  /** n digits to the base, each replaced by its number of ones. */
  function Ones(pop: Weight, base: nat, x: nat, n: nat): nat
    requires base >= 1
  {
    if n == 0 then 0 else pop(x % base) + base * Ones(pop, base, x / base, n - 1)
  }

  type Digits = (nat, nat) -> nat

  function OnesOf(pop: Weight, base: nat): Digits
    requires base >= 1
  {
    (x, n) => Ones(pop, base, x, n)
  }

  ghost predicate OnesAt(pop: Weight, g: Digits, base: nat, d: nat, r: nat, n: nat) {
    d < base ==> g(d + base * r, n + 1) == pop(d) + base * g(r, n)
  }

  ghost predicate NoOnes(g: Digits, x: nat) {
    g(x, 0) == 0
  }

  /** g is OnesOf(pop, base), as its recursion says it. */
  ghost predicate OnesLaws(pop: Weight, g: Digits, base: nat) {
    && (forall x: nat :: NoOnes(g, x))
    && (forall d: nat, r: nat, n: nat :: OnesAt(pop, g, base, d, r, n))
  }

  lemma OnesHaveLaws(pop: Weight, base: nat)
    requires base == 4 || base == 16 || base == 256
    ensures OnesLaws(pop, OnesOf(pop, base), base)
  {
    var g := OnesOf(pop, base);
    forall d: nat, r: nat, n: nat
      ensures OnesAt(pop, g, base, d, r, n)
    {
      if d < base {
        LastDigit(base, d, r);
      }
    }
  }

  lemma LastDigit(base: nat, d: nat, r: nat)
    requires (base == 4 || base == 16 || base == 256) && d < base
    ensures (d + base * r) % base == d && (d + base * r) / base == r
  {
    if base == 4 {
      assert (d + 4 * r) % 4 == d && (d + 4 * r) / 4 == r;
    } else if base == 16 {
      assert (d + 16 * r) % 16 == d && (d + 16 * r) / 16 == r;
    } else {
      assert (d + 256 * r) % 256 == d && (d + 256 * r) / 256 == r;
    }
  }

  /** n digits d to the base. */
  function Mask(base: nat, d: nat, n: nat): nat {
    if n == 0 then 0 else d + base * Mask(base, d, n - 1)
  }

  /** x - ((x >> 1) & 0x55...). */
  lemma {:induction false} FoldPairs(f: Both, pop: Weight, g: Digits, x: nat, n: nat)
    requires AndLaws(f) && PopLaws(pop) && OnesLaws(pop, g, 4) && x < Power(4, n)
    ensures x - f(x / 2, Mask(4, 1, n)) == g(x, n)
  {
    if n == 0 {
      assert AndZero(f, 0) && NoOnes(g, x);
    } else {
      var d, r := x % 4, x / 4;
      FoldPairs(f, pop, g, r, n - 1);
      FoldPair(f, x, r, d, Mask(4, 1, n - 1));
      PopPair(pop, d, 0);
      assert OnesAt(pop, g, 4, d, r, n - 1);
    }
  }

  lemma FoldPair(f: Both, x: nat, r: nat, d: nat, m: nat)
    requires AndLaws(f) && x == d + 4 * r && d < 4
    ensures f(x / 2, 1 + 4 * m) == d / 2 + 4 * f(r / 2, m)
  {
    var h, q, t := d / 2, r / 2, r % 2;
    assert x / 2 == h + 2 * t + 4 * q;
    AndPairs(f, h, t, q, 1, 0, m);
    assert AndAt(f, h, t, 1, 0) && AndZero(f, t);
    Low1(f, h);
  }

  lemma Doubled(p: nat, b: nat)
    ensures (2 * p) * b == 2 * (p * b)
  {
  }

  /** (a & 0x33...) + ((a >> 2) & 0x33...). */
  lemma {:induction false} FoldNibbles(f: Both, pop: Weight, g: Digits, h: Digits, x: nat, n: nat, a: nat)
    requires AndLaws(f) && PopLaws(pop) && OnesLaws(pop, g, 4) && OnesLaws(pop, h, 16) && a == g(x, 2 * n)
    ensures f(a, Mask(16, 3, n)) + f(a / 4, Mask(16, 3, n)) == h(x, n)
  {
    if n == 0 {
      assert AndZero(f, 0) && NoOnes(g, x) && NoOnes(h, x);
    } else {
      var q := x / 4;
      var d0, d1, r := x % 4, q % 4, q / 4;
      NibbleDigits(pop, g, h, d0, d1, r, n - 1);
      FoldNibbles(f, pop, g, h, r, n - 1, g(r, 2 * (n - 1)));
      FoldNibble(f, pop(d0), pop(d1), g(r, 2 * (n - 1)), Mask(16, 3, n - 1), a);
    }
  }

  lemma NibbleDigits(pop: Weight, g: Digits, h: Digits, d0: nat, d1: nat, r: nat, n: nat)
    requires PopLaws(pop) && OnesLaws(pop, g, 4) && OnesLaws(pop, h, 16) && d0 < 4 && d1 < 4
    ensures var x := d0 + 4 * (d1 + 4 * r);
            && g(x, 2 * n + 2) == pop(d0) + 4 * (pop(d1) + 4 * g(r, 2 * n))
            && h(x, n + 1) == pop(d0) + pop(d1) + 16 * h(r, n)
    ensures pop(d0) <= 2 && pop(d1) <= 2
  {
    assert OnesAt(pop, g, 4, d0, d1 + 4 * r, 2 * n + 1) && OnesAt(pop, g, 4, d1, r, 2 * n);
    assert OnesAt(pop, h, 16, d0 + 4 * d1, r, n);
    PopPair(pop, d0, d1);
    PopPair(pop, d1, 0);
  }

  lemma FoldNibble(f: Both, p0: nat, p1: nat, a': nat, m: nat, a: nat)
    requires AndLaws(f) && p0 <= 2 && p1 <= 2 && a == p0 + 4 * (p1 + 4 * a')
    ensures f(a, 3 + 16 * m) + f(a / 4, 3 + 16 * m) == (p0 + p1) + 16 * (f(a', m) + f(a' / 4, m))
  {
    FoldLowNibble(f, p0, p1, a', m);
    FoldHighNibble(f, p0, p1, a', m);
  }

  lemma FoldLowNibble(f: Both, p0: nat, p1: nat, a: nat, m: nat)
    requires AndLaws(f) && p0 <= 2 && p1 <= 2
    ensures f(p0 + 4 * (p1 + 4 * a), 3 + 16 * m) == p0 + 16 * f(a, m)
  {
    And16(f, p0 + 4 * p1, a, 3, m);
    Low2(f, p0, p1);
  }

  lemma FoldHighNibble(f: Both, p0: nat, p1: nat, a: nat, m: nat)
    requires AndLaws(f) && p0 <= 2 && p1 <= 2
    ensures f((p0 + 4 * (p1 + 4 * a)) / 4, 3 + 16 * m) == p1 + 16 * f(a / 4, m)
  {
    var q, r := a / 4, a % 4;
    assert (p0 + 4 * (p1 + 4 * a)) / 4 == p1 + 4 * a == (p1 + 4 * r) + 16 * q;
    And16(f, p1 + 4 * r, q, 3, m);
    Low2(f, p1, r);
  }

  /** (b + (b >> 4)) & 0x0F... */
  lemma {:induction false} FoldBytes(f: Both, pop: Weight, h: Digits, k: Digits, x: nat, n: nat, b: nat)
    requires AndLaws(f) && PopLaws(pop) && OnesLaws(pop, h, 16) && OnesLaws(pop, k, 256) && b == h(x, 2 * n)
    ensures f(b + b / 16, Mask(256, 15, n)) == k(x, n)
  {
    if n == 0 {
      assert AndZero(f, 0) && NoOnes(h, x) && NoOnes(k, x);
    } else {
      var q := x / 16;
      var d0, d1, r := x % 16, q % 16, q / 16;
      ByteDigits(pop, h, k, d0, d1, r, n - 1);
      FoldBytes(f, pop, h, k, r, n - 1, h(r, 2 * (n - 1)));
      LowDigit(pop, h, r, 2 * (n - 1));
      FoldByte(f, pop(d0), pop(d1), h(r, 2 * (n - 1)), Mask(256, 15, n - 1), b);
    }
  }

  lemma ByteDigits(pop: Weight, h: Digits, k: Digits, d0: nat, d1: nat, r: nat, n: nat)
    requires PopLaws(pop) && OnesLaws(pop, h, 16) && OnesLaws(pop, k, 256) && d0 < 16 && d1 < 16
    ensures var x := d0 + 16 * (d1 + 16 * r);
            && h(x, 2 * n + 2) == pop(d0) + 16 * (pop(d1) + 16 * h(r, 2 * n))
            && k(x, n + 1) == pop(d0) + pop(d1) + 256 * k(r, n)
    ensures pop(d0) <= 4 && pop(d1) <= 4
  {
    assert OnesAt(pop, h, 16, d0, d1 + 16 * r, 2 * n + 1) && OnesAt(pop, h, 16, d1, r, 2 * n);
    assert OnesAt(pop, k, 256, d0 + 16 * d1, r, n);
    PopNibble(pop, d0, d1);
    PopNibble(pop, d1, 0);
  }

  lemma LowDigit(pop: Weight, h: Digits, x: nat, n: nat)
    requires PopLaws(pop) && OnesLaws(pop, h, 16)
    ensures h(x, n) % 16 <= 4
  {
    if n == 0 {
      assert NoOnes(h, x);
    } else {
      var d, r := x % 16, x / 16;
      PopNibble(pop, d, 0);
      assert OnesAt(pop, h, 16, d, r, n - 1);
    }
  }

  /** No sum of two neighbouring digits carries into the next. */
  lemma FoldByte(f: Both, p0: nat, p1: nat, b: nat, m: nat, c: nat)
    requires AndLaws(f) && p0 <= 4 && p1 <= 4 && b % 16 <= 4 && c == p0 + 16 * (p1 + 16 * b)
    ensures f(c + c / 16, 15 + 256 * m) == (p0 + p1) + 256 * f(b + b / 16, m)
  {
    var t, q := b % 16, b / 16;
    FoldedSum(p0, p1, b, c);
    And256(f, p0 + p1, p1 + t, b + q, 15, 0, m);
    Low4(f, p0 + p1, p1 + t);
  }

  lemma FoldedSum(p0: nat, p1: nat, b: nat, c: nat)
    requires p0 <= 4 && c == p0 + 16 * (p1 + 16 * b)
    ensures c + c / 16 == (p0 + p1) + 16 * (p1 + b % 16) + 256 * (b + b / 16)
  {
    assert c / 16 == p1 + 16 * b;
  }

  // ---------------------------------------------------------------- one word

  const WORD: nat := 0x1_0000_0000

  function Plus(a: nat, b: nat): nat {
    (a + b) % WORD
  }

  function Minus(a: nat, b: nat): nat {
    (a - b) % WORD
  }

  function Times(a: nat, b: nat): nat {
    (a * b) % WORD
  }

  /** What the loop does to each of its seven words before it adds them up. */
  function Folded(x: nat): nat {
    var a := Minus(x, BitAnd(x / 2, 0x55555555));
    var b := Plus(BitAnd(a, 0x33333333), BitAnd(a / 4, 0x33333333));
    BitAnd(Plus(b, b / 16), 0x0F0F0F0F)
  }

  lemma MaskValues()
    ensures Mask(4, 1, 16) == 0x55555555 && Mask(16, 3, 8) == 0x33333333 && Mask(256, 15, 4) == 0x0F0F0F0F
    ensures Power(4, 16) == WORD
  {
    assert Mask(4, 1, 4) == 0x55 && Mask(4, 1, 8) == 0x5555 && Mask(4, 1, 12) == 0x555555;
    assert Mask(16, 3, 4) == 0x3333;
    assert Power(4, 4) == 0x100 && Power(4, 8) == 0x1_0000 && Power(4, 12) == 0x100_0000;
  }

  lemma {:induction false} OnesBound(pop: Weight, h: Digits, x: nat, n: nat)
    requires PopLaws(pop) && OnesLaws(pop, h, 16)
    ensures h(x, n) <= Mask(16, 4, n)
  {
    if n == 0 {
      assert NoOnes(h, x);
    } else {
      var d, r := x % 16, x / 16;
      OnesBound(pop, h, r, n - 1);
      PopNibble(pop, d, 0);
      assert OnesAt(pop, h, 16, d, r, n - 1);
    }
  }

  lemma {:induction false} AndBound(x: nat, y: nat)
    ensures BitAnd(x, y) <= x
  {
    if x != 0 && y != 0 {
      AndBound(x / 2, y / 2);
    }
  }

  lemma NoWrap(a: nat, b: nat)
    ensures b <= a < WORD ==> Minus(a, b) == a - b
    ensures a + b < WORD ==> Plus(a, b) == a + b
  {
  }

  /** f(x, y) <= x, which is why the subtraction does not wrap around. */
  ghost predicate AndBelow(f: Both, x: nat, y: nat) {
    f(x, y) <= x
  }

  lemma FirstFold(f: Both, pop: Weight, g: Digits, x: nat, n: nat, m: nat)
    requires AndLaws(f) && PopLaws(pop) && OnesLaws(pop, g, 4)
    requires x < Power(4, n) == WORD && m == Mask(4, 1, n) && AndBelow(f, x / 2, m)
    ensures Minus(x, f(x / 2, m)) == g(x, n)
  {
    FoldPairs(f, pop, g, x, n);
    NoWrap(x, f(x / 2, m));
  }

  lemma NibbleBound(pop: Weight, h: Digits, x: nat)
    requires PopLaws(pop) && OnesLaws(pop, h, 16)
    ensures h(x, 8) <= 0x44444444
  {
    OnesBound(pop, h, x, 8);
    assert Mask(16, 4, 4) == 0x4444;
    assert Mask(16, 4, 8) == 0x44444444;
  }

  lemma SecondFold(f: Both, pop: Weight, g: Digits, h: Digits, x: nat, n: nat, a: nat, m: nat)
    requires AndLaws(f) && PopLaws(pop) && OnesLaws(pop, g, 4) && OnesLaws(pop, h, 16)
    requires a == g(x, 2 * n) && m == Mask(16, 3, n) && h(x, n) <= 0x44444444
    ensures Plus(f(a, m), f(a / 4, m)) == h(x, n)
  {
    FoldNibbles(f, pop, g, h, x, n, a);
    NoWrap(f(a, m), f(a / 4, m));
  }

  lemma ThirdFold(f: Both, pop: Weight, h: Digits, k: Digits, x: nat, n: nat, b: nat, m: nat)
    requires AndLaws(f) && PopLaws(pop) && OnesLaws(pop, h, 16) && OnesLaws(pop, k, 256)
    requires b == h(x, 2 * n) && m == Mask(256, 15, n) && b <= 0x44444444
    ensures f(Plus(b, b / 16), m) == k(x, n)
  {
    FoldBytes(f, pop, h, k, x, n, b);
    NoWrap(b, b / 16);
  }

  /** The three steps, for any functions with these laws. */
  lemma ThreeFolds(f: Both, pop: Weight, g: Digits, h: Digits, k: Digits, x: nat, a: nat, b: nat)
    requires AndLaws(f) && PopLaws(pop) && OnesLaws(pop, g, 4) && OnesLaws(pop, h, 16) && OnesLaws(pop, k, 256)
    requires x < WORD && AndBelow(f, x / 2, 0x55555555)
    requires a == Minus(x, f(x / 2, 0x55555555)) && b == Plus(f(a, 0x33333333), f(a / 4, 0x33333333))
    ensures f(Plus(b, b / 16), 0x0F0F0F0F) == k(x, 4)
  {
    MaskValues();
    FirstFold(f, pop, g, x, 16, 0x55555555);
    NibbleBound(pop, h, x);
    SecondFold(f, pop, g, h, x, 8, a, 0x33333333);
    ThirdFold(f, pop, h, k, x, 4, b, 0x0F0F0F0F);
  }

  lemma FoldedIsOnes(x: nat)
    requires x < WORD
    ensures Folded(x) == OnesOf(Pop, 256)(x, 4)
  {
    AndHasLaws();
    PopHasLaws();
    OnesHaveLaws(Pop, 4);
    OnesHaveLaws(Pop, 16);
    OnesHaveLaws(Pop, 256);
    AndBound(x / 2, 0x55555555);
    var a := Minus(x, BitAnd(x / 2, 0x55555555));
    var b := Plus(BitAnd(a, 0x33333333), BitAnd(a / 4, 0x33333333));
    ThreeFolds(BitAnd, Pop, OnesOf(Pop, 4), OnesOf(Pop, 16), OnesOf(Pop, 256), x, a, b);
  }

  function Load(b0: Byte, b1: Byte, b2: Byte, b3: Byte): (r: nat)
    ensures r < WORD
  {
    b0 as int + 0x100 * (b1 as int) + 0x1_0000 * (b2 as int) + 0x100_0000 * (b3 as int)
  }

  function Lanes(p0: nat, p1: nat, p2: nat, p3: nat): nat {
    p0 + 0x100 * p1 + 0x1_0000 * p2 + 0x100_0000 * p3
  }

  function ByteOnes(b: Byte): nat {
    Pop(b as int)
  }

  lemma EightBits(pop: Weight, n: nat)
    requires PopLaws(pop) && n < 256
    ensures pop(n) <= 8
  {
    var h, l := n / 16, n % 16;
    PopNibble(pop, l, h);
    PopNibble(pop, h, 0);
  }

  lemma SmallPop256(b: Byte)
    ensures ByteOnes(b) <= 8
  {
    PopHasLaws();
    EightBits(Pop, b as int);
  }

  lemma FourDigits(pop: Weight, k: Digits, d0: nat, d1: nat, d2: nat, d3: nat, x: nat)
    requires OnesLaws(pop, k, 256) && d0 < 256 && d1 < 256 && d2 < 256 && d3 < 256
    requires x == d0 + 256 * (d1 + 256 * (d2 + 256 * d3))
    ensures k(x, 4) == Lanes(pop(d0), pop(d1), pop(d2), pop(d3))
  {
    assert OnesAt(pop, k, 256, d0, d1 + 256 * (d2 + 256 * d3), 3);
    assert OnesAt(pop, k, 256, d1, d2 + 256 * d3, 2);
    assert OnesAt(pop, k, 256, d2, d3, 1);
    assert OnesAt(pop, k, 256, d3, 0, 0) && NoOnes(k, 0);
  }

  lemma OnesOfLoad(b0: Byte, b1: Byte, b2: Byte, b3: Byte)
    ensures OnesOf(Pop, 256)(Load(b0, b1, b2, b3), 4) == Lanes(ByteOnes(b0), ByteOnes(b1), ByteOnes(b2), ByteOnes(b3))
  {
    OnesHaveLaws(Pop, 256);
    FourDigits(Pop, OnesOf(Pop, 256), b0 as int, b1 as int, b2 as int, b3 as int, Load(b0, b1, b2, b3));
  }

  lemma TopLane(low: nat, top: nat, high: nat, r: nat)
    requires low < 0x100_0000 && top < 0x100 && r == low + 0x100_0000 * top
    ensures (r + WORD * high) % WORD / 0x100_0000 == top
  {
    assert r < WORD;
    assert (r + WORD * high) % WORD == r;
  }

  /** Multiplying by 0x01010101 adds up the four lanes in the top one. */
  lemma Multiply(p0: nat, p1: nat, p2: nat, p3: nat)
    requires p0 <= 56 && p1 <= 56 && p2 <= 56 && p3 <= 56
    ensures Times(Lanes(p0, p1, p2, p3), 0x01010101) / 0x100_0000 == p0 + p1 + p2 + p3
  {
    var low := p0 + 0x100 * (p0 + p1) + 0x1_0000 * (p0 + p1 + p2);
    var high := (p1 + p2 + p3) + 0x100 * (p2 + p3) + 0x1_0000 * p3;
    var r := low + 0x100_0000 * (p0 + p1 + p2 + p3);
    TopLane(low, p0 + p1 + p2 + p3, high, r);
  }

  // ---------------------------------------------------------------- seven words

  type Counter = Byte -> nat

  /** The sum of ones over a string. */
  function Total(ones: Counter, s: seq<Byte>): nat {
    if s == [] then 0 else Total(ones, s[..|s| - 1]) + ones(s[|s| - 1])
  }

  function Word(s: seq<Byte>, i: nat): (r: nat)
    requires i + 4 <= |s|
    ensures r < WORD
  {
    Load(s[i], s[i + 1], s[i + 2], s[i + 3])
  }

  function WordSum(fold: nat -> nat, s: seq<Byte>, k: nat): nat
    requires 4 * k <= |s|
  {
    if k == 0 then 0 else Plus(WordSum(fold, s, k - 1), fold(Word(s, 4 * (k - 1))))
  }

  /** The ones in the bytes of one lane of the first k words. */
  function Lane(ones: Counter, s: seq<Byte>, k: nat, lane: nat): nat
    requires 4 * k <= |s| && lane < 4
  {
    if k == 0 then 0 else Lane(ones, s, k - 1, lane) + ones(s[4 * (k - 1) + lane])
  }

  lemma {:induction false} LaneBound(ones: Counter, s: seq<Byte>, k: nat, lane: nat)
    requires 4 * k <= |s| && lane < 4 && forall b :: ones(b) <= 8
    ensures Lane(ones, s, k, lane) <= 8 * k
  {
    if k > 0 {
      LaneBound(ones, s, k - 1, lane);
    }
  }

  lemma LanesAdd(a0: nat, a1: nat, a2: nat, a3: nat, b0: nat, b1: nat, b2: nat, b3: nat)
    requires a0 <= 48 && a1 <= 48 && a2 <= 48 && a3 <= 48 && b0 <= 8 && b1 <= 8 && b2 <= 8 && b3 <= 8
    ensures Plus(Lanes(a0, a1, a2, a3), Lanes(b0, b1, b2, b3)) == Lanes(a0 + b0, a1 + b1, a2 + b2, a3 + b3)
  {
    var x, y := Lanes(a0, a1, a2, a3), Lanes(b0, b1, b2, b3);
    assert x <= 0x30303030 && y <= 0x08080808;
    NoWrap(x, y);
  }

  /** Folding the word number j leaves the number of ones of each byte in its lane. */
  ghost predicate FoldsWord(fold: nat -> nat, ones: Counter, s: seq<Byte>, j: nat)
    requires 4 * j + 4 <= |s|
  {
    fold(Word(s, 4 * j)) == Lanes(ones(s[4 * j]), ones(s[4 * j + 1]), ones(s[4 * j + 2]), ones(s[4 * j + 3]))
  }

  lemma FoldedWord(s: seq<Byte>, j: nat)
    requires 4 * j + 4 <= |s|
    ensures FoldsWord(Folded, ByteOnes, s, j)
  {
    FoldedIsOnes(Word(s, 4 * j));
    OnesOfLoad(s[4 * j], s[4 * j + 1], s[4 * j + 2], s[4 * j + 3]);
  }

  function AllLanes(ones: Counter, s: seq<Byte>, k: nat): nat
    requires 4 * k <= |s|
  {
    Lanes(Lane(ones, s, k, 0), Lane(ones, s, k, 1), Lane(ones, s, k, 2), Lane(ones, s, k, 3))
  }

  lemma AllLanesStep(ones: Counter, s: seq<Byte>, k: nat)
    requires 4 * k + 4 <= |s| && k < 7 && forall b :: ones(b) <= 8
    ensures AllLanes(ones, s, k + 1) ==
            Plus(AllLanes(ones, s, k), Lanes(ones(s[4 * k]), ones(s[4 * k + 1]), ones(s[4 * k + 2]), ones(s[4 * k + 3])))
  {
    LaneBounds(ones, s, k);
    LanesAdd(Lane(ones, s, k, 0), Lane(ones, s, k, 1), Lane(ones, s, k, 2), Lane(ones, s, k, 3),
             ones(s[4 * k]), ones(s[4 * k + 1]), ones(s[4 * k + 2]), ones(s[4 * k + 3]));
  }

  ghost predicate FoldsWords(fold: nat -> nat, ones: Counter, s: seq<Byte>, k: nat)
    requires 4 * k <= |s|
  {
    forall j: nat :: j < k ==> FoldsWord(fold, ones, s, j)
  }

  lemma WordSumStep(fold: nat -> nat, ones: Counter, s: seq<Byte>, k: nat)
    requires 4 * k + 4 <= |s| && FoldsWord(fold, ones, s, k)
    ensures WordSum(fold, s, k + 1) ==
            Plus(WordSum(fold, s, k), Lanes(ones(s[4 * k]), ones(s[4 * k + 1]), ones(s[4 * k + 2]), ones(s[4 * k + 3])))
  {
  }

  lemma {:induction false} WordSumIsLanes(fold: nat -> nat, ones: Counter, s: seq<Byte>, k: nat)
    requires 4 * k <= |s| && k <= 7 && FoldsWords(fold, ones, s, k) && forall b :: ones(b) <= 8
    ensures WordSum(fold, s, k) == AllLanes(ones, s, k)
  {
    if k > 0 {
      WordSumIsLanes(fold, ones, s, k - 1);
      WordSumStep(fold, ones, s, k - 1);
      AllLanesStep(ones, s, k - 1);
    }
  }

  lemma LaneBounds(ones: Counter, s: seq<Byte>, k: nat)
    requires 4 * k <= |s| && forall b :: ones(b) <= 8
    ensures Lane(ones, s, k, 0) <= 8 * k && Lane(ones, s, k, 1) <= 8 * k
    ensures Lane(ones, s, k, 2) <= 8 * k && Lane(ones, s, k, 3) <= 8 * k
  {
    LaneBound(ones, s, k, 0);
    LaneBound(ones, s, k, 1);
    LaneBound(ones, s, k, 2);
    LaneBound(ones, s, k, 3);
  }

  lemma TotalLast(ones: Counter, s: seq<Byte>, n: nat)
    requires n < |s|
    ensures Total(ones, s[..n + 1]) == Total(ones, s[..n]) + ones(s[n])
  {
    assert s[..n + 1][..n] == s[..n];
  }

  lemma TotalFourMore(ones: Counter, s: seq<Byte>, i: nat)
    requires i + 4 <= |s|
    ensures Total(ones, s[..i + 4]) == Total(ones, s[..i]) + ones(s[i]) + ones(s[i + 1]) + ones(s[i + 2]) + ones(s[i + 3])
  {
    TotalLast(ones, s, i);
    TotalLast(ones, s, i + 1);
    TotalLast(ones, s, i + 2);
    TotalLast(ones, s, i + 3);
  }

  lemma {:induction false} LanesAreTotal(ones: Counter, s: seq<Byte>, k: nat)
    requires 4 * k <= |s|
    ensures Lane(ones, s, k, 0) + Lane(ones, s, k, 1) + Lane(ones, s, k, 2) + Lane(ones, s, k, 3) == Total(ones, s[..4 * k])
  {
    if k > 0 {
      LanesAreTotal(ones, s, k - 1);
      TotalFourMore(ones, s, 4 * (k - 1));
    }
  }

  /** The expression of the loop: the sum of seven folded words, multiplied and shifted. */
  function Seven(a: nat, b: nat, c: nat, d: nat, e: nat, f: nat, g: nat): nat {
    Times(Plus(Plus(Plus(Plus(Plus(Plus(a, b), c), d), e), f), g), 0x01010101) / 0x100_0000
  }

  lemma SevenIsWordSum(fold: nat -> nat, s: seq<Byte>)
    requires |s| == 28 && fold(Word(s, 0)) < WORD
    ensures Seven(fold(Word(s, 0)), fold(Word(s, 4)), fold(Word(s, 8)), fold(Word(s, 12)), fold(Word(s, 16)),
                  fold(Word(s, 20)), fold(Word(s, 24))) == Times(WordSum(fold, s, 7), 0x01010101) / 0x100_0000
  {
    assert WordSum(fold, s, 1) == Plus(WordSum(fold, s, 0), fold(Word(s, 0))) == fold(Word(s, 0));
    assert WordSum(fold, s, 2) == Plus(WordSum(fold, s, 1), fold(Word(s, 4)));
    assert WordSum(fold, s, 3) == Plus(WordSum(fold, s, 2), fold(Word(s, 8)));
    assert WordSum(fold, s, 4) == Plus(WordSum(fold, s, 3), fold(Word(s, 12)));
    assert WordSum(fold, s, 5) == Plus(WordSum(fold, s, 4), fold(Word(s, 16)));
    assert WordSum(fold, s, 6) == Plus(WordSum(fold, s, 5), fold(Word(s, 20)));
    assert WordSum(fold, s, 7) == Plus(WordSum(fold, s, 6), fold(Word(s, 24)));
  }

  lemma WordSumIsTotal(fold: nat -> nat, ones: Counter, s: seq<Byte>)
    requires |s| == 28 && FoldsWords(fold, ones, s, 7) && forall b :: ones(b) <= 8
    ensures Times(WordSum(fold, s, 7), 0x01010101) / 0x100_0000 == Total(ones, s)
  {
    WordSumIsLanes(fold, ones, s, 7);
    LaneBounds(ones, s, 7);
    LanesAreTotal(ones, s, 7);
    Multiply(Lane(ones, s, 7, 0), Lane(ones, s, 7, 1), Lane(ones, s, 7, 2), Lane(ones, s, 7, 3));
    assert s[..28] == s;
  }

  lemma FirstWordFits(fold: nat -> nat, ones: Counter, s: seq<Byte>)
    requires |s| == 28 && FoldsWord(fold, ones, s, 0) && forall b :: ones(b) <= 8
    ensures fold(Word(s, 0)) < WORD
  {
  }

  lemma SevenIsTotal(fold: nat -> nat, ones: Counter, s: seq<Byte>)
    requires |s| == 28 && FoldsWords(fold, ones, s, 7) && forall b :: ones(b) <= 8
    ensures Seven(fold(Word(s, 0)), fold(Word(s, 4)), fold(Word(s, 8)), fold(Word(s, 12)), fold(Word(s, 16)),
                  fold(Word(s, 20)), fold(Word(s, 24))) == Total(ones, s)
  {
    FirstWordFits(fold, ones, s);
    SevenIsWordSum(fold, s);
    WordSumIsTotal(fold, ones, s);
  }

  /** One round of the loop counts the ones of 28 bytes. */
  lemma RoundIsTotal(s: seq<Byte>)
    requires |s| == 28
    ensures Seven(Folded(Word(s, 0)), Folded(Word(s, 4)), Folded(Word(s, 8)), Folded(Word(s, 12)), Folded(Word(s, 16)),
                  Folded(Word(s, 20)), Folded(Word(s, 24))) == Total(ByteOnes, s)
  {
    forall j: nat | j < 7
      ensures FoldsWord(Folded, ByteOnes, s, j)
    {
      FoldedWord(s, j);
    }
    forall b: Byte
      ensures ByteOnes(b) <= 8
    {
      SmallPop256(b);
    }
    SevenIsTotal(Folded, ByteOnes, s);
  }

  lemma {:induction false} TotalSplit(ones: Counter, s: seq<Byte>, t: seq<Byte>)
    ensures Total(ones, s + t) == Total(ones, s) + Total(ones, t)
  {
    if t == [] {
      assert s + t == s;
    } else {
      TotalSplit(ones, s, t[..|t| - 1]);
      assert (s + t)[..|s + t| - 1] == s + t[..|t| - 1];
    }
  }

  // ---------------------------------------------------------------- the loop

  function One(b: bool): nat {
    if b then 1 else 0
  }

  /** How many of the first n are set. */
  function Count(p: nat -> bool, n: nat): nat {
    if n == 0 then 0 else Count(p, n - 1) + One(p(n - 1))
  }

  /** The bits of a string; there are none behind its end. */
  function BitsOf(s: seq<Byte>): nat -> bool {
    (i: nat) => i < 8 * |s| && Bit(s, i)
  }

  ghost predicate IsByte(p: nat -> bool, i: nat, b: Byte) {
    forall j: nat :: j < 8 ==> BitOf(b, j) == p(i + j)
  }

  lemma ShiftPop(pop: Weight, n: nat, j: nat)
    requires PopLaws(pop)
    ensures pop(Shift(n, j)) == One(Shift(n, j) % 2 == 1) + pop(Shift(n, j + 1))
  {
    var x := Shift(n, j);
    var a, y := x % 2, x / 2;
    assert PopAt(pop, a, y);
  }

  /** The first k bits of a byte are the ones left when the others are shifted out. */
  lemma {:induction false} CountInByte(p: nat -> bool, pop: Weight, i: nat, b: Byte, k: nat)
    requires PopLaws(pop) && k <= 8 && IsByte(p, i, b)
    ensures Count(p, i + k) == Count(p, i) + pop(Shift(b as int, 8 - k))
  {
    if k == 0 {
      ShiftedOut(b);
    } else {
      CountInByte(p, pop, i, b, k - 1);
      NextBit(p, i, b, k - 1);
      ShiftPop(pop, b as int, 8 - k);
    }
  }

  lemma NextBit(p: nat -> bool, i: nat, b: Byte, j: nat)
    requires j < 8 && IsByte(p, i, b)
    ensures Count(p, i + j + 1) == Count(p, i + j) + One(Shift(b as int, 7 - j) % 2 == 1)
  {
    assert BitOf(b, j) == p(i + j);
  }

  lemma BitOfString(s: seq<Byte>, n: nat, k: nat)
    requires n < |s| && k < 8
    ensures BitsOf(s)(8 * n + k) == BitOf(s[n], k)
  {
    assert (8 * n + k) / 8 == n && (8 * n + k) % 8 == k;
  }

  lemma CountByte(p: nat -> bool, i: nat, b: Byte)
    requires IsByte(p, i, b)
    ensures Count(p, i + 8) == Count(p, i) + ByteOnes(b)
  {
    PopHasLaws();
    CountInByte(p, Pop, i, b, 8);
  }

  /** The bits are those of the string, byte by byte. */
  ghost predicate AreBits(p: nat -> bool, s: seq<Byte>) {
    forall n: nat :: n < |s| ==> IsByte(p, 8 * n, s[n])
  }

  function CountOf(p: nat -> bool): nat -> nat {
    (n: nat) => Count(p, n)
  }

  ghost predicate Counts(count: nat -> nat, ones: Counter, s: seq<Byte>, n: nat)
    requires n < |s|
  {
    count(8 * n + 8) == count(8 * n) + ones(s[n])
  }

  lemma {:induction false} TotalIsCount(count: nat -> nat, ones: Counter, s: seq<Byte>, n: nat)
    requires n <= |s| && count(0) == 0 && forall i: nat :: i < |s| ==> Counts(count, ones, s, i)
    ensures Total(ones, s[..n]) == count(8 * n)
  {
    if n > 0 {
      TotalIsCount(count, ones, s, n - 1);
      TotalLast(ones, s, n - 1);
      assert Counts(count, ones, s, n - 1);
    }
  }

  lemma BitsAreBits(s: seq<Byte>)
    ensures AreBits(BitsOf(s), s)
  {
    forall n: nat | n < |s|
      ensures IsByte(BitsOf(s), 8 * n, s[n])
    {
      forall j: nat | j < 8
        ensures BitOf(s[n], j) == BitsOf(s)(8 * n + j)
      {
        BitOfString(s, n, j);
      }
    }
  }

  /** What the loop adds for the seven words from p on. */
  function Round(s: seq<Byte>, p: nat): nat
    requires p + 28 <= |s|
  {
    Seven(Folded(Word(s, p)), Folded(Word(s, p + 4)), Folded(Word(s, p + 8)), Folded(Word(s, p + 12)),
          Folded(Word(s, p + 16)), Folded(Word(s, p + 20)), Folded(Word(s, p + 24)))
  }

  /** The bits in the string up to p. */
  function Counted(s: seq<Byte>): nat -> nat {
    (p: nat) => if p <= |s| then Total(ByteOnes, s[..p]) else 0
  }

  function RoundAt(s: seq<Byte>): nat -> nat {
    (p: nat) => if p + 28 <= |s| then Round(s, p) else 0
  }

  ghost predicate ByteCounts(total: nat -> nat, table: Counter, s: seq<Byte>, p: nat) {
    p < |s| ==> total(p + 1) == total(p) + table(s[p])
  }

  ghost predicate RoundCounts(total: nat -> nat, round: nat -> nat, s: seq<Byte>, p: nat) {
    p + 28 <= |s| ==> total(p + 28) == total(p) + round(p)
  }

  lemma CountedRound(s: seq<Byte>, p: nat)
    requires p + 28 <= |s|
    ensures RoundCounts(Counted(s), RoundAt(s), s, p)
  {
    RoundIsTotal(s[p..p + 28]);
    RoundInside(Folded, ByteOnes, s, p, s[p..p + 28]);
  }

  lemma WordInside(s: seq<Byte>, p: nat, t: seq<Byte>, i: nat)
    requires p + 28 <= |s| && t == s[p..p + 28] && i + 4 <= 28
    ensures Word(t, i) == Word(s, p + i)
  {
  }

  lemma TotalInside(ones: Counter, s: seq<Byte>, p: nat)
    requires p + 28 <= |s|
    ensures Total(ones, s[..p + 28]) == Total(ones, s[..p]) + Total(ones, s[p..p + 28])
  {
    TotalSplit(ones, s[..p], s[p..p + 28]);
    assert s[..p] + s[p..p + 28] == s[..p + 28];
  }

  lemma RoundInside(fold: nat -> nat, ones: Counter, s: seq<Byte>, p: nat, t: seq<Byte>)
    requires p + 28 <= |s| && t == s[p..p + 28]
    requires Seven(fold(Word(t, 0)), fold(Word(t, 4)), fold(Word(t, 8)), fold(Word(t, 12)),
                   fold(Word(t, 16)), fold(Word(t, 20)), fold(Word(t, 24))) == Total(ones, t)
    ensures Total(ones, s[..p + 28]) == Total(ones, s[..p]) +
              Seven(fold(Word(s, p)), fold(Word(s, p + 4)), fold(Word(s, p + 8)), fold(Word(s, p + 12)),
                    fold(Word(s, p + 16)), fold(Word(s, p + 20)), fold(Word(s, p + 24)))
  {
    TotalInside(ones, s, p);
    WordInside(s, p, t, 0);
    WordInside(s, p, t, 4);
    WordInside(s, p, t, 8);
    WordInside(s, p, t, 12);
    WordInside(s, p, t, 16);
    WordInside(s, p, t, 20);
    WordInside(s, p, t, 24);
  }

  lemma BytesCount(p: nat -> bool, s: seq<Byte>, i: nat)
    requires i < |s| && IsByte(p, 8 * i, s[i])
    ensures Counts(CountOf(p), ByteOnes, s, i)
  {
    CountByte(p, 8 * i, s[i]);
  }

  lemma TotalOfBits(p: nat -> bool, s: seq<Byte>)
    requires AreBits(p, s)
    ensures Total(ByteOnes, s[..|s|]) == CountOf(p)(8 * |s|)
  {
    forall i: nat | i < |s|
      ensures Counts(CountOf(p), ByteOnes, s, i)
    {
      BytesCount(p, s, i);
    }
    TotalIsCount(CountOf(p), ByteOnes, s, |s|);
  }

  lemma CountedIsCount(s: seq<Byte>)
    ensures Counted(s)(|s|) == Count(BitsOf(s), 8 * |s|)
  {
    BitsAreBits(s);
    TotalOfBits(BitsOf(s), s);
  }

  lemma CountedSteps(s: seq<Byte>, p: nat)
    ensures ByteCounts(Counted(s), ByteOnes, s, p) && RoundCounts(Counted(s), RoundAt(s), s, p)
  {
    if p < |s| {
      TotalLast(ByteOnes, s, p);
    }
    if p + 28 <= |s| {
      CountedRound(s, p);
    }
  }

  /** The loops of redisPopcount: bytes up to an aligned address, by the table, then rounds of seven words,
      then bytes again. */
  method CountAll(s: seq<Byte>, address: nat, table: Counter, round: nat -> nat, ghost total: nat -> nat)
    returns (bits: nat)
    requires total(0) == 0 && forall p: nat :: ByteCounts(total, table, s, p) && RoundCounts(total, round, s, p)
    ensures bits == total(|s|)
  {
    bits := 0;
    var p: nat, count: nat := 0, |s|;
    while (address + p) % 4 != 0 && count > 0
      invariant p + count == |s| && bits == total(p)
      decreases count
    {
      assert ByteCounts(total, table, s, p);
      bits, p, count := bits + table(s[p]), p + 1, count - 1;
    }
    while count >= 28
      invariant p + count == |s| && bits == total(p)
    {
      assert RoundCounts(total, round, s, p);
      bits, p, count := bits + round(p), p + 28, count - 28;
    }
    while count > 0
      invariant p + count == |s| && bits == total(p)
    {
      assert ByteCounts(total, table, s, p);
      bits, p, count := bits + table(s[p]), p + 1, count - 1;
    }
  }

  /** redisPopcount on a string that starts at the given address. */
  method Popcount(s: seq<Byte>, address: nat) returns (bits: nat)
    ensures bits == Count(BitsOf(s), 8 * |s|)
  {
    forall p: nat
      ensures ByteCounts(Counted(s), ByteOnes, s, p) && RoundCounts(Counted(s), RoundAt(s), s, p)
    {
      CountedSteps(s, p);
    }
    bits := CountAll(s, address, ByteOnes, RoundAt(s), Counted(s));
    CountedIsCount(s);
  }
}
