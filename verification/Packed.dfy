/** Integers packed into bytes: two's complement, little endian, two, four or eight bytes each. */
module Packed {
  import opened Powers
  import opened Octets

  // ---------------------------------------------------------------- one integer

  function Unsigned(s: seq<Byte>): nat {
    if s == [] then 0 else s[0] as int + 256 * Unsigned(s[1..])
  }

  function LittleEndian(n: nat, w: nat): (s: seq<Byte>)
    ensures |s| == w
  {
    if w == 0 then [] else [(n % 256) as Byte] + LittleEndian(n / 256, w - 1)
  }

  /** The integer is in the range of w bytes. */
  predicate Fits(v: int, w: nat) {
    0 <= Power(256, w) + 2 * v < 2 * Power(256, w)
  }

  function Encode(v: int, w: nat): (s: seq<Byte>)
    requires Fits(v, w)
    ensures |s| == w
  {
    LittleEndian(if v < 0 then v + Power(256, w) else v, w)
  }

  function Decode(s: seq<Byte>): int {
    var u := Unsigned(s);
    if 2 * u >= Power(256, |s|) then u - Power(256, |s|) else u
  }

  lemma {:induction false} UnsignedOfLittleEndian(n: nat, w: nat)
    requires n < Power(256, w)
    ensures Unsigned(LittleEndian(n, w)) == n
  {
    if w > 0 {
      UnsignedOfLittleEndian(n / 256, w - 1);
      assert LittleEndian(n, w)[1..] == LittleEndian(n / 256, w - 1);
    }
  }

  lemma DecodeOfEncode(v: int, w: nat)
    requires Fits(v, w)
    ensures Decode(Encode(v, w)) == v
  {
    UnsignedOfLittleEndian(if v < 0 then v + Power(256, w) else v, w);
  }

  lemma {:induction false} UnsignedBound(s: seq<Byte>)
    ensures Unsigned(s) < Power(256, |s|)
  {
    if s != [] {
      UnsignedBound(s[1..]);
    }
  }

  lemma DecodeFits(s: seq<Byte>)
    ensures Fits(Decode(s), |s|)
  {
    UnsignedBound(s);
  }

  /** The three encodings. */
  predicate Width(w: nat) {
    w == 2 || w == 4 || w == 8
  }

  /** _intsetValueEncoding. */
  function ValueWidth(v: int): nat {
    if v < -0x8000_0000 || v > 0x7FFF_FFFF then 8
    else if v < -0x8000 || v > 0x7FFF then 4
    else 2
  }

  lemma WidthBounds()
    ensures Power(256, 2) == 0x1_0000 && Power(256, 4) == 0x1_0000_0000 && Power(256, 8) == 0x1_0000_0000_0000_0000
  {
    assert Power(256, 3) == 0x100_0000 && Power(256, 5) == 0x100_0000_0000;
  }

  /** It is the least encoding that holds the value. */
  lemma ValueWidthIsLeast(v: int, w: nat)
    requires Width(w) && Fits(v, 8)
    ensures Width(ValueWidth(v)) && (ValueWidth(v) <= w <==> Fits(v, w))
  {
    WidthBounds();
  }

  // ---------------------------------------------------------------- an array of them

  /** How the bytes of a slot are read. */
  type Reader = seq<Byte> -> int

  /** The byte at which slot i starts. */
  function Off(i: nat, w: nat): nat {
    if i == 0 then 0 else Off(i - 1, w) + w
  }

  lemma {:induction false} Before(i: nat, n: nat, w: nat)
    requires i < n
    ensures Off(i, w) + w <= Off(n, w) && Off(n - 1, w) == Off(n, w) - w
    decreases n
  {
    if i < n - 1 {
      Before(i, n - 1, w);
    }
  }

  lemma {:induction false} Scaled(from: nat, to: nat, n: nat, w: nat)
    requires from <= n
    ensures Off(from, w) <= Off(n, w) && Off(to + n - from, w) == Off(to, w) + Off(n, w) - Off(from, w)
    decreases n
  {
    if from < n {
      Scaled(from, to, n - 1, w);
      assert Off(to + n - from, w) == Off(to + n - from - 1, w) + w;
    }
  }

  lemma {:induction false} Wider(i: nat, j: nat, w: nat, u: nat)
    requires w < u && i <= j
    ensures Off(i, w) <= Off(j, u)
    decreases j
  {
    if j > 0 {
      Wider(if i == 0 then 0 else i - 1, j - 1, w, u);
    }
  }

  /** Slot i holds the integer v. */
  ghost predicate Holds(dec: Reader, s: seq<Byte>, w: nat, i: nat, v: int) {
    Off(i, w) + w <= |s| && dec(s[Off(i, w)..Off(i, w) + w]) == v
  }

  /** The slot that is shift behind slot i holds it. */
  ghost predicate HoldsBehind(dec: Reader, s: seq<Byte>, w: nat, i: nat, shift: nat, v: int) {
    Holds(dec, s, w, i + shift, v)
  }

  /** The bytes hold exactly these integers. */
  ghost predicate Packs(dec: Reader, s: seq<Byte>, w: nat, view: seq<int>) {
    && Width(w) && |s| == Off(|view|, w)
    && (forall i: nat {:trigger Holds(dec, s, w, i, view[i])} :: i < |view| ==> Holds(dec, s, w, i, view[i]))
  }

  /** The bytes with e written at offset at. */
  function Put(s: seq<Byte>, at: nat, e: seq<Byte>): (r: seq<Byte>)
    requires at + |e| <= |s|
    ensures |r| == |s|
  {
    s[..at] + e + s[at + |e|..]
  }

  /** Byte by byte. */
  lemma PutIs(s: seq<Byte>, at: nat, e: seq<Byte>, r: seq<Byte>)
    requires at + |e| <= |s| == |r|
    requires forall i :: 0 <= i < |s| ==> r[i] == if at <= i < at + |e| then e[i - at] else s[i]
    ensures r == Put(s, at, e)
  {
    var t := Put(s, at, e);
    forall i | 0 <= i < |s|
      ensures r[i] == t[i]
    {
    }
  }

  /** The bytes from p to q are left alone if they end before what is written or start behind it. */
  lemma PutAside(s: seq<Byte>, at: nat, e: seq<Byte>, p: nat, q: nat)
    requires at + |e| <= |s| && p <= q <= |s| && (q <= at || at + |e| <= p)
    ensures Put(s, at, e)[p..q] == s[p..q]
  {
    var r := Put(s, at, e);
    var a, b := r[p..q], s[p..q];
    forall i | 0 <= i < q - p
      ensures a[i] == b[i]
    {
      assert r[p + i] == s[p + i];
    }
  }

  /** And they are from e if they are within it. */
  lemma PutInside(s: seq<Byte>, at: nat, e: seq<Byte>, p: nat, q: nat)
    requires at + |e| <= |s| && at <= p <= q <= at + |e|
    ensures Put(s, at, e)[p..q] == e[p - at..q - at]
  {
    var r := Put(s, at, e);
    var a, b := r[p..q], e[p - at..q - at];
    forall i | 0 <= i < q - p
      ensures a[i] == b[i]
    {
      assert r[p + i] == e[p + i - at];
    }
  }

  lemma PutHolds(dec: Reader, s: seq<Byte>, w: nat, i: nat, e: seq<Byte>)
    requires |e| == w && Off(i, w) + w <= |s|
    ensures Holds(dec, Put(s, Off(i, w), e), w, i, dec(e))
  {
    PutInside(s, Off(i, w), e, Off(i, w), Off(i, w) + w);
    assert e[0..w] == e;
  }

  /** Bytes that are not touched hold what they held. */
  lemma Untouched(dec: Reader, s: seq<Byte>, t: seq<Byte>, w: nat, i: nat, x: int)
    requires Holds(dec, s, w, i, x) && Off(i, w) + w <= |t| && t[Off(i, w)..Off(i, w) + w] == s[Off(i, w)..Off(i, w) + w]
    ensures Holds(dec, t, w, i, x)
  {
  }

  lemma PutKeeps(dec: Reader, s: seq<Byte>, w: nat, i: nat, e: seq<Byte>, k: nat, x: int)
    requires |e| == w && Off(i, w) + w <= |s| && Holds(dec, s, w, k, x) && k != i
    ensures Holds(dec, Put(s, Off(i, w), e), w, k, x)
  {
    if k < i {
      Before(k, i, w);
    } else {
      Before(i, k, w);
    }
    PutAside(s, Off(i, w), e, Off(k, w), Off(k, w) + w);
  }

  /** What is written does not touch a slot that ends before it, in whatever width. */
  lemma PutBehind(dec: Reader, s: seq<Byte>, at: nat, e: seq<Byte>, w: nat, i: nat, x: int)
    requires at + |e| <= |s| && Holds(dec, s, w, i, x) && Off(i, w) + w <= at
    ensures Holds(dec, Put(s, at, e), w, i, x)
  {
    PutAside(s, at, e, Off(i, w), Off(i, w) + w);
  }

  lemma PrefixHolds(dec: Reader, s: seq<Byte>, t: seq<Byte>, w: nat, i: nat, x: int)
    requires Holds(dec, s, w, i, x) && s <= t
    ensures Holds(dec, t, w, i, x)
  {
    Untouched(dec, s, t, w, i, x);
  }

  /** The bytes with those from slot from on, up to slot n, moved to slot to. */
  function Moved(s: seq<Byte>, w: nat, from: nat, to: nat, n: nat): (r: seq<Byte>)
    requires from <= n && Off(n, w) <= |s| && Off(to + n - from, w) <= |s|
    ensures |r| == |s|
  {
    Scaled(from, to, n, w);
    Put(s, Off(to, w), s[Off(from, w)..Off(n, w)])
  }

  lemma MovedIs(s: seq<Byte>, src: nat, dst: nat, bytes: nat, r: seq<Byte>)
    requires src + bytes <= |s| == |r| && dst + bytes <= |s|
    requires forall i :: dst <= i < dst + bytes ==> r[i] == s[i - dst + src]
    requires forall i :: 0 <= i < dst || dst + bytes <= i < |s| ==> r[i] == s[i]
    ensures r == Put(s, dst, s[src..src + bytes])
  {
    var e := s[src..src + bytes];
    forall i | 0 <= i < |s|
      ensures r[i] == if dst <= i < dst + |e| then e[i - dst] else s[i]
    {
      if dst <= i < dst + |e| {
        assert e[i - dst] == s[i - dst + src];
      }
    }
    PutIs(s, dst, e, r);
  }

  lemma MovedHolds(dec: Reader, s: seq<Byte>, w: nat, from: nat, to: nat, n: nat, i: nat, x: int)
    requires from <= i < n && Off(n, w) <= |s| && Off(to + n - from, w) <= |s| && Holds(dec, s, w, i, x)
    ensures Holds(dec, Moved(s, w, from, to, n), w, i - from + to, x)
  {
    Scaled(from, to, n, w);
    Scaled(from, to, i, w);
    Before(i, n, w);
    var f, e, p := Off(from, w), Off(n, w), Off(i - from + to, w);
    PutInside(s, Off(to, w), s[f..e], p, p + w);
    SliceOfSlice(s, f, e, Off(i, w), Off(i, w) + w);
  }

  lemma SliceOfSlice(s: seq<Byte>, f: nat, e: nat, p: nat, q: nat)
    requires f <= p <= q <= e <= |s|
    ensures s[f..e][p - f..q - f] == s[p..q]
  {
    var a, b := s[f..e][p - f..q - f], s[p..q];
    forall i | 0 <= i < q - p
      ensures a[i] == b[i]
    {
      assert s[f..e][p - f + i] == s[p + i];
    }
  }

  lemma UnmovedHolds(dec: Reader, s: seq<Byte>, w: nat, from: nat, to: nat, n: nat, i: nat, x: int)
    requires from <= n && Off(n, w) <= |s| && Off(to + n - from, w) <= |s| && i < to && Holds(dec, s, w, i, x)
    ensures Holds(dec, Moved(s, w, from, to, n), w, i, x)
  {
    Scaled(from, to, n, w);
    Before(i, to, w);
    PutBehind(dec, s, Off(to, w), s[Off(from, w)..Off(n, w)], w, i, x);
  }
}
