/** The order in which dictScan's cursor moves. A cursor is incremented from its high bit down, so
    cursors are ordered by reading their bits from bit 0 on, as the reversed words are ordered. */
module Cursor {
  import opened Words

  /** rev(x) < rev(y). */
  ghost predicate Before(x: seq<bool>, y: seq<bool>) {
    |x| == |y| && x != [] && if x[0] == y[0] then Before(x[1..], y[1..]) else y[0]
  }

  /** Increment from the last bit. */
  function Advance(p: seq<bool>): (r: seq<bool>)
    ensures |r| == |p|
  {
    if p == [] then []
    else
      var n := |p| - 1;
      if p[n] then Advance(p[..n]) + [false] else p[..n] + [true]
  }

  ghost predicate AllSet(p: seq<bool>) {
    forall i :: 0 <= i < |p| ==> p[i]
  }

  ghost predicate AllClear(p: seq<bool>) {
    forall i :: 0 <= i < |p| ==> !p[i]
  }

  lemma {:induction false} BeforeSnoc(x: seq<bool>, c: bool, y: seq<bool>, d: bool)
    requires |x| == |y|
    ensures Before(x + [c], y + [d]) <==> Before(x, y) || (x == y && !c && d)
  {
    if x == [] {
      assert x + [c] == [c] && y + [d] == [d];
    } else {
      assert (x + [c])[1..] == x[1..] + [c] && (y + [d])[1..] == y[1..] + [d];
      BeforeSnoc(x[1..], c, y[1..], d);
      assert x == [x[0]] + x[1..] && y == [y[0]] + y[1..];
    }
  }

  lemma {:induction false} Irreflexive(x: seq<bool>)
    ensures !Before(x, x)
  {
    if x != [] {
      Irreflexive(x[1..]);
    }
  }

  /** When the first n bits differ they decide the order. */
  lemma {:induction false} BeforePrefix(x: seq<bool>, y: seq<bool>, n: nat)
    requires n <= |x| == |y|
    ensures x[..n] != y[..n] ==> (Before(x, y) <==> Before(x[..n], y[..n]))
    ensures x[..n] == y[..n] ==> (Before(x, y) <==> Before(x[n..], y[n..]))
  {
    if n == 0 {
      assert x[0..] == x && y[0..] == y;
    } else {
      BeforePrefix(x[1..], y[1..], n - 1);
      assert x[..n][1..] == x[1..][..n - 1] && y[..n][1..] == y[1..][..n - 1];
      assert x[1..][n - 1..] == x[n..] && y[1..][n - 1..] == y[n..];
      assert x[..n] == [x[0]] + x[1..][..n - 1] && y[..n] == [y[0]] + y[1..][..n - 1];
    }
  }

  lemma {:induction false} NothingBeforeZero(x: seq<bool>, y: seq<bool>)
    requires AllClear(y)
    ensures !Before(x, y)
  {
    if |x| == |y| && x != [] {
      NothingBeforeZero(x[1..], y[1..]);
    }
  }

  /** Advance is the successor: exactly what was before p, and p itself, is before the next cursor.
      From the last cursor it wraps around to zero. */
  lemma {:induction false} AdvanceIsNext(q: seq<bool>, p: seq<bool>)
    requires |q| == |p|
    ensures AllSet(p) ==> AllClear(Advance(p)) && (Before(q, p) || q == p)
    ensures !AllSet(p) ==> (Before(q, Advance(p)) <==> Before(q, p) || q == p)
  {
    if p != [] {
      var n := |p| - 1;
      var p1, q1 := p[..n], q[..n];
      assert p == p1 + [p[n]] && q == q1 + [q[n]];
      AdvanceIsNext(q1, p1);
      BeforeSnoc(q1, q[n], p1, p[n]);
      BeforeSnoc(q1, q[n], p1, true);
      BeforeSnoc(q1, q[n], Advance(p1), false);
      if p[n] && !AllSet(p) {
        assert !AllSet(p1);
      }
    }
  }

  /** Set bits at the end carry through. */
  lemma {:induction false} AdvanceCarries(p: seq<bool>, n: nat)
    requires n <= |p| && AllSet(p[n..])
    ensures Advance(p)[..n] == Advance(p[..n]) && AllClear(Advance(p)[n..])
    decreases |p|
  {
    if n < |p| {
      var m := |p| - 1;
      assert p[n..][m - n];
      assert p[..m][n..] == p[n..][..m - n] && p[..m][..n] == p[..n];
      AdvanceCarries(p[..m], n);
      assert Advance(p)[..n] == Advance(p[..m])[..n];
      assert Advance(p)[n..] == Advance(p[..m])[n..] + [false];
    } else {
      assert p[..n] == p;
    }
  }

  function Backwards(p: seq<bool>): seq<bool> {
    seq(|p|, i requires 0 <= i < |p| => p[|p| - 1 - i])
  }

  /** Incrementing the word between two reversals is Advance. */
  lemma {:induction false} ReversedIncrement(p: seq<bool>)
    ensures Backwards(Increment(Backwards(p))) == Advance(p)
  {
    if p != [] {
      var n := |p| - 1;
      var q := p[..n];
      ReversedIncrement(q);
      assert Backwards(p) == [p[n]] + Backwards(q);
      assert Backwards(p)[1..] == Backwards(q);
      assert Backwards([false] + Increment(Backwards(q))) == Backwards(Increment(Backwards(q))) + [false];
      assert Backwards([true] + Backwards(q)) == Backwards(Backwards(q)) + [true];
      assert Backwards(Backwards(q)) == q;
    }
  }

  /** The last four assignments of dictScan to the cursor: only the low n bits move on. */
  lemma NextCursor(v: Word, n: nat)
    requires n <= WIDTH
    ensures var w := Reversed(Increment(Reversed(Or(v, Not(Mask(n))))));
            w[..n] == Advance(v[..n]) && AllClear(w[n..])
  {
    var u := Or(v, Not(Mask(n)));
    ReversedIncrement(u);
    assert Reversed(u) == Backwards(u);
    var i := Increment(Backwards(u));
    assert Reversed(i) == Backwards(i);
    assert u[..n] == v[..n];
    AdvanceCarries(u, n);
  }

  /** All ones come first: the value is 2^j - 1. */
  ghost predicate OnesThenZeros(b: seq<bool>) {
    forall i, j :: 0 <= i < j < |b| && b[j] ==> b[i]
  }

  /** Every number below b is also before b in cursor order, exactly when b is ones then zeros. */
  lemma SmallerIsBefore(b: seq<bool>)
    ensures OnesThenZeros(b) <==> forall e :: |e| == |b| && Num(e) < Num(b) ==> Before(e, b)
  {
    if OnesThenZeros(b) {
      forall e | |e| == |b| && Num(e) < Num(b)
        ensures Before(e, b)
      {
        OnesAreAhead(e, b);
      }
    } else {
      var i, j :| 0 <= i < j < |b| && b[j] && !b[i];
      var e := b[i := true][j := false];
      SwapIsSmaller(b, i, j);
      SwapIsBehind(b, i, j);
      assert |e| == |b| && Num(e) < Num(b) && !Before(e, b);
    }
  }

  lemma {:induction false} OnesAreAhead(e: seq<bool>, b: seq<bool>)
    requires |e| == |b| && OnesThenZeros(b) && Num(e) < Num(b)
    ensures Before(e, b)
  {
    if !b[0] {
      NumTrailingZeros(b, 0);
    } else if e[0] {
      assert forall i :: 0 <= i < |b[1..]| ==> b[1..][i] == b[i + 1];
      OnesAreAhead(e[1..], b[1..]);
    }
  }

  lemma {:induction false} SwapIsSmaller(b: seq<bool>, i: nat, j: nat)
    requires i < j < |b| && b[j] && !b[i]
    ensures Num(b[i := true][j := false]) < Num(b)
  {
    var e := b[i := true][j := false];
    if i == 0 {
      assert e[1..] == b[1..][j - 1 := false];
      ClearIsSmaller(b[1..], j - 1);
    } else {
      assert e[1..] == b[1..][i - 1 := true][j - 1 := false];
      SwapIsSmaller(b[1..], i - 1, j - 1);
    }
  }

  lemma {:induction false} ClearIsSmaller(b: seq<bool>, j: nat)
    requires j < |b| && b[j]
    ensures Num(b[j := false]) < Num(b)
  {
    if j == 0 {
      assert b[j := false][1..] == b[1..];
    } else {
      assert b[j := false][1..] == b[1..][j - 1 := false];
      ClearIsSmaller(b[1..], j - 1);
    }
  }

  lemma {:induction false} SwapIsBehind(b: seq<bool>, i: nat, j: nat)
    requires i < j < |b| && b[j] && !b[i]
    ensures !Before(b[i := true][j := false], b)
  {
    if i > 0 {
      assert b[i := true][j := false][1..] == b[1..][i - 1 := true][j - 1 := false];
      SwapIsBehind(b[1..], i - 1, j - 1);
    }
  }
}
