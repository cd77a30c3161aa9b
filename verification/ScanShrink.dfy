/** A scan of a table that shrinks, and the key it misses. */
module ScanShrink {
  import opened Options
  import opened Words
  import opened Tables
  import opened Dicts
  import opened Cursor
  import opened DictScan
  import opened ScanRuns
  import opened ScanCall
  import opened Powers

  /** Keys that are their own hash. */
  function Self(k: Word): Word {
    k
  }

  function Bit(i: nat): Word {
    seq(WIDTH, j requires 0 <= j < WIDTH => j == i)
  }

  /** t has 32 buckets and holds the key of hash 8; b is the zeroed table of 4 it shrinks into. */
  ghost predicate AboutToShrink(t: Table<Word, bool>, b: Table<Word, bool>) {
    Shrinks(t, b, Bit(3))
  }

  ghost predicate Shrinks(t: Table<Word, bool>, b: Table<Word, bool>, k: Word) {
    && WfTable(Self, t) && WfTable(Self, b) && t.buckets != [] && b.buckets != []
    && t.bits == 5 && b.bits == 2 && t.used == 1 && b.used == 0
    && Lookup(Self, t, k).Some? && Lookup(Self, b, k) == None
  }

  lemma NextIs<K, V>(s: State<K, V>, v: Word, n: nat, w: Word)
    requires s.t0.used + s.t1.used > 0 && n == SmallTable(s).bits <= WIDTH
    requires w[..n] == Advance(v[..n]) && AllClear(w[n..])
    ensures Next(s, v) == w
  {
    NextCursor(v, n);
    var u := Next(s, v);
    assert u == u[..n] + u[n..] && w == w[..n] + w[n..];
    assert u[n..] == w[n..];
  }

  lemma ShortAdvances()
    ensures Advance([false, false, false, false, false]) == [false, false, false, false, true]
    ensures Advance([false, false]) == [false, true] && Advance([false, true]) == [true, false]
    ensures Advance([true, false]) == [true, true] && Advance([true, true]) == [false, false]
  {
    assert Advance([false]) == [true] && Advance([true]) == [false];
    assert [false, true][..1] == [false] && [true, true][..1] == [true];
  }

  lemma SmallCursors()
    ensures Zero()[..5] == [false, false, false, false, false] && Bit(4)[..5] == [false, false, false, false, true]
    ensures Bit(4)[..2] == Zero()[..2] == Bit(3)[..2] == [false, false] && Bit(1)[..2] == [false, true]
    ensures Bit(0)[..2] == [true, false] && Or(Bit(0), Bit(1))[..2] == [true, true]
    ensures Bit(3)[..5] == [false, false, false, true, false]
    ensures Num(Bit(3)[2..5]) == 2 && Num(Bit(4)[2..5]) == 4
    ensures AllClear(Bit(4)[5..]) && AllClear(Bit(1)[2..]) && AllClear(Bit(0)[2..])
    ensures AllClear(Or(Bit(0), Bit(1))[2..]) && AllClear(Zero()[2..])
  {
    assert Bit(3)[2..5] == [false, true, false] && Bit(4)[2..5] == [false, false, true];
  }

  /** A call at cursor v that returns w and does not emit the key, which is there. */
  ghost predicate Quiet(s: State<Word, bool>, v: Word, w: Word, k: Word) {
    Wf(Self, s) && Present(Self, s, k) && Next(s, v) == w && !Emits(Self, s, v, k)
  }

  /** The cursor goes from v to w in a table of 2^n buckets. */
  ghost predicate Goes(v: Word, w: Word, n: nat) {
    n <= WIDTH && w[..n] == Advance(v[..n]) && AllClear(w[n..])
  }

  /** The cursor is elsewhere than the key of hash k, or past it. */
  ghost predicate Passes(v: Word, k: Word) {
    v[..2] != k[..2] || Num(v[2..5]) > Num(k[2..5])
  }

  lemma CursorPath() returns (path: seq<Word>)
    ensures |path| == 6 && path[0] == Zero() == path[5] && Goes(path[0], path[1], 5) && path[0][..5] != Bit(3)[..5]
    ensures forall i :: 1 <= i < 5 ==> Goes(path[i], path[i + 1], 2) && Passes(path[i], Bit(3))
  {
    ShortAdvances();
    SmallCursors();
    var a, b, c, d := Bit(4), Bit(1), Bit(0), Or(Bit(0), Bit(1));
    assert Goes(Zero(), a, 5) && Goes(a, b, 2) && Goes(b, c, 2) && Goes(c, d, 2) && Goes(d, Zero(), 2);
    assert Passes(a, Bit(3)) && Passes(b, Bit(3)) && Passes(c, Bit(3)) && Passes(d, Bit(3));
    path := [Zero(), a, b, c, d, Zero()];
  }

  lemma QuietFull(t: Table<Word, bool>, b: Table<Word, bool>, v: Word, w: Word, k: Word)
    requires Shrinks(t, b, k) && Goes(v, w, 5) && v[..5] != k[..5]
    ensures Quiet(State(t, NoTable(), -1, 0), v, w, k)
  {
    NextIs(State(t, NoTable(), -1, 0), v, 5, w);
  }

  lemma QuietShrinking(t: Table<Word, bool>, b: Table<Word, bool>, v: Word, w: Word, k: Word)
    requires Shrinks(t, b, k) && Goes(v, w, 2) && Passes(v, k)
    ensures Quiet(State(t, b, 0, 0), v, w, k)
  {
    NextIs(State(t, b, 0, 0), v, 2, w);
  }

  lemma QuietPath(t: Table<Word, bool>, b: Table<Word, bool>, path: seq<Word>, k: Word)
    requires Shrinks(t, b, k) && |path| == 6 && Goes(path[0], path[1], 5) && path[0][..5] != k[..5]
    requires forall i :: 1 <= i < 5 ==> Goes(path[i], path[i + 1], 2) && Passes(path[i], k)
    ensures Quiet(State(t, NoTable(), -1, 0), path[0], path[1], k)
    ensures forall i :: 1 <= i < 5 ==> Quiet(State(t, b, 0, 0), path[i], path[i + 1], k)
  {
    QuietFull(t, b, path[0], path[1], k);
    forall i | 1 <= i < 5
      ensures Quiet(State(t, b, 0, 0), path[i], path[i + 1], k)
    {
      QuietShrinking(t, b, path[i], path[i + 1], k);
    }
  }

  /** The cursors of the calls. */
  lemma Path(t: Table<Word, bool>, b: Table<Word, bool>) returns (path: seq<Word>)
    requires AboutToShrink(t, b)
    ensures |path| == 6 && path[0] == Zero() == path[5]
    ensures Quiet(State(t, NoTable(), -1, 0), path[0], path[1], Bit(3))
    ensures forall i :: 1 <= i < 5 ==> Quiet(State(t, b, 0, 0), path[i], path[i + 1], Bit(3))
  {
    path := CursorPath();
    QuietPath(t, b, path, Bit(3));
  }

  /** A scan that came back to zero without emitting k, which was there at every call. */
  ghost predicate Misses<K, V>(hash: K -> Word, states: seq<State<K, V>>, cursors: seq<Word>, k: K) {
    && ScanRun(hash, states, cursors) && states != [] && cursors[|states|] == Zero()
    && (forall i :: 0 <= i < |states| ==> Present(hash, states[i], k))
    && !Emitted(hash, states, cursors, k)
  }

  lemma QuietCallsMiss(states: seq<State<Word, bool>>, cursors: seq<Word>, k: Word)
    requires states != [] && |cursors| == |states| + 1 && cursors[0] == Zero() == cursors[|states|]
    requires forall i :: 0 <= i < |states| ==> Quiet(states[i], cursors[i], cursors[i + 1], k)
    ensures Misses(Self, states, cursors, k)
  {
    forall i | 0 <= i < |states|
      ensures Wf(Self, states[i]) && Present(Self, states[i], k) && !Emits(Self, states[i], cursors[i], k)
      ensures cursors[i + 1] == Next(states[i], cursors[i])
    {
      assert Quiet(states[i], cursors[i], cursors[i + 1], k);
    }
  }

  /** Shrinking breaks the guarantee: a table of 32 buckets, with one key of hash 8, starts to shrink
      to 4 after the first call; the second call starts at cursor 16, between the sizes, and goes
      up from there, so index 8 of the old table is never visited although the key stays there. */
  lemma ShrinkingMissesKey(t: Table<Word, bool>, b: Table<Word, bool>)
    returns (states: seq<State<Word, bool>>, cursors: seq<Word>)
    requires AboutToShrink(t, b)
    ensures Misses(Self, states, cursors, Bit(3))
  {
    cursors := Path(t, b);
    states := [State(t, NoTable(), -1, 0)] + seq(4, _ => State(t, b, 0, 0));
    QuietCallsMiss(states, cursors, Bit(3));
  }

  lemma ShrinkingTablesExist() returns (t: Table<Word, bool>, b: Table<Word, bool>)
    ensures AboutToShrink(t, b)
  {
    BlankIsWf<Word, bool>(Self, 5);
    BlankIsWf<Word, bool>(Self, 2);
    PushSpec(Self, Blank(5), Entry(Bit(3), true));
    t, b := Push(Self, Blank(5), Entry(Bit(3), true)), Blank(2);
  }

  /** dictResize takes such a dictionary from the first state of that run to the second. */
  method ResizeShrinks(d: Dict<Word, bool>)
    requires d.Valid() && d.canResize && d.iterators == 0 && !d.IsRehashing() && d.ht0.bits == 5 && d.ht0.used == 1
    modifies d
    ensures d.Valid() && d.S() == State(old(d.ht0), Blank(2), 0, 0) && d.contents == old(d.contents)
  {
    assert |d.ht0.buckets| == Power(2, 5) == 32;
    var ok, bits := d.Resize();
    FitsUnique(DICT_HT_INITIAL_SIZE, 2, bits);
    assert Power(2, 2) == 4;
  }

  /** And this is how the code misses the key: five calls of dictScan with a dictResize after the first
      come back to cursor 0, the key is in the dictionary all the time, and it is never emitted. */
  method ScanMissesKey(d: Dict<Word, bool>) returns (out: seq<Entry<Word, bool>>, v: Word)
    requires d.Valid() && d.hash == Self && d.canResize && d.iterators == 0 && !d.IsRehashing()
    requires AboutToShrink(d.ht0, Blank(2))
    modifies d
    ensures d.Valid() && Bit(3) in d.contents && d.contents == old(d.contents)
    ensures v == Zero() && !HasKey(out, Bit(3))
  {
    ghost var t, b := d.ht0, Blank<Word, bool>(2);
    ghost var path := Path(t, b);
    assert Holds(Self, d.ht0, d.ht1, d.contents, Bit(3));
    assert d.S() == State(t, NoTable(), -1, 0);
    v, out := Scan(d, Zero());
    ResizeShrinks(d);
    for i := 0 to 4
      invariant d.S() == State(t, b, 0, 0) && d.hash == Self && d.Valid() && d.contents == old(d.contents)
      invariant v == path[i + 1] && !HasKey(out, Bit(3))
    {
      assert Quiet(d.S(), path[i + 1], path[i + 1 + 1], Bit(3));
      var more;
      v, more := Scan(d, v);
      HasKeyConcat(out, more);
      out := out + more;
    }
  }
}
