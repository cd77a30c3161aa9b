/** Whole scans: runs of calls, from cursor 0 until the cursor is 0 again, with any changes of the
    table in between. */
module ScanRuns {
  import opened Powers
  import opened Words
  import opened Tables
  import opened Dicts
  import opened DictOps
  import opened Cursor
  import opened DictScan

  /** A scan: states[i] is the table at call i, cursors[i] the cursor passed to it. Between calls
      anything may happen to the table. */
  ghost predicate ScanRun<K, V>(hash: K -> Word, states: seq<State<K, V>>, cursors: seq<Word>) {
    && |cursors| == |states| + 1
    && cursors[0] == Zero()
    && (forall i :: 0 <= i < |states| ==> Wf(hash, states[i]))
    && (forall i :: 0 <= i < |states| ==> cursors[i + 1] == Next(states[i], cursors[i]))
  }

  ghost predicate Emitted<K, V>(hash: K -> Word, states: seq<State<K, V>>, cursors: seq<Word>, k: K)
    requires ScanRun(hash, states, cursors)
  {
    exists i :: 0 <= i < |states| && Emits(hash, states[i], cursors[i], k)
  }

  /** After each call, the keys before the cursor have been emitted. */
  lemma {:induction false} ScanInvariant<K, V>(hash: K -> Word, states: seq<State<K, V>>, cursors: seq<Word>, k: K, n: nat)
    requires ScanRun(hash, states, cursors) && n <= |states|
    requires forall i :: 0 <= i < n ==> Present(hash, states[i], k) && SafeCall(states[i], cursors[i])
    ensures Before(hash(k), cursors[n]) ==> Emitted(hash, states, cursors, k)
  {
    if n == 0 {
      NothingBeforeZero(hash(k), cursors[0]);
    } else {
      PresentMeansUsed(hash, states[n - 1], k);
      CallProgress(hash, states[n - 1], cursors[n - 1], k);
      ScanInvariant(hash, states, cursors, k, n - 1);
    }
  }

  lemma PresentMeansUsed<K, V>(hash: K -> Word, s: State<K, V>, k: K)
    requires Wf(hash, s) && Present(hash, s, k)
    ensures s.t0.used + s.t1.used > 0
  {
    TotalPositive(s.t0.buckets);
    TotalPositive(s.t1.buckets);
  }

  /** SCAN's guarantee: a key present at every call of a scan that came back to cursor zero was
      emitted by one of them. */
  lemma ScanCoverage<K, V>(hash: K -> Word, states: seq<State<K, V>>, cursors: seq<Word>, k: K)
    requires ScanRun(hash, states, cursors) && states != [] && cursors[|states|] == Zero()
    requires forall i :: 0 <= i < |states| ==> Present(hash, states[i], k) && SafeCall(states[i], cursors[i])
    ensures Emitted(hash, states, cursors, k)
  {
    var n := |states| - 1;
    PresentMeansUsed(hash, states[n], k);
    CallProgress(hash, states[n], cursors[n], k);
    ScanInvariant(hash, states, cursors, k, n);
  }

  /** No call sees a smaller table than the call before. */
  ghost predicate NeverShrinks<K, V>(states: seq<State<K, V>>) {
    forall i :: 0 < i < |states| ==> Smaller(states[i - 1]) <= Smaller(states[i])
  }

  /** Without shrinking, a cursor has no bits above the smaller table's mask. */
  lemma {:induction false} CursorFits<K, V>(hash: K -> Word, states: seq<State<K, V>>, cursors: seq<Word>, n: nat)
    requires ScanRun(hash, states, cursors) && NeverShrinks(states) && n < |states|
    ensures AllClear(cursors[n][Smaller(states[n])..])
  {
    if n > 0 {
      NextCursor(cursors[n - 1], Smaller(states[n - 1]));
      var w, a, b := cursors[n], Smaller(states[n - 1]), Smaller(states[n]);
      assert w == Zero() || AllClear(w[a..]);
      assert forall i :: 0 <= i < WIDTH - b ==> w[b..][i] == w[a..][i + b - a];
    }
  }

  /** Sizes that never shrink make every call safe. */
  lemma NoShrinkIsSafe<K, V>(hash: K -> Word, states: seq<State<K, V>>, cursors: seq<Word>, n: nat)
    requires ScanRun(hash, states, cursors) && NeverShrinks(states) && n < |states|
    ensures SafeCall(states[n], cursors[n])
  {
    CursorFits(hash, states, cursors, n);
    var v, a, b := cursors[n], SmallTable(states[n]).bits, BigTable(states[n]).bits;
    if states[n].rehashidx != -1 {
      assert forall i :: 0 <= i < b - a ==> v[a..b][i] == v[a..][i];
    }
  }

  /** SCAN's guarantee as it is promised: with tables that only grow, no hypothesis on cursors. */
  lemma ScanCoverageWhileGrowing<K, V>(hash: K -> Word, states: seq<State<K, V>>, cursors: seq<Word>, k: K)
    requires ScanRun(hash, states, cursors) && states != [] && cursors[|states|] == Zero()
    requires NeverShrinks(states)
    requires forall i :: 0 <= i < |states| ==> Present(hash, states[i], k)
    ensures Emitted(hash, states, cursors, k)
  {
    forall i | 0 <= i < |states| ensures SafeCall(states[i], cursors[i]) {
      NoShrinkIsSafe(hash, states, cursors, i);
    }
    ScanCoverage(hash, states, cursors, k);
  }

  /** The states of a history of operations at which calls of a scan are made. */
  ghost predicate CallsAt<K, V>(history: seq<State<K, V>>, at: seq<nat>, states: seq<State<K, V>>) {
    && |at| == |states|
    && (forall i :: 0 <= i < |at| ==> at[i] < |history| && states[i] == history[at[i]])
    && (forall i :: 0 < i < |at| ==> at[i - 1] <= at[i])
  }

  /** In particular, whatever sequences of adds, replaces, deletes and finds come between the calls. */
  lemma ScanCoverageDuringOperations<K, V>(hash: K -> Word, history: seq<State<K, V>>, ops: seq<Op<K, V>>, at: seq<nat>,
                                           states: seq<State<K, V>>, cursors: seq<Word>, k: K)
    requires OpRun(hash, history, ops) && CallsAt(history, at, states)
    requires ScanRun(hash, states, cursors) && states != [] && cursors[|states|] == Zero()
    requires forall i :: 0 <= i < |states| ==> Present(hash, states[i], k)
    ensures Emitted(hash, states, cursors, k)
  {
    forall i | 0 < i < |states|
      ensures Smaller(states[i - 1]) <= Smaller(states[i])
    {
      RunNeverShrinks(hash, history, ops, at[i - 1], at[i]);
    }
    ScanCoverageWhileGrowing(hash, states, cursors, k);
  }

  /** Tables that differ by a factor of two are safe for every cursor. */
  lemma NeighbouringSizesAreSafe<K, V>(hash: K -> Word, s: State<K, V>, v: Word)
    requires Wf(hash, s) && s.rehashidx != -1 && BigTable(s).bits <= SmallTable(s).bits + 1
    ensures SafeCall(s, v)
  {
  }

  /** The numeric value of a cursor in the order of the scan. */
  ghost function Rank(p: seq<bool>): nat {
    if p == [] then 0 else (if p[0] then Power(2, |p| - 1) else 0) + Rank(p[1..])
  }

  lemma {:induction false} RankBound(x: seq<bool>)
    ensures Rank(x) < Power(2, |x|)
  {
    if x != [] {
      RankBound(x[1..]);
    }
  }

  lemma {:induction false} RankOrder(x: seq<bool>, y: seq<bool>)
    requires Before(x, y)
    ensures Rank(x) < Rank(y)
  {
    if x[0] == y[0] {
      RankOrder(x[1..], y[1..]);
    } else {
      RankBound(x[1..]);
    }
  }

  /** Whatever the cursor, a call that does not end the scan moves it forward. */
  lemma CursorMovesOn(v: Word, a: nat, b: nat)
    requires a <= b <= WIDTH
    ensures var w := Reversed(Increment(Reversed(Or(v, Not(Mask(a))))));
            w != Zero() ==> Before(v, w) && Rank(v[..b]) < Rank(w[..b])
  {
    var w := Reversed(Increment(Reversed(Or(v, Not(Mask(a))))));
    NextCursor(v, a);
    AdvanceIsNext(v[..a], v[..a]);
    Irreflexive(v[..a]);
    if w != Zero() {
      assert w == w[..a] + w[a..];
      BeforePrefix(v, w, a);
      assert v[..b][..a] == v[..a] && w[..b][..a] == w[..a];
      BeforePrefix(v[..b], w[..b], a);
      RankOrder(v[..b], w[..b]);
    }
  }

  /** While the scan goes on and tables stay within 2^b buckets, shrinking or not, each call moves the
      cursor on, so the scan is over after at most 2^b calls. */
  lemma {:induction false} ScanEnds<K, V>(hash: K -> Word, states: seq<State<K, V>>, cursors: seq<Word>, b: nat, n: nat)
    requires ScanRun(hash, states, cursors) && n <= |states|
    requires b <= WIDTH && forall i :: 0 <= i < |states| ==> Smaller(states[i]) <= b
    requires forall i :: 0 < i <= n ==> cursors[i] != Zero()
    ensures n <= Rank(cursors[n][..b]) < Power(2, b)
    ensures n > 0 ==> Before(cursors[n - 1], cursors[n])
  {
    RankBound(cursors[n][..b]);
    if n > 0 {
      ScanEnds(hash, states, cursors, b, n - 1);
      CursorMovesOn(cursors[n - 1], Smaller(states[n - 1]), b);
    }
  }
}
