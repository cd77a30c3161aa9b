/** dictScan, the stateless iterator behind SCAN: one call emits the buckets that the cursor selects
    and returns the next cursor. Over every run of calls, whatever happens to the table in between,
    a key that is present throughout is emitted, provided each call on two tables starts at a cursor
    whose bits between the two sizes are ones then zeros. Tables that do not shrink guarantee that. */
module DictScan {
  import opened Powers
  import opened Words
  import opened Tables
  import opened Dicts
  import opened Cursor

  function SmallTable<K, V>(s: State<K, V>): Table<K, V> {
    if s.rehashidx == -1 || s.t0.bits <= s.t1.bits then s.t0 else s.t1
  }

  function BigTable<K, V>(s: State<K, V>): Table<K, V> {
    if s.rehashidx == -1 || s.t0.bits <= s.t1.bits then s.t1 else s.t0
  }

  /** The call at cursor v emits k: k agrees with the cursor under the smaller mask, and is in the
      smaller table, or in the larger one at an index not below the cursor's. */
  ghost predicate Emits<K, V>(hash: K -> Word, s: State<K, V>, v: Word, k: K)
    requires Wf(hash, s)
  {
    var n, m := SmallTable(s).bits, BigTable(s).bits;
    && hash(k)[..n] == v[..n]
    && (|| Lookup(hash, SmallTable(s), k).Some?
        || (&& s.rehashidx != -1 && Lookup(hash, BigTable(s), k).Some?
            && Num(hash(k)[n..m]) >= Num(v[n..m])))
  }

  /** The cursor returned by the call. */
  function Next<K, V>(s: State<K, V>, v: Word): Word {
    if s.t0.used + s.t1.used == 0 then Zero()
    else Reversed(Increment(Reversed(Or(v, Not(Mask(SmallTable(s).bits))))))
  }

  ghost predicate HasKey<K, V>(out: seq<Entry<K, V>>, k: K) {
    exists i :: 0 <= i < |out| && out[i].key == k
  }

  /** The chain at index v & mask holds exactly the table's keys that agree with v under the mask. */
  lemma ChainAt<K, V>(hash: K -> Word, t: Table<K, V>, v: Word)
    requires WfTable(hash, t) && t.buckets != []
    ensures Bucket(v, t.bits) < |t.buckets|
    ensures forall k :: HasKey(t.buckets[Bucket(v, t.bits)], k) <==>
                        Lookup(hash, t, k).Some? && hash(k)[..t.bits] == v[..t.bits]
  {
    BucketIsLowBits(v, t.bits);
    var b := Bucket(v, t.bits);
    forall k
      ensures HasKey(t.buckets[b], k) <==> Lookup(hash, t, k).Some? && hash(k)[..t.bits] == v[..t.bits]
    {
      assert WfChain(hash, t.buckets[b], t.bits, b);
      ChainFindIs(t.buckets[b], k);
      SameBucket(hash(k), v, t.bits);
    }
  }

  lemma HasKeyConcat<K, V>(a: seq<Entry<K, V>>, b: seq<Entry<K, V>>)
    ensures forall k :: HasKey(a + b, k) <==> HasKey(a, k) || HasKey(b, k)
  {
    forall k
      ensures HasKey(a + b, k) <==> HasKey(a, k) || HasKey(b, k)
    {
      if i :| 0 <= i < |b| && b[i].key == k {
        assert (a + b)[|a| + i].key == k;
      }
      if i :| 0 <= i < |a| && a[i].key == k {
        assert (a + b)[i].key == k;
      }
    }
  }

  /** v = (((v | m0) + 1) & ~m0) | (v & m0): the bits above the smaller mask count up by one. */
  function NextExpansion(v: Word, n: nat): Word {
    Or(And(Increment(Or(v, Mask(n))), Not(Mask(n))), And(v, Mask(n)))
  }

  lemma {:induction false} IncrementCarries(x: seq<bool>, n: nat)
    requires n <= |x| && AllSet(x[..n])
    ensures Increment(x)[n..] == Increment(x[n..])
  {
    if n == 0 {
      assert x[0..] == x;
    } else {
      assert x[..n] == [x[0]] + x[1..][..n - 1] && x[..n][0];
      assert AllSet(x[1..][..n - 1]) by {
        assert forall i :: 0 <= i < n - 1 ==> x[1..][..n - 1][i] == x[..n][1..][i];
      }
      IncrementCarries(x[1..], n - 1);
      assert x[1..][n - 1..] == x[n..];
    }
  }

  lemma {:induction false} IncrementPrefix(x: seq<bool>, n: nat)
    requires n <= |x|
    ensures Increment(x)[..n] == Increment(x[..n])
  {
    if n > 0 {
      IncrementPrefix(x[1..], n - 1);
      assert x[..n][1..] == x[1..][..n - 1];
    }
  }

  lemma NextExpansionIs(v: Word, n: nat, m: nat)
    requires n <= m <= WIDTH
    ensures NextExpansion(v, n)[..n] == v[..n]
    ensures NextExpansion(v, n)[n..m] == Increment(v[n..m])
  {
    var u, w := Or(v, Mask(n)), NextExpansion(v, n);
    assert w[n..] == Increment(v[n..]) by {
      IncrementCarries(u, n);
      assert u[n..] == v[n..];
      assert w[n..] == Increment(u)[n..];
    }
    IncrementPrefix(v[n..], m - n);
    SliceOfRest(v, n, m);
    SliceOfRest(w, n, m);
  }

  lemma SliceOfRest(v: Word, n: nat, m: nat)
    requires n <= m <= WIDTH
    ensures v[n..m] == v[n..][..m - n]
  {
  }

  /** The entries collected are those of the expansions from lo up to, not including, hi. */
  ghost predicate Collected<K(!new), V>(hash: K -> Word, t: Table<K, V>, n: nat, v0: Word, out: seq<Entry<K, V>>, lo: nat, hi: nat)
    requires n <= t.bits <= WIDTH
  {
    forall k :: HasKey(out, k) <==>
                Lookup(hash, t, k).Some? && hash(k)[..n] == v0[..n] && lo <= Num(hash(k)[n..t.bits]) < hi
  }

  lemma CollectBucket<K(!new), V>(hash: K -> Word, t: Table<K, V>, n: nat, v0: Word, v: Word, out: seq<Entry<K, V>>, lo: nat, cur: nat)
    requires WfTable(hash, t) && t.buckets != [] && n <= t.bits && Collected(hash, t, n, v0, out, lo, cur)
    requires v[..n] == v0[..n] && lo <= cur == Num(v[n..t.bits])
    ensures Bucket(v, t.bits) < |t.buckets| && Collected(hash, t, n, v0, out + t.buckets[Bucket(v, t.bits)], lo, cur + 1)
  {
    ChainAtExpansion(hash, t, n, v);
    HasKeyConcat(out, t.buckets[Bucket(v, t.bits)]);
  }

  /** Counting up the expansion bits, or clearing them after the last one. */
  lemma ExpansionStep(v: Word, n: nat, m: nat, cur: nat)
    requires n <= m <= WIDTH && Num(v[n..m]) == cur < Power(2, m - n)
    ensures var v1 := NextExpansion(v, n);
            && v1[..n] == v[..n]
            && (if cur + 1 < Power(2, m - n) then Num(v1[n..m]) == cur + 1 else AllClear(v1[n..m]))
  {
    NextExpansionIs(v, n, m);
    IncrementStep(v[n..m], cur);
  }

  lemma IncrementStep(b: seq<bool>, cur: nat)
    requires Num(b) == cur < Power(2, |b|)
    ensures if cur + 1 < Power(2, |b|) then Num(Increment(b)) == cur + 1 else AllClear(Increment(b))
  {
    NumIncrement(b);
    NumAllSet(b);
  }

  /** The expansion loop of dictScan: from the cursor's own expansion up to the last one. */
  method ScanExpansions<K(!new), V>(hash: K -> Word, t: Table<K, V>, n: nat, v0: Word)
    returns (out: seq<Entry<K, V>>, v: Word)
    requires WfTable(hash, t) && t.buckets != [] && n <= t.bits
    ensures v[..n] == v0[..n]
    ensures forall k :: HasKey(out, k) <==> Lookup(hash, t, k).Some? && hash(k)[..n] == v0[..n]
                                            && Num(hash(k)[n..t.bits]) >= Num(v0[n..t.bits])
  {
    var m := t.bits;
    var m0, m1 := Mask(n), Mask(m);
    out, v := [], v0;
    ghost var w, e0 := Power(2, m - n), Num(v0[n..m]);
    ghost var cur := e0;
    var first := true;
    NumBound(v0[n..m]);
    while first || And(v, Xor(m0, m1)) != Zero()
      invariant v[..n] == v0[..n]
      invariant e0 <= cur <= w && (first <==> cur == e0)
      invariant if cur < w then Num(v[n..m]) == cur else AllClear(v[n..m])
      invariant Collected(hash, t, n, v0, out, e0, cur)
      decreases w - cur
    {
      LoopTest(v, n, m);
      CollectBucket(hash, t, n, v0, v, out, e0, cur);
      ExpansionStep(v, n, m, cur);
      out := out + t.buckets[Bucket(v, m)];
      v := NextExpansion(v, n);
      first, cur := false, cur + 1;
    }
    LoopTest(v, n, m);
    forall k ensures Num(hash(k)[n..m]) < w {
      NumBound(hash(k)[n..m]);
    }
  }

  /** The loop condition v & (m0 ^ m1). */
  lemma LoopTest(v: Word, n: nat, m: nat)
    requires n <= m <= WIDTH
    ensures And(v, Xor(Mask(n), Mask(m))) == Zero() <==> AllClear(v[n..m])
    ensures AllClear(v[n..m]) ==> Num(v[n..m]) == 0
  {
    var x := And(v, Xor(Mask(n), Mask(m)));
    assert forall i :: n <= i < m ==> x[i] == v[n..m][i - n];
    if AllClear(v[n..m]) {
      NumTrailingZeros(v[n..m], 0);
      assert x == Zero();
    } else {
      var i :| 0 <= i < m - n && v[n..m][i];
      assert x[n + i] && !Zero()[n + i];
    }
  }

  lemma ChainAtExpansion<K, V>(hash: K -> Word, t: Table<K, V>, n: nat, v: Word)
    requires WfTable(hash, t) && t.buckets != [] && n <= t.bits
    ensures Bucket(v, t.bits) < |t.buckets|
    ensures forall k :: HasKey(t.buckets[Bucket(v, t.bits)], k) <==>
                        Lookup(hash, t, k).Some? && hash(k)[..n] == v[..n] && Num(hash(k)[n..t.bits]) == Num(v[n..t.bits])
  {
    ChainAt(hash, t, v);
    forall k
      ensures hash(k)[..t.bits] == v[..t.bits] <==> hash(k)[..n] == v[..n] && Num(hash(k)[n..t.bits]) == Num(v[n..t.bits])
    {
      SplitAgreement(hash(k), v, n, t.bits);
    }
  }

  lemma {:induction false} NumAllSet(b: seq<bool>)
    ensures AllSet(b) <==> Num(b) == Power(2, |b|) - 1
  {
    if b != [] {
      NumAllSet(b[1..]);
      NumBound(b[1..]);
      assert AllSet(b) <==> b[0] && AllSet(b[1..]) by {
        assert b == [b[0]] + b[1..];
      }
    }
  }

  lemma SplitAgreement(h: Word, v: Word, n: nat, m: nat)
    requires n <= m <= WIDTH
    ensures h[..m] == v[..m] <==> h[..n] == v[..n] && Num(h[n..m]) == Num(v[n..m])
  {
    assert h[..m] == h[..n] + h[n..m] && v[..m] == v[..n] + v[n..m];
    if Num(h[n..m]) == Num(v[n..m]) {
      NumInjective(h[n..m], v[n..m]);
    }
  }

  lemma LowBitsOnly(v0: Word, n: nat)
    requires n <= WIDTH
    ensures forall v: Word :: v[..n] == v0[..n] ==> Or(v, Not(Mask(n))) == Or(v0, Not(Mask(n)))
  {
    forall v: Word | v[..n] == v0[..n]
      ensures Or(v, Not(Mask(n))) == Or(v0, Not(Mask(n)))
    {
      assert forall i :: 0 <= i < n ==> v[..n][i] == v0[..n][i];
    }
  }

  lemma OrderBySize<K, V>(hash: K -> Word, t0: Table<K, V>, t1: Table<K, V>)
    requires WfTable(hash, t0) && WfTable(hash, t1) && t0.buckets != [] && t1.buckets != []
    ensures |t0.buckets| > |t1.buckets| <==> t0.bits > t1.bits
  {
    if t0.bits > t1.bits {
      PowerGrows(2, t1.bits, t0.bits);
    } else {
      PowerGrows(2, t0.bits, t1.bits);
    }
  }

  // ---------------------------------------------------------------- one call

  /** The call sees one table, or two tables between whose sizes the cursor is ones then zeros. */
  ghost predicate SafeCall<K, V>(s: State<K, V>, v: Word) {
    s.rehashidx == -1 ||
    (SmallTable(s).bits <= BigTable(s).bits <= WIDTH && OnesThenZeros(v[SmallTable(s).bits..BigTable(s).bits]))
  }

  /** What a call on two tables of 2^n and 2^m buckets emits from the larger table, judged by hash. */
  ghost predicate Visits(v: Word, n: nat, m: nat, h: Word)
    requires n <= m <= WIDTH
  {
    h[..n] == v[..n] && Num(h[n..m]) >= Num(v[n..m])
  }

  /** A call on two tables visits everything that agrees with the cursor under the smaller mask and
      is not behind the cursor, exactly when the cursor's bits between the sizes are ones then zeros. */
  lemma SafeCallIsExact(v: Word, n: nat, m: nat)
    requires n <= m <= WIDTH
    ensures OnesThenZeros(v[n..m]) <==>
            forall h: Word :: h[..n] == v[..n] && !Before(h[..m], v[..m]) ==> Visits(v, n, m, h)
  {
    var b := v[n..m];
    SmallerIsBefore(b);
    if OnesThenZeros(b) {
      forall h: Word | h[..n] == v[..n] && !Before(h[..m], v[..m])
        ensures Visits(v, n, m, h)
      {
        MiddleOrder(h, v, n, m);
      }
    } else {
      var e :| |e| == |b| && Num(e) < Num(b) && !Before(e, b);
      var h: Word := v[..n] + e + v[m..];
      assert h[..n] == v[..n] && h[n..m] == e;
      MiddleOrder(h, v, n, m);
      assert !Visits(v, n, m, h);
    }
  }

  lemma MiddleOrder(h: Word, v: Word, n: nat, m: nat)
    requires n <= m <= WIDTH && h[..n] == v[..n]
    ensures Before(h[..m], v[..m]) <==> Before(h[n..m], v[n..m])
  {
    BeforePrefix(h[..m], v[..m], n);
    assert h[..m][..n] == h[..n] && v[..m][..n] == v[..n];
    assert h[..m][n..] == h[n..m] && v[..m][n..] == v[n..m];
  }

  /** From the cursor to the next one lie exactly the words that agree with it under the mask. */
  lemma CursorStep(h: Word, v: Word, n: nat)
    requires n <= WIDTH
    ensures var w := Reversed(Increment(Reversed(Or(v, Not(Mask(n))))));
            Before(h, w) || w == Zero() ==> Before(h, v) || h[..n] == v[..n]
  {
    var w := Reversed(Increment(Reversed(Or(v, Not(Mask(n))))));
    NextCursor(v, n);
    AdvanceIsNext(h[..n], v[..n]);
    BeforePrefix(h, v, n);
    if Before(h, w) {
      BeforePrefix(h, w, n);
      NothingBeforeZero(h[n..], w[n..]);
    } else if w == Zero() && !AllSet(v[..n]) {
      AdvanceIsNext(v[..n], v[..n]);
      assert w[..n] == Zero()[..n];
      NothingBeforeZero(v[..n], w[..n]);
    }
  }

  lemma BehindCursor(h: Word, v: Word, n: nat, m: nat)
    requires n <= m <= WIDTH && h[..n] == v[..n] && OnesThenZeros(v[n..m]) && Num(h[n..m]) < Num(v[n..m])
    ensures Before(h, v)
  {
    SmallerIsBefore(v[n..m]);
    MiddleOrder(h, v, n, m);
    BeforePrefix(h, v, m);
    Irreflexive(h[..m]);
  }

  /** A safe call emits the present keys that agree with the cursor under the smaller mask, unless
      they are behind the cursor. */
  lemma SafeCallEmits<K, V>(hash: K -> Word, s: State<K, V>, v: Word, k: K)
    requires Wf(hash, s) && Present(hash, s, k) && SafeCall(s, v)
    requires hash(k)[..SmallTable(s).bits] == v[..SmallTable(s).bits]
    ensures Before(hash(k), v) || Emits(hash, s, v, k)
  {
    var n, m := SmallTable(s).bits, BigTable(s).bits;
    if s.rehashidx != -1 && Num(hash(k)[n..m]) < Num(v[n..m]) {
      BehindCursor(hash(k), v, n, m);
    }
  }

  /** One call: whatever of the keys present is before the next cursor was before this one, or is
      emitted now; and when the next cursor is zero that is everything. */
  lemma CallProgress<K, V>(hash: K -> Word, s: State<K, V>, v: Word, k: K)
    requires Wf(hash, s) && Present(hash, s, k) && s.t0.used + s.t1.used > 0
    requires SafeCall(s, v)
    ensures Before(hash(k), Next(s, v)) || Next(s, v) == Zero() ==> Before(hash(k), v) || Emits(hash, s, v, k)
  {
    CursorStep(hash(k), v, SmallTable(s).bits);
    if hash(k)[..SmallTable(s).bits] == v[..SmallTable(s).bits] {
      SafeCallEmits(hash, s, v, k);
    }
  }
}
