/** Safe iteration over a dict: while the caller only adds, finds, or deletes the entry just
    returned, every entry present throughout is returned exactly once, and none twice, even when an
    expansion starts in the middle. Entries are identified by their keys, which are unique. */
module DictIter {
  import opened Options
  import opened Words
  import opened Tables
  import opened Dicts

  /** struct dictIterator: `entry` is the entry returned last, `next` the one after it in its chain. */
  datatype Iter<K> = Iter(table: nat, index: int, entry: Option<K>, next: Option<K>)

  /** The key that follows x in the chain. */
  function Following<K(==), V>(c: Chain<K, V>, x: K): Option<K> {
    if |c| < 2 then None else if c[0].key == x then Some(c[1].key) else Following(c[1..], x)
  }

  ghost predicate InChain<K, V>(c: Chain<K, V>, k: K) {
    exists i :: 0 <= i < |c| && c[i].key == k
  }

  /** k is in the chain, at x or behind it. */
  ghost predicate From<K, V>(c: Chain<K, V>, x: Option<K>, k: K) {
    x.Some? && exists i, j :: 0 <= i <= j < |c| && c[i].key == x.value && c[j].key == k
  }

  /** The iteration has yet to come to k in table t, which it is going through. */
  ghost predicate AheadIn<K, V>(hash: K -> Word, t: Table<K, V>, it: Iter<K>, k: K) {
    && Lookup(hash, t, k).Some?
    && var b := Bucket(hash(k), t.bits);
       b > it.index || (b == it.index && it.entry.Some? && b < |t.buckets| && From(t.buckets[b], it.next, k))
  }

  /** The iteration has yet to return k. */
  ghost predicate Ahead<K, V>(hash: K -> Word, s: State<K, V>, it: Iter<K>, k: K) {
    if it.table == 0 then AheadIn(hash, s.t0, it, k) || Lookup(hash, s.t1, k).Some?
    else AheadIn(hash, s.t1, it, k)
  }

  function TableOf<K, V>(s: State<K, V>, it: Iter<K>): Table<K, V> {
    if it.table == 0 then s.t0 else s.t1
  }

  ghost predicate WfIter<K, V>(s: State<K, V>, it: Iter<K>) {
    && it.table <= 1 && it.index >= -1
    && (it.table == 1 ==> s.rehashidx != -1)
    && (it.entry.Some? ==>
          && 0 <= it.index < |TableOf(s, it).buckets|
          && (it.next.Some? ==> InChain(TableOf(s, it).buckets[it.index], it.next.value)))
  }

  function Start<K>(): Iter<K> {
    Iter(0, -1, None, None)
  }

  // ---------------------------------------------------------------- moving along

  lemma {:induction false} FollowingIs<K, V>(c: Chain<K, V>, j: nat)
    requires j < |c| && forall a, b :: 0 <= a < b < |c| ==> c[a].key != c[b].key
    ensures Following(c, c[j].key) == if j + 1 < |c| then Some(c[j + 1].key) else None
  {
    if j > 0 {
      FollowingIs(c[1..], j - 1);
    }
  }

  /** What is from x on in the chain is x and what is from its successor on. */
  lemma FromStep<K, V>(c: Chain<K, V>, x: K)
    requires InChain(c, x) && forall a, b :: 0 <= a < b < |c| ==> c[a].key != c[b].key
    ensures forall k :: From(c, Some(x), k) <==> k == x || From(c, Following(c, x), k)
    ensures !From(c, Following(c, x), x)
    ensures Following(c, x).Some? ==> InChain(c, Following(c, x).value)
  {
    var j :| 0 <= j < |c| && c[j].key == x;
    FollowingIs(c, j);
    forall k
      ensures From(c, Some(x), k) <==> k == x || From(c, Following(c, x), k)
    {
      if From(c, Some(x), k) && k != x {
        var m :| j <= m < |c| && c[m].key == k;
        assert c[j + 1].key == Following(c, x).value && j + 1 <= m;
      }
    }
  }

  /** The iterator after it has gone on to entry x of the bucket it is in. */
  function AtEntry<K(==), V>(t: Table<K, V>, it: Iter<K>, x: K): Iter<K>
    requires 0 <= it.index < |t.buckets|
  {
    it.(entry := Some(x), next := Following(t.buckets[it.index], x))
  }

  lemma GoToNext<K, V>(hash: K -> Word, t: Table<K, V>, it: Iter<K>)
    requires WfTable(hash, t) && 0 <= it.index < |t.buckets| && it.entry.Some?
    requires it.next.Some? ==> InChain(t.buckets[it.index], it.next.value)
    ensures it.next.Some? ==>
      && AheadIn(hash, t, it, it.next.value)
      && (forall k :: AheadIn(hash, t, AtEntry(t, it, it.next.value), k) <==> AheadIn(hash, t, it, k) && k != it.next.value)
      && var n := AtEntry(t, it, it.next.value).next; n.Some? ==> InChain(t.buckets[it.index], n.value)
    ensures it.next == None ==>
      forall k :: AheadIn(hash, t, it.(entry := None), k) <==> AheadIn(hash, t, it, k)
  {
    var c := t.buckets[it.index];
    assert WfChain(hash, c, t.bits, it.index);
    if it.next.Some? {
      FromStep(c, it.next.value);
      ChainFindIs(c, it.next.value);
    }
  }

  lemma GoToBucket<K, V>(hash: K -> Word, t: Table<K, V>, it: Iter<K>)
    requires WfTable(hash, t) && -1 <= it.index < |t.buckets| - 1 && it.entry == None
    ensures var it1 := it.(index := it.index + 1);
      && var c := t.buckets[it1.index];
      if c == [] then forall k :: AheadIn(hash, t, it1, k) <==> AheadIn(hash, t, it, k)
      else
        && AheadIn(hash, t, it, c[0].key)
        && (forall k :: AheadIn(hash, t, AtEntry(t, it1, c[0].key), k) <==> AheadIn(hash, t, it, k) && k != c[0].key)
        && var n := AtEntry(t, it1, c[0].key).next; n.Some? ==> InChain(c, n.value)
  {
    var b := it.index + 1;
    var c := t.buckets[b];
    assert WfChain(hash, c, t.bits, b);
    if c == [] {
      assert forall k :: ChainFind(c, k) == None;
    } else {
      assert InChain(c, c[0].key);
      FromStep(c, c[0].key);
      forall k
        ensures From(c, Some(c[0].key), k) <==> ChainFind(c, k).Some?
      {
        ChainFindIs(c, k);
      }
      ChainFindIs(c, c[0].key);
    }
  }

  /** The keys that the iteration has yet to return. */
  ghost function AheadSet<K(!new), V>(hash: K -> Word, s: State<K, V>, it: Iter<K>): iset<K> {
    iset k | Ahead(hash, s, it, k)
  }

  /** The effect of dictNext: it returns a key that was ahead, and only that one is not ahead any
      more; or it returns NULL, and nothing was ahead. */
  ghost predicate Yields<K(!new), V>(hash: K -> Word, s: State<K, V>, it: Iter<K>, it1: Iter<K>, r: Option<K>) {
    && WfIter(s, it1)
    && match r
       case Some(x) => && x in AheadSet(hash, s, it) && it1.entry == Some(x)
                       && AheadSet(hash, s, it1) == AheadSet(hash, s, it) - iset{x}
       case None => AheadSet(hash, s, it) == AheadSet(hash, s, it1) == iset{}
  }

  lemma GoToSecondTable<K, V>(hash: K -> Word, s: State<K, V>, it: Iter<K>)
    requires Wf(hash, s) && it.table == 0 && it.entry == None && it.index >= |s.t0.buckets| - 1 && s.rehashidx != -1
    ensures forall k :: Ahead(hash, s, it, k) <==> Ahead(hash, s, it.(table := 1, index := -1), k)
  {
  }

  lemma NothingLeft<K, V>(hash: K -> Word, s: State<K, V>, it: Iter<K>)
    requires Wf(hash, s) && it.entry == None && it.index >= |TableOf(s, it).buckets| - 1
    requires it.table == 1 || s.rehashidx == -1
    ensures forall k :: !Ahead(hash, s, it, k)
  {
  }

  /** The place after the present bucket: the next bucket, or the first of the second table. */
  function NextPlace<K, V>(s: State<K, V>, it: Iter<K>): Iter<K> {
    if it.index + 1 >= |TableOf(s, it).buckets| && s.rehashidx != -1 && it.table == 0 then it.(table := 1, index := 0)
    else it.(index := it.index + 1)
  }

  /** No key is in both tables. */
  ghost predicate Disjoint<K(!new), V>(hash: K -> Word, s: State<K, V>) {
    forall k :: Lookup(hash, s.t0, k) == None || Lookup(hash, s.t1, k) == None
  }

  lemma TablesAreDisjoint<K(!new), V>(hash: K -> Word, s: State<K, V>, m: map<K, V>)
    requires Represents(hash, s.t0, s.t1, m)
    ensures Disjoint(hash, s)
  {
    forall k ensures Lookup(hash, s.t0, k) == None || Lookup(hash, s.t1, k) == None {
      assert Holds(hash, s.t0, s.t1, m, k);
    }
  }

  /** Going on to the next place: the end, an empty bucket, or an entry to return. */
  lemma NextPlaceSpec<K(!new), V>(hash: K -> Word, s: State<K, V>, it: Iter<K>)
    requires Wf(hash, s) && Disjoint(hash, s) && WfIter(s, it) && it.entry == None
    ensures var p := NextPlace(s, it);
      && WfIter(s, p)
      && if p.index >= |TableOf(s, p).buckets| then Yields(hash, s, it, p, None)
         else
           var c := TableOf(s, p).buckets[p.index];
           if c == [] then AheadSet(hash, s, it) == AheadSet(hash, s, p)
           else Yields(hash, s, it, AtEntry(TableOf(s, p), p, c[0].key), Some(c[0].key))
  {
    var p := NextPlace(s, it);
    if p.index >= |TableOf(s, p).buckets| {
      NothingLeft(hash, s, it);
      NothingLeft(hash, s, p);
    } else if p.table != it.table {
      GoToSecondTable(hash, s, it);
      NextBucketSpec(hash, s, it.(table := 1, index := -1));
    } else {
      NextBucketSpec(hash, s, it);
    }
  }

  lemma NextBucketSpec<K(!new), V>(hash: K -> Word, s: State<K, V>, it: Iter<K>)
    requires Wf(hash, s) && Disjoint(hash, s) && WfIter(s, it) && it.entry == None
    requires it.index + 1 < |TableOf(s, it).buckets|
    ensures var p := it.(index := it.index + 1);
      && var c := TableOf(s, it).buckets[p.index];
         if c == [] then AheadSet(hash, s, it) == AheadSet(hash, s, p)
         else Yields(hash, s, it, AtEntry(TableOf(s, p), p, c[0].key), Some(c[0].key))
  {
    GoToBucket(hash, TableOf(s, it), it);
  }

  /** Going on to the entry saved as next: the end of the chain, or an entry to return. */
  lemma NextEntrySpec<K(!new), V>(hash: K -> Word, s: State<K, V>, it: Iter<K>)
    requires Wf(hash, s) && Disjoint(hash, s) && WfIter(s, it) && it.entry.Some?
    ensures if it.next == None then AheadSet(hash, s, it) == AheadSet(hash, s, it.(entry := None))
            else Yields(hash, s, it, AtEntry(TableOf(s, it), it, it.next.value), it.next)
  {
    GoToNext(hash, TableOf(s, it), it);
  }

  /** The part of that loop that goes on to the next bucket, if there is one. */
  method NextBucket<K(==), V>(s: State<K, V>, it0: Iter<K>) returns (it: Iter<K>, end: bool)
    requires it0.entry == None && it0.index >= -1 && it0.table <= 1 && (s.rehashidx != -1 ==> s.t1.buckets != [])
    ensures var p := NextPlace(s, it0);
            && (end <==> p.index >= |TableOf(s, p).buckets|)
            && it == if end || TableOf(s, p).buckets[p.index] == [] then p
                     else p.(entry := Some(TableOf(s, p).buckets[p.index][0].key))
  {
    it := it0.(index := it0.index + 1);
    if it.index >= |TableOf(s, it).buckets| {
      if s.rehashidx != -1 && it.table == 0 {
        it := it.(table := 1, index := 0);
      } else {
        return it, true;
      }
    }
    var c := TableOf(s, it).buckets[it.index];
    it, end := it.(entry := if c != [] then Some(c[0].key) else None), false;
  }

  /** The loop of dictNext over the fields of the iterator; `began` tells that it was the first call. */
  method Walk<K(==, !new), V>(ghost hash: K -> Word, s: State<K, V>, it0: Iter<K>)
    returns (it: Iter<K>, r: Option<K>, began: bool)
    requires Wf(hash, s) && Disjoint(hash, s) && WfIter(s, it0)
    ensures Yields(hash, s, it0, it, r)
    ensures began == (it0.index == -1 && it0.table == 0 && it0.entry == None)
  {
    it, began := it0, false;
    while true
      invariant WfIter(s, it) && AheadSet(hash, s, it) == AheadSet(hash, s, it0)
      invariant if it.index == -1 && it.table == 0 && it.entry == None then it == it0 && !began
                else began == (it0.index == -1 && it0.table == 0 && it0.entry == None)
      decreases 1 - it.table, |TableOf(s, it).buckets| - it.index, it.entry.Some?
    {
      if it.entry == None {
        NextPlaceSpec(hash, s, it);
        if it.index == -1 && it.table == 0 {
          began := true;
        }
        var end;
        it, end := NextBucket(s, it);
        if end {
          return it, None, began;
        }
      } else {
        NextEntrySpec(hash, s, it);
        it := it.(entry := it.next);
      }
      if it.entry.Some? {
        it := it.(next := Following(TableOf(s, it).buckets[it.index], it.entry.value));
        return it, it.entry, began;
      }
    }
  }

  class SafeIterator<K(==, !new), V> {
    const d: Dict<K, V>
    var table: nat
    var index: int
    var entry: Option<K>
    var nextEntry: Option<K>

    ghost function I(): Iter<K>
      reads this
    {
      Iter(table, index, entry, nextEntry)
    }

    /** The tables that are being iterated over. */
    ghost function T(): State<K, V>
      reads d
    {
      d.S().(iterators := 0)
    }

    /** dictGetSafeIterator. */
    constructor (d: Dict<K, V>)
      ensures this.d == d && I() == Start()
    {
      this.d := d;
      table, index, entry, nextEntry := 0, -1, None, None;
    }

    /** dictNext. */
    method Next() returns (r: Option<K>)
      requires d.Valid() && WfIter(T(), I())
      modifies `table, `index, `entry, `nextEntry, d`iterators
      ensures d.Valid() && T() == old(T())
      ensures d.iterators == old(d.iterators) + if old(index) == -1 && old(table) == 0 && old(entry) == None then 1 else 0
      ensures Yields(d.hash, T(), old(I()), I(), r)
    {
      TablesAreDisjoint(d.hash, T(), d.contents);
      var it, began;
      it, r, began := Walk(d.hash, State(d.ht0, d.ht1, d.rehashidx, 0), Iter(table, index, entry, nextEntry));
      table, index, entry, nextEntry := it.table, it.index, it.entry, it.next;
      if began {
        d.iterators := d.iterators + 1;
      }
    }
  }

  // ---------------------------------------------------------------- what the caller may do

  lemma FromPush<K, V>(c: Chain<K, V>, e: Entry<K, V>, x: Option<K>, k: K)
    requires !InChain(c, e.key) && k != e.key && x != Some(e.key)
    ensures From([e] + c, x, k) <==> From(c, x, k)
  {
    var d := [e] + c;
    if From(c, x, k) {
      var i, j :| 0 <= i <= j < |c| && c[i].key == x.value && c[j].key == k;
      assert d[i + 1] == c[i] && d[j + 1] == c[j];
    }
    if From(d, x, k) {
      var i, j :| 0 <= i <= j < |d| && d[i].key == x.value && d[j].key == k;
      assert d[i] == c[i - 1] && d[j] == c[j - 1];
    }
  }

  lemma FromDrop<K, V>(c: Chain<K, V>, n: nat, x: Option<K>, k: K)
    requires n < |c| && k != c[n].key && x != Some(c[n].key)
    ensures From(c[..n] + c[n + 1..], x, k) <==> From(c, x, k)
  {
    var d := c[..n] + c[n + 1..];
    assert forall i :: 0 <= i < |d| ==> d[i] == c[if i < n then i else i + 1];
    if From(c, x, k) {
      var i, j :| 0 <= i <= j < |c| && c[i].key == x.value && c[j].key == k;
      var i1, j1 := if i < n then i else i - 1, if j < n then j else j - 1;
      assert d[i1] == c[i] && d[j1] == c[j] && i1 <= j1;
    }
    if From(d, x, k) {
      var i, j :| 0 <= i <= j < |d| && d[i].key == x.value && d[j].key == k;
      var i1, j1 := if i < n then i else i + 1, if j < n then j else j + 1;
      assert c[i1] == d[i] && c[j1] == d[j] && i1 <= j1;
    }
  }

  /** A growth in the middle of an iteration changes nothing about what is ahead. */
  lemma GrownKeepsAhead<K(!new), V>(hash: K -> Word, s: State<K, V>, s1: State<K, V>, it: Iter<K>)
    requires Wf(hash, s) && WfIter(s, it) && Grown(s, s1) && (s1.t1.bits <= WIDTH)
    ensures WfIter(s1, it) && AheadSet(hash, s1, it) == AheadSet(hash, s, it)
    ensures forall k :: Present(hash, s1, k) <==> Present(hash, s, k)
  {
    BlankIsWf<K, V>(hash, 2);
    BlankIsWf<K, V>(hash, s1.t1.bits);
    forall k
      ensures Ahead(hash, s1, it, k) <==> Ahead(hash, s, it, k)
    {
    }
  }

  /** Pushing a new entry into table t leaves what is ahead of the iteration through t, but for e. */
  lemma PushKeepsAheadIn<K, V>(hash: K -> Word, t: Table<K, V>, it: Iter<K>, e: Entry<K, V>, k: K)
    requires WfTable(hash, t) && t.buckets != [] && Lookup(hash, t, e.key) == None && k != e.key
    requires 0 <= it.index < |t.buckets| && it.next.Some? && it.entry.Some? ==> InChain(t.buckets[it.index], it.next.value)
    ensures Bucket(hash(e.key), t.bits) < |t.buckets|
    ensures AheadIn(hash, Push(hash, t, e), it, k) <==> AheadIn(hash, t, it, k)
  {
    PushSpec(hash, t, e);
    var b := Bucket(hash(e.key), t.bits);
    var c := t.buckets[b];
    ChainFindIs(c, e.key);
    assert WfChain(hash, c, t.bits, b);
    if b == it.index && it.entry.Some? && it.next.Some? {
      FromPush(c, e, it.next, k);
    }
  }

  /** An added entry may or may not come up; everything else does as before. */
  lemma PushedKeepsAhead<K(!new), V>(hash: K -> Word, s: State<K, V>, s1: State<K, V>, it: Iter<K>, e: Entry<K, V>)
    requires Wf(hash, s) && WfIter(s, it) && Pushed(hash, s, s1, e) && !Present(hash, s, e.key)
    ensures WfIter(s1, it)
    ensures AheadSet(hash, s1, it) - iset{e.key} == AheadSet(hash, s, it)
    ensures forall k :: k != e.key ==> (Present(hash, s1, k) <==> Present(hash, s, k))
  {
    var t := if s.rehashidx == -1 then s.t0 else s.t1;
    PushSpec(hash, t, e);
    forall k | k != e.key
      ensures Ahead(hash, s1, it, k) <==> Ahead(hash, s, it, k)
    {
      if it.table == 0 <==> s.rehashidx == -1 {
        PushKeepsAheadIn(hash, t, it, e, k);
      }
    }
    if it.entry.Some? && it.next.Some? {
      var c := TableOf(s, it).buckets[it.index];
      var i :| 0 <= i < |c| && c[i].key == it.next.value;
      var c1 := TableOf(s1, it).buckets[it.index];
      assert c1 == c || c1[i + 1] == c[i];
    }
  }

  lemma DropKeepsAheadIn<K, V>(hash: K -> Word, t: Table<K, V>, it: Iter<K>, b: nat, j: nat, k: K)
    requires WfTable(hash, t) && b < |t.buckets| && j < |t.buckets[b]| && k != t.buckets[b][j].key
    requires it.next != Some(t.buckets[b][j].key)
    ensures AheadIn(hash, Dropped(hash, t, b, j), it, k) <==> AheadIn(hash, t, it, k)
  {
    DroppedSpec(hash, t, b, j);
    FromDrop(t.buckets[b], j, it.next, k);
  }

  /** Dropping x from the table it is in, when x is neither ahead nor next. */
  lemma DropKeepsAhead<K(!new), V>(hash: K -> Word, s: State<K, V>, s1: State<K, V>, it: Iter<K>, x: K,
                                   first: bool, b: nat, j: nat)
    requires Wf(hash, s) && Disjoint(hash, s) && WfIter(s, it) && s1.rehashidx == s.rehashidx
    requires it.entry == Some(x) && it.next != Some(x) && x !in AheadSet(hash, s, it)
    requires var t := if first then s.t0 else s.t1;
      && b < |t.buckets| && j < |t.buckets[b]| && t.buckets[b][j].key == x
      && s1.t0 == (if first then Dropped(hash, t, b, j) else s.t0)
      && s1.t1 == (if first then s.t1 else Dropped(hash, t, b, j))
    ensures AheadSet(hash, s1, it) == AheadSet(hash, s, it)
    ensures forall k :: Present(hash, s1, k) <==> Present(hash, s, k) && k != x
  {
    var t := if first then s.t0 else s.t1;
    DroppedSpec(hash, t, b, j);
    assert Lookup(hash, t, x).Some? by {
      assert WfChain(hash, t.buckets[b], t.bits, b);
      ChainFindIs(t.buckets[b], x);
    }
    forall k
      ensures Ahead(hash, s1, it, k) <==> Ahead(hash, s, it, k)
    {
      if k != x && (first <==> it.table == 0) {
        DropKeepsAheadIn(hash, t, it, b, j, k);
      }
    }
  }

  lemma DropKeepsIter<K, V>(hash: K -> Word, t: Table<K, V>, b: nat, j: nat, i: nat, x: K)
    requires WfTable(hash, t) && b < |t.buckets| && j < |t.buckets[b]| && i < |t.buckets|
    requires x != t.buckets[b][j].key && InChain(t.buckets[i], x)
    ensures InChain(Dropped(hash, t, b, j).buckets[i], x)
  {
    var c := t.buckets[b];
    if i == b {
      var n :| 0 <= n < |c| && c[n].key == x;
      var d := c[..j] + c[j + 1..];
      assert d[if n < j then n else n - 1] == c[n];
    }
  }

  lemma DropKeepsWfIter<K(!new), V>(hash: K -> Word, s: State<K, V>, s1: State<K, V>, it: Iter<K>, x: K,
                                    first: bool, b: nat, j: nat)
    requires Wf(hash, s) && WfIter(s, it) && s1.rehashidx == s.rehashidx && it.entry == Some(x) && it.next != Some(x)
    requires var t := if first then s.t0 else s.t1;
      && b < |t.buckets| && j < |t.buckets[b]| && t.buckets[b][j].key == x
      && s1.t0 == (if first then Dropped(hash, t, b, j) else s.t0)
      && s1.t1 == (if first then s.t1 else Dropped(hash, t, b, j))
    ensures WfIter(s1, it)
  {
    if it.next.Some? && (first <==> it.table == 0) {
      DropKeepsIter(hash, if first then s.t0 else s.t1, b, j, it.index, it.next.value);
    }
  }

  /** Deleting the entry just returned leaves what is ahead. */
  lemma RemovedKeepsAhead<K(!new), V>(hash: K -> Word, s: State<K, V>, s1: State<K, V>, it: Iter<K>, x: K)
    requires Wf(hash, s) && Disjoint(hash, s) && WfIter(s, it) && Removed(hash, s, s1, x)
    requires it.entry == Some(x) && x !in AheadSet(hash, s, it)
    ensures WfIter(s1, it) && AheadSet(hash, s1, it) == AheadSet(hash, s, it)
    ensures forall k :: Present(hash, s1, k) <==> Present(hash, s, k) && k != x
  {
    NextIsNotReturned(hash, s, it, x);
    var first, b, j := RemovedFrom(hash, s, s1, x);
    DropKeepsWfIter(hash, s, s1, it, x, first, b, j);
    DropKeepsAhead(hash, s, s1, it, x, first, b, j);
  }

  lemma RemovedFrom<K(!new), V>(hash: K -> Word, s: State<K, V>, s1: State<K, V>, x: K) returns (first: bool, b: nat, j: nat)
    requires Removed(hash, s, s1, x)
    ensures var t := if first then s.t0 else s.t1;
      && WfTable(hash, t) && b < |t.buckets| && j < |t.buckets[b]| && t.buckets[b][j].key == x
      && s1.t0 == (if first then Dropped(hash, t, b, j) else s.t0)
      && s1.t1 == (if first then s.t1 else Dropped(hash, t, b, j))
  {
    b, j :| || (b < |s.t0.buckets| && j < |s.t0.buckets[b]| && s.t0.buckets[b][j].key == x
                && s1.t0 == Dropped(hash, s.t0, b, j) && s1.t1 == s.t1)
            || (b < |s.t1.buckets| && j < |s.t1.buckets[b]| && s.t1.buckets[b][j].key == x
                && s1.t1 == Dropped(hash, s.t1, b, j) && s1.t0 == s.t0);
    first := b < |s.t0.buckets| && j < |s.t0.buckets[b]| && s.t0.buckets[b][j].key == x
             && s1.t0 == Dropped(hash, s.t0, b, j) && s1.t1 == s.t1;
  }

  lemma NextIsAhead<K(!new), V>(hash: K -> Word, s: State<K, V>, it: Iter<K>, x: K)
    requires Wf(hash, s) && WfIter(s, it) && it.entry.Some? && it.next == Some(x)
    ensures x in AheadSet(hash, s, it)
  {
    var t := TableOf(s, it);
    var c := t.buckets[it.index];
    assert WfChain(hash, c, t.bits, it.index);
    ChainFindIs(c, x);
    assert Ahead(hash, s, it, x);
  }

  lemma NextIsNotReturned<K(!new), V>(hash: K -> Word, s: State<K, V>, it: Iter<K>, x: K)
    requires Wf(hash, s) && WfIter(s, it) && it.entry == Some(x) && x !in AheadSet(hash, s, it)
    ensures it.next != Some(x)
  {
    if it.next == Some(x) {
      NextIsAhead(hash, s, it, x);
    }
  }

  // ---------------------------------------------------------------- whole iterations

  datatype Event<K, V> =
    | Returned(key: K)
    | Ended
    | Added(e: Entry<K, V>)
    | NotAdded
    | Found
    | Deleted(key: K)

  /** One call of dictNext, or one thing that the caller may do in between. */
  ghost predicate Happens<K(!new), V(!new)>(hash: K -> Word, s: State<K, V>, it: Iter<K>, ev: Event<K, V>,
                                            s1: State<K, V>, it1: Iter<K>) {
    match ev
    case Returned(k) => s1 == s && Yields(hash, s, it, it1, Some(k))
    case Ended => s1 == s && Yields(hash, s, it, it1, None)
    case Added(e) => it1 == it && exists g :: Grown(s, g) && Wf(hash, g) && !Present(hash, g, e.key) && Pushed(hash, g, s1, e)
    case NotAdded => it1 == it && Grown(s, s1)
    case Found => s1 == s && it1 == it
    case Deleted(k) => it1 == it && it.entry == Some(k) && k !in AheadSet(hash, s, it) && Removed(hash, s, s1, k)
  }

  lemma GrownIsWf<K, V>(hash: K -> Word, s: State<K, V>, g: State<K, V>)
    requires Wf(hash, s) && Grown(s, g) && g.t1.bits <= WIDTH
    ensures Wf(hash, g) && forall k :: Present(hash, g, k) <==> Present(hash, s, k)
  {
    BlankIsWf<K, V>(hash, 2);
    BlankIsWf<K, V>(hash, g.t1.bits);
  }

  /** The tables without the count of iterators. */
  function Bare<K, V>(s: State<K, V>): State<K, V> {
    s.(iterators := 0)
  }

  lemma AddHappens<K(!new), V(!new)>(hash: K -> Word, s: State<K, V>, g: State<K, V>, s1: State<K, V>, it: Iter<K>, e: Entry<K, V>, ok: bool)
    requires Wf(hash, s) && Grown(s, g) && g.t1.bits <= WIDTH && (if ok then Pushed(hash, g, s1, e) else s1 == g)
    requires ok ==> !Present(hash, s, e.key)
    ensures Happens(hash, Bare(s), it, if ok then Added(e) else NotAdded, Bare(s1), it)
  {
    GrownIsWf(hash, s, g);
    assert Grown(Bare(s), Bare(g)) && Wf(hash, Bare(g));
    if ok {
      assert !Present(hash, Bare(g), e.key) && Pushed(hash, Bare(g), Bare(s1), e);
    }
  }

  lemma DeleteHappens<K(!new), V(!new)>(hash: K -> Word, s: State<K, V>, s1: State<K, V>, it: Iter<K>, k: K)
    requires Removed(hash, s, s1, k) && it.entry == Some(k) && k !in AheadSet(hash, Bare(s), it)
    ensures Happens(hash, Bare(s), it, Deleted(k), Bare(s1), it)
  {
    assert Removed(hash, Bare(s), Bare(s1), k);
  }

  lemma AbsentIsNowhere<K(!new), V>(hash: K -> Word, s: State<K, V>, m: map<K, V>, k: K)
    requires Correct(hash, s, m) && k !in m
    ensures !Present(hash, s, k)
  {
    assert Holds(hash, s.t0, s.t1, m, k);
  }

  /** dictAdd while a safe iterator runs is such an event. */
  method AddDuring<K(==, !new), V(!new)>(i: SafeIterator<K, V>, k: K, v: V) returns (ok: bool)
    requires i.d.Valid() && i.d.iterators > 0 && |i.d.contents| <= MAX_USED
    modifies i.d
    ensures i.d.Valid() && i.d.iterators == old(i.d.iterators) && i.I() == old(i.I())
    ensures Happens(i.d.hash, old(i.T()), i.I(), if ok then Added(Entry(k, v)) else NotAdded, i.T(), i.I())
    ensures ok == (k !in old(i.d.contents)) && i.d.contents == if ok then old(i.d.contents)[k := v] else old(i.d.contents)
  {
    ghost var s, m := i.d.S(), i.d.contents;
    ghost var stepped, grown;
    ok, stepped, grown := i.d.Add(k, v);
    if ok {
      AbsentIsNowhere(i.d.hash, s, m, k);
    }
    AddHappens(i.d.hash, s, grown, i.d.S(), i.I(), Entry(k, v), ok);
  }

  /** So is dictFind. */
  method FindDuring<K(==, !new), V(!new)>(i: SafeIterator<K, V>, k: K) returns (r: Option<V>)
    requires i.d.Valid() && i.d.iterators > 0
    modifies i.d
    ensures i.d.Valid() && i.d.iterators == old(i.d.iterators) && i.I() == old(i.I()) && i.d.contents == old(i.d.contents)
    ensures Happens(i.d.hash, old(i.T()), i.I(), Found, i.T(), i.I())
    ensures r == if k in i.d.contents then Some(i.d.contents[k]) else None
  {
    r := i.d.Find(k);
  }

  /** So is dictDelete of the entry that was returned last, if it is still there. */
  method DeleteDuring<K(==, !new), V(!new)>(i: SafeIterator<K, V>, k: K) returns (ok: bool)
    requires i.d.Valid() && i.d.iterators > 0 && i.entry == Some(k) && k !in AheadSet(i.d.hash, i.T(), i.I())
    modifies i.d
    ensures i.d.Valid() && i.d.iterators == old(i.d.iterators) && i.I() == old(i.I())
    ensures Happens(i.d.hash, old(i.T()), i.I(), if ok then Deleted(k) else Found, i.T(), i.I())
    ensures ok == (k in old(i.d.contents)) && i.d.contents == old(i.d.contents) - {k}
  {
    ghost var s := i.d.S();
    ghost var stepped;
    ok, stepped := i.d.Delete(k);
    if ok {
      DeleteHappens(i.d.hash, s, i.d.S(), i.I(), k);
    }
  }

  /** And dictNext, by what it promises. */
  method NextDuring<K(==, !new), V(!new)>(i: SafeIterator<K, V>) returns (r: Option<K>)
    requires i.d.Valid() && WfIter(i.T(), i.I())
    modifies i, i.d
    ensures i.d.Valid() && i.d.contents == old(i.d.contents)
    ensures Happens(i.d.hash, old(i.T()), old(i.I()), if r.Some? then Returned(r.value) else Ended, i.T(), i.I())
  {
    r := i.Next();
  }

  ghost predicate Iteration<K(!new), V(!new)>(hash: K -> Word, states: seq<State<K, V>>, its: seq<Iter<K>>,
                                              events: seq<Event<K, V>>) {
    && |states| == |its| == |events| + 1
    && its[0] == Start()
    && (forall i :: 0 <= i < |states| ==> Wf(hash, states[i]) && Disjoint(hash, states[i]))
    && (forall i :: 0 <= i < |events| ==> Happens(hash, states[i], its[i], events[i], states[i + 1], its[i + 1]))
  }

  /** One event: the iterator stays well formed, and a key other than the one added is ahead
      afterwards exactly if it was ahead and was not the one returned. */
  lemma EventEffect<K(!new), V(!new)>(hash: K -> Word, s: State<K, V>, it: Iter<K>, ev: Event<K, V>,
                                      s1: State<K, V>, it1: Iter<K>, k: K)
    requires Wf(hash, s) && Disjoint(hash, s) && WfIter(s, it) && Wf(hash, s1)
    requires Happens(hash, s, it, ev, s1, it1)
    ensures WfIter(s1, it1)
    ensures !(ev.Added? && ev.e.key == k) ==>
      (k in AheadSet(hash, s1, it1) <==> k in AheadSet(hash, s, it) && ev != Returned(k))
    ensures ev == Returned(k) ==> k in AheadSet(hash, s, it)
    ensures ev == Ended ==> k !in AheadSet(hash, s, it)
    ensures ev.Added? && ev.e.key == k ==> !Present(hash, s, k)
  {
    match ev
    case Added(e) =>
      var g :| Grown(s, g) && Wf(hash, g) && !Present(hash, g, e.key) && Pushed(hash, g, s1, e);
      GrownKeepsAhead(hash, s, g, it);
      PushedKeepsAhead(hash, g, s1, it, e);
    case NotAdded =>
      GrownKeepsAhead(hash, s, s1, it);
    case Deleted(x) =>
      RemovedKeepsAhead(hash, s, s1, it, x);
    case _ =>
  }

  lemma {:induction false} IteratorStaysWf<K(!new), V(!new)>(hash: K -> Word, states: seq<State<K, V>>, its: seq<Iter<K>>,
                                                           events: seq<Event<K, V>>, n: nat, k: K)
    requires Iteration(hash, states, its, events) && n < |states|
    ensures WfIter(states[n], its[n])
  {
    if n > 0 {
      IteratorStaysWf(hash, states, its, events, n - 1, k);
      EventEffect(hash, states[n - 1], its[n - 1], events[n - 1], states[n], its[n], k);
    }
  }

  /** Whether the iteration has yet to return k, in a given state. */
  type Pending<!K, !V> = (State<K, V>, Iter<K>, K) -> bool

  ghost function AheadIs<K(!new), V>(hash: K -> Word): Pending<K, V> {
    (s, it, k) => k in AheadSet(hash, s, it)
  }

  /** What an event does to whether k is ahead. */
  ghost predicate Steps<K, V>(ahead: Pending<K, V>, s: State<K, V>, it: Iter<K>, ev: Event<K, V>,
                              s1: State<K, V>, it1: Iter<K>, k: K) {
    && (!(ev.Added? && ev.e.key == k) ==> (ahead(s1, it1, k) <==> ahead(s, it, k) && ev != Returned(k)))
    && (ev == Returned(k) ==> ahead(s, it, k))
    && (ev == Ended ==> !ahead(s, it, k))
  }

  ghost predicate AllSteps<K, V>(ahead: Pending<K, V>, states: seq<State<K, V>>, its: seq<Iter<K>>,
                                 events: seq<Event<K, V>>, k: K) {
    && |states| == |its| == |events| + 1
    && forall i :: 0 <= i < |events| ==> Steps(ahead, states[i], its[i], events[i], states[i + 1], its[i + 1], k)
  }

  lemma EventSteps<K(!new), V(!new)>(hash: K -> Word, s: State<K, V>, it: Iter<K>, ev: Event<K, V>,
                                     s1: State<K, V>, it1: Iter<K>, k: K)
    requires Wf(hash, s) && Disjoint(hash, s) && WfIter(s, it) && Wf(hash, s1)
    requires Happens(hash, s, it, ev, s1, it1)
    ensures Steps(AheadIs(hash), s, it, ev, s1, it1, k)
    ensures ev.Added? && ev.e.key == k ==> !Present(hash, s, k)
  {
    EventEffect(hash, s, it, ev, s1, it1, k);
  }

  lemma IterationSteps<K(!new), V(!new)>(hash: K -> Word, states: seq<State<K, V>>, its: seq<Iter<K>>,
                                         events: seq<Event<K, V>>, k: K)
    requires Iteration(hash, states, its, events)
    ensures AllSteps(AheadIs(hash), states, its, events, k)
    ensures forall i :: 0 <= i < |events| && events[i].Added? && events[i].e.key == k ==> !Present(hash, states[i], k)
  {
    forall i | 0 <= i < |events|
      ensures Steps(AheadIs(hash), states[i], its[i], events[i], states[i + 1], its[i + 1], k)
      ensures events[i].Added? && events[i].e.key == k ==> !Present(hash, states[i], k)
    {
      IteratorStaysWf(hash, states, its, events, i, k);
      EventSteps(hash, states[i], its[i], events[i], states[i + 1], its[i + 1], k);
    }
  }

  /** As long as it is not added again, k is ahead exactly if it was ahead and has not been returned. */
  lemma {:induction false} AheadUntilReturned<K, V>(ahead: Pending<K, V>, states: seq<State<K, V>>, its: seq<Iter<K>>,
                                                  events: seq<Event<K, V>>, k: K, m: nat, n: nat)
    requires AllSteps(ahead, states, its, events, k) && m <= n < |states|
    requires forall i :: m <= i < n ==> !(events[i].Added? && events[i].e.key == k)
    ensures ahead(states[n], its[n], k) <==>
            ahead(states[m], its[m], k) && forall i :: m <= i < n ==> events[i] != Returned(k)
    decreases n
  {
    if m < n {
      AheadUntilReturned(ahead, states, its, events, k, m, n - 1);
      assert Steps(ahead, states[n - 1], its[n - 1], events[n - 1], states[n - 1 + 1], its[n - 1 + 1], k);
    }
  }

  lemma TwiceIsAddedAgain<K, V>(ahead: Pending<K, V>, states: seq<State<K, V>>, its: seq<Iter<K>>,
                                events: seq<Event<K, V>>, k: K, i: nat, j: nat)
    requires AllSteps(ahead, states, its, events, k) && i < j < |events|
    requires events[i] == Returned(k) == events[j]
    ensures exists m :: i < m < j && events[m].Added? && events[m].e.key == k
  {
    assert Steps(ahead, states[j], its[j], events[j], states[j + 1], its[j + 1], k);
    if forall m :: i < m < j ==> !(events[m].Added? && events[m].e.key == k) {
      AheadUntilReturned(ahead, states, its, events, k, i, j);
    }
  }

  /** No entry is returned twice: between two returns of a key it has been added again. */
  lemma NoneTwice<K(!new), V(!new)>(hash: K -> Word, states: seq<State<K, V>>, its: seq<Iter<K>>,
                                    events: seq<Event<K, V>>, k: K, i: nat, j: nat)
    requires Iteration(hash, states, its, events) && i < j < |events|
    requires events[i] == Returned(k) == events[j]
    ensures exists m :: i < m < j && events[m].Added? && events[m].e.key == k
  {
    IterationSteps(hash, states, its, events, k);
    TwiceIsAddedAgain(AheadIs(hash), states, its, events, k, i, j);
  }

  lemma ReturnedOnce<K, V>(ahead: Pending<K, V>, states: seq<State<K, V>>, its: seq<Iter<K>>,
                           events: seq<Event<K, V>>, k: K)
    requires AllSteps(ahead, states, its, events, k) && events != [] && events[|events| - 1] == Ended
    requires ahead(states[0], its[0], k) && forall i :: 0 <= i < |events| ==> !(events[i].Added? && events[i].e.key == k)
    ensures exists i :: 0 <= i < |events| && events[i] == Returned(k)
    ensures forall i, j :: 0 <= i < j < |events| ==> !(events[i] == Returned(k) == events[j])
  {
    var n := |events| - 1;
    forall i, j | 0 <= i < j < |events|
      ensures !(events[i] == Returned(k) == events[j])
    {
      if events[i] == Returned(k) == events[j] {
        TwiceIsAddedAgain(ahead, states, its, events, k, i, j);
      }
    }
    AheadUntilReturned(ahead, states, its, events, k, 0, n);
    assert Steps(ahead, states[n], its[n], events[n], states[n + 1], its[n + 1], k);
  }

  lemma AllAheadAtStart<K(!new), V>(hash: K -> Word, s: State<K, V>, k: K)
    requires Wf(hash, s) && Present(hash, s, k)
    ensures AheadIs(hash)(s, Start(), k)
  {
    assert Ahead(hash, s, Start(), k);
  }

  /** Every entry that is there from the first dictNext to the NULL is returned exactly once. */
  lemma ReturnedExactlyOnce<K(!new), V(!new)>(hash: K -> Word, states: seq<State<K, V>>, its: seq<Iter<K>>,
                                              events: seq<Event<K, V>>, k: K)
    requires Iteration(hash, states, its, events) && events != [] && events[|events| - 1] == Ended
    requires forall i :: 0 <= i < |states| ==> Present(hash, states[i], k)
    ensures exists i :: 0 <= i < |events| && events[i] == Returned(k)
    ensures forall i, j :: 0 <= i < j < |events| ==> !(events[i] == Returned(k) == events[j])
  {
    IterationSteps(hash, states, its, events, k);
    AllAheadAtStart(hash, states[0], k);
    ReturnedOnce(AheadIs(hash), states, its, events, k);
  }
}
