/** The bucket arrays of dict.c as values: what one table holds, and what pushing, dropping,
    updating and moving entries do to it. A chain is the sequence of its entries, head first. */
module Tables {
  import opened Options
  import opened Powers
  import opened Words

  datatype Entry<K, V> = Entry(key: K, val: V)

  type Chain<K, V> = seq<Entry<K, V>>

  /** struct dictht: size == 2^bits and sizemask == size - 1, or no buckets at all. */
  datatype Table<K, V> = Table(buckets: seq<Chain<K, V>>, bits: nat, used: nat)

  /** _dictReset. */
  function NoTable<K, V>(): Table<K, V> {
    Table([], 0, 0)
  }

  /** A zeroed table of 2^bits buckets. */
  function Blank<K, V>(bits: nat): Table<K, V> {
    Table(seq(Power(2, bits), _ => []), bits, 0)
  }

  /** The value of the first entry of the chain with this key. */
  function ChainFind<K(==), V>(c: Chain<K, V>, k: K): Option<V> {
    if c == [] then None else if c[0].key == k then Some(c[0].val) else ChainFind(c[1..], k)
  }

  /** What a search for k in its bucket of the table finds. */
  function Lookup<K(==), V>(hash: K -> Word, t: Table<K, V>, k: K): Option<V> {
    var b := Bucket(hash(k), t.bits);
    if b < |t.buckets| then ChainFind(t.buckets[b], k) else None
  }

  /** Number of entries in all chains. */
  function Total<K, V>(b: seq<Chain<K, V>>): nat {
    if b == [] then 0 else |b[0]| + Total(b[1..])
  }

  /** Entries of the chain belong to bucket b of a table of 2^bits, and no key occurs twice. */
  ghost predicate WfChain<K, V>(hash: K -> Word, c: Chain<K, V>, bits: nat, b: nat) {
    && (forall i :: 0 <= i < |c| ==> Bucket(hash(c[i].key), bits) == b)
    && (forall i, j :: 0 <= i < j < |c| ==> c[i].key != c[j].key)
  }

  ghost predicate WfTable<K, V>(hash: K -> Word, t: Table<K, V>) {
    && t.bits <= WIDTH
    && (t == NoTable() || |t.buckets| == Power(2, t.bits))
    && t.used == Total(t.buckets)
    && forall b :: 0 <= b < |t.buckets| ==> WfChain(hash, t.buckets[b], t.bits, b)
  }

  lemma {:induction false} TotalUpdate<K, V>(b: seq<Chain<K, V>>, i: nat, c: Chain<K, V>)
    requires i < |b|
    ensures Total(b[i := c]) == Total(b) - |b[i]| + |c|
  {
    if i == 0 {
      assert b[i := c][1..] == b[1..];
    } else {
      assert b[i := c][1..] == b[1..][i - 1 := c];
      TotalUpdate(b[1..], i - 1, c);
    }
  }

  /** The first n buckets have no entries. */
  ghost predicate EmptyBelow<K, V>(b: seq<Chain<K, V>>, n: int) {
    n <= |b| && forall i :: 0 <= i < n ==> b[i] == []
  }

  /** If the first n buckets are empty but the table is not, a bucket from n on has an entry. */
  lemma {:induction false} TotalSuffix<K, V>(b: seq<Chain<K, V>>, n: nat)
    requires EmptyBelow(b, n)
    ensures Total(b) == Total(b[n..])
    ensures Total(b) > 0 <==> exists i :: n <= i < |b| && b[i] != []
  {
    if n > 0 {
      TotalSuffix(b[1..], n - 1);
      assert b[1..][n - 1..] == b[n..];
      assert forall i :: n - 1 <= i < |b[1..]| ==> b[1..][i] == b[i + 1];
    } else {
      TotalPositive(b);
      assert b[0..] == b;
    }
  }

  lemma {:induction false} TotalPositive<K, V>(b: seq<Chain<K, V>>)
    ensures Total(b) > 0 <==> exists i :: 0 <= i < |b| && b[i] != []
  {
    if b != [] {
      TotalPositive(b[1..]);
      assert forall i :: 0 <= i < |b[1..]| ==> b[1..][i] == b[i + 1];
      if i :| 0 <= i < |b| && b[i] != [] {
        assert i == 0 || b[1..][i - 1] != [];
      }
    }
  }

  lemma BlankIsWf<K, V>(hash: K -> Word, bits: nat)
    requires bits <= WIDTH
    ensures WfTable(hash, Blank<K, V>(bits))
    ensures forall k :: Lookup(hash, Blank<K, V>(bits), k) == None
  {
    var t := Blank<K, V>(bits);
    TotalPositive(t.buckets);
  }

  /** A search succeeds exactly for the keys of the chain, and yields the entry's value. */
  lemma {:induction false} ChainFindIs<K, V>(c: Chain<K, V>, k: K)
    requires forall i, j :: 0 <= i < j < |c| ==> c[i].key != c[j].key
    ensures ChainFind(c, k).Some? <==> exists i :: 0 <= i < |c| && c[i].key == k
    ensures forall i :: 0 <= i < |c| && c[i].key == k ==> ChainFind(c, k) == Some(c[i].val)
  {
    if c != [] {
      ChainFindIs(c[1..], k);
      assert forall i :: 0 <= i < |c[1..]| ==> c[1..][i] == c[i + 1];
      if i :| 0 <= i < |c| && c[i].key == k && c[0].key != k {
        assert c[1..][i - 1].key == k;
      }
    }
  }

  /** Link a new entry in front of its chain. */
  function Push<K, V>(hash: K -> Word, t: Table<K, V>, e: Entry<K, V>): Table<K, V>
    requires Bucket(hash(e.key), t.bits) < |t.buckets|
  {
    var b := Bucket(hash(e.key), t.bits);
    t.(buckets := t.buckets[b := [e] + t.buckets[b]], used := t.used + 1)
  }

  lemma HasBucket<K, V>(hash: K -> Word, t: Table<K, V>, k: K)
    requires WfTable(hash, t) && t.buckets != []
    ensures Bucket(hash(k), t.bits) < |t.buckets|
  {
    BucketIsLowBits(hash(k), t.bits);
  }

  lemma PushSpec<K, V>(hash: K -> Word, t: Table<K, V>, e: Entry<K, V>)
    requires WfTable(hash, t) && t.buckets != [] && Lookup(hash, t, e.key) == None
    ensures Bucket(hash(e.key), t.bits) < |t.buckets|
    ensures WfTable(hash, Push(hash, t, e))
    ensures forall k :: Lookup(hash, Push(hash, t, e), k) == if k == e.key then Some(e.val) else Lookup(hash, t, k)
  {
    HasBucket(hash, t, e.key);
    var b := Bucket(hash(e.key), t.bits);
    var c := [e] + t.buckets[b];
    assert c[1..] == t.buckets[b];
    ChainFindIs(t.buckets[b], e.key);
    assert WfChain(hash, c, t.bits, b);
    TotalUpdate(t.buckets, b, c);
  }

  /** Replace chain b of the table. */
  function WithChain<K, V>(t: Table<K, V>, b: nat, c: Chain<K, V>): Table<K, V>
    requires b < |t.buckets| && t.used + |c| >= |t.buckets[b]|
  {
    t.(buckets := t.buckets[b := c], used := t.used - |t.buckets[b]| + |c|)
  }

  lemma {:induction false} UsedCoversChain<K, V>(b: seq<Chain<K, V>>, i: nat)
    requires i < |b|
    ensures Total(b) >= |b[i]|
  {
    if i > 0 {
      UsedCoversChain(b[1..], i - 1);
    }
  }

  lemma {:induction false} ChainDrop<K, V>(c: Chain<K, V>, j: nat, k: K)
    requires j < |c| && forall i, j :: 0 <= i < j < |c| ==> c[i].key != c[j].key
    ensures ChainFind(c[..j] + c[j + 1..], k) == if k == c[j].key then None else ChainFind(c, k)
  {
    var d := c[..j] + c[j + 1..];
    assert forall i :: 0 <= i < |d| ==> d[i] == if i < j then c[i] else c[i + 1];
    if j == 0 {
      assert d == c[1..];
      ChainFindIs(d, k);
    } else {
      assert d[0] == c[0] && d[1..] == c[1..][..j - 1] + c[1..][j..];
      ChainDrop(c[1..], j - 1, k);
    }
  }

  lemma {:induction false} ChainSet<K, V>(c: Chain<K, V>, j: nat, v: V, k: K)
    requires j < |c| && forall i, j :: 0 <= i < j < |c| ==> c[i].key != c[j].key
    ensures ChainFind(c[j := c[j].(val := v)], k) == if k == c[j].key then Some(v) else ChainFind(c, k)
  {
    var d := c[j := c[j].(val := v)];
    if j == 0 {
      assert d[1..] == c[1..];
    } else {
      assert d[0] == c[0] && d[1..] == c[1..][j - 1 := c[1..][j - 1].(val := v)];
      ChainSet(c[1..], j - 1, v, k);
    }
  }

  /** Unlink entry j of chain b. */
  function Dropped<K, V>(hash: K -> Word, t: Table<K, V>, b: nat, j: nat): Table<K, V>
    requires WfTable(hash, t) && b < |t.buckets| && j < |t.buckets[b]|
  {
    UsedCoversChain(t.buckets, b);
    WithChain(t, b, t.buckets[b][..j] + t.buckets[b][j + 1..])
  }

  lemma DroppedSpec<K, V>(hash: K -> Word, t: Table<K, V>, b: nat, j: nat)
    requires WfTable(hash, t) && b < |t.buckets| && j < |t.buckets[b]|
    ensures WfTable(hash, Dropped(hash, t, b, j)) && Dropped(hash, t, b, j).used == t.used - 1
    ensures forall n :: EmptyBelow(t.buckets, n) ==> EmptyBelow(Dropped(hash, t, b, j).buckets, n)
    ensures forall k :: Lookup(hash, Dropped(hash, t, b, j), k) ==
                        (if k == t.buckets[b][j].key then None else Lookup(hash, t, k))
  {
    var c := t.buckets[b];
    var d := c[..j] + c[j + 1..];
    UsedCoversChain(t.buckets, b);
    TotalUpdate(t.buckets, b, d);
    assert forall i :: 0 <= i < |d| ==> d[i] == if i < j then c[i] else c[i + 1];
    assert WfChain(hash, d, t.bits, b);
    forall k
      ensures Lookup(hash, Dropped(hash, t, b, j), k) == if k == c[j].key then None else Lookup(hash, t, k)
    {
      ChainDrop(c, j, k);
      if k == c[j].key {
        assert Bucket(hash(k), t.bits) == b;
      }
    }
  }

  /** Overwrite the value of entry j of chain b. */
  function Updated<K, V>(t: Table<K, V>, b: nat, j: nat, v: V): Table<K, V>
    requires b < |t.buckets| && j < |t.buckets[b]|
  {
    t.(buckets := t.buckets[b := t.buckets[b][j := t.buckets[b][j].(val := v)]])
  }

  lemma UpdatedSpec<K, V>(hash: K -> Word, t: Table<K, V>, b: nat, j: nat, v: V)
    requires WfTable(hash, t) && b < |t.buckets| && j < |t.buckets[b]|
    ensures WfTable(hash, Updated(t, b, j, v))
    ensures forall n :: EmptyBelow(t.buckets, n) ==> EmptyBelow(Updated(t, b, j, v).buckets, n)
    ensures forall k :: Lookup(hash, Updated(t, b, j, v), k) ==
                        (if k == t.buckets[b][j].key then Some(v) else Lookup(hash, t, k))
  {
    var c := t.buckets[b];
    var d := c[j := c[j].(val := v)];
    TotalUpdate(t.buckets, b, d);
    assert WfChain(hash, d, t.bits, b);
    forall k
      ensures Lookup(hash, Updated(t, b, j, v), k) == if k == c[j].key then Some(v) else Lookup(hash, t, k)
    {
      ChainSet(c, j, v, k);
      if k == c[j].key {
        assert Bucket(hash(k), t.bits) == b;
      }
    }
  }
}
