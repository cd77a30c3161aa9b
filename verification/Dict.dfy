/** The incrementally rehashed hash table of dict.c. Two tables are live while entries migrate;
    the abstract value of the pair is one finite map, `contents`. */
module Dicts {
  import opened Options
  import opened Powers
  import opened Words
  import opened Tables

  const DICT_HT_INITIAL_SIZE := 4
  const DICT_FORCE_RESIZE_RATIO := 5

  /** Tables stay below 2^31 buckets, so that an index fits a C int. */
  const MAX_USED: nat := 0x4000_0000

  const INT_MAX: nat := 0x7FFF_FFFF
  const LONG_MAX: nat := 0x7FFF_FFFF_FFFF_FFFF

  /** struct dict, as a value. */
  datatype State<K, V> = State(t0: Table<K, V>, t1: Table<K, V>, rehashidx: int, iterators: nat)

  /** Key k is in m, with its value, exactly when it is in one of the tables, and never in both. */
  ghost predicate Holds<K, V>(hash: K -> Word, t0: Table<K, V>, t1: Table<K, V>, m: map<K, V>, k: K) {
    match (Lookup(hash, t0, k), Lookup(hash, t1, k))
    case (None, None) => k !in m
    case (Some(v), None) => k in m && m[k] == v
    case (None, Some(v)) => k in m && m[k] == v
    case (Some(_), Some(_)) => false
  }

  ghost predicate Represents<K(!new), V>(hash: K -> Word, t0: Table<K, V>, t1: Table<K, V>, m: map<K, V>) {
    forall k :: Holds(hash, t0, t1, m, k)
  }

  /** k is in one of the tables. */
  ghost predicate Present<K, V>(hash: K -> Word, s: State<K, V>, k: K) {
    Lookup(hash, s.t0, k).Some? || Lookup(hash, s.t1, k).Some?
  }

  ghost predicate Wf<K, V>(hash: K -> Word, s: State<K, V>) {
    && WfTable(hash, s.t0)
    && WfTable(hash, s.t1)
    && if s.rehashidx == -1 then s.t1 == NoTable()
       else
         && 0 <= s.rehashidx <= |s.t0.buckets|
         && s.t0.buckets != [] && s.t1.buckets != []
         && EmptyBelow(s.t0.buckets, s.rehashidx)
  }

  /** The tables are well formed and hold the map m. */
  ghost predicate Correct<K(!new), V>(hash: K -> Word, s: State<K, V>, m: map<K, V>) {
    Wf(hash, s) && Represents(hash, s.t0, s.t1, m) && |m| == s.t0.used + s.t1.used
  }

  /** The exponent of the smaller live table. */
  function Smaller<K, V>(s: State<K, V>): nat {
    if s.rehashidx == -1 || s.t0.bits <= s.t1.bits then s.t0.bits else s.t1.bits
  }

  /** A rehash that an insert started when the first table held `full` entries, and that every
      later insert has pushed on by one step. */
  ghost predicate Paced<K, V>(s: State<K, V>, full: nat) {
    && 0 <= s.rehashidx < |s.t0.buckets| <= full
    && 2 * full <= |s.t1.buckets|
    && s.t0.used + s.t1.used <= full + s.rehashidx + 1
  }

  /** What _dictExpandIfNeeded may do: nothing, create the first table, or start a rehash of a
      full table into one at least twice as large. */
  ghost predicate Grown<K, V>(s: State<K, V>, s1: State<K, V>) {
    || s1 == s
    || (s.rehashidx == -1 && s.t0.buckets == [] && s1 == s.(t0 := Blank(2)))
    || (&& s.rehashidx == -1 && s.t0.used >= |s.t0.buckets| > 0
        && Fits(2 * s.t0.used, s1.t1.bits) && s1 == s.(t1 := Blank(s1.t1.bits), rehashidx := 0))
  }

  /** s with one more entry, in front of its chain in the table that takes new entries. */
  ghost predicate Pushed<K, V>(hash: K -> Word, s: State<K, V>, s1: State<K, V>, e: Entry<K, V>) {
    var t := if s.rehashidx == -1 then s.t0 else s.t1;
    && Bucket(hash(e.key), t.bits) < |t.buckets|
    && s1 == if s.rehashidx == -1 then s.(t0 := Push(hash, t, e)) else s.(t1 := Push(hash, t, e))
  }

  /** s1 is s without the entry of key k, and all chains keep their order. */
  ghost predicate Removed<K, V>(hash: K -> Word, s: State<K, V>, s1: State<K, V>, k: K) {
    && s1.rehashidx == s.rehashidx && s1.iterators == s.iterators
    && WfTable(hash, s.t0) && WfTable(hash, s.t1)
    && exists b: nat, j: nat ::
         || (b < |s.t0.buckets| && j < |s.t0.buckets[b]| && s.t0.buckets[b][j].key == k
             && s1.t0 == Dropped(hash, s.t0, b, j) && s1.t1 == s.t1)
         || (b < |s.t1.buckets| && j < |s.t1.buckets[b]| && s.t1.buckets[b][j].key == k
             && s1.t1 == Dropped(hash, s.t1, b, j) && s1.t0 == s.t0)
  }

  /** s with another value in one entry: no table, count or index changes. */
  ghost predicate Revalued<K, V>(s: State<K, V>, s1: State<K, V>) {
    && s1.rehashidx == s.rehashidx && s1.iterators == s.iterators
    && s1.t0.bits == s.t0.bits && s1.t0.used == s.t0.used && |s1.t0.buckets| == |s.t0.buckets|
    && s1.t1.bits == s.t1.bits && s1.t1.used == s.t1.used && |s1.t1.buckets| == |s.t1.buckets|
  }

  /** 2^n is the smallest power of two that is at least 4 and at least size. */
  ghost predicate Fits(size: nat, n: nat) {
    2 <= n && Power(2, n) >= size && (n > 2 ==> Power(2, n - 1) < size)
  }

  lemma FitsUnique(size: nat, m: nat, n: nat)
    requires Fits(size, m) && Fits(size, n)
    ensures m == n
  {
    if m < n {
      PowerGrows(2, m, n - 1);
    } else if n < m {
      PowerGrows(2, n, m - 1);
    }
  }

  /** _dictNextPower, returning the size and its exponent. */
  method NextPower(size: nat) returns (i: nat, bits: nat)
    ensures if size >= LONG_MAX then i == LONG_MAX else i == Power(2, bits) && Fits(size, bits) && bits <= 63
  {
    i, bits := DICT_HT_INITIAL_SIZE, 2;
    if size >= LONG_MAX {
      return LONG_MAX, bits;
    }
    while i < size
      invariant i == Power(2, bits) && bits >= 2
      invariant bits > 2 ==> Power(2, bits - 1) < size
      decreases size - i
    {
      i, bits := i * 2, bits + 1;
    }
    if bits > 63 {
      PowerGrows(2, 63, bits - 1);
      Pow2Of63();
    }
  }

  /** A zeroed table holds as little as no table. */
  lemma BlankHoldsNothing<K(!new), V>(hash: K -> Word, t: Table<K, V>, bits: nat, m: map<K, V>)
    requires bits <= WIDTH
    ensures WfTable(hash, Blank<K, V>(bits)) && Blank<K, V>(bits).buckets != []
    ensures Represents(hash, t, NoTable(), m) ==> Represents(hash, t, Blank(bits), m)
    ensures Represents(hash, NoTable(), t, m) ==> Represents(hash, Blank(bits), t, m)
  {
    BlankIsWf<K, V>(hash, bits);
    if Represents(hash, t, NoTable(), m) {
      forall k ensures Holds(hash, t, Blank(bits), m, k) {
        assert Holds(hash, t, NoTable(), m, k);
      }
    }
    if Represents(hash, NoTable(), t, m) {
      forall k ensures Holds(hash, Blank(bits), t, m, k) {
        assert Holds(hash, NoTable(), t, m, k);
      }
    }
  }

  lemma Pow2Of63()
    ensures Power(2, 63) == 0x8000_0000_0000_0000
  {
    assert Power(2, 8) == 0x100;
    assert Power(2, 16) == 0x1_0000;
    assert Power(2, 24) == 0x100_0000;
    assert Power(2, 32) == 0x1_0000_0000;
    assert Power(2, 40) == 0x100_0000_0000;
    assert Power(2, 48) == 0x1_0000_0000_0000;
    assert Power(2, 56) == 0x100_0000_0000_0000;
  }

  /** The inner loop of dictRehash: every entry of bucket b of t0 moves to the front of its chain in the
      new table. */
  method MoveChain<K(!new), V>(hash: K -> Word, t0: Table<K, V>, t1: Table<K, V>, b: nat, ghost m: map<K, V>)
    returns (t: Table<K, V>, used: nat)
    requires WfTable(hash, t0) && WfTable(hash, t1) && t1.buckets != [] && Represents(hash, t0, t1, m) && b < |t0.buckets|
    ensures Moving(hash, t1, t0.buckets[b], |t0.buckets[b]|, t) && used == t0.used - |t0.buckets[b]|
  {
    var de := t0.buckets[b];
    ghost var c, j := de, 0;
    UsedCoversChain(t0.buckets, b);
    t, used := t1, t0.used;
    while de != []
      invariant j <= |c| && de == c[j..] && used == t0.used - j
      invariant Moving(hash, t1, c, j, t)
    {
      MoveEntry(hash, t0, t1, m, b, j, t);
      t := Push(hash, t, de[0]);
      used := used - 1;
      de := de[1..];
      j := j + 1;
    }
  }

  /** The inner loop of dictRehash that passes over empty buckets from i on. */
  method PassEmpty<K, V>(buckets: seq<Chain<K, V>>, i: nat, visits: nat) returns (n: nat, left: nat)
    requires i <= |buckets| && EmptyBelow(buckets, i) && Total(buckets) != 0 && visits > 0
    ensures i <= n < |buckets| && EmptyBelow(buckets, n) && if left == 0 then i < n else buckets[n] != []
    ensures n - i == visits - left && forall b :: i <= b < n ==> buckets[b] == []
  {
    n, left := i, visits;
    TotalSuffix(buckets, n);
    while buckets[n] == []
      invariant i <= n < |buckets| && left > 0 && EmptyBelow(buckets, n)
      invariant n - i == visits - left && forall b :: i <= b < n ==> buckets[b] == []
      decreases left
    {
      TotalSuffix(buckets, n);
      n := n + 1;
      left := left - 1;
      if left == 0 {
        return;
      }
    }
  }

  /** How many of the buckets from i up to j have entries. */
  ghost function Filled<K, V>(buckets: seq<Chain<K, V>>, i: nat, j: nat): nat
    requires i <= j <= |buckets|
    decreases j - i
  {
    if i == j then 0 else Filled(buckets, i, j - 1) + if buckets[j - 1] == [] then 0 else 1
  }

  /** The buckets from `from` up to i have been dealt with: `moved` had entries and `passed` had none. What is
      behind them is as it was. */
  ghost predicate Passed<K, V>(was: seq<Chain<K, V>>, buckets: seq<Chain<K, V>>, from: nat, i: nat, moved: int, passed: int) {
    && from <= i <= |was| == |buckets| && (forall b :: i <= b < |was| ==> buckets[b] == was[b])
    && Filled(was, from, i) == moved && i - from == moved + passed
  }

  lemma {:induction false} EmptyAdds<K, V>(buckets: seq<Chain<K, V>>, from: nat, i: nat, j: nat)
    requires from <= i <= j <= |buckets| && forall b :: i <= b < j ==> buckets[b] == []
    ensures Filled(buckets, from, j) == Filled(buckets, from, i)
    decreases j
  {
    if i < j {
      EmptyAdds(buckets, from, i, j - 1);
    }
  }

  lemma PassedEmpty<K, V>(was: seq<Chain<K, V>>, buckets: seq<Chain<K, V>>, from: nat, i: nat, j: nat, moved: int, passed: int)
    requires Passed(was, buckets, from, i, moved, passed) && i <= j <= |was| && forall b :: i <= b < j ==> buckets[b] == []
    ensures Passed(was, buckets, from, j, moved, passed + (j - i))
  {
    EmptyAdds(was, from, i, j);
  }

  lemma PassedFull<K, V>(was: seq<Chain<K, V>>, buckets: seq<Chain<K, V>>, from: nat, i: nat, moved: int, passed: int)
    requires Passed(was, buckets, from, i, moved, passed) && i < |was| && buckets[i] != []
    ensures Passed(was, buckets[i := []], from, i + 1, moved + 1, passed)
  {
  }

  lemma NothingFilled<K, V>(was: seq<Chain<K, V>>, buckets: seq<Chain<K, V>>, from: nat, i: nat, moved: int, passed: int)
    requires Passed(was, buckets, from, i, moved, passed) && Total(buckets) == 0
    ensures Filled(was, i, |was|) == 0
  {
    TotalPositive(buckets);
    EmptyAdds(was, i, i, |was|);
  }

  class Dict<K(==, !new), V> {
    const hash: K -> Word

    var ht0: Table<K, V>
    var ht1: Table<K, V>
    var rehashidx: int
    var iterators: nat
    var canResize: bool
    ghost var contents: map<K, V>

    ghost function S(): State<K, V>
      reads this
    {
      State(ht0, ht1, rehashidx, iterators)
    }

    ghost predicate Valid()
      reads this
    {
      Correct(hash, S(), contents)
    }

    constructor (hash: K -> Word, canResize: bool)
      ensures Valid() && contents == map[] && this.hash == hash
    {
      this.hash := hash;
      ht0, ht1 := NoTable(), NoTable();
      rehashidx, iterators := -1, 0;
      this.canResize := canResize;
      contents := map[];
    }

    predicate IsRehashing()
      reads this
    {
      rehashidx != -1
    }

    /** dictExpand: refuses while rehashing, when the entries would not fit, and when the size
        would not change; otherwise the new table is the first one or the target of a rehash. */
    method Expand(size: nat) returns (ok: bool, bits: nat)
      requires Valid() && size < LONG_MAX
      modifies `ht0, `ht1, `rehashidx
      ensures Valid() && Fits(size, bits)
      ensures ok == (!old(IsRehashing()) && old(ht0).used <= size && |old(ht0).buckets| != Power(2, bits))
      ensures S() == if !ok then old(S())
                     else if old(ht0).buckets == [] then old(S()).(t0 := Blank(bits))
                     else old(S()).(t1 := Blank(bits), rehashidx := 0)
    {
      var realsize;
      realsize, bits := NextPower(size);
      if IsRehashing() || ht0.used > size {
        return false, bits;
      }
      if realsize == |ht0.buckets| {
        return false, bits;
      }
      BlankHoldsNothing(hash, ht0, bits, contents);
      if ht0.buckets == [] {
        ht0 := Blank(bits);
        return true, bits;
      }
      ht1 := Blank(bits);
      rehashidx := 0;
      return true, bits;
    }

    /** dictResize: to the smallest table that has room for the entries, if that is another size. */
    method Resize() returns (ok: bool, bits: nat)
      requires Valid() && ht0.used <= INT_MAX
      modifies `ht0, `ht1, `rehashidx
      ensures Valid()
      ensures old(canResize && !IsRehashing()) ==>
        Fits(if old(ht0).used < DICT_HT_INITIAL_SIZE then DICT_HT_INITIAL_SIZE else old(ht0).used, bits)
      ensures ok == (old(canResize && !IsRehashing()) && |old(ht0).buckets| != Power(2, bits))
      ensures S() == if !ok then old(S())
                     else if old(ht0).buckets == [] then old(S()).(t0 := Blank(bits))
                     else old(S()).(t1 := Blank(bits), rehashidx := 0)
    {
      if !canResize || IsRehashing() {
        return false, 0;
      }
      var minimal := if ht0.used < DICT_HT_INITIAL_SIZE then DICT_HT_INITIAL_SIZE else ht0.used;
      ok, bits := Expand(minimal);
    }

    /** One bucket of dictRehash: bucket rehashidx moves to the new table. */
    method MoveBucket()
      requires Valid() && IsRehashing() && rehashidx < |ht0.buckets|
      modifies `ht0, `ht1, `rehashidx
      ensures Valid() && rehashidx == old(rehashidx) + 1
      ensures ht0.bits == old(ht0).bits && ht1.bits == old(ht1).bits
      ensures ht0.used == old(ht0).used - |old(ht0).buckets[old(rehashidx)]|
      ensures ht0.buckets == old(ht0).buckets[old(rehashidx) := []]
    {
      var t1, used := MoveChain(hash, ht0, ht1, rehashidx, contents);
      BucketMoved(hash, S(), contents, t1);
      ht0, ht1, rehashidx := ht0.(buckets := ht0.buckets[rehashidx := []], used := used), t1, rehashidx + 1;
    }

    /** The empty buckets that dictRehash passes over. As long as the old table has
        entries it stops inside the table, at a bucket with entries or when the visits are used up. */
    method SkipEmpty(visits: nat) returns (left: nat)
      requires Valid() && IsRehashing() && ht0.used != 0 && visits > 0
      modifies `rehashidx
      ensures Valid() && old(rehashidx) <= rehashidx < |ht0.buckets|
      ensures if left == 0 then old(rehashidx) < rehashidx else ht0.buckets[rehashidx] != []
      ensures rehashidx - old(rehashidx) == visits - left
      ensures forall b :: old(rehashidx) <= b < rehashidx ==> ht0.buckets[b] == []
    {
      var n;
      n, left := PassEmpty(ht0.buckets, rehashidx, visits);
      rehashidx := n;
    }

    /** dictRehash(d, n): at most n buckets with entries move and at most 10 n empty ones are passed over, up to
        bucket `stop` of the old table. The map does not change, every call with n > 0 advances, and a table
        that has received everything replaces the old one. */
    method Rehash(n: nat) returns (more: bool, ghost stop: nat)
      requires Valid()
      modifies `ht0, `ht1, `rehashidx
      ensures Valid()
      ensures more == IsRehashing()
      ensures !old(IsRehashing()) ==> S() == old(S())
      ensures more ==> ht0.bits == old(ht0).bits && ht1.bits == old(ht1).bits && rehashidx == stop < |ht0.buckets|
      ensures more && n > 0 ==> old(rehashidx) < rehashidx
      ensures !more && old(IsRehashing()) ==> ht0.bits == old(ht1).bits && ht0.buckets != []
      ensures old(IsRehashing()) ==>
        && old(rehashidx) <= stop <= |old(ht0).buckets|
        && var moved := Filled(old(ht0).buckets, old(rehashidx), stop);
           moved <= n && stop - old(rehashidx) - moved <= 10 * n
      ensures !more && old(IsRehashing()) ==> Filled(old(ht0).buckets, stop, |old(ht0).buckets|) == 0
    {
      stop := 0;
      if !IsRehashing() {
        return false, stop;
      }
      ghost var was, from: nat := ht0.buckets, rehashidx;
      var early;
      ghost var moved, passed;
      early, moved, passed := MoveBuckets(n);
      stop := rehashidx;
      if early {
        return true, stop;
      }
      if ht0.used == 0 {
        NothingFilled(was, ht0.buckets, from, stop, moved, passed);
        FinishedTable(hash, ht0, ht1, contents);
        ht0 := ht1;
        ht1 := NoTable();
        rehashidx := -1;
        return false, stop;
      }
      TotalSuffix(ht0.buckets, rehashidx);
      return true, stop;
    }

    /** One round of the loop of dictRehash: the visits left, none if that is its end. */
    method MoveNext(visits: nat, ghost was: seq<Chain<K, V>>, ghost from: nat, ghost moved: int, ghost passed: int)
      returns (left: nat)
      requires Valid() && IsRehashing() && ht0.used != 0 && visits > 0 && Passed(was, ht0.buckets, from, rehashidx, moved, passed)
      modifies `ht0, `ht1, `rehashidx
      ensures Valid() && IsRehashing() && old(rehashidx) < rehashidx && left <= visits
      ensures ht0.bits == old(ht0).bits && ht1.bits == old(ht1).bits
      ensures Passed(was, ht0.buckets, from, rehashidx, if left == 0 then moved else moved + 1, passed + (visits - left))
      ensures left == 0 ==> rehashidx < |ht0.buckets|
    {
      ghost var i, b := rehashidx, ht0.buckets;
      left := SkipEmpty(visits);
      PassedEmpty(was, b, from, i, rehashidx, moved, passed);
      if left != 0 {
        PassedFull(was, b, from, rehashidx, moved, passed + (visits - left));
        MoveBucket();
      }
    }

    /** The loop of dictRehash; `early` if it ends because the visits are used up. */
    method MoveBuckets(n: nat) returns (early: bool, ghost moved: int, ghost passed: int)
      requires Valid() && IsRehashing()
      modifies `ht0, `ht1, `rehashidx
      ensures Valid() && IsRehashing() && old(rehashidx) <= rehashidx
      ensures ht0.bits == old(ht0).bits && ht1.bits == old(ht1).bits
      ensures Passed(old(ht0).buckets, ht0.buckets, old(rehashidx), rehashidx, moved, passed) && moved <= n && passed <= 10 * n
      ensures early ==> rehashidx < |ht0.buckets|
      ensures n > 0 && (early || ht0.used != 0) ==> old(rehashidx) < rehashidx
    {
      var n', visits := n, n * 10;
      moved, passed := 0, 0;
      while n' > 0 && ht0.used != 0
        invariant Valid() && IsRehashing() && old(rehashidx) <= rehashidx && 0 <= n' <= n && 0 <= visits
        invariant ht0.bits == old(ht0).bits && ht1.bits == old(ht1).bits
        invariant n' < n ==> old(rehashidx) < rehashidx
        invariant n' > 0 ==> visits > 0
        invariant moved == n - n' && passed == n * 10 - visits
        invariant Passed(old(ht0).buckets, ht0.buckets, old(rehashidx), rehashidx, moved, passed)
      {
        n' := n' - 1;
        var left := MoveNext(visits, old(ht0).buckets, old(rehashidx), moved, passed);
        passed := passed + (visits - left);
        visits := left;
        if visits == 0 {
          return true, moved, passed;
        }
        moved := moved + 1;
      }
      early := false;
    }

    /** _dictRehashStep: one step, unless a safe iterator is running. */
    method RehashStep()
      requires Valid()
      modifies `ht0, `ht1, `rehashidx
      ensures Valid()
      ensures iterators > 0 || !old(IsRehashing()) ==> S() == old(S())
      ensures iterators == 0 && old(IsRehashing()) ==> Advanced(old(S()), S())
      ensures Smaller(S()) >= Smaller(old(S()))
    {
      if iterators == 0 {
        var _, _ := Rehash(1);
      }
    }

    /** _dictExpandIfNeeded: it never fails within the size bound. */
    method ExpandIfNeeded() returns (ok: bool)
      requires Valid() && 2 * ht0.used < LONG_MAX
      modifies `ht0, `ht1, `rehashidx
      ensures Valid() && ok && Grown(old(S()), S())
      ensures ht0.buckets != []
      ensures S() != old(S()) <==>
        && !old(IsRehashing())
        && (|| |old(ht0).buckets| == 0
            || (&& old(ht0).used >= |old(ht0).buckets|
                && (canResize || old(ht0).used / |old(ht0).buckets| > DICT_FORCE_RESIZE_RATIO)))
    {
      if IsRehashing() {
        return true;
      }
      var bits;
      if |ht0.buckets| == 0 {
        ok, bits := Expand(DICT_HT_INITIAL_SIZE);
        FitsUnique(DICT_HT_INITIAL_SIZE, 2, bits);
        return;
      }
      if ht0.used >= |ht0.buckets| && (canResize || ht0.used / |ht0.buckets| > DICT_FORCE_RESIZE_RATIO) {
        ok, bits := Expand(ht0.used * 2);
        return;
      }
      return true;
    }

    /** Walk the chain of k in one table, and return the entry's position, or -1. */
    method Search(t: Table<K, V>, k: K) returns (b: nat, j: int)
      requires WfTable(hash, t) && t.buckets != []
      ensures b == Bucket(hash(k), t.bits) < |t.buckets|
      ensures j == -1 ==> Lookup(hash, t, k) == None
      ensures j != -1 ==> 0 <= j < |t.buckets[b]| && t.buckets[b][j].key == k
                          && Lookup(hash, t, k) == Some(t.buckets[b][j].val)
    {
      HasBucket(hash, t, k);
      b := Bucket(hash(k), t.bits);
      var he := t.buckets[b];
      j := 0;
      while he != []
        invariant 0 <= j <= |t.buckets[b]| && he == t.buckets[b][j..]
        invariant ChainFind(he, k) == Lookup(hash, t, k)
      {
        if he[0].key == k {
          return;
        }
        he := he[1..];
        j := j + 1;
      }
      j := -1;
    }

    /** _dictKeyIndex: the bucket for a new key in the table that takes new entries, or -1 when
        the key exists. */
    method KeyIndex(k: K) returns (index: int)
      requires Valid() && |contents| <= MAX_USED
      modifies `ht0, `ht1, `rehashidx
      ensures Valid() && Grown(old(S()), S())
      ensures index == -1 <==> k in contents
      ensures index != -1 ==> var t := if IsRehashing() then ht1 else ht0;
                              t.buckets != [] && index == Bucket(hash(k), t.bits) < |t.buckets|
    {
      var ok := ExpandIfNeeded();
      if !ok {
        return -1;
      }
      assert Holds(hash, ht0, ht1, contents, k);
      var b, j := Search(ht0, k);
      if j != -1 {
        return -1;
      }
      if IsRehashing() {
        b, j := Search(ht1, k);
        if j != -1 {
          return -1;
        }
      }
      return b;
    }

    /** The end of dictAddRaw: link a new entry at the index found for its key. */
    method Link(index: nat, e: Entry<K, V>)
      requires Valid() && e.key !in contents && ht0.buckets != []
      requires var t := if IsRehashing() then ht1 else ht0;
               t.buckets != [] && index == Bucket(hash(e.key), t.bits) < |t.buckets|
      modifies `ht0, `ht1, `contents
      ensures Valid() && contents == old(contents)[e.key := e.val]
      ensures Pushed(hash, old(S()), S(), e)
    {
      PushRepresents(hash, ht0, ht1, contents, e);
      ghost var s := S();
      if IsRehashing() {
        ht1 := ht1.(buckets := ht1.buckets[index := [e] + ht1.buckets[index]], used := ht1.used + 1);
      } else {
        ht0 := ht0.(buckets := ht0.buckets[index := [e] + ht0.buckets[index]], used := ht0.used + 1);
      }
      assert Pushed(hash, s, S(), e);
      contents := contents[e.key := e.val];
    }

    /** dictAdd: fails exactly when the key exists, and otherwise adds it to the map. Each call
        advances a running rehash, and then may grow the table: `stepped` and `grown` are the
        states in between. */
    method Add(k: K, v: V) returns (ok: bool, ghost stepped: State<K, V>, ghost grown: State<K, V>)
      requires Valid() && |contents| <= MAX_USED
      modifies `ht0, `ht1, `rehashidx, `contents
      ensures Valid()
      ensures ok == (k !in old(contents))
      ensures contents == if ok then old(contents)[k := v] else old(contents)
      ensures if iterators > 0 || !old(IsRehashing()) then stepped == old(S()) else Advanced(old(S()), stepped)
      ensures Wf(hash, stepped) && Grown(stepped, grown)
      ensures if ok then Pushed(hash, grown, S(), Entry(k, v)) else S() == grown
    {
      if IsRehashing() {
        RehashStep();
      }
      stepped := S();
      var index := KeyIndex(k);
      grown := S();
      if index == -1 {
        return false, stepped, grown;
      }
      Link(index, Entry(k, v));
      ok := true;
    }

    /** dictFind. */
    method Find(k: K) returns (r: Option<V>)
      requires Valid()
      modifies `ht0, `ht1, `rehashidx
      ensures Valid()
      ensures r == if k in contents then Some(contents[k]) else None
      ensures if iterators > 0 || !old(IsRehashing()) || contents == map[] then S() == old(S()) else Advanced(old(S()), S())
    {
      if ht0.used + ht1.used == 0 {
        assert contents == map[];
        return None;
      }
      if IsRehashing() {
        RehashStep();
      }
      assert Holds(hash, ht0, ht1, contents, k);
      var b, j := Search(ht0, k);
      if j != -1 {
        return Some(ht0.buckets[b][j].val);
      }
      if !IsRehashing() {
        return None;
      }
      b, j := Search(ht1, k);
      return if j != -1 then Some(ht1.buckets[b][j].val) else None;
    }

    /** dictReplace: always leaves k bound to v, and tells whether k is new. It tries to add k first:
        `stepped` and `grown` are the states of that. If k is there, it is found and set: `again` is the
        state after the rehash step of that search. */
    method Replace(k: K, v: V)
      returns (added: bool, ghost stepped: State<K, V>, ghost grown: State<K, V>, ghost again: State<K, V>)
      requires Valid() && |contents| <= MAX_USED
      modifies `ht0, `ht1, `rehashidx, `contents
      ensures Valid()
      ensures added == (k !in old(contents)) && contents == old(contents)[k := v]
      ensures if iterators > 0 || !old(IsRehashing()) then stepped == old(S()) else Advanced(old(S()), stepped)
      ensures Wf(hash, stepped) && Grown(stepped, grown)
      ensures added ==> Pushed(hash, grown, S(), Entry(k, v))
      ensures !added ==>
        && (if iterators > 0 || grown.rehashidx == -1 then again == grown else Advanced(grown, again))
        && Wf(hash, again) && Revalued(again, S())
    {
      added, stepped, grown := Add(k, v);
      again := S();
      if added {
        return;
      }
      again := Overwrite(k, v);
    }

    /** The second half of dictReplace: find the entry and set its value. */
    method Overwrite(k: K, v: V) returns (ghost stepped: State<K, V>)
      requires Valid() && k in contents
      modifies `ht0, `ht1, `rehashidx, `contents
      ensures Valid() && contents == old(contents)[k := v]
      ensures if iterators > 0 || !old(IsRehashing()) then stepped == old(S()) else Advanced(old(S()), stepped)
      ensures Wf(hash, stepped) && Revalued(stepped, S())
    {
      if IsRehashing() {
        RehashStep();
      }
      stepped := S();
      assert Holds(hash, ht0, ht1, contents, k);
      var b, j := Search(ht0, k);
      if j != -1 {
        SetVal(true, b, j, v);
      } else {
        b, j := Search(ht1, k);
        SetVal(false, b, j, v);
      }
    }

    /** dictSetVal on entry j of chain b. */
    method SetVal(first: bool, b: nat, j: nat, v: V)
      requires Valid()
      requires var t := if first then ht0 else ht1; b < |t.buckets| && j < |t.buckets[b]|
      modifies `ht0, `ht1, `contents
      ensures Valid() && Revalued(old(S()), S())
      ensures var k := (if first then old(ht0) else old(ht1)).buckets[b][j].key;
              k in old(contents) && contents == old(contents)[k := v]
    {
      ghost var t := if first then ht0 else ht1;
      ghost var k := t.buckets[b][j].key;
      UpdatedSpec(hash, t, b, j, v);
      ChainFindIs(t.buckets[b], k);
      assert WfChain(hash, t.buckets[b], t.bits, b);
      assert Holds(hash, ht0, ht1, contents, k);
      ChangeKey(hash, ht0, ht1, Updated(t, b, j, v), first, contents, contents[k := v], k);
      if first {
        ht0 := Updated(ht0, b, j, v);
      } else {
        ht1 := Updated(ht1, b, j, v);
      }
      contents := contents[k := v];
    }

    /** The unlinking part of dictGenericDelete. */
    method Unlink(first: bool, b: nat, j: nat, ghost k: K)
      requires Valid()
      requires var t := if first then ht0 else ht1; b < |t.buckets| && j < |t.buckets[b]| && t.buckets[b][j].key == k
      modifies `ht0, `ht1, `contents
      ensures Valid()
      ensures k in old(contents) && contents == old(contents) - {k} && Removed(hash, old(S()), S(), k)
    {
      ghost var s1, rest := UnlinkSpec(hash, S(), contents, first, b, j, k);
      ht0, ht1 := if first then Dropped(hash, ht0, b, j) else ht0, if first then ht1 else Dropped(hash, ht1, b, j);
      contents := rest;
    }

    /** The search of dictGenericDelete, and what follows it. */
    method Remove(k: K) returns (ok: bool)
      requires Valid() && ht0.buckets != []
      modifies `ht0, `ht1, `contents
      ensures Valid()
      ensures ok == (k in old(contents)) && contents == old(contents) - {k}
      ensures if ok then Removed(hash, old(S()), S(), k) else S() == old(S())
    {
      assert Holds(hash, ht0, ht1, contents, k);
      var b, j := Search(ht0, k);
      if j != -1 {
        Unlink(true, b, j, k);
        return true;
      }
      if !IsRehashing() {
        return false;
      }
      b, j := Search(ht1, k);
      if j != -1 {
        Unlink(false, b, j, k);
        return true;
      }
      return false;
    }

    /** dictDelete: removes exactly k, and tells whether it was there. */
    method Delete(k: K) returns (ok: bool, ghost stepped: State<K, V>)
      requires Valid()
      modifies `ht0, `ht1, `rehashidx, `contents
      ensures Valid()
      ensures ok == (k in old(contents)) && contents == old(contents) - {k}
      ensures if iterators > 0 || !old(IsRehashing()) then stepped == old(S()) else Advanced(old(S()), stepped)
      ensures Wf(hash, stepped)
      ensures if ok then Removed(hash, stepped, S(), k) else S() == stepped
    {
      stepped := S();
      if |ht0.buckets| == 0 {
        assert Holds(hash, ht0, ht1, contents, k);
        return false, stepped;
      }
      if IsRehashing() {
        RehashStep();
      }
      stepped := S();
      ok := Remove(k);
    }
  }

  /** Changing what one table holds at k0 alone changes the map there alone. */
  lemma ChangeKey<K(!new), V>(hash: K -> Word, t0: Table<K, V>, t1: Table<K, V>, t: Table<K, V>, first: bool,
                              m: map<K, V>, m1: map<K, V>, k0: K)
    requires Represents(hash, t0, t1, m)
    requires forall k :: k != k0 ==> Lookup(hash, t, k) == Lookup(hash, if first then t0 else t1, k)
    requires Lookup(hash, if first then t1 else t0, k0) == None
    requires forall k :: k != k0 ==> (k in m1 <==> k in m) && (k in m ==> m1[k] == m[k])
    requires Lookup(hash, t, k0) == if k0 in m1 then Some(m1[k0]) else None
    ensures if first then Represents(hash, t, t1, m1) else Represents(hash, t0, t, m1)
  {
    forall k ensures if first then Holds(hash, t, t1, m1, k) else Holds(hash, t0, t, m1, k) {
      assert Holds(hash, t0, t1, m, k);
    }
  }

  lemma UnlinkSpec<K(!new), V>(hash: K -> Word, s: State<K, V>, m: map<K, V>, first: bool, b: nat, j: nat, k: K)
    returns (s1: State<K, V>, rest: map<K, V>)
    requires Correct(hash, s, m)
    requires var t := if first then s.t0 else s.t1; b < |t.buckets| && j < |t.buckets[b]| && t.buckets[b][j].key == k
    ensures s1 == if first then s.(t0 := Dropped(hash, s.t0, b, j)) else s.(t1 := Dropped(hash, s.t1, b, j))
    ensures k in m && rest == m - {k} && Removed(hash, s, s1, k) && Correct(hash, s1, rest)
  {
    var t := if first then s.t0 else s.t1;
    s1 := if first then s.(t0 := Dropped(hash, t, b, j)) else s.(t1 := Dropped(hash, t, b, j));
    DroppedSpec(hash, t, b, j);
    assert Lookup(hash, t, k).Some? by {
      ChainFindIs(t.buckets[b], k);
      assert WfChain(hash, t.buckets[b], t.bits, b);
    }
    assert Holds(hash, s.t0, s.t1, m, k);
    rest := m - {k};
    ChangeKey(hash, s.t0, s.t1, Dropped(hash, t, b, j), first, m, rest, k);
    assert rest.Keys == m.Keys - {k};
  }

  /** One effective rehash step: the rehash ends with the new table, or its index moves on. */
  ghost predicate Advanced<K, V>(s: State<K, V>, s1: State<K, V>) {
    && s.rehashidx >= 0 && s1.iterators == s.iterators
    && s1.t0.used + s1.t1.used == s.t0.used + s.t1.used
    && if s1.rehashidx == -1 then s1.t0.bits == s.t1.bits && |s1.t0.buckets| == |s.t1.buckets|
       else
         && s.rehashidx < s1.rehashidx < |s1.t0.buckets| == |s.t0.buckets|
         && s1.t0.bits == s.t0.bits && s1.t1.bits == s.t1.bits && |s1.t1.buckets| == |s.t1.buckets|
  }

  /** Inserting never makes the smaller live table smaller. */
  lemma GrowthOnly<K, V>(hash: K -> Word, s: State<K, V>, stepped: State<K, V>, grown: State<K, V>)
    requires Wf(hash, stepped) && Grown(stepped, grown)
    requires stepped == s || Advanced(s, stepped)
    ensures Smaller(grown) >= Smaller(stepped) >= Smaller(s)
  {
    if grown.rehashidx == 0 && stepped.rehashidx == -1 && grown.t1.bits <= stepped.t0.bits {
      PowerGrows(2, grown.t1.bits, stepped.t0.bits);
    }
  }

  /** The key of e is new, so the entry can go to the front of its chain in either table. */
  lemma PushRepresents<K(!new), V>(hash: K -> Word, t0: Table<K, V>, t1: Table<K, V>, m: map<K, V>, e: Entry<K, V>)
    requires WfTable(hash, t0) && WfTable(hash, t1) && Represents(hash, t0, t1, m) && e.key !in m
    ensures t0.buckets != [] ==>
      && Bucket(hash(e.key), t0.bits) < |t0.buckets| && WfTable(hash, Push(hash, t0, e))
      && Represents(hash, Push(hash, t0, e), t1, m[e.key := e.val])
    ensures t1.buckets != [] ==>
      && Bucket(hash(e.key), t1.bits) < |t1.buckets| && WfTable(hash, Push(hash, t1, e))
      && Represents(hash, t0, Push(hash, t1, e), m[e.key := e.val])
  {
    assert Holds(hash, t0, t1, m, e.key);
    if t0.buckets != [] {
      PushSpec(hash, t0, e);
      ChangeKey(hash, t0, t1, Push(hash, t0, e), true, m, m[e.key := e.val], e.key);
    }
    if t1.buckets != [] {
      PushSpec(hash, t1, e);
      ChangeKey(hash, t0, t1, Push(hash, t1, e), false, m, m[e.key := e.val], e.key);
    }
  }

  lemma {:induction false} ChainFindAppend<K, V>(c: Chain<K, V>, e: Entry<K, V>, k: K)
    ensures ChainFind(c + [e], k) ==
            (if ChainFind(c, k).Some? || k != e.key then ChainFind(c, k) else Some(e.val))
  {
    if c == [] {
      assert c + [e] == [e];
    } else {
      assert (c + [e])[0] == c[0] && (c + [e])[1..] == c[1..] + [e];
      ChainFindAppend(c[1..], e, k);
    }
  }

  /** An entry of the old table is not in the new one, nor among the entries before it in its chain. */
  lemma MovableEntry<K(!new), V>(hash: K -> Word, t0: Table<K, V>, t1: Table<K, V>, m: map<K, V>, b: nat, j: nat)
    requires WfTable(hash, t0) && Represents(hash, t0, t1, m)
    requires b < |t0.buckets| && j < |t0.buckets[b]|
    ensures Lookup(hash, t1, t0.buckets[b][j].key) == None
    ensures ChainFind(t0.buckets[b][..j], t0.buckets[b][j].key) == None
  {
    var c := t0.buckets[b];
    var k := c[j].key;
    ChainFindIs(c, k);
    ChainFindIs(c[..j], k);
    assert WfChain(hash, c, t0.bits, b);
    assert Holds(hash, t0, t1, m, k);
  }

  /** The first j entries of chain c have moved to table t1, which has become t. */
  ghost predicate Moving<K(!new), V>(hash: K -> Word, t1: Table<K, V>, c: Chain<K, V>, j: nat, t: Table<K, V>) {
    && j <= |c| && WfTable(hash, t) && t.bits == t1.bits && t.used == t1.used + j && t.buckets != []
    && forall k :: Lookup(hash, t, k) == Either(ChainFind(c[..j], k), Lookup(hash, t1, k))
  }

  function Either<T>(a: Option<T>, b: Option<T>): Option<T> {
    if a.Some? then a else b
  }

  lemma MoveEntry<K(!new), V>(hash: K -> Word, t0: Table<K, V>, t1: Table<K, V>, m: map<K, V>, b: nat, j: nat, t: Table<K, V>)
    requires WfTable(hash, t0) && Represents(hash, t0, t1, m) && b < |t0.buckets| && j < |t0.buckets[b]|
    requires Moving(hash, t1, t0.buckets[b], j, t)
    ensures var e := t0.buckets[b][j];
            Bucket(hash(e.key), t.bits) < |t.buckets| && Moving(hash, t1, t0.buckets[b], j + 1, Push(hash, t, e))
  {
    var c := t0.buckets[b];
    MovableEntry(hash, t0, t1, m, b, j);
    PushSpec(hash, t, c[j]);
    forall k
      ensures Lookup(hash, Push(hash, t, c[j]), k) == Either(ChainFind(c[..j + 1], k), Lookup(hash, t1, k))
    {
      ChainFindAppend(c[..j], c[j], k);
      assert c[..j] + [c[j]] == c[..j + 1];
    }
  }

  /** Once a chain is in the new table, emptying its old bucket leaves the same map. */
  lemma MovedBucket<K(!new), V>(hash: K -> Word, t0: Table<K, V>, t1: Table<K, V>, t2: Table<K, V>, m: map<K, V>, b: nat)
    requires WfTable(hash, t0) && Represents(hash, t0, t1, m) && b < |t0.buckets|
    requires forall k :: Lookup(hash, t2, k) == Either(ChainFind(t0.buckets[b], k), Lookup(hash, t1, k))
    ensures t0.used >= |t0.buckets[b]|
    ensures var t := Table(t0.buckets[b := []], t0.bits, t0.used - |t0.buckets[b]|);
            WfTable(hash, t) && Represents(hash, t, t2, m)
  {
    UsedCoversChain(t0.buckets, b);
    TotalUpdate(t0.buckets, b, []);
    var t := Table(t0.buckets[b := []], t0.bits, t0.used - |t0.buckets[b]|);
    forall k ensures Holds(hash, t, t2, m, k) {
      assert Holds(hash, t0, t1, m, k);
      ChainFindIs(t0.buckets[b], k);
      assert WfChain(hash, t0.buckets[b], t0.bits, b);
    }
  }

  lemma BucketMoved<K(!new), V>(hash: K -> Word, s: State<K, V>, m: map<K, V>, t: Table<K, V>)
    requires Correct(hash, s, m) && 0 <= s.rehashidx < |s.t0.buckets|
    requires var c := s.t0.buckets[s.rehashidx]; Moving(hash, s.t1, c, |c|, t)
    ensures s.t0.used >= |s.t0.buckets[s.rehashidx]|
    ensures var b := s.rehashidx;
            var t0 := s.t0.(buckets := s.t0.buckets[b := []], used := s.t0.used - |s.t0.buckets[b]|);
            Correct(hash, s.(t0 := t0, t1 := t, rehashidx := b + 1), m)
  {
    var c := s.t0.buckets[s.rehashidx];
    assert c[..|c|] == c;
    MovedBucket(hash, s.t0, s.t1, t, m, s.rehashidx);
  }

  /** With nothing left in the old table the new one holds the whole map. */
  lemma FinishedTable<K(!new), V>(hash: K -> Word, t0: Table<K, V>, t1: Table<K, V>, m: map<K, V>)
    requires WfTable(hash, t0) && t0.used == 0 && Represents(hash, t0, t1, m)
    ensures Represents(hash, t1, NoTable(), m)
  {
    forall k ensures Holds(hash, t1, NoTable(), m, k) {
      TotalPositive(t0.buckets);
      assert Holds(hash, t0, t1, m, k);
    }
  }
}
