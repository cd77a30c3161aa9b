/** The index from hash slots to keys: a sequence of entries sorted by slot and then by key. */
module SlotIndex {
  import opened Octets

  type Key = seq<Byte>

  datatype Entry = Entry(slot: nat, key: Key)

  /** The order of two strings, byte by byte. */
  predicate Less(a: Key, b: Key) {
    if b == [] then false
    else if a == [] then true
    else a[0] < b[0] || (a[0] == b[0] && Less(a[1..], b[1..]))
  }

  lemma {:induction false} LessIsTotal(a: Key, b: Key)
    ensures a == b || Less(a, b) || Less(b, a)
  {
    if a != [] && b != [] && a[0] == b[0] {
      LessIsTotal(a[1..], b[1..]);
      assert a[1..] == b[1..] ==> [a[0]] + a[1..] == [b[0]] + b[1..];
      assert a == [a[0]] + a[1..] && b == [b[0]] + b[1..];
    }
  }

  lemma {:induction false} LessIsTransitive(a: Key, b: Key, c: Key)
    requires Less(a, b) && Less(b, c)
    ensures Less(a, c)
  {
    if a != [] && a[0] == b[0] && b[0] == c[0] {
      LessIsTransitive(a[1..], b[1..], c[1..]);
    }
  }

  lemma {:induction false} LessIsStrict(a: Key)
    ensures !Less(a, a)
  {
    if a != [] {
      LessIsStrict(a[1..]);
    }
  }

  predicate Before(e: Entry, f: Entry) {
    e.slot < f.slot || (e.slot == f.slot && Less(e.key, f.key))
  }

  lemma BeforeIsOrder(e: Entry, f: Entry, g: Entry)
    ensures !Before(e, e) && (e == f || Before(e, f) || Before(f, e))
    ensures Before(e, f) && Before(f, g) ==> Before(e, g)
  {
    LessIsStrict(e.key);
    LessIsTotal(e.key, f.key);
    if Less(e.key, f.key) && Less(f.key, g.key) {
      LessIsTransitive(e.key, f.key, g.key);
    }
  }

  ghost predicate Sorted(s: seq<Entry>) {
    forall i, j :: 0 <= i < j < |s| ==> Before(s[i], s[j])
  }

  /** The index holds exactly the keys, each under its slot. */
  ghost predicate Indexes(s: seq<Entry>, keys: set<Key>, slotOf: Key -> nat) {
    && Sorted(s)
    && (forall k {:trigger Entry(slotOf(k), k)} :: k in keys <==> Entry(slotOf(k), k) in s)
    && (forall e :: e in s ==> e.slot == slotOf(e.key))
  }

  // ---------------------------------------------------------------- inserting and deleting

  /** How many entries come before e. */
  function Place(s: seq<Entry>, e: Entry): (p: nat)
    ensures p <= |s|
  {
    if s == [] || !Before(s[0], e) then 0 else 1 + Place(s[1..], e)
  }

  lemma {:induction false} PlaceSplits(s: seq<Entry>, e: Entry)
    requires Sorted(s)
    ensures var p := Place(s, e);
            (forall i :: 0 <= i < p ==> Before(s[i], e)) && (forall i :: p <= i < |s| ==> s[i] == e || Before(e, s[i]))
  {
    if s != [] {
      if Before(s[0], e) {
        PlaceSplits(s[1..], e);
        var p := Place(s, e);
        forall i | 0 <= i < p ensures Before(s[i], e) {
          assert i > 0 ==> s[i] == s[1..][i - 1];
        }
        forall i | p <= i < |s| ensures s[i] == e || Before(e, s[i]) {
          assert s[i] == s[1..][i - 1];
        }
      } else {
        forall i | 0 <= i < |s| ensures s[i] == e || Before(e, s[i]) {
          BeforeIsOrder(e, s[0], s[i]);
        }
      }
    }
  }

  /** zslInsert. */
  function Inserted(s: seq<Entry>, e: Entry): seq<Entry> {
    s[..Place(s, e)] + [e] + s[Place(s, e)..]
  }

  /** zslDelete: an entry that is not there is not deleted. */
  function Deleted(s: seq<Entry>, e: Entry): seq<Entry> {
    var p := Place(s, e);
    if p < |s| && s[p] == e then s[..p] + s[p + 1..] else s
  }

  lemma SplicedAt(s: seq<Entry>, p: nat, e: Entry, i: nat)
    requires p <= |s| && i <= |s|
    ensures (s[..p] + [e] + s[p..])[i] == if i < p then s[i] else if i == p then e else s[i - 1]
  {
  }

  lemma SplicedSorted(s: seq<Entry>, p: nat, e: Entry)
    requires Sorted(s) && p <= |s|
    requires (forall i :: 0 <= i < p ==> Before(s[i], e)) && (forall i :: p <= i < |s| ==> Before(e, s[i]))
    ensures Sorted(s[..p] + [e] + s[p..])
  {
    var r := s[..p] + [e] + s[p..];
    forall i: nat, j: nat | i < j < |r|
      ensures Before(r[i], r[j])
    {
      SplicedAt(s, p, e, i);
      SplicedAt(s, p, e, j);
    }
  }

  lemma InsertedSorted(s: seq<Entry>, e: Entry)
    requires Sorted(s) && e !in s
    ensures Sorted(Inserted(s, e)) && forall f :: f in Inserted(s, e) <==> f == e || f in s
  {
    var p := Place(s, e);
    PlaceSplits(s, e);
    assert forall i :: p <= i < |s| ==> s[i] in s;
    SplicedSorted(s, p, e);
    assert s == s[..p] + s[p..];
  }

  lemma InsertIndexes(s: seq<Entry>, keys: set<Key>, slotOf: Key -> nat, k: Key)
    requires Indexes(s, keys, slotOf) && k !in keys
    ensures Indexes(Inserted(s, Entry(slotOf(k), k)), keys + {k}, slotOf)
  {
    InsertedSorted(s, Entry(slotOf(k), k));
  }

  lemma {:induction false} PlaceOf(s: seq<Entry>, i: nat)
    requires Sorted(s) && i < |s|
    ensures Place(s, s[i]) == i
  {
    BeforeIsOrder(s[0], s[0], s[i]);
    if i > 0 {
      assert Before(s[0], s[i]);
      PlaceOf(s[1..], i - 1);
    }
  }

  lemma CutMembers(s: seq<Entry>, i: nat)
    requires Sorted(s) && i < |s|
    ensures forall f :: f in s[..i] + s[i + 1..] <==> f in s && f != s[i]
  {
    assert s == s[..i] + [s[i]] + s[i + 1..];
    BeforeIsOrder(s[i], s[i], s[i]);
    assert s[i] !in s[..i] && s[i] !in s[i + 1..];
  }

  lemma CutSorted(s: seq<Entry>, i: nat)
    requires Sorted(s) && i < |s|
    ensures Sorted(s[..i] + s[i + 1..])
  {
    var r := s[..i] + s[i + 1..];
    assert forall j :: 0 <= j < |r| ==> r[j] == s[if j < i then j else j + 1];
  }

  lemma DeleteAt(s: seq<Entry>, i: nat)
    requires Sorted(s) && i < |s|
    ensures Deleted(s, s[i]) == s[..i] + s[i + 1..] && Sorted(Deleted(s, s[i]))
    ensures forall f :: f in Deleted(s, s[i]) <==> f in s && f != s[i]
  {
    PlaceOf(s, i);
    CutMembers(s, i);
    CutSorted(s, i);
  }

  lemma DeleteIndexes(s: seq<Entry>, keys: set<Key>, slotOf: Key -> nat, k: Key)
    requires Indexes(s, keys, slotOf) && k in keys
    ensures Indexes(Deleted(s, Entry(slotOf(k), k)), keys - {k}, slotOf)
  {
    var e := Entry(slotOf(k), k);
    var i :| 0 <= i < |s| && s[i] == e;
    DeleteAt(s, i);
  }

  // ---------------------------------------------------------------- ranges

  /** How many entries have a slot less than the given one. */
  function Below(s: seq<Entry>, slot: nat): (p: nat)
    ensures p <= |s|
  {
    if s == [] || s[0].slot >= slot then 0 else 1 + Below(s[1..], slot)
  }

  lemma {:induction false} BelowSplits(s: seq<Entry>, slot: nat)
    requires Sorted(s)
    ensures forall i :: 0 <= i < |s| ==> (i < Below(s, slot) <==> s[i].slot < slot)
  {
    if s != [] {
      if s[0].slot < slot {
        BelowSplits(s[1..], slot);
        forall i | 0 <= i < |s| ensures i < Below(s, slot) <==> s[i].slot < slot {
          assert i > 0 ==> s[i] == s[1..][i - 1];
        }
      } else {
        forall i | 0 <= i < |s| ensures s[i].slot >= slot {
          assert i > 0 ==> Before(s[0], s[i]);
        }
      }
    }
  }

  lemma {:induction false} BelowGrows(s: seq<Entry>, slot: nat)
    ensures Below(s, slot) <= Below(s, slot + 1)
  {
    if s != [] && s[0].slot < slot {
      BelowGrows(s[1..], slot);
    }
  }

  /** zslFirstInRange for one slot: where its entries begin, if it has any. */
  function First(s: seq<Entry>, slot: nat): int {
    var p := Below(s, slot);
    if p < |s| && s[p].slot == slot then p else -1
  }

  /** zslLastInRange for one slot. */
  function Last(s: seq<Entry>, slot: nat): int {
    var p := Below(s, slot + 1) - 1;
    if p >= 0 && s[p].slot == slot then p else -1
  }

  /** zslGetRank: one more than the entry's position, 0 if it is not there. */
  function Rank(s: seq<Entry>, e: Entry): nat {
    var p := Place(s, e);
    if p < |s| && s[p] == e then p + 1 else 0
  }

  ghost function KeysIn(keys: set<Key>, slotOf: Key -> nat, slot: nat): set<Key> {
    set k | k in keys && slotOf(k) == slot
  }

  ghost function Image(f: nat -> Key, lo: nat, hi: nat): set<Key> {
    set i: nat | lo <= i < hi :: f(i)
  }

  lemma {:induction false} ImageSize(f: nat -> Key, lo: nat, hi: nat)
    requires lo <= hi && forall i: nat, j: nat :: lo <= i < j < hi ==> f(i) != f(j)
    ensures |Image(f, lo, hi)| == hi - lo
  {
    if lo == hi {
      assert Image(f, lo, hi) == {};
    } else {
      ImageSize(f, lo, hi - 1);
      assert Image(f, lo, hi) == Image(f, lo, hi - 1) + {f(hi - 1)};
    }
  }

  function KeyAt(s: seq<Entry>): nat -> Key {
    (i: nat) => if i < |s| then s[i].key else []
  }

  lemma KeysOfSlice(s: seq<Entry>, lo: nat, hi: nat)
    requires Sorted(s) && lo <= hi <= |s| && forall i :: lo <= i < hi ==> s[i].slot == s[lo].slot
    ensures |set i | lo <= i < hi :: s[i].key| == hi - lo
  {
    forall i: nat, j: nat | lo <= i < j < hi
      ensures KeyAt(s)(i) != KeyAt(s)(j)
    {
      assert Before(s[i], s[j]);
      LessIsStrict(s[i].key);
    }
    ImageSize(KeyAt(s), lo, hi);
    var keys := set i | lo <= i < hi :: s[i].key;
    forall k
      ensures k in keys <==> k in Image(KeyAt(s), lo, hi)
    {
      if k in keys {
        var i: nat :| lo <= i < hi && s[i].key == k;
        assert KeyAt(s)(i) == k;
      }
    }
    assert keys == Image(KeyAt(s), lo, hi);
  }

  /** The entries of a slot are those from its first to its last position. */
  lemma SlotRange(s: seq<Entry>, keys: set<Key>, slotOf: Key -> nat, slot: nat)
    requires Indexes(s, keys, slotOf)
    ensures var lo, hi := Below(s, slot), Below(s, slot + 1);
            && lo <= hi <= |s|
            && (forall i :: 0 <= i < |s| ==> (s[i].slot == slot <==> lo <= i < hi))
            && |KeysIn(keys, slotOf, slot)| == hi - lo
  {
    BelowSplits(s, slot);
    BelowSplits(s, slot + 1);
    var lo, hi := Below(s, slot), Below(s, slot + 1);
    BelowGrows(s, slot);
    KeysOfSlice(s, lo, hi);
    SliceIsSlot(s, keys, slotOf, slot, lo, hi);
  }

  lemma SliceIsSlot(s: seq<Entry>, keys: set<Key>, slotOf: Key -> nat, slot: nat, lo: nat, hi: nat)
    requires Indexes(s, keys, slotOf) && lo <= hi <= |s|
    requires forall i :: 0 <= i < |s| ==> (s[i].slot == slot <==> lo <= i < hi)
    ensures (set i | lo <= i < hi :: s[i].key) == KeysIn(keys, slotOf, slot)
  {
    var slice := set i | lo <= i < hi :: s[i].key;
    forall k
      ensures k in slice <==> k in KeysIn(keys, slotOf, slot)
    {
      if k in slice {
        var i :| lo <= i < hi && s[i].key == k;
        assert s[i] in s && s[i] == Entry(slotOf(k), k);
      }
      if k in KeysIn(keys, slotOf, slot) {
        var i :| 0 <= i < |s| && s[i] == Entry(slotOf(k), k);
        assert lo <= i < hi;
      }
    }
  }
}
