/** The keyspace of a cluster node: the dictionary, the expiry times and the index by slot, kept in
    agreement by every operation. */
module Keyspaces {
  import opened SlotIndex

  lemma MinusKeys<V>(m: map<Key, V>, k: Key)
    ensures (m - {k}).Keys == m.Keys - {k}
    ensures k !in m ==> m - {k} == m
  {
  }

  lemma MinusTwice<V>(m: map<Key, V>, k: Key)
    ensures m - {k} - {k} == m - {k}
  {
  }

  lemma MinusMore<V>(m: map<Key, V>, ks: set<Key>, k: Key)
    ensures m - ks - {k} == m - (ks + {k})
  {
  }

  datatype Renamed = NoKey | Exists | SameKey | Done

  class Keyspace<V> {
    const slotOf: Key -> nat
    var dict: map<Key, V>
    var expires: map<Key, int>
    var index: seq<Entry>

    /** Only keys in the dictionary have an expiry time, and the index is the dictionary by slot. */
    ghost predicate Valid()
      reads this
    {
      expires.Keys <= dict.Keys && Indexes(index, dict.Keys, slotOf)
    }

    constructor (slotOf: Key -> nat)
      ensures Valid() && dict == map[] && expires == map[] && this.slotOf == slotOf
    {
      this.slotOf := slotOf;
      dict, expires, index := map[], map[], [];
    }

    /** dbAdd. */
    method Add(k: Key, v: V)
      requires Valid() && k !in dict
      modifies this
      ensures Valid() && dict == old(dict)[k := v] && expires == old(expires)
    {
      InsertIndexes(index, dict.Keys, slotOf, k);
      dict := dict[k := v];
      assert dict.Keys == old(dict.Keys) + {k};
      index := Inserted(index, Entry(slotOf(k), k));
    }

    /** dbOverwrite. */
    method Overwrite(k: Key, v: V)
      requires Valid() && k in dict
      modifies this
      ensures Valid() && dict == old(dict)[k := v] && expires == old(expires) && index == old(index)
    {
      dict := dict[k := v];
      assert dict.Keys == old(dict.Keys);
    }

    /** dbDelete. */
    method Delete(k: Key) returns (deleted: bool)
      requires Valid()
      modifies this
      ensures Valid() && dict == old(dict) - {k} && expires == old(expires) - {k}
      ensures deleted <==> k in old(dict)
      ensures index == if deleted then Deleted(old(index), Entry(slotOf(k), k)) else old(index)
    {
      MinusKeys(expires, k);
      MinusKeys(dict, k);
      if |expires| > 0 {
        expires := expires - {k};
      }
      if k in dict {
        DeleteIndexes(index, dict.Keys, slotOf, k);
        dict := dict - {k};
        index := Deleted(index, Entry(slotOf(k), k));
        return true;
      } else {
        return false;
      }
    }

    /** removeExpire. */
    method RemoveExpire(k: Key) returns (removed: bool)
      requires Valid() && k in dict
      modifies this
      ensures Valid() && dict == old(dict) && index == old(index) && expires == old(expires) - {k}
      ensures removed <==> k in old(expires)
    {
      removed := k in expires;
      expires := expires - {k};
    }

    /** setExpire. */
    method SetExpire(k: Key, when: int)
      requires Valid() && k in dict
      modifies this
      ensures Valid() && dict == old(dict) && index == old(index) && expires == old(expires)[k := when]
    {
      expires := expires[k := when];
    }

    /** getExpire. */
    function GetExpire(k: Key): int
      reads this
    {
      if k in expires then expires[k] else -1
    }

    /** Whether expireIfNeeded deletes the key: a master does, once the time has passed. */
    predicate Due(k: Key, now: int, passive: bool)
      reads this
    {
      GetExpire(k) >= 0 && !passive && now > GetExpire(k)
    }

    /** expireIfNeeded on a server that is passive if it is loading or a replica. */
    method ExpireIfNeeded(k: Key, now: int, passive: bool)
      requires Valid()
      modifies this
      ensures Valid() && dict == (if old(Due(k, now, passive)) then old(dict) - {k} else old(dict))
      ensures expires == if old(Due(k, now, passive)) then old(expires) - {k} else old(expires)
    {
      if GetExpire(k) < 0 || passive || now <= GetExpire(k) {
        return;
      }
      var _ := Delete(k);
    }

    /** setKey: the value is set, whatever was there before, and the key does not expire. */
    method SetKey(k: Key, v: V, now: int, passive: bool)
      requires Valid()
      modifies this
      ensures Valid() && dict == old(dict)[k := v] && expires == old(expires) - {k}
    {
      ExpireIfNeeded(k, now, passive);
      if k !in dict {
        Add(k, v);
      } else {
        Overwrite(k, v);
      }
      var _ := RemoveExpire(k);
    }

    /** emptyDb. */
    method Empty()
      modifies this
      ensures Valid() && dict == map[] && expires == map[] && index == []
    {
      dict, expires, index := map[], map[], [];
    }

    /** renameGenericCommand: a key that is there, under another name, with its value and expiry time;
        nothing is left of what had that name. */
    method Rename(src: Key, dst: Key, nx: bool, now: int, passive: bool) returns (r: Renamed)
      requires Valid()
      modifies this
      ensures Valid()
      ensures r == (if src !in old(dict) || old(Due(src, now, passive)) then NoKey
                    else if src == dst then SameKey
                    else if nx && dst in old(dict) && !old(Due(dst, now, passive)) then Exists
                    else Done)
      ensures r != Done ==> dict == (if old(Due(src, now, passive)) then old(dict) - {src} else old(dict))
      ensures r != Done ==> expires == if old(Due(src, now, passive)) then old(expires) - {src} else old(expires)
      ensures r == Done ==> src in old(dict) && dict == (old(dict) - {dst})[dst := old(dict)[src]] - {src}
      ensures r == Done ==> expires == (if old(GetExpire(src)) != -1 then (old(expires) - {dst})[dst := old(GetExpire(src))]
                                        else old(expires) - {dst}) - {src}
    {
      ExpireIfNeeded(src, now, passive);
      if src !in dict {
        return NoKey;
      }
      var v := dict[src];
      if src == dst {
        return SameKey;
      }
      var expire := GetExpire(src);
      ExpireIfNeeded(dst, now, passive);
      if dst in dict {
        if nx {
          return Exists;
        }
      }
      MinusTwice(old(dict), dst);
      MinusTwice(old(expires), dst);
      Move(src, dst, v, expire);
      return Done;
    }

    /** The part of renameGenericCommand that changes the keyspace. */
    method Move(src: Key, dst: Key, v: V, expire: int)
      requires Valid() && src in dict && src != dst
      modifies this
      ensures Valid() && dict == (old(dict) - {dst})[dst := v] - {src}
      ensures expires == (if expire != -1 then (old(expires) - {dst})[dst := expire] else old(expires) - {dst}) - {src}
    {
      MinusKeys(dict, dst);
      MinusKeys(expires, dst);
      if dst in dict {
        var _ := Delete(dst);
      }
      Add(dst, v);
      if expire != -1 {
        SetExpire(dst, expire);
      }
      var _ := Delete(src);
    }

    /** countKeysInSlot: the arithmetic on ranks gives the number of keys. */
    method CountKeysInSlot(slot: nat) returns (count: int)
      requires Valid()
      ensures count == |KeysIn(dict.Keys, slotOf, slot)|
    {
      SlotRange(index, dict.Keys, slotOf, slot);
      count := 0;
      var zn := First(index, slot);
      if zn != -1 {
        PlaceOf(index, zn);
        var rank := Rank(index, index[zn]);
        count := |index| - (rank - 1);
        zn := Last(index, slot);
        if zn != -1 {
          PlaceOf(index, zn);
          rank := Rank(index, index[zn]);
          count := count - (|index| - rank);
        }
      }
    }

    /** getKeysInSlot: the first keys of the slot, up to count of them. */
    method GetKeysInSlot(slot: nat, count: nat) returns (keys: seq<Key>)
      requires Valid()
      ensures forall i :: 0 <= i < |keys| ==> keys[i] in KeysIn(dict.Keys, slotOf, slot)
      ensures forall i, j :: 0 <= i < j < |keys| ==> Less(keys[i], keys[j])
      ensures |keys| == if count < |KeysIn(dict.Keys, slotOf, slot)| then count else |KeysIn(dict.Keys, slotOf, slot)|
    {
      SlotRange(index, dict.Keys, slotOf, slot);
      var n := First(index, slot);
      if n == -1 {
        return [];
      }
      ghost var hi := Below(index, slot + 1);
      keys := Walk(index, n, slot, count, hi);
      SliceInSlot(index, dict.Keys, slotOf, slot, n, n + |keys|);
    }

    /** Where the walk over a slot stands: at its first entry that is left, or behind it. */
    ghost predicate AtSlot(n: Node, slot: nat)
      reads this
    {
      n == NodeAt(index, slot)
    }

    /** delKeysInSlot: the walk remembers the next entry before it deletes one. */
    method DelKeysInSlot(slot: nat) returns (j: nat)
      requires Valid()
      modifies this
      ensures Valid()
      ensures dict == old(dict) - KeysIn(old(dict.Keys), slotOf, slot)
      ensures expires == old(expires) - KeysIn(old(dict.Keys), slotOf, slot)
      ensures j == |KeysIn(old(dict.Keys), slotOf, slot)|
      ensures KeysIn(dict.Keys, slotOf, slot) == {}
    {
      j := 0;
      ghost var all := KeysIn(dict.Keys, slotOf, slot);
      ghost var gone: set<Key> := {};
      SlotRange(index, dict.Keys, slotOf, slot);
      var p := First(index, slot);
      var n := if p == -1 then Null else Node(index[p]);
      while n.Node? && n.entry.slot == slot
        invariant Valid() && (AtSlot(n, slot) || (n == Null && First(index, slot) == -1))
        invariant gone <= all && |gone| == j && dict == old(dict) - gone && expires == old(expires) - gone
        decreases |index|
      {
        ghost var key := n.entry.key;
        MinusMore(old(dict), gone, key);
        MinusMore(old(expires), gone, key);
        n := DelNode(n.entry, slot);
        gone := gone + {key};
        j := j + 1;
      }
      SlotRange(index, dict.Keys, slotOf, slot);
      assert KeysIn(dict.Keys, slotOf, slot) == {};
      assert gone == all;
    }

    /** One step of the walk. */
    method DelNode(e: Entry, slot: nat) returns (next: Node)
      requires Valid() && AtSlot(Node(e), slot) && e.slot == slot
      modifies this
      ensures Valid() && AtSlot(next, slot) && |index| < old(|index|)
      ensures e.key in old(dict) && slotOf(e.key) == slot && dict == old(dict) - {e.key} && expires == old(expires) - {e.key}
    {
      EntryOf(index, dict.Keys, slotOf, e);
      next := NextAfter(index, e, slot);
      var _ := Delete(e.key);
    }
  }

  /** The keys of the entries from n on that have the slot, up to count of them. */
  method Walk(index: seq<Entry>, n0: nat, slot: nat, count: nat, ghost hi: nat) returns (keys: seq<Key>)
    requires n0 <= hi <= |index| && forall i :: n0 <= i < |index| ==> (index[i].slot == slot <==> i < hi)
    ensures |keys| == if count < hi - n0 then count else hi - n0
    ensures forall i :: 0 <= i < |keys| ==> keys[i] == index[n0 + i].key
  {
    keys := [];
    var n, left := n0, count;
    while n < |index| && index[n].slot == slot && left > 0
      invariant n0 <= n <= hi && |keys| == n - n0 && 0 <= left == count - |keys|
      invariant forall i :: 0 <= i < |keys| ==> keys[i] == index[n0 + i].key
      decreases left
    {
      keys := keys + [index[n].key];
      n := n + 1;
      left := left - 1;
    }
  }

  lemma SliceInSlot(index: seq<Entry>, keys: set<Key>, slotOf: Key -> nat, slot: nat, lo: nat, hi: nat)
    requires Indexes(index, keys, slotOf) && lo <= hi <= |index| && forall i :: lo <= i < hi ==> index[i].slot == slot
    ensures forall i :: lo <= i < hi ==> index[i].key in KeysIn(keys, slotOf, slot)
    ensures forall i, j :: lo <= i < j < hi ==> Less(index[i].key, index[j].key)
  {
    forall i | lo <= i < hi
      ensures index[i].key in KeysIn(keys, slotOf, slot)
    {
      assert index[i] in index && index[i] == Entry(slotOf(index[i].key), index[i].key);
    }
  }

  /** A node of the index's list. */
  datatype Node = Null | Node(entry: Entry)

  /** The first node from the slot on. */
  ghost function NodeAt(s: seq<Entry>, slot: nat): Node {
    var lo := Below(s, slot);
    if lo < |s| then Node(s[lo]) else Null
  }

  lemma EntryOf(s: seq<Entry>, keys: set<Key>, slotOf: Key -> nat, e: Entry)
    requires Indexes(s, keys, slotOf) && e in s
    ensures e.key in keys && e == Entry(slotOf(e.key), e.key)
  {
  }

  /** The node that follows the first one of the slot is the first one when that is deleted. */
  method NextAfter(s: seq<Entry>, e: Entry, slot: nat) returns (next: Node)
    requires Sorted(s) && NodeAt(s, slot) == Node(e)
    ensures next == NodeAt(Deleted(s, e), slot) && |Deleted(s, e)| < |s|
  {
    var at := Place(s, e);
    ghost var lo := Below(s, slot);
    PlaceOf(s, lo);
    next := if at + 1 < |s| then Node(s[at + 1]) else Null;
    DeleteAt(s, lo);
    BelowAfterDelete(s, slot);
  }

  lemma BelowAfterDelete(s: seq<Entry>, slot: nat)
    requires Sorted(s) && Below(s, slot) < |s|
    ensures var lo := Below(s, slot);
            Below(s[..lo] + s[lo + 1..], slot) == lo
  {
    var lo := Below(s, slot);
    var r := s[..lo] + s[lo + 1..];
    BelowSplits(s, slot);
    BelowSplits(r, slot);
    assert lo < |r| ==> r[lo] == s[lo + 1];
    assert lo > 0 ==> r[lo - 1] == s[lo - 1];
  }
}
