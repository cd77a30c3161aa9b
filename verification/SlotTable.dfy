/** The slots table of a cluster node together with the slot bitmap and slot counter of every node.
    The three agree after every operation: slots[j] is n exactly when bit j of n's bitmap is set, and
    n's counter is the number of its bits. */
module SlotTable {
  import opened Options
  import opened SlotClaims

  /** A byte as its eight bits, the bit of 1 << k at index k. */
  type Byte = b: seq<bool> | |b| == 8 witness seq(8, _ => false)

  /** unsigned char slots[CLUSTER_SLOTS/8]. */
  type Bitmap = b: seq<Byte> | |b| == CLUSTER_SLOTS / 8 witness seq(CLUSTER_SLOTS / 8, _ => seq(8, _ => false))

  /** bitmapTestBit, bitmapSetBit and bitmapClearBit. */
  predicate TestBit(b: Bitmap, pos: nat)
    requires pos < CLUSTER_SLOTS
  {
    b[pos / 8][pos % 8]
  }

  function SetBit(b: Bitmap, pos: nat): Bitmap
    requires pos < CLUSTER_SLOTS
  {
    b[pos / 8 := b[pos / 8][pos % 8 := true]]
  }

  function ClearBit(b: Bitmap, pos: nat): Bitmap
    requires pos < CLUSTER_SLOTS
  {
    b[pos / 8 := b[pos / 8][pos % 8 := false]]
  }

  function Bits(b: Bitmap): set<nat> {
    set j: nat | j < CLUSTER_SLOTS && TestBit(b, j)
  }

  lemma BitmapSpec(b: Bitmap, pos: nat)
    requires pos < CLUSTER_SLOTS
    ensures Bits(SetBit(b, pos)) == Bits(b) + {pos}
    ensures Bits(ClearBit(b, pos)) == Bits(b) - {pos}
    ensures TestBit(b, pos) <==> pos in Bits(b)
  {
    var s, c := SetBit(b, pos), ClearBit(b, pos);
    forall j: nat | j < CLUSTER_SLOTS
      ensures TestBit(s, j) <==> TestBit(b, j) || j == pos
      ensures TestBit(c, j) <==> TestBit(b, j) && j != pos
    {
      assert pos / 8 == j / 8 && pos % 8 == j % 8 <==> pos == j;
    }
  }

  class ClusterNode {
    var slots: Bitmap
    var numslots: int
    var configEpoch: nat

    ghost predicate CountOk()
      reads this
    {
      numslots == |Bits(slots)|
    }

    constructor ()
      ensures CountOk() && Bits(slots) == {} && configEpoch == 0
    {
      var none: Bitmap := seq(CLUSTER_SLOTS / 8, _ => seq(8, _ => false));
      slots, numslots, configEpoch := none, 0, 0;
      assert Bits(none) == {};
    }
  }

  /** What clusterUpdateSlotsConfigWith does besides rebinding: nothing, turn this node into a replica
      of the sender, delete the keys of lost slots, or read through a NULL pointer. */
  datatype Outcome = Discarded | Reconfigure | DeleteKeys(dirty: seq<nat>) | NullDereference

  /** What the loop over the slots has done up to j, given who had which slot before it and which of them
      the claim wins: slots rebound, slots with keys that this node lost, and whether the master lost any. */
  ghost predicate Rebound<T>(was: seq<T>, won: set<nat>, j: nat, sender: T, slots: seq<T>) {
    |slots| == |was| && forall k: nat :: k < |was| ==> slots[k] == if k < j && k in won then sender else was[k]
  }

  ghost predicate Lost<T>(was: seq<T>, won: set<nat>, j: nat, myself: T, keys: set<nat>, dirty: seq<nat>) {
    forall k: nat :: k in dirty <==> k < j && k in won && k < |was| && was[k] == myself && k in keys
  }

  ghost predicate Hit<T>(was: seq<T>, won: set<nat>, j: nat, master: T) {
    exists k :: k in won && k < j && k < |was| && was[k] == master
  }

  lemma ReboundNext<T>(was: seq<T>, won: set<nat>, j: nat, sender: T, slots: seq<T>)
    requires j < |was| && Rebound(was, won, j, sender, slots)
    ensures Rebound(was, won, j + 1, sender, if j in won then slots[j := sender] else slots)
  {
  }

  lemma LostNext<T>(was: seq<T>, won: set<nat>, j: nat, myself: T, keys: set<nat>, dirty: seq<nat>)
    requires j < |was| && Lost(was, won, j, myself, keys, dirty)
    ensures Lost(was, won, j + 1, myself, keys, if j in won && was[j] == myself && j in keys then dirty + [j] else dirty)
  {
  }

  lemma HitNext<T>(was: seq<T>, won: set<nat>, j: nat, master: T)
    requires j < |was|
    ensures Hit(was, won, j + 1, master) <==> Hit(was, won, j, master) || (j in won && was[j] == master)
  {
  }

  class Table {
    const slots: array<ClusterNode?>
    const importing: array<ClusterNode?>
    ghost const nodes: set<ClusterNode>

    ghost predicate Valid()
      reads this, slots, nodes
    {
      && slots.Length == CLUSTER_SLOTS && importing.Length == CLUSTER_SLOTS && slots != importing
      && (forall j :: 0 <= j < CLUSTER_SLOTS && slots[j] != null ==> slots[j] in nodes)
      && (forall n :: n in nodes ==> n.CountOk())
      && (forall n, j: nat :: n in nodes && j < CLUSTER_SLOTS ==> (slots[j] == n <==> j in Bits(n.slots)))
    }

    /** clusterAddSlot. */
    method AddSlot(n: ClusterNode, slot: nat) returns (ok: bool)
      requires Valid() && n in nodes && slot < CLUSTER_SLOTS
      modifies slots, n`slots, n`numslots
      ensures Valid()
      ensures ok == (old(slots[slot]) == null)
      ensures slots[..] == if ok then old(slots[..])[slot := n] else old(slots[..])
    {
      if slots[slot] != null {
        return false;
      }
      BitmapSpec(n.slots, slot);
      var was := TestBit(n.slots, slot);
      n.slots := SetBit(n.slots, slot);
      if !was {
        n.numslots := n.numslots + 1;
      }
      slots[slot] := n;
      return true;
    }

    /** clusterDelSlot; `was` is the value that its assertion demands to be true. */
    method DelSlot(slot: nat) returns (ok: bool, was: bool)
      requires Valid() && slot < CLUSTER_SLOTS
      modifies slots, nodes`slots, nodes`numslots
      ensures Valid()
      ensures ok == (old(slots[slot]) != null) && (ok ==> was)
      ensures slots[..] == old(slots[..])[slot := null]
    {
      var n := slots[slot];
      if n == null {
        return false, false;
      }
      BitmapSpec(n.slots, slot);
      was := TestBit(n.slots, slot);
      n.slots := ClearBit(n.slots, slot);
      if was {
        n.numslots := n.numslots - 1;
      }
      slots[slot] := null;
      return true, was;
    }

    /** clusterDelNodeSlots: the node loses all its slots and nobody else any. The value returned is
        not the number of slots deleted, as its comment says, but always CLUSTER_SLOTS. */
    method DelNodeSlots(node: ClusterNode) returns (deleted: nat)
      requires Valid() && node in nodes
      modifies slots, nodes`slots, nodes`numslots
      ensures Valid() && deleted == CLUSTER_SLOTS
      ensures forall j :: 0 <= j < CLUSTER_SLOTS ==> slots[j] == (if old(slots[j]) == node then null else old(slots[j]))
      ensures node.numslots == 0
    {
      deleted := 0;
      for j := 0 to CLUSTER_SLOTS
        invariant Valid() && deleted == j
        invariant forall k :: 0 <= k < CLUSTER_SLOTS ==>
          slots[k] == (if k < j && old(slots[k]) == node then null else old(slots[k]))
      {
        BitmapSpec(node.slots, j);
        if TestBit(node.slots, j) {
          var _, _ := DelSlot(j);
        }
        deleted := deleted + 1;
      }
      assert forall j :: j in Bits(node.slots) ==> slots[j] == node;
      assert Bits(node.slots) == {};
    }

    /** The loop of clusterFailoverReplaceYourMaster: exactly the old master's slots become mine. */
    method TakeOver(me: ClusterNode, oldmaster: ClusterNode)
      requires Valid() && me in nodes && oldmaster in nodes && me != oldmaster
      modifies slots, nodes`slots, nodes`numslots
      ensures Valid()
      ensures forall j :: 0 <= j < CLUSTER_SLOTS ==> slots[j] == (if old(slots[j]) == oldmaster then me else old(slots[j]))
    {
      for j := 0 to CLUSTER_SLOTS
        invariant Valid()
        invariant forall k :: 0 <= k < CLUSTER_SLOTS ==>
          slots[k] == (if k < j && old(slots[k]) == oldmaster then me else old(slots[k]))
      {
        BitmapSpec(oldmaster.slots, j);
        if TestBit(oldmaster.slots, j) {
          Reassign(me, j);
        }
      }
    }

    /** The checking loop of CLUSTER ADDSLOTS / DELSLOTS. An argument that is not a slot number is
        out of range here. */
    method CheckSlots(args: seq<int>, del: bool) returns (ok: bool)
      requires Valid()
      ensures ok <==> && (forall i :: 0 <= i < |args| ==> 0 <= args[i] < CLUSTER_SLOTS && (del <==> slots[args[i]] != null))
                      && (forall i, k :: 0 <= i < k < |args| ==> args[i] != args[k])
    {
      var seen := new nat[CLUSTER_SLOTS](_ => 0);
      for i := 0 to |args|
        invariant forall k :: 0 <= k < i ==> 0 <= args[k] < CLUSTER_SLOTS && (del <==> slots[args[k]] != null)
        invariant forall k, m :: 0 <= k < m < i ==> args[k] != args[m]
        invariant forall s :: 0 <= s < CLUSTER_SLOTS ==> seen[s] == if s in args[..i] then 1 else 0
      {
        var slot := args[i];
        if slot < 0 || slot >= CLUSTER_SLOTS {
          return false;
        }
        if del && slots[slot] == null {
          return false;
        } else if !del && slots[slot] != null {
          return false;
        }
        var count := seen[slot];
        seen[slot] := count + 1;
        if count == 1 {
          return false;
        }
        assert args[..i + 1] == args[..i] + [slot];
      }
      ok := true;
    }

    /** One slot of CLUSTER ADDSLOTS / DELSLOTS. */
    method AddOrDelSlot(me: ClusterNode, slot: nat, del: bool)
      requires Valid() && me in nodes && slot < CLUSTER_SLOTS && (del <==> slots[slot] != null)
      modifies slots, importing, nodes`slots, nodes`numslots
      ensures Valid()
      ensures slots[..] == old(slots[..])[slot := if del then null else me]
      ensures importing[..] == old(importing[..])[slot := null]
    {
      if importing[slot] != null {
        importing[slot] := null;
      }
      if del {
        var done, was := DelSlot(slot);
        assert done;
      } else {
        var done := AddSlot(me, slot);
        assert done;
      }
    }

    /** CLUSTER ADDSLOTS / DELSLOTS: all of the slots or none of them. */
    method AddOrDelSlots(me: ClusterNode, args: seq<int>, del: bool) returns (ok: bool)
      requires Valid() && me in nodes
      modifies slots, importing, nodes`slots, nodes`numslots
      ensures Valid()
      ensures ok <==> && (forall i :: 0 <= i < |args| ==> 0 <= args[i] < CLUSTER_SLOTS && (del <==> old(slots[args[i]]) != null))
                      && (forall i, k :: 0 <= i < k < |args| ==> args[i] != args[k])
      ensures forall j :: 0 <= j < CLUSTER_SLOTS ==>
        && slots[j] == (if ok && j in args then if del then null else me else old(slots[j]))
        && importing[j] == (if ok && j in args then null else old(importing[j]))
    {
      ok := CheckSlots(args, del);
      if !ok {
        return;
      }
      for j := 0 to CLUSTER_SLOTS
        invariant Valid()
        invariant forall k :: 0 <= k < CLUSTER_SLOTS ==>
          && slots[k] == (if k < j && k in args then if del then null else me else old(slots[k]))
          && importing[k] == (if k < j && k in args then null else old(importing[k]))
      {
        if j in args {
          AddOrDelSlot(me, j, del);
        }
      }
    }

    ghost function Owners(): Owners<ClusterNode>
      requires slots.Length == CLUSTER_SLOTS
      reads slots
    {
      seq(CLUSTER_SLOTS, j requires 0 <= j < CLUSTER_SLOTS && slots.Length == CLUSTER_SLOTS reads slots =>
        if slots[j] == null then None else Some(slots[j]))
    }

    ghost function Epochs(): map<ClusterNode, nat>
      reads this, nodes
    {
      map n | n in nodes :: n.configEpoch
    }

    ghost function Importing(): set<nat>
      requires importing.Length == CLUSTER_SLOTS
      reads importing
    {
      set j: nat | j < CLUSTER_SLOTS && importing[j] != null
    }

    /** Whether the claim wins the slot. */
    ghost predicate Takes(sender: ClusterNode, epoch: nat, claim: Bitmap, j: nat)
      requires Valid() && j < CLUSTER_SLOTS
      reads this, slots, importing, nodes
    {
      && j in Bits(claim) && slots[j] != sender && importing[j] == null
      && (slots[j] == null || slots[j].configEpoch < epoch)
    }

    /** The slots that the claim wins. */
    ghost function Won(sender: ClusterNode, epoch: nat, claim: Bitmap): set<nat>
      requires Valid()
      reads this, slots, importing, nodes
    {
      set j: nat | j < CLUSTER_SLOTS && Takes(sender, epoch, claim, j)
    }

    /** clusterDelSlot and clusterAddSlot in a row. */
    method Reassign(n: ClusterNode, slot: nat)
      requires Valid() && n in nodes && slot < CLUSTER_SLOTS
      modifies slots, nodes`slots, nodes`numslots
      ensures Valid() && slots[..] == old(slots[..])[slot := n]
    {
      var _, _ := DelSlot(slot);
      var _ := AddSlot(n, slot);
    }

    /** One round of the loop of clusterUpdateSlotsConfigWith: `mine` if a slot of this node with keys in
        it is lost, `master` if the slot was the current master's. */
    method RebindSlot(myself: ClusterNode, curmaster: ClusterNode?, sender: ClusterNode, epoch: nat, claim: Bitmap,
                      keys: set<nat>, j: nat) returns (mine: bool, master: bool)
      requires Valid() && sender in nodes && j < CLUSTER_SLOTS
      modifies slots, nodes`slots, nodes`numslots
      ensures Valid()
      ensures var taken := old(Takes(sender, epoch, claim, j));
              && slots[..] == (if taken then old(slots[..])[j := sender] else old(slots[..]))
              && (mine <==> taken && old(slots[j]) == myself && j in keys)
              && (master <==> taken && old(slots[j]) == curmaster)
    {
      mine, master := false, false;
      BitmapSpec(claim, j);
      if TestBit(claim, j) {
        if slots[j] == sender {
          return;
        }
        if importing[j] != null {
          return;
        }
        if slots[j] == null || slots[j].configEpoch < epoch {
          mine := slots[j] == myself && j in keys;
          master := slots[j] == curmaster;
          Reassign(sender, j);
        }
      }
    }

    /** That round after the rounds before it. */
    method RebindNext(myself: ClusterNode, curmaster: ClusterNode?, sender: ClusterNode, epoch: nat, claim: Bitmap,
                      keys: set<nat>, j: nat, dirty: seq<nat>, newmaster: bool, ghost was: seq<ClusterNode?>,
                      ghost won: set<nat>) returns (dirty': seq<nat>, newmaster': bool)
      requires Valid() && sender in nodes && j < CLUSTER_SLOTS == |was| && (j in won <==> Takes(sender, epoch, claim, j))
      requires Rebound(was, won, j, sender, slots[..]) && Lost(was, won, j, myself, keys, dirty)
      requires newmaster <==> Hit(was, won, j, curmaster)
      modifies slots, nodes`slots, nodes`numslots
      ensures Valid()
      ensures Rebound(was, won, j + 1, sender, slots[..]) && Lost(was, won, j + 1, myself, keys, dirty')
      ensures newmaster' <==> Hit(was, won, j + 1, curmaster)
    {
      assert slots[j] == was[j];
      ReboundNext(was, won, j, sender, slots[..]);
      LostNext(was, won, j, myself, keys, dirty);
      HitNext(was, won, j, curmaster);
      var mine, master := RebindSlot(myself, curmaster, sender, epoch, claim, keys, j);
      dirty' := if mine then dirty + [j] else dirty;
      newmaster' := newmaster || master;
    }

    /** The loop of clusterUpdateSlotsConfigWith. */
    method RebindSlots(myself: ClusterNode, curmaster: ClusterNode?, sender: ClusterNode, epoch: nat,
                       claim: Bitmap, keys: set<nat>) returns (dirty: seq<nat>, newmaster: bool)
      requires Valid() && sender in nodes
      modifies slots, nodes`slots, nodes`numslots
      ensures Valid()
      ensures var was, won := old(slots[..]), old(Won(sender, epoch, claim));
              && Rebound(was, won, CLUSTER_SLOTS, sender, slots[..]) && Lost(was, won, CLUSTER_SLOTS, myself, keys, dirty)
              && (newmaster <==> Hit(was, won, CLUSTER_SLOTS, curmaster))
    {
      ghost var won, was := Won(sender, epoch, claim), slots[..];
      dirty, newmaster := [], false;
      for j := 0 to CLUSTER_SLOTS
        invariant Valid()
        invariant Rebound(was, won, j, sender, slots[..])
        invariant Lost(was, won, j, myself, keys, dirty)
        invariant newmaster <==> Hit(was, won, j, curmaster)
      {
        assert slots[..][j] == was[j];
        assert j in won <==> Takes(sender, epoch, claim, j);
        dirty, newmaster := RebindNext(myself, curmaster, sender, epoch, claim, keys, j, dirty, newmaster, was, won);
      }
    }

    /** clusterUpdateSlotsConfigWith: the claim rebinds exactly the slots it wins. The node becomes a
        replica when slots were taken from its (own or master's) shard and none is left; otherwise the
        keys of the slots it lost are deleted. A replica that does not know its master crashes
        exactly when the claim wins an unbound slot. */
    method UpdateSlotsConfigWith(myself: ClusterNode, curmaster: ClusterNode?, sender: ClusterNode, epoch: nat,
                                 claim: Bitmap, keys: set<nat>) returns (r: Outcome)
      requires Valid() && myself in nodes && sender in nodes && (curmaster == null || curmaster in nodes)
      modifies slots, nodes`slots, nodes`numslots
      ensures Valid()
      ensures sender == myself ==> r == Discarded && slots[..] == old(slots[..])
      ensures sender != myself ==>
        && Owners() == Rebind(old(Owners()), old(Epochs()), sender, epoch, Bits(claim), Importing())
        && var won := old(Won(sender, epoch, claim));
           && (r == NullDereference <==> curmaster == null && exists j :: j in won && old(slots[j]) == null)
           && (r == Reconfigure <==> curmaster != null && curmaster.numslots == 0 && exists j :: j in won && old(slots[j]) == curmaster)
           && (r.DeleteKeys? ==> forall j: nat :: j in r.dirty <==> j in won && old(slots[j]) == myself && j in keys)
    {
      if sender == myself {
        return Discarded;
      }
      ghost var owners, epochs, importing0 := Owners(), Epochs(), Importing();
      assert forall j: nat :: j < CLUSTER_SLOTS ==>
        (j in Won(sender, epoch, claim) <==> Wins(owners, epochs, sender, epoch, Bits(claim), importing0, j));
      var dirty, newmaster := RebindSlots(myself, curmaster, sender, epoch, claim, keys);
      assert Owners() == Rebind(owners, epochs, sender, epoch, Bits(claim), importing0);
      if newmaster {
        if curmaster == null {
          return NullDereference;
        }
        if curmaster.numslots == 0 {
          return Reconfigure;
        }
      }
      return DeleteKeys(dirty);
    }
  }
}
