/** A set of 64-bit integers kept as a sorted packed array of the least width that holds them all. */
module Intsets {
  import opened Octets
  import opened Packed

  predicate Sorted(s: seq<int>) {
    forall i, j :: 0 <= i < j < |s| ==> s[i] < s[j]
  }

  function Members(s: seq<int>): set<int> {
    set x | x in s
  }

  function Inserted(s: seq<int>, pos: nat, v: int): seq<int>
    requires pos <= |s|
  {
    s[..pos] + [v] + s[pos..]
  }

  function Deleted(s: seq<int>, pos: nat): seq<int>
    requires pos < |s|
  {
    s[..pos] + s[pos + 1..]
  }

  /** pos is where v is, or where it belongs. */
  ghost predicate Position(s: seq<int>, v: int, pos: nat) {
    && pos <= |s|
    && (forall i :: 0 <= i < pos ==> s[i] < v)
    && (forall i :: pos <= i < |s| ==> s[i] >= v)
  }

  lemma InsertedAt(s: seq<int>, pos: nat, v: int, k: nat)
    requires pos <= |s| && k <= |s|
    ensures |Inserted(s, pos, v)| == |s| + 1
    ensures Inserted(s, pos, v)[k] == if k < pos then s[k] else if k == pos then v else s[k - 1]
  {
  }

  lemma InsertedMembers(s: seq<int>, pos: nat, v: int)
    requires pos <= |s|
    ensures Members(Inserted(s, pos, v)) == Members(s) + {v}
  {
    var r := Inserted(s, pos, v);
    assert s == s[..pos] + s[pos..];
    assert forall x :: x in r <==> x in s[..pos] || x == v || x in s[pos..];
  }

  lemma InsertedSorted(s: seq<int>, pos: nat, v: int)
    requires Sorted(s) && Position(s, v, pos) && v !in s
    ensures Sorted(Inserted(s, pos, v))
  {
    var r := Inserted(s, pos, v);
    forall i: nat, j: nat | i < j < |r|
      ensures r[i] < r[j]
    {
      InsertedAt(s, pos, v, i);
      InsertedAt(s, pos, v, j);
      assert j > pos ==> s[j - 1] in s;
    }
  }

  lemma DeletedIsSet(s: seq<int>, pos: nat)
    requires Sorted(s) && pos < |s|
    ensures Sorted(Deleted(s, pos)) && Members(Deleted(s, pos)) == Members(s) - {s[pos]}
  {
    var r := Deleted(s, pos);
    forall x
      ensures x in r <==> x in s && x != s[pos]
    {
      if x in s && x != s[pos] {
        var i :| 0 <= i < |s| && s[i] == x;
        assert r[if i < pos then i else i - 1] == x;
      }
      if x in r {
        var i :| 0 <= i < |r| && r[i] == x;
        assert s[if i < pos then i else i + 1] == x;
      }
    }
  }

  // ---------------------------------------------------------------- upgrading

  /** In the middle of an upgrade from width w to width u: the first len integers are still to be
      read, in the old width, and those behind them are in place, in the new one. */
  ghost predicate Upgrading(dec: Reader, s: seq<Byte>, view: seq<int>, w: nat, u: nat, len: nat, shift: nat) {
    && w < u && len <= |view| && shift <= 1 && |s| == Off(|view| + 1, u)
    && (forall i: nat {:trigger Holds(dec, s, w, i, view[i])} :: i < len ==> Holds(dec, s, w, i, view[i]))
    && (forall i: nat :: len <= i < |view| ==> HoldsBehind(dec, s, u, i, shift, view[i]))
  }

  lemma UpgradeRoom(s: seq<Byte>, n: nat, w: nat, u: nat, len: nat, shift: nat)
    requires w < u && len < n && shift <= 1 && |s| == Off(n + 1, u)
    ensures Off(len + shift, u) + u <= |s| && Off(len, w) <= Off(len + shift, u)
  {
    Before(len + shift, n + 1, u);
    Wider(len, len + shift, w, u);
  }

  /** Writing the last unread integer in the new width leaves the unread ones before it alone. */
  lemma UpgradeStep(dec: Reader, s: seq<Byte>, view: seq<int>, w: nat, u: nat, len: nat, shift: nat, e: seq<Byte>)
    requires Upgrading(dec, s, view, w, u, len + 1, shift) && |e| == u && dec(e) == view[len]
    ensures Off(len + shift, u) + u <= |s|
    ensures Upgrading(dec, Put(s, Off(len + shift, u), e), view, w, u, len, shift)
  {
    UpgradeRoom(s, |view|, w, u, len, shift);
    var r := Put(s, Off(len + shift, u), e);
    forall i: nat | i < len
      ensures Holds(dec, r, w, i, view[i])
    {
      assert Holds(dec, s, w, i, view[i]);
      Before(i, len, w);
      PutBehind(dec, s, Off(len + shift, u), e, w, i, view[i]);
    }
    PutHolds(dec, s, u, len + shift, e);
    forall i: nat | len <= i < |view|
      ensures HoldsBehind(dec, r, u, i, shift, view[i])
    {
      if i != len {
        assert HoldsBehind(dec, s, u, i, shift, view[i]);
        PutKeeps(dec, s, u, len + shift, e, i + shift, view[i]);
      }
    }
  }

  lemma UpgradedSlot(dec: Reader, s: seq<Byte>, view: seq<int>, w: nat, u: nat, shift: nat, e: seq<Byte>, pos: nat, k: nat)
    requires Upgrading(dec, s, view, w, u, 0, shift) && |e| == u && pos == if shift == 1 then 0 else |view|
    requires k <= |view| && Off(pos, u) + u <= |s|
    ensures Holds(dec, Put(s, Off(pos, u), e), u, k, Inserted(view, pos, dec(e))[k])
  {
    InsertedAt(view, pos, dec(e), k);
    if k == pos {
      PutHolds(dec, s, u, pos, e);
    } else {
      var i: nat := k - shift;
      assert HoldsBehind(dec, s, u, i, shift, view[i]);
      PutKeeps(dec, s, u, pos, e, k, view[i]);
    }
  }

  /** Then the new value takes the free slot, at the front if it is negative and else at the end. */
  lemma UpgradeEnd(dec: Reader, s: seq<Byte>, view: seq<int>, w: nat, u: nat, shift: nat, e: seq<Byte>, pos: nat)
    requires Upgrading(dec, s, view, w, u, 0, shift) && Width(u) && |e| == u && pos == if shift == 1 then 0 else |view|
    ensures Off(pos, u) + u <= |s| && Packs(dec, Put(s, Off(pos, u), e), u, Inserted(view, pos, dec(e)))
  {
    Before(pos, |view| + 1, u);
    InsertedAt(view, pos, dec(e), 0);
    forall k: nat | k <= |view|
      ensures Holds(dec, Put(s, Off(pos, u), e), u, k, Inserted(view, pos, dec(e))[k])
    {
      UpgradedSlot(dec, s, view, w, u, shift, e, pos, k);
    }
  }

  /** The bytes of a packed array, with some more behind them, are ready for an upgrade. */
  lemma UpgradeStart(dec: Reader, s0: seq<Byte>, s: seq<Byte>, view: seq<int>, w: nat, u: nat, shift: nat)
    requires Packs(dec, s0, w, view) && w < u && shift <= 1 && |s| == Off(|view| + 1, u) && s0 <= s
    ensures Upgrading(dec, s, view, w, u, |view|, shift)
  {
    forall i: nat | i < |view|
      ensures Holds(dec, s, w, i, view[i])
    {
      assert Holds(dec, s0, w, i, view[i]);
      PrefixHolds(dec, s0, s, w, i, view[i]);
    }
  }

  // ---------------------------------------------------------------- inserting and deleting

  /** Making room at slot pos: the slots before it stay, those from it on move up by one. */
  ghost predicate Roomy(dec: Reader, s: seq<Byte>, w: nat, view: seq<int>, pos: nat) {
    && Width(w) && pos <= |view| && |s| == Off(|view| + 1, w)
    && (forall i: nat {:trigger Holds(dec, s, w, i, view[i])} :: i < pos ==> Holds(dec, s, w, i, view[i]))
    && (forall i: nat :: pos <= i < |view| ==> HoldsBehind(dec, s, w, i, 1, view[i]))
  }

  function Room(s: seq<Byte>, w: nat, pos: nat, n: nat): seq<Byte>
    requires pos <= n && |s| == Off(n + 1, w)
  {
    Before(n, n + 1, w);
    if pos < n then Moved(s, w, pos, pos + 1, n) else s
  }

  lemma RoomIsRoomy(dec: Reader, s0: seq<Byte>, s: seq<Byte>, w: nat, view: seq<int>, pos: nat)
    requires Packs(dec, s0, w, view) && pos <= |view| && |s| == Off(|view| + 1, w) && s0 <= s
    ensures Roomy(dec, Room(s, w, pos, |view|), w, view, pos)
  {
    var n := |view|;
    Before(n, n + 1, w);
    var t := Room(s, w, pos, n);
    forall i: nat | i < n
      ensures i < pos ==> Holds(dec, t, w, i, view[i])
      ensures pos <= i ==> HoldsBehind(dec, t, w, i, 1, view[i])
    {
      assert Holds(dec, s0, w, i, view[i]);
      PrefixHolds(dec, s0, s, w, i, view[i]);
      if pos < n {
        if i < pos {
          UnmovedHolds(dec, s, w, pos, pos + 1, n, i, view[i]);
        } else {
          MovedHolds(dec, s, w, pos, pos + 1, n, i, view[i]);
        }
      }
    }
  }

  /** Storing a value in the room inserts it. */
  lemma FillRoom(dec: Reader, s: seq<Byte>, w: nat, view: seq<int>, pos: nat, e: seq<Byte>)
    requires Roomy(dec, s, w, view, pos) && |e| == w
    ensures Off(pos, w) + w <= |s| && Packs(dec, Put(s, Off(pos, w), e), w, Inserted(view, pos, dec(e)))
  {
    Before(pos, |view| + 1, w);
    var r, t := Inserted(view, pos, dec(e)), Put(s, Off(pos, w), e);
    PutHolds(dec, s, w, pos, e);
    forall k: nat | k < |r|
      ensures Holds(dec, t, w, k, r[k])
    {
      InsertedAt(view, pos, dec(e), k);
      if k < pos {
        assert Holds(dec, s, w, k, view[k]);
        PutKeeps(dec, s, w, pos, e, k, view[k]);
      } else if k > pos {
        var i: nat := k - 1;
        assert HoldsBehind(dec, s, w, i, 1, view[i]);
        PutKeeps(dec, s, w, pos, e, k, view[i]);
      }
    }
  }

  function Closed(s: seq<Byte>, w: nat, pos: nat, n: nat): (r: seq<Byte>)
    requires pos < n && |s| == Off(n, w)
    ensures |r| == |s|
  {
    Before(n - 1, n, w);
    if pos < n - 1 then Moved(s, w, pos + 1, pos, n) else s
  }

  lemma ClosedBefore(dec: Reader, s: seq<Byte>, w: nat, n: nat, pos: nat, k: nat, x: int)
    requires pos < n && |s| == Off(n, w) && k < pos && Holds(dec, s, w, k, x)
    ensures Holds(dec, Closed(s, w, pos, n), w, k, x)
  {
    Before(n - 1, n, w);
    if pos < n - 1 {
      UnmovedHolds(dec, s, w, pos + 1, pos, n, k, x);
    }
  }

  lemma ClosedBehind(dec: Reader, s: seq<Byte>, w: nat, n: nat, pos: nat, k: nat, x: int)
    requires pos < n && |s| == Off(n, w) && pos <= k < n - 1 && Holds(dec, s, w, k + 1, x)
    ensures Holds(dec, Closed(s, w, pos, n), w, k, x)
  {
    Before(n - 1, n, w);
    MovedHolds(dec, s, w, pos + 1, pos, n, k + 1, x);
    assert k + 1 - (pos + 1) + pos == k;
  }

  lemma ClosedHolds(dec: Reader, s: seq<Byte>, w: nat, view: seq<int>, pos: nat, k: nat)
    requires Packs(dec, s, w, view) && pos < |view| && k < |view| - 1
    ensures Holds(dec, Closed(s, w, pos, |view|), w, k, view[if k < pos then k else k + 1])
  {
    if k < pos {
      assert Holds(dec, s, w, k, view[k]);
      ClosedBefore(dec, s, w, |view|, pos, k, view[k]);
    } else {
      assert Holds(dec, s, w, k + 1, view[k + 1]);
      ClosedBehind(dec, s, w, |view|, pos, k, view[k + 1]);
    }
  }

  /** Moving the tail one slot down and cutting the last slot deletes. */
  lemma DeletePacks(dec: Reader, s: seq<Byte>, t: seq<Byte>, w: nat, view: seq<int>, pos: nat)
    requires Packs(dec, s, w, view) && pos < |view| && |t| == Off(|view| - 1, w) && t <= Closed(s, w, pos, |view|)
    ensures Packs(dec, t, w, Deleted(view, pos))
  {
    var r := Deleted(view, pos);
    forall k: nat | k < |r|
      ensures Holds(dec, t, w, k, r[k])
    {
      ClosedHolds(dec, s, w, view, pos, k);
      Before(k, |view| - 1, w);
      Untouched(dec, Closed(s, w, pos, |view|), t, w, k, r[k]);
    }
  }

  // ---------------------------------------------------------------- the set

  /** Two strings of bytes, one of which goes on where the other ends. */
  ghost predicate SameStart(a: seq<Byte>, b: seq<Byte>) {
    if |a| <= |b| then a <= b else b <= a
  }

  /** memmove. */
  method MoveBytes(a: array<Byte>, src: nat, dst: nat, bytes: nat)
    requires src + bytes <= a.Length && dst + bytes <= a.Length
    modifies a
    ensures a[..] == Put(old(a[..]), dst, old(a[..])[src..src + bytes])
  {
    forall i | 0 <= i < bytes {
      a[dst + i] := a[src + i];
    }
    MovedIs(old(a[..]), src, dst, bytes, a[..]);
  }

  class Intset {
    var enc: nat
    var length: nat
    var contents: array<Byte>
    ghost var view: seq<int>

    /** The bytes are those of view. */
    ghost predicate Shaped()
      reads this, contents
    {
      length == |view| && Packs(Decode, contents[..], enc, view)
    }

    ghost predicate Valid()
      reads this, contents
    {
      Shaped() && Sorted(view)
    }

    constructor ()
      ensures Valid() && view == [] && fresh(contents) && enc == 2
    {
      enc, length, contents, view := 2, 0, new Byte[0], [];
    }

    /** _intsetGetEncoded. */
    function GetEncoded(pos: nat, w: nat): int
      requires Off(pos, w) + w <= contents.Length
      reads this, contents
    {
      Decode(contents[Off(pos, w)..Off(pos, w) + w])
    }

    method ReadSlot(pos: nat, w: nat, ghost v: int) returns (r: int)
      requires Holds(Decode, contents[..], w, pos, v)
      ensures r == v
    {
      r := GetEncoded(pos, w);
      assert contents[..][Off(pos, w)..Off(pos, w) + w] == contents[Off(pos, w)..Off(pos, w) + w];
    }

    /** _intsetSet. */
    method Store(pos: nat, v: int)
      requires Off(pos, enc) + enc <= contents.Length && Fits(v, enc)
      modifies contents
      ensures contents[..] == Put(old(contents[..]), Off(pos, enc), Encode(v, enc))
    {
      var e, start, w := Encode(v, enc), Off(pos, enc), enc;
      forall i | 0 <= i < w {
        contents[start + i] := e[i];
      }
      PutIs(old(contents[..]), start, e, contents[..]);
    }

    /** intsetResize: the bytes that both sizes have are kept. */
    method Resize(len: nat)
      modifies this`contents
      ensures fresh(contents) && contents.Length == Off(len, enc)
      ensures SameStart(old(contents[..]), contents[..])
    {
      var size := Off(len, enc);
      var n := if size < contents.Length then size else contents.Length;
      var a := new Byte[size];
      forall i | 0 <= i < n {
        a[i] := contents[i];
      }
      contents := a;
    }

    /** _intsetGet. */
    method Get(pos: nat) returns (v: int)
      requires Shaped() && pos < length
      ensures v == view[pos]
    {
      assert Holds(Decode, contents[..], enc, pos, view[pos]);
      v := ReadSlot(pos, enc, view[pos]);
    }

    /** intsetSearch. */
    method Search(v: int) returns (found: bool, pos: nat)
      requires Valid()
      ensures found <==> v in view
      ensures Position(view, v, pos) && (found ==> pos < length && view[pos] == v)
    {
      if length == 0 {
        return false, 0;
      } else {
        var last := Get(length - 1);
        var first := Get(0);
        if v > last {
          return false, length;
        } else if v < first {
          return false, 0;
        }
      }
      found, pos := Bisect(v);
    }

    /** The loop of intsetSearch. */
    method Bisect(v: int) returns (found: bool, pos: nat)
      requires Valid() && length > 0
      ensures found <==> v in view
      ensures Position(view, v, pos) && (found ==> pos < length && view[pos] == v)
    {
      var min: int, max: int, mid, cur := 0, length - 1, -1, -1;
      while max >= min
        invariant 0 <= min <= max + 1 <= length
        invariant forall i :: 0 <= i < min ==> view[i] < v
        invariant forall i :: max < i < length ==> view[i] > v
        invariant if mid == -1 then min == 0 && max == length - 1 else cur != v
        decreases max - min
      {
        mid := (min + max) / 2;
        cur := Get(mid);
        if v > cur {
          min := mid + 1;
        } else if v < cur {
          max := mid - 1;
        } else {
          break;
        }
      }
      if v == cur {
        return true, mid;
      } else {
        return false, min;
      }
    }

    method Widen(w: nat, pos: nat, shift: nat)
      requires Width(w) && Width(enc) && Upgrading(Decode, contents[..], view, w, enc, pos + 1, shift)
      modifies contents
      ensures Upgrading(Decode, contents[..], view, w, enc, pos, shift)
    {
      assert Holds(Decode, contents[..], w, pos, view[pos]);
      var x := ReadSlot(pos, w, view[pos]);
      FitsWider(contents[..], w, enc, pos, x);
      DecodeOfEncode(x, enc);
      UpgradeStep(Decode, contents[..], view, w, enc, pos, shift, Encode(x, enc));
      Store(pos + shift, x);
    }

    /** The loop of intsetUpgradeAndAdd: the integers are widened in place, from the last to the first. */
    method WidenAll(w: nat, shift: nat)
      requires Width(w) && Width(enc) && length == |view| && Upgrading(Decode, contents[..], view, w, enc, length, shift)
      modifies contents
      ensures Upgrading(Decode, contents[..], view, w, enc, 0, shift)
    {
      var len := length;
      while len > 0
        invariant Upgrading(Decode, contents[..], view, w, enc, len, shift)
      {
        len := len - 1;
        Widen(w, len, shift);
      }
    }

    /** intsetUpgradeAndAdd. */
    method UpgradeAndAdd(v: int)
      requires Shaped() && Fits(v, 8) && ValueWidth(v) > enc
      modifies this, contents
      ensures Shaped() && fresh(contents) && enc == ValueWidth(v)
      ensures view == Inserted(old(view), if v < 0 then 0 else old(length), v)
    {
      ghost var s0 := contents[..];
      var w, u := enc, ValueWidth(v);
      ValueWidthIsLeast(v, u);
      var shift := if v < 0 then 1 else 0;
      enc := u;
      Wider(length, length + 1, w, u);
      Resize(length + 1);
      UpgradeStart(Decode, s0, contents[..], view, w, u, shift);
      WidenAll(w, shift);
      StoreLast(w, v, shift);
    }

    method StoreLast(w: nat, v: int, shift: nat)
      requires Width(enc) && length == |view| && Fits(v, enc) && Upgrading(Decode, contents[..], view, w, enc, 0, shift)
      modifies this`length, this`view, contents
      ensures Shaped() && view == Inserted(old(view), if shift == 1 then 0 else old(length), v)
    {
      var pos := if shift == 1 then 0 else length;
      DecodeOfEncode(v, enc);
      UpgradeEnd(Decode, contents[..], view, w, enc, shift, Encode(v, enc), pos);
      Store(pos, v);
      length := length + 1;
      view := Inserted(view, pos, v);
    }

    /** intsetMoveTail. */
    method MoveTail(from: nat, to: nat)
      requires from <= length && Off(length, enc) <= contents.Length
      requires Off(to + length - from, enc) <= contents.Length
      modifies contents
      ensures contents[..] == Moved(old(contents[..]), enc, from, to, length)
    {
      Scaled(from, to, length, enc);
      var src, dst := Off(from, enc), Off(to, enc);
      var bytes := Off(length, enc) - src;
      MoveBytes(contents, src, dst, bytes);
    }

    /** intsetAdd. */
    method Add(v: int) returns (success: bool)
      requires Valid() && Fits(v, 8) && length < MAX_LENGTH
      modifies this, contents
      ensures Valid() && (contents == old(contents) || fresh(contents))
      ensures success <==> v !in old(view)
      ensures Members(view) == Members(old(view)) + {v}
      ensures enc == if ValueWidth(v) > old(enc) then ValueWidth(v) else old(enc)
    {
      success := true;
      var pos: nat;
      ValueWidthIsLeast(v, enc);
      if ValueWidth(v) > enc {
        ghost var at := if v < 0 then 0 else length;
        OutOfRange(contents[..], enc, view, v);
        InsertedMembers(view, at, v);
        InsertedSorted(view, at, v);
        UpgradeAndAdd(v);
        return;
      } else {
        var found;
        found, pos := Search(v);
        if found {
          return false;
        }
        InsertAt(pos, v);
      }
    }

    method MakeRoom(pos: nat)
      requires Shaped() && pos <= length
      modifies this`contents, contents
      ensures fresh(contents) && Roomy(Decode, contents[..], enc, view, pos)
    {
      ghost var s0 := contents[..];
      Before(length, length + 1, enc);
      Resize(length + 1);
      RoomIsRoomy(Decode, s0, contents[..], enc, view, pos);
      if pos < length {
        MoveTail(pos, pos + 1);
      }
    }

    /** The rest of intsetAdd, where the value is not in the set and belongs at pos. */
    method InsertAt(pos: nat, v: int)
      requires Valid() && Fits(v, enc) && Position(view, v, pos) && v !in view
      modifies this, contents
      ensures Valid() && fresh(contents) && enc == old(enc) && view == Inserted(old(view), pos, v)
      ensures Members(view) == Members(old(view)) + {v}
    {
      MakeRoom(pos);
      DecodeOfEncode(v, enc);
      FillRoom(Decode, contents[..], enc, view, pos, Encode(v, enc));
      Store(pos, v);
      InsertedMembers(view, pos, v);
      InsertedSorted(view, pos, v);
      length := length + 1;
      view := Inserted(view, pos, v);
    }

    /** intsetRemove. */
    method Remove(v: int) returns (success: bool)
      requires Valid() && Fits(v, 8)
      modifies this, contents
      ensures Valid() && (contents == old(contents) || fresh(contents)) && enc == old(enc)
      ensures success <==> v in old(view)
      ensures Members(view) == Members(old(view)) - {v}
    {
      success := false;
      if ValueWidth(v) <= enc {
        var found, pos := Search(v);
        if found {
          success := true;
          RemoveAt(pos);
        }
      } else {
        OutOfRange(contents[..], enc, view, v);
      }
    }

    /** The tail moves down one slot over the integer at pos, and the last slot goes. */
    method CloseGap(pos: nat)
      requires Shaped() && pos < length
      modifies this`contents, contents
      ensures fresh(contents) && Packs(Decode, contents[..], enc, Deleted(view, pos))
    {
      ghost var s0 := contents[..];
      MoveDown(pos);
      Before(length - 1, length, enc);
      Resize(length - 1);
      DeletePacks(Decode, s0, contents[..], enc, view, pos);
    }

    method MoveDown(pos: nat)
      requires pos < length && contents.Length == Off(length, enc)
      modifies contents
      ensures contents[..] == Closed(old(contents[..]), enc, pos, length)
    {
      Before(length - 1, length, enc);
      if pos < length - 1 {
        MoveTail(pos + 1, pos);
      }
    }

    /** The rest of intsetRemove, where the value is at pos. */
    method RemoveAt(pos: nat)
      requires Valid() && pos < length
      modifies this, contents
      ensures Valid() && fresh(contents) && enc == old(enc)
      ensures Members(view) == Members(old(view)) - {old(view[pos])}
    {
      DeletedIsSet(view, pos);
      CloseGap(pos);
      length := length - 1;
      view := Deleted(view, pos);
    }

    /** intsetFind. */
    method Find(v: int) returns (found: bool)
      requires Valid() && Fits(v, 8)
      ensures found <==> v in Members(view)
    {
      if ValueWidth(v) <= enc {
        var pos;
        found, pos := Search(v);
      } else {
        OutOfRange(contents[..], enc, view, v);
        found := false;
      }
    }
  }

  /** Lengths whose sizes in bytes fit 32 bits. */
  const MAX_LENGTH := 0x1FFF_FFFF

  /** A value that needs a greater width than the set has is less than all of it if it is negative,
      and greater than all of it if not. */
  lemma OutOfRange(s: seq<Byte>, w: nat, view: seq<int>, v: int)
    requires Packs(Decode, s, w, view) && Fits(v, 8) && ValueWidth(v) > w
    ensures v !in view && Position(view, v, if v < 0 then 0 else |view|)
  {
    ValueWidthIsLeast(v, w);
    forall i: nat | i < |view|
      ensures if v < 0 then v < view[i] else view[i] < v
    {
      assert Holds(Decode, s, w, i, view[i]);
      SlotFits(s, w, i, view[i]);
    }
  }

  lemma SlotFits(s: seq<Byte>, w: nat, i: nat, v: int)
    requires Holds(Decode, s, w, i, v)
    ensures Fits(v, w)
  {
    DecodeFits(s[Off(i, w)..Off(i, w) + w]);
  }

  lemma FitsWider(s: seq<Byte>, w: nat, u: nat, i: nat, v: int)
    requires Width(u) && Width(w) && w < u && Holds(Decode, s, w, i, v)
    ensures Fits(v, u)
  {
    SlotFits(s, w, i, v);
    WidthBounds();
  }
}
