/** The buffers of the append-only file that lose nothing: the rewrite buffer, a list of blocks that
    is filled at one end and written to the child's pipe at the other, and the write buffer, which
    is flushed to the file through failed and short writes. */
module AofBuffer {
  import opened Resp

  // ---------------------------------------------------------------- the rewrite buffer

  const BLOCK_SIZE := 10 * 1024 * 1024

  /** A block by the bytes in use and the room left behind them. Sending bytes from the front does
      not give room back. */
  datatype Block = Block(data: Bytes, free: nat)

  predicate Sound(blocks: seq<Block>) {
    forall i :: 0 <= i < |blocks| ==> |blocks[i].data| + blocks[i].free <= BLOCK_SIZE
  }

  function Data(b: Block): Bytes {
    b.data
  }

  function Contents(blocks: seq<Block>): Bytes {
    Cat(Data, blocks)
  }

  lemma LastBlock(blocks: seq<Block>, b: Block)
    requires blocks != []
    ensures Contents(blocks[..|blocks| - 1] + [b]) == Contents(blocks[..|blocks| - 1]) + b.data
    ensures Contents(blocks) == Contents(blocks[..|blocks| - 1]) + blocks[|blocks| - 1].data
  {
    CatAppend(Data, blocks[..|blocks| - 1], b);
    CatAppend(Data, blocks[..|blocks| - 1], blocks[|blocks| - 1]);
    assert blocks == blocks[..|blocks| - 1] + [blocks[|blocks| - 1]];
  }

  class RewriteBuffer {
    var blocks: seq<Block>

    constructor ()
      ensures blocks == []
    {
      blocks := [];
    }

    /** aofRewriteBufferAppend. */
    method Append(s0: Bytes)
      requires Sound(blocks)
      modifies this
      ensures Sound(blocks) && Contents(blocks) == old(Contents(blocks)) + s0
    {
      var s := s0;
      ghost var start, done := Contents(blocks), [];
      assert start + [] == start && [] + s0 == s0;
      while s != []
        invariant Sound(blocks) && done + s == s0 && Contents(blocks) == start + done
        decreases |s|, blocks == [] || blocks[|blocks| - 1].free == 0
      {
        if blocks != [] {
          var last := blocks[|blocks| - 1];
          var n := if last.free < |s| then last.free else |s|;
          if n > 0 {
            FillLast(blocks, s[..n]);
            TakeOver(done, s, n);
            Associative(start, done, s[..n]);
            blocks := Filled(blocks, s[..n]);
            done := done + s[..n];
            s := s[n..];
          }
        }
        if s != [] {
          CatAppend(Data, blocks, Block([], BLOCK_SIZE));
          blocks := blocks + [Block([], BLOCK_SIZE)];
        }
      }
      assert done + [] == done;
    }

    /** aofChildWriteDiffData, where room(i) bytes fit into the pipe at the i-th write and no more
        writes succeed after tries of them. It gives up only when a write fails, and each write before
        that has sent what fits. */
    method WriteDiff(stop: bool, room: nat -> nat, tries: nat) returns (sent: Bytes, idle: bool, i: nat)
      requires Sound(blocks)
      modifies this
      ensures Sound(blocks) && sent + Contents(blocks) == old(Contents(blocks))
      ensures stop ==> sent == [] && idle
      ensures idle ==> stop || blocks == []
      ensures !idle ==> Contents(blocks) != [] && (i == tries || room(i) == 0)
      ensures i <= |sent|
    {
      sent, i := [], 0;
      ghost var all := Contents(blocks);
      assert [] + all == all;
      while true
        invariant Sound(blocks) && i <= tries && (stop ==> sent == []) && i <= |sent|
        invariant sent + Contents(blocks) == all
        decreases tries - i + |blocks|
      {
        if stop || blocks == [] {
          return sent, true, i;
        }
        var b := blocks[0];
        if |b.data| > 0 {
          if i == tries || room(i) == 0 {
            assert Contents(blocks)[0] == b.data[0];
            return sent, false, i;
          }
          var n := if room(i) < |b.data| then room(i) else |b.data|;
          i := i + 1;
          SendFirst(blocks, n, sent);
          sent := sent + b.data[..n];
          blocks := Sent(blocks, n);
        }
        if |blocks[0].data| == 0 {
          DropFirst(blocks);
          blocks := blocks[1..];
        }
      }
    }

    /** aofRewriteBufferWrite: the bytes written to the file, and whether that was all of them. */
    method Write(room: nat -> int) returns (written: Bytes, ok: bool)
      ensures written <= Contents(blocks)
      ensures ok ==> written == Contents(blocks)
      ensures ok <==> forall i: nat :: i < |blocks| ==> |blocks[i].data| == 0 || room(i) >= |blocks[i].data|
    {
      written := [];
      assert blocks[0..] == blocks;
      for i := 0 to |blocks|
        invariant written + Contents(blocks[i..]) == Contents(blocks)
        invariant forall k: nat :: k < i ==> |blocks[k].data| == 0 || room(k) >= |blocks[k].data|
      {
        var b := blocks[i];
        ghost var rest := Contents(blocks[i + 1..]);
        WriteOne(blocks, i, written);
        if |b.data| > 0 {
          if room(i) < |b.data| {
            var n := if room(i) < 0 then 0 else room(i);
            return written + b.data[..n], false;
          }
          written := written + b.data;
        }
      }
      assert blocks[|blocks|..] == [];
      ok := true;
    }
  }

  function Filled(blocks: seq<Block>, s: Bytes): seq<Block>
    requires blocks != [] && |s| <= blocks[|blocks| - 1].free
  {
    var last := blocks[|blocks| - 1];
    blocks[..|blocks| - 1] + [Block(last.data + s, last.free - |s|)]
  }

  lemma FillLast(blocks: seq<Block>, s: Bytes)
    requires Sound(blocks) && blocks != [] && |s| <= blocks[|blocks| - 1].free
    ensures Sound(Filled(blocks, s)) && Contents(Filled(blocks, s)) == Contents(blocks) + s
  {
    var last := blocks[|blocks| - 1];
    LastBlock(blocks, Block(last.data + s, last.free - |s|));
    Associative(Contents(blocks[..|blocks| - 1]), last.data, s);
  }

  function Sent(blocks: seq<Block>, n: nat): seq<Block>
    requires blocks != [] && n <= |blocks[0].data|
  {
    [Block(blocks[0].data[n..], blocks[0].free)] + blocks[1..]
  }

  /** Sending n bytes of the first block moves them from the blocks to what was sent. */
  lemma SendFirst(blocks: seq<Block>, n: nat, sent: Bytes)
    requires Sound(blocks) && blocks != [] && n <= |blocks[0].data|
    ensures Sound(Sent(blocks, n))
    ensures sent + blocks[0].data[..n] + Contents(Sent(blocks, n)) == sent + Contents(blocks)
  {
    var d, rest := blocks[0].data, Contents(blocks[1..]);
    assert Sent(blocks, n)[1..] == blocks[1..];
    assert d[..n] + d[n..] == d;
    Associative(sent, d[..n], d[n..] + rest);
    Associative(d[..n], d[n..], rest);
  }

  lemma DropFirst(blocks: seq<Block>)
    requires blocks != [] && |blocks[0].data| == 0
    ensures Contents(blocks[1..]) == Contents(blocks)
  {
    assert [] + Contents(blocks[1..]) == Contents(blocks[1..]);
  }

  lemma WriteOne(blocks: seq<Block>, i: nat, written: Bytes)
    requires i < |blocks| && written + Contents(blocks[i..]) == Contents(blocks)
    ensures written + blocks[i].data + Contents(blocks[i + 1..]) == Contents(blocks)
    ensures |blocks[i].data| == 0 ==> written + Contents(blocks[i + 1..]) == Contents(blocks)
    ensures forall n :: 0 <= n <= |blocks[i].data| ==> written + blocks[i].data[..n] <= Contents(blocks)
  {
    var d, rest := blocks[i].data, Contents(blocks[i + 1..]);
    assert blocks[i..][0] == blocks[i] && blocks[i..][1..] == blocks[i + 1..];
    Associative(written, d, rest);
    forall n | 0 <= n <= |d|
      ensures written + d[..n] <= written + d + rest
    {
      assert written + d[..n] == (written + d + rest)[..|written| + n];
    }
    assert |d| == 0 ==> written + d == written;
  }

  // ---------------------------------------------------------------- the write buffer

  datatype Fsync = No | EverySec | Always

  /** What the write returns, and whether a truncate that follows a short write succeeds. */
  datatype Outcome = Failed | Wrote(n: nat, truncates: bool)

  class Log {
    var file: Bytes
    var buf: Bytes
    var currentSize: nat
    var writable: bool
    var postponedStart: nat
    ghost var fed: Bytes

    ghost predicate Valid()
      reads this
    {
      file + buf == fed && currentSize == |file|
    }

    constructor (contents: Bytes)
      ensures Valid() && fed == contents && file == contents
    {
      file, buf, currentSize, writable, postponedStart := contents, [], |contents|, true, 0;
      fed := contents;
      new;
      assert file + buf == file;
    }

    /** The end of feedAppendOnlyFile. */
    method Feed(s: Bytes)
      requires Valid()
      modifies this`buf, this`fed
      ensures Valid() && fed == old(fed) + s
    {
      Associative(file, buf, s);
      buf := buf + s;
      fed := fed + s;
    }

    /** flushAppendOnlyFile: nothing fed is lost, repeated or reordered, whatever the write does. The
        buffer is given up only to the file. A server that cannot keep its promise to sync always
        exits; even then the file is a prefix of what was fed. */
    method Flush(force: bool, policy: Fsync, syncing: bool, now: nat, w: Outcome) returns (exits: bool)
      requires Valid() && (w.Wrote? ==> w.n <= |buf|)
      modifies this`file, this`buf, this`currentSize, this`writable, this`postponedStart
      ensures !exits ==> Valid()
      ensures exits ==> policy == Always && old(buf) != [] && !(w.Wrote? && w.n == |old(buf)|) && file <= fed
      ensures var tried := old(buf) != [] &&
                           !(policy == EverySec && !force && syncing && (old(postponedStart) == 0 || now - old(postponedStart) < 2));
              && file == (if tried && w.Wrote? && (w.n == |old(buf)| || !w.truncates) then old(file) + old(buf)[..w.n] else old(file))
              && (!tried ==> writable == old(writable) && !exits)
              && (tried && !exits ==> (writable <==> w.Wrote? && w.n == |old(buf)|) && (writable ==> buf == []))
    {
      exits := false;
      if |buf| == 0 {
        return;
      }
      if policy == EverySec && !force {
        if syncing {
          if postponedStart == 0 {
            postponedStart := now;
            return;
          } else if now - postponedStart < 2 {
            return;
          }
        }
      }
      var nwritten: int := -1;
      if w.Wrote? {
        nwritten := w.n;
        file := file + buf[..w.n];
      }
      postponedStart := 0;
      if nwritten != |buf| {
        if nwritten != -1 {
          if w.truncates {
            assert file[..currentSize] == old(file);
            file := file[..currentSize];
            nwritten := -1;
          }
        }
        if policy == Always {
          assert w.Wrote? ==> old(file) + buf[..w.n] == fed[..|old(file)| + w.n];
          assert old(file) == fed[..|old(file)|];
          return true;
        }
        writable := false;
        if nwritten > 0 {
          TakeOver(old(file), buf, nwritten);
          currentSize := currentSize + nwritten;
          buf := buf[nwritten..];
        }
        return;
      }
      writable := true;
      assert buf[..|buf|] == buf;
      currentSize := currentSize + nwritten;
      buf := [];
      assert file + [] == file;
    }
  }

  lemma TakeOver(file: Bytes, buf: Bytes, n: nat)
    requires n <= |buf|
    ensures file + buf[..n] + buf[n..] == file + buf
  {
    assert buf[..n] + buf[n..] == buf;
    Associative(file, buf[..n], buf[n..]);
  }
}
