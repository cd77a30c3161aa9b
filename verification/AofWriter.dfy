/** The loops that write a dataset as commands, proved to write exactly the snapshot's text. */
module AofWriter {
  import opened Resp
  import opened AofDataset
  import opened AofSnapshot

  lemma CatPlus<T>(text: T -> Bytes, a: seq<T>, b: seq<T>)
    ensures Cat(text, a + b) == Cat(text, a) + Cat(text, b)
  {
    CatSplit(text, a + b, |a|);
    assert (a + b)[..|a|] == a && (a + b)[|a|..] == b;
  }

  lemma CatOne<T>(text: T -> Bytes, x: T)
    ensures Cat(text, [x]) == text(x)
  {
    assert Cat(text, [x]) == text(x) + Cat(text, [x][1..]);
  }

  // ---------------------------------------------------------------- lists

  function ListText(k: Bytes, items: seq<Bytes>, chunk: nat): Bytes
    requires chunk >= 1
  {
    PrintAll(ListCommands(k, items, chunk))
  }

  /** What is still to be written: the other items of the command that is open, then the rest. */
  function ListRest(k: Bytes, items: seq<Bytes>, open: nat, chunk: nat): Bytes
    requires chunk >= 1 && open <= |items|
  {
    PrintArgs(items[..open]) + ListText(k, items[open..], chunk)
  }

  function ListHead(k: Bytes, n: nat): Bytes {
    Header(STAR, 2 + n) + PrintArg(RPUSH) + PrintArg(k)
  }

  lemma PushText(k: Bytes, items: seq<Bytes>)
    ensures Print([RPUSH, k] + items) == ListHead(k, |items|) + PrintArgs(items)
  {
    var h, a, b, rest := Header(STAR, 2 + |items|), PrintArg(RPUSH), PrintArg(k), PrintArgs(items);
    assert [RPUSH, k] + items == [RPUSH] + ([k] + items);
    CatPlus(PrintArg, [RPUSH], [k] + items);
    CatPlus(PrintArg, [k], items);
    CatOne(PrintArg, RPUSH);
    CatOne(PrintArg, k);
    Associative(h, a, b + rest);
    Associative(h + a, b, rest);
  }

  lemma ListOpens(k: Bytes, items: seq<Bytes>, chunk: nat)
    requires chunk >= 1 && items != []
    ensures ListRest(k, items, 0, chunk) == ListHead(k, Min(|items|, chunk)) + ListRest(k, items, Min(|items|, chunk), chunk)
  {
    var n := Min(|items|, chunk);
    assert items[..0] == [] && items[0..] == items;
    var head, args, rest := ListHead(k, n), PrintArgs(items[..n]), ListText(k, items[n..], chunk);
    CatPlus(Print, [[RPUSH, k] + items[..n]], ListCommands(k, items[n..], chunk));
    CatOne(Print, [RPUSH, k] + items[..n]);
    PushText(k, items[..n]);
    Associative(head, args, rest);
    assert [] + ListText(k, items, chunk) == ListText(k, items, chunk);
  }

  lemma ListAdvances(k: Bytes, items: seq<Bytes>, open: nat, chunk: nat)
    requires chunk >= 1 && 1 <= open <= |items|
    ensures ListRest(k, items, open, chunk) == PrintArg(items[0]) + ListRest(k, items[1..], open - 1, chunk)
  {
    assert items[..open] == [items[0]] + items[1..][..open - 1] && items[1..][open - 1..] == items[open..];
    CatPlus(PrintArg, [items[0]], items[1..][..open - 1]);
    CatOne(PrintArg, items[0]);
    Associative(PrintArg(items[0]), PrintArgs(items[1..][..open - 1]), ListText(k, items[open..], chunk));
  }

  lemma HeadWritten(k: Bytes, list: seq<Bytes>, i: nat, chunk: nat, out: Bytes)
    requires chunk >= 1 && i < |list|
    ensures var n := Min(|list| - i, chunk);
            (out + ListHead(k, n)) + ListRest(k, list[i..], n, chunk) == out + ListRest(k, list[i..], 0, chunk)
  {
    var n := Min(|list| - i, chunk);
    ListOpens(k, list[i..], chunk);
    Associative(out, ListHead(k, n), ListRest(k, list[i..], n, chunk));
  }

  lemma ItemWritten(k: Bytes, list: seq<Bytes>, i: nat, open: nat, chunk: nat, out: Bytes)
    requires chunk >= 1 && 1 <= open <= |list| - i
    ensures (out + PrintArg(list[i])) + ListRest(k, list[i + 1..], open - 1, chunk) == out + ListRest(k, list[i..], open, chunk)
  {
    ListAdvances(k, list[i..], open, chunk);
    assert list[i..][0] == list[i] && list[i..][1..] == list[i + 1..];
    Associative(out, PrintArg(list[i]), ListRest(k, list[i + 1..], open - 1, chunk));
  }

  lemma NothingWritten(k: Bytes, list: seq<Bytes>, chunk: nat)
    requires chunk >= 1
    ensures [] + ListRest(k, list[0..], 0, chunk) == ListText(k, list, chunk)
  {
    assert list[0..] == list && list[..0] == [];
  }

  lemma NothingToWrite(k: Bytes, list: seq<Bytes>, chunk: nat, out: Bytes)
    requires chunk >= 1
    ensures out + ListRest(k, list[|list|..], 0, chunk) == out
  {
    assert list[|list|..] == [] && ListRest(k, [], 0, chunk) == [];
  }

  method WriteHead(out0: Bytes, k: Bytes, n: nat) returns (out: Bytes)
    ensures out == out0 + ListHead(k, n)
  {
    Associative(out0, Header(STAR, 2 + n), PrintArg(RPUSH));
    Associative(out0, Header(STAR, 2 + n) + PrintArg(RPUSH), PrintArg(k));
    out := out0 + Header(STAR, 2 + n);
    out := out + PrintArg(RPUSH);
    out := out + PrintArg(k);
  }

  /** How many items are still to be written of the command that is open, when count are. */
  function Open(count: nat, items: nat, chunk: nat): nat
    requires count < chunk
  {
    if count == 0 then 0 else Min(chunk - count, items)
  }

  function NextCount(count: nat, chunk: nat): nat
    requires count < chunk
  {
    if count + 1 == chunk then 0 else count + 1
  }

  /** With the list written up to i and `open` more items in the open command, the text goes on to be
      that of the whole list. */
  ghost predicate Written(k: Bytes, list: seq<Bytes>, chunk: nat, i: nat, open: nat, out: Bytes) {
    chunk >= 1 && i + open <= |list| && out + ListRest(k, list[i..], open, chunk) == ListText(k, list, chunk)
  }

  method WriteItem(k: Bytes, list: seq<Bytes>, i: nat, count: nat, chunk: nat, out0: Bytes) returns (out: Bytes)
    requires i < |list| && count < chunk && Written(k, list, chunk, i, Open(count, |list| - i, chunk), out0)
    ensures Written(k, list, chunk, i + 1, Min(chunk - count, |list| - i) - 1, out)
  {
    out := out0;
    var items := |list| - i;
    if count == 0 {
      var cmdItems := if items > chunk then chunk else items;
      HeadWritten(k, list, i, chunk, out);
      out := WriteHead(out, k, cmdItems);
    }
    ItemWritten(k, list, i, Min(chunk - count, items), chunk, out);
    out := out + PrintArg(list[i]);
  }

  lemma OpenNext(count: nat, items: nat, chunk: nat)
    requires count < chunk && items > 0
    ensures Min(chunk - count, items) - 1 == Open(NextCount(count, chunk), items - 1, chunk)
  {
  }

  /** The body of the loop of rewriteListObject: a header where a command starts, and the item. */
  method WriteNext(k: Bytes, list: seq<Bytes>, i: nat, count0: nat, chunk: nat, out0: Bytes)
    returns (out: Bytes, count: nat)
    requires i < |list| && count0 < chunk && Written(k, list, chunk, i, Open(count0, |list| - i, chunk), out0)
    ensures count < chunk && Written(k, list, chunk, i + 1, Open(count, |list| - (i + 1), chunk), out)
  {
    out := WriteItem(k, list, i, count0, chunk, out0);
    OpenNext(count0, |list| - i, chunk);
    count := count0 + 1;
    if count == chunk {
      count := 0;
    }
  }

  /** rewriteListObject. */
  method RewriteList(k: Bytes, list: seq<Bytes>, chunk: nat) returns (out: Bytes)
    requires chunk >= 1
    ensures out == ListText(k, list, chunk)
  {
    var count: nat := 0;
    out := [];
    NothingWritten(k, list, chunk);
    for i := 0 to |list|
      invariant count < chunk && Written(k, list, chunk, i, Open(count, |list| - i, chunk), out)
    {
      out, count := WriteNext(k, list, i, count, chunk, out);
    }
    assert Open(count, 0, chunk) == 0;
    NothingToWrite(k, list, chunk, out);
  }

  // ---------------------------------------------------------------- the dataset

  method WriteValue(k: Bytes, v: Value) returns (out: Bytes)
    ensures out == PrintAll(ValueCommands(k, v))
  {
    if v.Str? {
      out := Print([SET, k, v.bytes]);
      CatOne(Print, [SET, k, v.bytes]);
    } else {
      out := RewriteList(k, v.items, ITEMS_PER_CMD);
    }
  }

  method WriteKey(k: Bytes, o: Object) returns (out: Bytes)
    ensures out == PrintAll(ValueCommands(k, o.value) + ExpireCommands(k, o.expire))
  {
    out := WriteValue(k, o.value);
    CatPlus(Print, ValueCommands(k, o.value), ExpireCommands(k, o.expire));
    if o.expire.Some? {
      CatOne(Print, [PEXPIREAT, k, Decimal(o.expire.value)]);
      out := out + Print([PEXPIREAT, k, Decimal(o.expire.value)]);
    }
  }

  function DbText(db: Db, order: seq<Bytes>, now: nat): Bytes
    requires forall k :: k in order ==> k in db
  {
    PrintAll(DbCommands(db, order, now))
  }

  lemma DbAdvances(db: Db, order: seq<Bytes>, now: nat, i: nat)
    requires (forall k :: k in order ==> k in db) && i < |order|
    ensures DbText(db, order[i..], now) ==
            PrintAll(KeyCommands(order[i], db[order[i]], now)) + DbText(db, order[i + 1..], now)
  {
    assert order[i..][0] == order[i] && order[i..][1..] == order[i + 1..];
    CatPlus(Print, KeyCommands(order[i], db[order[i]], now), DbCommands(db, order[i + 1..], now));
  }

  method WriteDb(db: Db, order: seq<Bytes>, now: nat) returns (out: Bytes)
    requires forall k :: k in order ==> k in db
    ensures out == DbText(db, order, now)
  {
    out := [];
    assert order[0..] == order;
    for i := 0 to |order|
      invariant out + DbText(db, order[i..], now) == DbText(db, order, now)
    {
      var k, o := order[i], db[order[i]];
      DbAdvances(db, order, now, i);
      ghost var rest := DbText(db, order[i + 1..], now);
      if Expired(o, now) {
        assert [] + rest == rest;
        continue;
      }
      var text := WriteKey(k, o);
      Associative(out, text, rest);
      out := out + text;
    }
    assert order[|order|..] == [] && DbText(db, [], now) == [];
  }

  /** The part of rewriteAppendOnlyFile that writes the dataset. */
  method WriteDataset(data: Dataset, orders: seq<seq<Bytes>>, now: nat) returns (out: Bytes)
    requires OrdersAll(data, orders)
    ensures out == PrintAll(Snapshot(data, orders, now, 0))
  {
    out := [];
    for j := 0 to |data|
      invariant out + PrintAll(Snapshot(data, orders, now, j)) == PrintAll(Snapshot(data, orders, now, 0))
    {
      if data[j] == map[] {
        assert [] + Snapshot(data, orders, now, j + 1) == Snapshot(data, orders, now, j + 1);
        continue;
      }
      ghost var rest := Snapshot(data, orders, now, j + 1);
      ghost var cmds := DbCommands(data[j], orders[j], now);
      var sel := Print([SELECT, Decimal(j)]);
      CatOne(Print, [SELECT, Decimal(j)]);
      CatPlus(Print, [[SELECT, Decimal(j)]], cmds);
      CatPlus(Print, [[SELECT, Decimal(j)]] + cmds, rest);
      Associative(out, sel, PrintAll(cmds));
      Associative(out, sel + PrintAll(cmds), PrintAll(rest));
      out := out + sel;
      var text := WriteDb(data[j], orders[j], now);
      out := out + text;
    }
  }
}
