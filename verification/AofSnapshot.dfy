/** The rewrite of a dataset as commands, and what replaying them gives. */
module AofSnapshot {
  import opened Options
  import opened Resp
  import opened AofDataset

  const ITEMS_PER_CMD := 64

  // ---------------------------------------------------------------- the commands

  function Min(a: nat, b: nat): nat {
    if a < b then a else b
  }

  function ListCommands(k: Bytes, items: seq<Bytes>, chunk: nat): seq<Command>
    requires chunk >= 1
    decreases |items|
  {
    if items == [] then []
    else
      var n := Min(|items|, chunk);
      [[RPUSH, k] + items[..n]] + ListCommands(k, items[n..], chunk)
  }

  function ValueCommands(k: Bytes, v: Value): seq<Command> {
    match v
    case Str(b) => [[SET, k, b]]
    case Lst(items) => ListCommands(k, items, ITEMS_PER_CMD)
  }

  function ExpireCommands(k: Bytes, expire: Option<nat>): seq<Command> {
    if expire.Some? then [[PEXPIREAT, k, Decimal(expire.value)]] else []
  }

  predicate Expired(o: Object, now: nat) {
    o.expire.Some? && o.expire.value < now
  }

  function KeyCommands(k: Bytes, o: Object, now: nat): seq<Command> {
    if Expired(o, now) then [] else ValueCommands(k, o.value) + ExpireCommands(k, o.expire)
  }

  /** The commands of one database, its keys in the order in which the iterator returns them. */
  function DbCommands(db: Db, order: seq<Bytes>, now: nat): seq<Command>
    requires forall k :: k in order ==> k in db
  {
    if order == [] then [] else KeyCommands(order[0], db[order[0]], now) + DbCommands(db, order[1..], now)
  }

  ghost predicate Orders(db: Db, order: seq<Bytes>) {
    && (forall k :: k in order <==> k in db)
    && (forall i, j :: 0 <= i < j < |order| ==> order[i] != order[j])
  }

  ghost predicate OrdersAll(data: Dataset, orders: seq<seq<Bytes>>) {
    |orders| == |data| && forall j :: 0 <= j < |data| ==> Orders(data[j], orders[j])
  }

  /** The commands of the databases from j on. */
  function Snapshot(data: Dataset, orders: seq<seq<Bytes>>, now: nat, j: nat): seq<Command>
    requires OrdersAll(data, orders) && j <= |data|
    decreases |data| - j
  {
    if j == |data| then []
    else
      (if data[j] == map[] then [] else [[SELECT, Decimal(j)]] + DbCommands(data[j], orders[j], now))
      + Snapshot(data, orders, now, j + 1)
  }

  // ---------------------------------------------------------------- what is kept

  /** A key that the rewrite reproduces: not expired, and not an empty list. */
  predicate Kept(o: Object, now: nat) {
    !Expired(o, now) && o.value != Lst([])
  }

  function KeptDb(db: Db, now: nat): Db {
    map k | k in db && Kept(db[k], now) :: db[k]
  }

  function KeptData(data: Dataset, now: nat): Dataset {
    seq(|data|, j requires 0 <= j < |data| => KeptDb(data[j], now))
  }

  // ---------------------------------------------------------------- replaying them

  lemma ChangedTwice(c: Client, db1: Db, db2: Db)
    requires c.sel < |c.data|
    ensures Changed(Changed(c, db1), db2) == Changed(c, db2)
  {
    assert c.data[c.sel := db1][c.sel := db2] == c.data[c.sel := db2];
  }

  lemma PushReplays(exec: Run, k: Bytes, items: seq<Bytes>, c: Client)
    requires Obeys(exec) && c.sel < |c.data| && items != []
    ensures Replay(exec, [[RPUSH, k] + items], c) == Changed(c, Push(c.data[c.sel], k, items))
  {
    ReplayOne(exec, [RPUSH, k] + items, c);
    assert Pushes(exec, k, items, c);
  }

  lemma {:induction false} ListReplays(exec: Run, k: Bytes, items: seq<Bytes>, chunk: nat, c: Client)
    requires Obeys(exec) && chunk >= 1 && c.sel < |c.data| && (k in c.data[c.sel] ==> c.data[c.sel][k].value.Lst?)
    ensures Replay(exec, ListCommands(k, items, chunk), c) ==
            if items == [] then c else Changed(c, Push(c.data[c.sel], k, items))
    decreases |items|
  {
    if items != [] {
      var n := Min(|items|, chunk);
      var a, b := items[..n], items[n..];
      var c1 := Changed(c, Push(c.data[c.sel], k, a));
      PushThen(exec, k, a, ListCommands(k, b, chunk), c);
      PushTwice(c.data[c.sel], k, a, b);
      ListReplays(exec, k, b, chunk, c1);
      PushedTwice(c, k, a, b);
      assert a + b == items;
    }
  }

  lemma PushedTwice(c: Client, k: Bytes, a: seq<Bytes>, b: seq<Bytes>)
    requires c.sel < |c.data| && (k in c.data[c.sel] ==> c.data[c.sel][k].value.Lst?)
    ensures var c1 := Changed(c, Push(c.data[c.sel], k, a));
            && (b == [] ==> c1 == Changed(c, Push(c.data[c.sel], k, a + b)))
            && Changed(c1, Push(c1.data[c1.sel], k, b)) == Changed(c, Push(c.data[c.sel], k, a + b))
  {
    PushTwice(c.data[c.sel], k, a, b);
    ChangedTwice(c, Push(c.data[c.sel], k, a), Push(c.data[c.sel], k, a + b));
  }

  lemma PushThen(exec: Run, k: Bytes, a: seq<Bytes>, rest: seq<Command>, c: Client)
    requires Obeys(exec) && c.sel < |c.data| && a != []
    ensures Replay(exec, [[RPUSH, k] + a] + rest, c) == Replay(exec, rest, Changed(c, Push(c.data[c.sel], k, a)))
  {
    ReplaySplit(exec, [[RPUSH, k] + a], rest, c);
    PushReplays(exec, k, a, c);
  }

  lemma PushTwice(db: Db, k: Bytes, a: seq<Bytes>, b: seq<Bytes>)
    requires k in db ==> db[k].value.Lst?
    ensures Push(Push(db, k, a), k, b) == Push(db, k, a + b)
    ensures k in Push(db, k, a) && Push(db, k, a)[k].value.Lst?
    ensures b == [] ==> a + b == a
  {
    if k in db {
      assert db[k].value.items + a + b == db[k].value.items + (a + b);
    }
  }

  lemma ValueReplays(exec: Run, k: Bytes, v: Value, c: Client)
    requires Obeys(exec) && c.sel < |c.data| && k !in c.data[c.sel]
    ensures Replay(exec, ValueCommands(k, v), c) ==
            if v == Lst([]) then c else Changed(c, c.data[c.sel][k := Object(v, None)])
  {
    if v.Str? {
      ReplayOne(exec, [SET, k, v.bytes], c);
      assert Sets(exec, k, v.bytes, c);
    } else {
      ListReplays(exec, k, v.items, ITEMS_PER_CMD, c);
    }
  }

  lemma ExpireReplays(exec: Run, k: Bytes, expire: Option<nat>, c: Client)
    requires Obeys(exec) && c.sel < |c.data|
    ensures Replay(exec, ExpireCommands(k, expire), c) ==
            if expire.Some? then Changed(c, SetExpire(c.data[c.sel], k, expire.value)) else c
  {
    if expire.Some? {
      ReplayOne(exec, [PEXPIREAT, k, Decimal(expire.value)], c);
      assert Expires(exec, k, expire.value, c);
    }
  }

  /** Setting a value and then its expiry time is setting the object. */
  lemma SetThenExpire(c: Client, k: Bytes, o: Object)
    requires c.sel < |c.data| && k !in c.data[c.sel]
    ensures o.expire.Some? ==>
      var c1 := Changed(c, c.data[c.sel][k := Object(o.value, None)]);
      Changed(c1, SetExpire(c1.data[c.sel], k, o.expire.value)) == Changed(c, c.data[c.sel][k := o])
    ensures o.expire.Some? ==> Changed(c, SetExpire(c.data[c.sel], k, o.expire.value)) == c
  {
    var db := c.data[c.sel];
    var db1 := db[k := Object(o.value, None)];
    if o.expire.Some? {
      assert SetExpire(db1, k, o.expire.value) == db[k := o];
      ChangedTwice(c, db1, db[k := o]);
      assert c.data[c.sel := db] == c.data;
    }
  }

  lemma KeyReplays(exec: Run, k: Bytes, o: Object, now: nat, c: Client)
    requires Obeys(exec) && c.sel < |c.data| && k !in c.data[c.sel]
    ensures Replay(exec, KeyCommands(k, o, now), c) ==
            if Kept(o, now) then Changed(c, c.data[c.sel][k := o]) else c
  {
    if !Expired(o, now) {
      var c1 := if o.value == Lst([]) then c else Changed(c, c.data[c.sel][k := Object(o.value, None)]);
      var a, b := ValueCommands(k, o.value), ExpireCommands(k, o.expire);
      ReplaySplit(exec, a, b, c);
      ValueReplays(exec, k, o.value, c);
      ExpireReplays(exec, k, o.expire, c1);
      SetThenExpire(c, k, o);
      assert o.expire.None? ==> o == Object(o.value, None);
    }
  }

  function Added(db: Db, k: Bytes, o: Object, now: nat): Db {
    if Kept(o, now) then db[k := o] else db
  }

  /** The database that the keys of order, one after the other, build up on top of base. */
  function Filled(db: Db, order: seq<Bytes>, now: nat, base: Db): Db
    requires forall k :: k in order ==> k in db
  {
    if order == [] then base else Filled(db, order[1..], now, Added(base, order[0], db[order[0]], now))
  }

  lemma {:induction false} FilledHas(db: Db, order: seq<Bytes>, now: nat, base: Db, k: Bytes)
    requires forall k :: k in order ==> k in db
    ensures k in Filled(db, order, now, base) <==> k in base || (k in order && Kept(db[k], now))
    ensures k in order && Kept(db[k], now) ==> Filled(db, order, now, base)[k] == db[k]
    ensures k in base && k !in order ==> Filled(db, order, now, base)[k] == base[k]
  {
    if order != [] {
      var base1 := Added(base, order[0], db[order[0]], now);
      FilledHas(db, order[1..], now, base1, k);
      assert k in order <==> k == order[0] || k in order[1..];
    }
  }

  lemma FilledIsKept(db: Db, order: seq<Bytes>, now: nat)
    requires Orders(db, order)
    ensures Filled(db, order, now, map[]) == KeptDb(db, now)
  {
    forall k
      ensures k in Filled(db, order, now, map[]) <==> k in KeptDb(db, now)
      ensures k in KeptDb(db, now) ==> Filled(db, order, now, map[])[k] == KeptDb(db, now)[k]
    {
      FilledHas(db, order, now, map[], k);
    }
  }

  lemma {:induction false} DbReplays(exec: Run, db: Db, order: seq<Bytes>, now: nat, c: Client)
    requires Obeys(exec) && c.sel < |c.data|
    requires (forall k :: k in order ==> k in db && k !in c.data[c.sel])
    requires forall i, j :: 0 <= i < j < |order| ==> order[i] != order[j]
    ensures Replay(exec, DbCommands(db, order, now), c) == Changed(c, Filled(db, order, now, c.data[c.sel]))
  {
    if order == [] {
      assert c.data[c.sel := c.data[c.sel]] == c.data;
    } else {
      var k, o := order[0], db[order[0]];
      var c1 := Changed(c, Added(c.data[c.sel], k, o, now));
      ReplaySplit(exec, KeyCommands(k, o, now), DbCommands(db, order[1..], now), c);
      KeyReplays(exec, k, o, now, c);
      assert Kept(o, now) || c1 == c by {
        assert c.data[c.sel := c.data[c.sel]] == c.data;
      }
      DbReplays(exec, db, order[1..], now, c1);
      assert c.data[c.sel := c1.data[c.sel]] == c1.data;
      assert c1.data[c.sel := Filled(db, order[1..], now, c1.data[c.sel])] == c.data[c.sel := Filled(db, order[1..], now, c1.data[c.sel])];
    }
  }

  function Empty(n: nat): Dataset {
    seq(n, _ => map[])
  }

  /** Databases below j as kept, those from j on empty. */
  ghost predicate Rebuilt(data: Dataset, now: nat, j: nat, c: Client) {
    && |c.data| == |data| && j <= |data|
    && (forall i :: 0 <= i < j ==> c.data[i] == KeptDb(data[i], now))
    && (forall i :: j <= i < |data| ==> c.data[i] == map[])
  }

  lemma DbRebuilt(exec: Run, data: Dataset, order: seq<Bytes>, now: nat, j: nat, c: Client)
    requires Obeys(exec) && j < |data| && Orders(data[j], order) && Rebuilt(data, now, j, c)
    ensures Rebuilt(data, now, j + 1, Replay(exec, [[SELECT, Decimal(j)]] + DbCommands(data[j], order, now), c))
  {
    var c1 := c.(sel := j);
    ReplaySplit(exec, [[SELECT, Decimal(j)]], DbCommands(data[j], order, now), c);
    ReplayOne(exec, [SELECT, Decimal(j)], c);
    assert Selects(exec, j, c);
    DbReplays(exec, data[j], order, now, c1);
    FilledIsKept(data[j], order, now);
  }

  lemma {:induction false} SnapshotRebuilds(exec: Run, data: Dataset, orders: seq<seq<Bytes>>, now: nat, j: nat, c: Client)
    requires Obeys(exec) && OrdersAll(data, orders) && Rebuilt(data, now, j, c)
    ensures Replay(exec, Snapshot(data, orders, now, j), c).data == KeptData(data, now)
    decreases |data| - j
  {
    if j == |data| {
      assert c.data == KeptData(data, now);
    } else {
      var here := if data[j] == map[] then [] else [[SELECT, Decimal(j)]] + DbCommands(data[j], orders[j], now);
      ReplaySplit(exec, here, Snapshot(data, orders, now, j + 1), c);
      if data[j] == map[] {
        assert KeptDb(data[j], now) == map[];
      } else {
        DbRebuilt(exec, data, orders[j], now, j, c);
      }
      SnapshotRebuilds(exec, data, orders, now, j + 1, Replay(exec, here, c));
    }
  }

  /** Replaying the rewrite of any dataset on an empty server gives the dataset without the keys that
      were expired; so it gives the dataset itself exactly when no key was. */
  lemma SnapshotReplays(m: Meaning, t: nat, data: Dataset, orders: seq<seq<Bytes>>, now: nat, sel: nat)
    requires OrdersAll(data, orders)
    ensures Replay(Executor(m, t), Snapshot(data, orders, now, 0), Client(sel, Empty(|data|))).data == KeptData(data, now)
    ensures KeptData(data, now) == data <==> forall j, k :: 0 <= j < |data| && k in data[j] ==> Kept(data[j][k], now)
  {
    ExecObeys(m, t);
    SnapshotRebuilds(Executor(m, t), data, orders, now, 0, Client(sel, Empty(|data|)));
    KeptIff(data, now);
  }

  lemma KeptIff(data: Dataset, now: nat)
    ensures KeptData(data, now) == data <==> forall j, k :: 0 <= j < |data| && k in data[j] ==> Kept(data[j][k], now)
  {
    if forall j, k :: 0 <= j < |data| && k in data[j] ==> Kept(data[j][k], now) {
      forall j | 0 <= j < |data|
        ensures KeptData(data, now)[j] == data[j]
      {
      }
    } else {
      var j, k :| 0 <= j < |data| && k in data[j] && !Kept(data[j][k], now);
      assert k !in KeptData(data, now)[j];
    }
  }
}
