/** Runs in which no write that is logged as it is carries a relative expiry, and a run with one. */
module AofSteady {
  import opened Options
  import opened Resp
  import opened RespRoundTrip
  import opened AofDataset
  import opened AofTime
  import opened AofSnapshot
  import opened AofRewrite
  import opened AofDrift
  import opened AofProtocol
  import opened AofSafety

  // ---------------------------------------------------------------- what the server prints is steady

  lemma SteadySum(m: Meaning, a: seq<Command>, b: seq<Command>)
    requires AllSteady(m, a) && AllSteady(m, b)
    ensures AllSteady(m, a + b)
  {
  }

  lemma SteadySelect(m: Meaning, n: nat)
    ensures AllSteady(m, [[SELECT, Decimal(n)]])
  {
    UpperNames();
    OneName([SELECT, Decimal(n)]);
  }

  lemma SteadySet(m: Meaning, k: Bytes, v: Bytes)
    ensures AllSteady(m, [[SET, k, v]])
  {
    var cmd := [SET, k, v];
    UpperNames();
    OneName(cmd);
    assert cmd[3..] == [];
  }

  lemma SteadyPush(m: Meaning, k: Bytes, items: seq<Bytes>)
    requires items != []
    ensures AllSteady(m, [[RPUSH, k] + items])
  {
    var cmd := [RPUSH, k] + items;
    UpperNames();
    OneName(cmd);
    assert cmd[0] == RPUSH;
  }

  lemma SteadyExpire(m: Meaning, k: Bytes, when: nat)
    ensures AllSteady(m, [[PEXPIREAT, k, Decimal(when)]])
  {
    UpperNames();
    OneName([PEXPIREAT, k, Decimal(when)]);
    NumberOfDecimal(when);
  }

  lemma SteadyDelete(m: Meaning, k: Bytes)
    ensures AllSteady(m, [[DEL, k]])
  {
    UpperNames();
    OneName([DEL, k]);
  }

  lemma {:induction false} ListSteady(m: Meaning, k: Bytes, items: seq<Bytes>, chunk: nat)
    requires chunk >= 1
    ensures AllSteady(m, ListCommands(k, items, chunk))
    decreases |items|
  {
    if items != [] {
      var n := Min(|items|, chunk);
      SteadyPush(m, k, items[..n]);
      ListSteady(m, k, items[n..], chunk);
      SteadySum(m, [[RPUSH, k] + items[..n]], ListCommands(k, items[n..], chunk));
    }
  }

  lemma KeySteady(m: Meaning, k: Bytes, o: Object, now: nat)
    ensures AllSteady(m, KeyCommands(k, o, now))
  {
    if o.value.Lst? {
      ListSteady(m, k, o.value.items, ITEMS_PER_CMD);
    } else {
      SteadySet(m, k, o.value.bytes);
    }
    if o.expire.Some? {
      SteadyExpire(m, k, o.expire.value);
    }
    SteadySum(m, ValueCommands(k, o.value), ExpireCommands(k, o.expire));
  }

  lemma {:induction false} DbSteady(m: Meaning, db: Db, order: seq<Bytes>, now: nat)
    requires forall k :: k in order ==> k in db
    ensures AllSteady(m, DbCommands(db, order, now))
  {
    if order != [] {
      KeySteady(m, order[0], db[order[0]], now);
      DbSteady(m, db, order[1..], now);
      SteadySum(m, KeyCommands(order[0], db[order[0]], now), DbCommands(db, order[1..], now));
    }
  }

  /** The rewrite of any dataset is steady. */
  lemma {:induction false} SnapshotSteady(m: Meaning, data: Dataset, orders: seq<seq<Bytes>>, now: nat, j: nat)
    requires OrdersAll(data, orders) && j <= |data|
    ensures AllSteady(m, Snapshot(data, orders, now, j))
    decreases |data| - j
  {
    if j < |data| {
      SnapshotSteady(m, data, orders, now, j + 1);
      DbSteady(m, data[j], orders[j], now);
      SteadySelect(m, j);
      SteadySum(m, [[SELECT, Decimal(j)]], DbCommands(data[j], orders[j], now));
    }
  }

  ghost predicate SteadyWrite(m: Meaning, w: Write) {
    w.Plain? ==> Steady(m, w.cmd)
  }

  lemma FeedSteady(m: Meaning, selected: int, d: nat, w: Write, now: nat, later: nat)
    requires SteadyWrite(m, w)
    ensures AllSteady(m, FeedCommands(selected, d, w, now, later))
  {
    SteadySelect(m, d);
    match w {
      case Plain(cmd) =>
      case Expire(key, _, _, _) =>
        SteadyDelete(m, key);
        SteadyExpire(m, key, Stamp(w, later));
      case SetEx(key, value, _, _) =>
        SteadySet(m, key, value);
        SteadyExpire(m, key, Stamp(w, later));
        SteadySum(m, [[SET, key, value]], [[PEXPIREAT, key, Decimal(Stamp(w, later))]]);
        assert Logged(w, now, later) == [[SET, key, value]] + [[PEXPIREAT, key, Decimal(Stamp(w, later))]];
    }
    SteadySum(m, [[SELECT, Decimal(d)]], Logged(w, now, later));
  }

  // ---------------------------------------------------------------- runs of steady writes

  ghost predicate SteadyInv(g: Config, s: Server) {
    && (s.mode == On ==> AllSteady(g.meaning, s.log))
    && (s.child.Some? ==> AllSteady(g.meaning, s.child.value.base + s.child.value.since))
  }

  ghost predicate SteadyEvent(g: Config, e: Event) {
    e.Feed? ==> e.later <= e.now + g.drift && SteadyWrite(g.meaning, e.w)
  }

  lemma FeedKeepsSteady(g: Config, s: Server, d: nat, w: Write, now: nat, later: nat)
    requires SteadyInv(g, s) && d < |s.live| && SteadyWrite(g.meaning, w)
    ensures SteadyInv(g, Fed(g, s, d, w, now, later))
  {
    var more := FeedCommands(s.selected, d, w, now, later);
    FeedSteady(g.meaning, s.selected, d, w, now, later);
    if s.mode == On {
      SteadySum(g.meaning, s.log, more);
    }
    if s.child.Some? {
      var c := s.child.value;
      SteadySum(g.meaning, c.base + c.since, more);
      assert c.base + c.since + more == c.base + (c.since + more);
    }
  }

  lemma StepKeepsSteady(g: Config, s: Server, e: Event)
    requires TextInv(g, s) && SteadyInv(g, s) && Enabled(g, s, e) && SteadyEvent(g, e)
    ensures SteadyInv(g, Apply(g, s, e))
  {
    match e
    case Feed(d, w, now, later) =>
      FeedKeepsSteady(g, s, d, w, now, later);
    case Fork(orders, now) =>
      var base := Snapshot(s.live, orders, now, 0);
      SnapshotSteady(g.meaning, s.live, orders, now, 0);
      assert base + [] == base;
    case Restart(n, at) =>
      RestartKeepsText(g, s, n, at);
    case _ =>
  }

  /** A run of steady writes is timely for a load at any time. */
  lemma {:induction false} SteadyIsTimely(g: Config, t: nat, s: Server, events: seq<Event>, s': Server)
    requires Plausible(g) && TextInv(g, s) && SteadyInv(g, s) && Runs(g, s, events, s')
    requires forall i :: 0 <= i < |events| ==> SteadyEvent(g, events[i])
    ensures TimelyRun(g, t, s, events)
    decreases |events|
  {
    if events != [] {
      assert SteadyEvent(g, events[0]);
      StepKeepsText(g, s, events[0]);
      StepKeepsSteady(g, s, events[0]);
      SteadyIsTimely(g, t, Apply(g, s, events[0]), events[1..], s');
    }
  }

  /** So in every run in which no write that is logged as it is carries a relative expiry, file and buffer
      replay to the live dataset at whatever time they are loaded: the same keys and values, each expiry
      later by at most what the clock moved on between a command and its logging. */
  lemma SteadyFileReplays(g: Config, t: nat, s0: Server, events: seq<Event>, s: Server)
    requires Plausible(g) && Sound(g) && Initial(g, s0) && Runs(g, s0, events, s) && s.mode == On
    requires forall i :: 0 <= i < |events| ==> SteadyEvent(g, events[i])
    ensures Near(g.drift, s.live, Replayed(g, t, Load(g.known, s.file + s.buf).cmds).data)
    ensures g.drift == 0 ==> Replayed(g, t, Load(g.known, s.file + s.buf).cmds).data == s.live
  {
    InitialInv(g, t, s0);
    SteadyIsTimely(g, t, s0, events, s);
    FileReplaysToLive(g, t, s0, events, s);
  }

  /** And so does the file of a child that has finished. */
  lemma SteadyRewriteReplays(g: Config, t: nat, s0: Server, events: seq<Event>, s: Server)
    requires Plausible(g) && Sound(g) && Initial(g, s0) && Runs(g, s0, events, s)
    requires s.mode != Off && s.child.Some? && s.child.value.stage == Exited
    requires forall i :: 0 <= i < |events| ==> SteadyEvent(g, events[i])
    ensures var r := Load(g.known, s.child.value.tmp + s.child.value.pending);
            Near(g.drift, s.live, Replayed(g, t, r.cmds).data) && (g.drift == 0 ==> Replayed(g, t, r.cmds).data == s.live)
  {
    InitialInv(g, t, s0);
    SteadyIsTimely(g, t, s0, events, s);
    RewriteReplaysToLive(g, t, s0, events, s);
  }

  // ---------------------------------------------------------------- SET k v EX 100

  /** A server with the file on that has executed SET k v EX 100 once. */
  function AfterSetEx100(g: Config, k: Bytes, v: Bytes, now: nat): Server
    requires g.dbnum >= 1
  {
    Fed(g, Server(Empty(g.dbnum), On, -1, [], [], [], None), 0, Plain(SetEx100(k, v)), now, now)
  }

  lemma OneKey(n: nat, k: Bytes, o: Object, o1: Object, drift: nat)
    requires n >= 1
    ensures Near(drift, Empty(n)[0 := map[k := o]], Empty(n)[0 := map[k := o1]]) <==> NearObject(drift, o, o1)
  {
    var a, b := Empty(n)[0 := map[k := o]], Empty(n)[0 := map[k := o1]];
    assert a[0][k] == o && b[0][k] == o1;
    if Near(drift, a, b) {
      assert NearDb(drift, a[0], b[0]);
    }
  }

  /** Its file, loaded at the time t, is not off by more than a given drift exactly if t is not: the key
      lives on for as long again as the file has lain. */
  lemma RelativeExpiryMoves(g: Config, k: Bytes, v: Bytes, now: nat, t: nat)
    requires g.dbnum >= 1
    ensures var s := AfterSetEx100(g, k, v, now);
            && s.log == [[SELECT, Decimal(0)], SetEx100(k, v)]
            && s.live[0] == map[k := Object(Str(v), Some(now + 100000))]
            && (Near(g.drift, s.live, Replayed(g, t, s.log).data) <==> now <= t <= now + g.drift)
  {
    var s, c := AfterSetEx100(g, k, v, now), Client(0, Empty(g.dbnum));
    var cmd := SetEx100(k, v);
    assert s.log == [] + FeedCommands(-1, 0, Plain(cmd), now, now) == [[SELECT, Decimal(0)], cmd];
    SetEx100Moves(g.meaning, k, v, now, c);
    SetEx100Moves(g.meaning, k, v, t, c);
    ReplayTwo(Executor(g.meaning, t), [SELECT, Decimal(0)], cmd, c);
    ExecSelect(g.meaning, t, 0, c);
    var o, o1 := Object(Str(v), Some(now + 100000)), Object(Str(v), Some(t + 100000));
    assert Empty(g.dbnum)[0][k := o] == map[k := o] && Empty(g.dbnum)[0][k := o1] == map[k := o1];
    OneKey(g.dbnum, k, o, o1, g.drift);
  }

  /** That is a run. */
  lemma SetEx100Runs(g: Config, k: Bytes, v: Bytes, now: nat)
    requires g.dbnum >= 1 && |k| <= MAX_LENGTH && |v| <= MAX_LENGTH && g.known(SetEx100(k, v))
    ensures var s0 := Server(Empty(g.dbnum), On, -1, [], [], [], None);
            Initial(g, s0) && Runs(g, s0, [Feed(0, Plain(SetEx100(k, v)), now, now)], AfterSetEx100(g, k, v, now))
  {
    var s0, e := Server(Empty(g.dbnum), On, -1, [], [], [], None), Feed(0, Plain(SetEx100(k, v)), now, now);
    var cmd := SetEx100(k, v);
    UpperNames();
    assert Upper(cmd[0]) == SET && |SET| == 3;
    assert |cmd| == 5 && forall i :: 0 <= i < |cmd| ==> |cmd[i]| <= MAX_LENGTH;
    assert !Special(cmd);
    assert Enabled(g, s0, e) && Apply(g, s0, e) == AfterSetEx100(g, k, v, now);
    assert [e][1..] == [];
  }
}
