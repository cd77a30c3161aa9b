/** The server and the child that rewrites its append-only file, step by step. */
module AofProtocol {
  import opened Options
  import opened Powers
  import opened Resp
  import opened RespRoundTrip
  import opened AofDataset
  import opened AofTime
  import opened AofSnapshot
  import opened AofRewrite
  import opened AofDrift

  // ---------------------------------------------------------------- commands that can be printed

  predicate Printed(cmd: Command) {
    cmd != [] && (cmd[0] == SELECT || cmd[0] == SET || cmd[0] == RPUSH || cmd[0] == PEXPIREAT || cmd[0] == DEL)
  }

  ghost predicate KnownIfPrinted(known: Known, cmd: Command) {
    Printed(cmd) ==> known(cmd)
  }

  /** The loader finds the commands that the server prints of its own. */
  ghost predicate Knows(known: Known) {
    forall cmd: Command :: KnownIfPrinted(known, cmd)
  }

  lemma PrintedIsLoadable(known: Known, cmd: Command)
    requires Knows(known) && Printed(cmd) && WellFormed(cmd)
    ensures Loadable(known, [cmd])
  {
    assert KnownIfPrinted(known, cmd);
  }

  lemma LoadableSum(known: Known, a: seq<Command>, b: seq<Command>)
    requires Loadable(known, a) && Loadable(known, b)
    ensures Loadable(known, a + b)
  {
  }

  ghost predicate Sized(k: Bytes, o: Object) {
    && |k| <= MAX_LENGTH
    && (o.expire.Some? ==> o.expire.value <= MAX_LENGTH)
    && (match o.value
        case Str(b) => |b| <= MAX_LENGTH
        case Lst(items) => forall i :: 0 <= i < |items| ==> |items[i]| <= MAX_LENGTH)
  }

  ghost predicate SizedDb(db: Db) {
    forall k :: k in db ==> Sized(k, db[k])
  }

  lemma DecimalFits(n: nat)
    requires n <= MAX_LENGTH
    ensures |Decimal(n)| <= 19
  {
    assert Power(10, 10) == 1_00000_00000;
    assert Power(10, 19) == 10000_00000_00000_00000;
    DecimalLength(n, 19);
  }

  lemma {:induction false} ListFine(known: Known, k: Bytes, items: seq<Bytes>, chunk: nat)
    requires Knows(known) && 1 <= chunk <= 64
    requires |k| <= MAX_LENGTH && forall i :: 0 <= i < |items| ==> |items[i]| <= MAX_LENGTH
    ensures Loadable(known, ListCommands(k, items, chunk))
    decreases |items|
  {
    if items != [] {
      var n := Min(|items|, chunk);
      PrintedIsLoadable(known, [RPUSH, k] + items[..n]);
      ListFine(known, k, items[n..], chunk);
      LoadableSum(known, [[RPUSH, k] + items[..n]], ListCommands(k, items[n..], chunk));
    }
  }

  lemma ExpireFine(known: Known, k: Bytes, when: nat)
    requires Knows(known) && |k| <= MAX_LENGTH && when <= MAX_LENGTH
    ensures Loadable(known, [[PEXPIREAT, k, Decimal(when)]])
  {
    DecimalFits(when);
    PrintedIsLoadable(known, [PEXPIREAT, k, Decimal(when)]);
  }

  lemma KeyFine(known: Known, k: Bytes, o: Object, now: nat)
    requires Knows(known) && Sized(k, o)
    ensures Loadable(known, KeyCommands(k, o, now))
  {
    if o.value.Lst? {
      ListFine(known, k, o.value.items, ITEMS_PER_CMD);
    } else {
      PrintedIsLoadable(known, [SET, k, o.value.bytes]);
    }
    if o.expire.Some? {
      ExpireFine(known, k, o.expire.value);
    }
    LoadableSum(known, ValueCommands(k, o.value), ExpireCommands(k, o.expire));
  }

  lemma {:induction false} DbFine(known: Known, db: Db, order: seq<Bytes>, now: nat)
    requires Knows(known) && SizedDb(db) && forall k :: k in order ==> k in db
    ensures Loadable(known, DbCommands(db, order, now))
  {
    if order != [] {
      KeyFine(known, order[0], db[order[0]], now);
      DbFine(known, db, order[1..], now);
      LoadableSum(known, KeyCommands(order[0], db[order[0]], now), DbCommands(db, order[1..], now));
    }
  }

  lemma SelectFine(known: Known, d: nat)
    requires Knows(known) && d <= MAX_LENGTH
    ensures Loadable(known, [[SELECT, Decimal(d)]])
  {
    DecimalFits(d);
    PrintedIsLoadable(known, [SELECT, Decimal(d)]);
  }

  lemma {:induction false} SnapshotFine(known: Known, data: Dataset, orders: seq<seq<Bytes>>, now: nat, j: nat)
    requires Knows(known) && OrdersAll(data, orders) && j <= |data| <= MAX_LENGTH
    requires forall j :: 0 <= j < |data| ==> SizedDb(data[j])
    ensures Loadable(known, Snapshot(data, orders, now, j))
    decreases |data| - j
  {
    if j < |data| {
      SnapshotFine(known, data, orders, now, j + 1);
      DbFine(known, data[j], orders[j], now);
      SelectFine(known, j);
      LoadableSum(known, [[SELECT, Decimal(j)]], DbCommands(data[j], orders[j], now));
    }
  }

  lemma LoggedFine(known: Known, w: Write, now: nat, later: nat)
    requires Knows(known) && Feedable(known, w, now, later)
    ensures Loadable(known, Logged(w, now, later))
  {
    match w
    case Plain(cmd) =>
    case Expire(key, _, _, _) =>
      if Past(w, now) {
        PrintedIsLoadable(known, [DEL, key]);
      } else {
        ExpireFine(known, key, Stamp(w, later));
      }
    case SetEx(key, value, _, _) =>
      PrintedIsLoadable(known, [SET, key, value]);
      ExpireFine(known, key, Stamp(w, later));
      LoadableSum(known, [[SET, key, value]], [[PEXPIREAT, key, Decimal(Stamp(w, later))]]);
      assert Logged(w, now, later) == [[SET, key, value]] + [[PEXPIREAT, key, Decimal(Stamp(w, later))]];
  }

  lemma FeedFine(known: Known, selected: int, d: nat, w: Write, now: nat, later: nat)
    requires Knows(known) && Feedable(known, w, now, later) && d <= MAX_LENGTH
    ensures Loadable(known, FeedCommands(selected, d, w, now, later))
  {
    SelectFine(known, d);
    LoggedFine(known, w, now, later);
    LoadableSum(known, [[SELECT, Decimal(d)]], Logged(w, now, later));
  }

  // ---------------------------------------------------------------- the state

  datatype Mode = Off | On | WaitRewrite

  datatype Stage = Copying | Asked | Exited

  /** A rewrite in progress. The child was forked to write base; since are the commands fed from then
      on. Their text is spread over the parent's rewrite buffer (pending), the pipe and what the child
      has read (diff). ask and ack are the bytes in flight on the two other pipes. */
  datatype Child = Child(base: seq<Command>, since: seq<Command>, diff: Bytes, pipe: Bytes, pending: Bytes,
                         stop: bool, ask: bool, ack: bool, stage: Stage, tmp: Bytes)

  /** selected is the database the file has selected, or -1 if that must be said again. log are the
      commands whose text is the file followed by the buffer. */
  datatype Server = Server(live: Dataset, mode: Mode, selected: int, file: Bytes, buf: Bytes, log: seq<Command>,
                           child: Option<Child>)

  /** A write is executed at the time now and logged as of the time later; a server restarts at a time. */
  datatype Event =
    | Feed(d: nat, w: Write, now: nat, later: nat)
    | Change(live: Dataset)
    | Flush(n: nat)
    | Fork(orders: seq<seq<Bytes>>, now: nat)
    | Send(n: nat)
    | Read(n: nat)
    | Ask
    | Ack(delivered: bool)
    | Finish
    | Fail
    | Switch
    | Stop(n: nat)
    | Start
    | Restart(n: nat, at: nat)

  /** The number of databases, what commands do, which there are, and by how much a clock may have moved
      on. */
  datatype Config = Config(dbnum: nat, meaning: Meaning, known: Known, drift: nat)

  ghost predicate Plausible(g: Config) {
    g.dbnum <= MAX_LENGTH && Knows(g.known)
  }

  ghost predicate Sound(g: Config) {
    g.drift > 0 ==> Respects(g.drift, g.meaning.other)
  }

  /** What replaying the commands at the time t gives. */
  function Replayed(g: Config, t: nat, cmds: seq<Command>): Client {
    Replay(Executor(g.meaning, t), cmds, Client(0, Empty(g.dbnum)))
  }

  ghost predicate Storable(live: Dataset, now: nat) {
    forall j :: 0 <= j < |live| ==> SizedDb(live[j]) && forall k :: k in live[j] ==> Kept(live[j][k], now)
  }

  ghost predicate Enabled(g: Config, s: Server, e: Event) {
    match e
    case Feed(d, w, now, later) =>
      s.mode != Off && d < g.dbnum && Feedable(g.known, w, now, later) && (w.Expire? && d < |s.live| ==> w.key in s.live[d])
    case Change(live) => s.mode == Off && |live| == g.dbnum
    case Flush(n) => n <= |s.buf|
    case Fork(orders, now) => s.child.None? && OrdersAll(s.live, orders) && (s.mode != Off ==> Storable(s.live, now))
    case Send(n) => s.child.Some? && !s.child.value.stop && n <= |s.child.value.pending|
    case Read(n) => s.child.Some? && s.child.value.stage == Copying && n <= |s.child.value.pipe|
    case Ask => s.child.Some? && s.child.value.stage == Copying
    case Ack(_) => s.child.Some? && s.child.value.ask
    case Finish => s.child.Some? && s.child.value.stage == Asked && s.child.value.ack
    case Fail => s.child.Some?
    case Switch => s.child.Some? && s.child.value.stage == Exited
    case Stop(n) => s.mode != Off && n <= |s.buf|
    case Start => s.mode == Off && s.child.None?
    case Restart(n, _) => s.mode == On && n <= |s.file|
  }

  function Fed(g: Config, s: Server, d: nat, w: Write, now: nat, later: nat): Server
    requires d < |s.live|
  {
    var cmds := FeedCommands(s.selected, d, w, now, later);
    var text := PrintAll(cmds);
    var s1 := s.(live := Live(g.meaning, w, d, now, s.live), selected := d);
    var s2 := if s.mode == On then s1.(buf := s.buf + text, log := s.log + cmds) else s1;
    if s.child.None? then s2
    else
      var c := s.child.value;
      s2.(child := Some(c.(pending := c.pending + text, since := c.since + cmds)))
  }

  function Flushed(s: Server, n: nat): Server
    requires n <= |s.buf|
  {
    s.(file := s.file + s.buf[..n], buf := s.buf[n..])
  }

  function Forked(s: Server, orders: seq<seq<Bytes>>, now: nat): Server
    requires OrdersAll(s.live, orders)
  {
    s.(selected := -1,
       child := Some(Child(Snapshot(s.live, orders, now, 0), [], [], [], [], false, false, false, Copying, [])))
  }

  function Finished(c: Child): Child {
    c.(diff := c.diff + c.pipe, pipe := [], stage := Exited, tmp := PrintAll(c.base) + (c.diff + c.pipe))
  }

  /** backgroundRewriteDoneHandler, when the child has succeeded and so do all the file operations. */
  function Switched(s: Server, c: Child): Server {
    if s.mode == Off then s.(file := c.tmp + c.pending, child := None)
    else s.(file := c.tmp + c.pending, buf := [], selected := -1, mode := On, log := c.base + c.since, child := None)
  }

  /** The file is loaded, and truncated if it ends unexpectedly. */
  function Reloaded(g: Config, s: Server, n: nat, at: nat): Server
    requires n <= |s.file|
  {
    var r := Load(g.known, s.file[..n]);
    var file := if r.validUpTo <= n then s.file[..r.validUpTo] else s.file[..n];
    Server(Replayed(g, at, r.cmds).data, On, -1, file, [], r.cmds, None)
  }

  ghost function Apply(g: Config, s: Server, e: Event): Server
    requires Enabled(g, s, e) && |s.live| == g.dbnum
  {
    match e
    case Feed(d, w, now, later) => Fed(g, s, d, w, now, later)
    case Change(live) => s.(live := live)
    case Flush(n) => Flushed(s, n)
    case Fork(orders, now) => Forked(s, orders, now)
    case Send(n) =>
      var c := s.child.value;
      s.(child := Some(c.(pipe := c.pipe + c.pending[..n], pending := c.pending[n..])))
    case Read(n) =>
      var c := s.child.value;
      s.(child := Some(c.(diff := c.diff + c.pipe[..n], pipe := c.pipe[n..])))
    case Ask => s.(child := Some(s.child.value.(stage := Asked, ask := true)))
    case Ack(delivered) => s.(child := Some(s.child.value.(stop := true, ask := false, ack := delivered)))
    case Finish => s.(child := Some(Finished(s.child.value)))
    case Fail => s.(child := None)
    case Switch => Switched(s, s.child.value)
    case Stop(n) => Flushed(s, n).(mode := Off, selected := -1, child := None)
    case Start => s.(mode := WaitRewrite)
    case Restart(n, at) => Reloaded(g, s, n, at)
  }

  // ---------------------------------------------------------------- the invariants

  /** Every byte fed since the fork is in exactly one place, in order. */
  ghost predicate Conserved(c: Child) {
    if c.stage == Exited then c.stop && c.tmp + c.pending == PrintAll(c.base) + PrintAll(c.since)
    else (c.ack ==> c.stop) && c.diff + c.pipe + c.pending == PrintAll(c.since)
  }

  ghost predicate LogText(g: Config, s: Server) {
    s.mode == On ==> s.file + s.buf == PrintAll(s.log) && Loadable(g.known, s.log)
  }

  ghost predicate ChildText(g: Config, s: Server) {
    s.child.Some? ==>
      Conserved(s.child.value) && (s.mode != Off ==> Loadable(g.known, s.child.value.base + s.child.value.since))
  }

  /** What every run keeps about the text. */
  ghost predicate TextInv(g: Config, s: Server) {
    |s.live| == g.dbnum && LogText(g, s) && ChildText(g, s)
  }

  /** Replaying the commands at the time t gives the live dataset, up to the drift, and leaves selected the
      database the server believes selected. */
  ghost predicate Faithful(g: Config, t: nat, cmds: seq<Command>, selected: int, live: Dataset) {
    && Near(g.drift, live, Replayed(g, t, cmds).data)
    && (selected >= 0 ==> Replayed(g, t, cmds).sel == selected)
  }

  ghost predicate LogFaithful(g: Config, t: nat, s: Server) {
    s.mode == On ==> Faithful(g, t, s.log, s.selected, s.live)
  }

  ghost predicate ChildFaithful(g: Config, t: nat, s: Server) {
    s.child.Some? && s.mode != Off ==> Faithful(g, t, s.child.value.base + s.child.value.since, s.selected, s.live)
  }

  /** What runs keep about a load at the time t. */
  ghost predicate ReplayInv(g: Config, t: nat, s: Server) {
    LogFaithful(g, t, s) && ChildFaithful(g, t, s)
  }

  /** The step does not come too early for a load at the time t: a write is logged within the drift, and is
      steady or dated or was executed within the drift of t; a restart is within the drift of t, or loads
      only steady commands. */
  ghost predicate Timely(g: Config, t: nat, s: Server, e: Event) {
    match e
    case Feed(_, w, now, later) => later <= now + g.drift && Fresh(g.drift, g.meaning, w, now, t)
    case Restart(_, at) => at <= t <= at + g.drift || AllSteady(g.meaning, s.log)
    case _ => true
  }
}
