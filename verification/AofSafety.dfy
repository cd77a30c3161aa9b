/** In every run the append-only file is worth what it promises. */
module AofSafety {
  import opened Options
  import opened Resp
  import opened RespRoundTrip
  import opened AofDataset
  import opened AofTime
  import opened AofSnapshot
  import opened AofWriter
  import opened AofRewrite
  import opened AofDrift
  import opened AofProtocol

  // ---------------------------------------------------------------- the text

  lemma PrintMore(text: Bytes, cmds: seq<Command>, more: seq<Command>, a: Bytes, b: Bytes)
    requires a + b == text + PrintAll(cmds)
    ensures a + (b + PrintAll(more)) == text + PrintAll(cmds + more)
  {
    CatPlus(Print, cmds, more);
    Associative(a, b, PrintAll(more));
    Associative(text, PrintAll(cmds), PrintAll(more));
  }

  lemma ChildFed(c: Child, more: seq<Command>)
    requires Conserved(c)
    ensures Conserved(c.(pending := c.pending + PrintAll(more), since := c.since + more))
  {
    if c.stage == Exited {
      PrintMore(PrintAll(c.base), c.since, more, c.tmp, c.pending);
    } else {
      assert [] + PrintAll(c.since) == PrintAll(c.since);
      PrintMore([], c.since, more, c.diff + c.pipe, c.pending);
      assert [] + PrintAll(c.since + more) == PrintAll(c.since + more);
    }
  }

  lemma FeedKeepsLog(g: Config, s: Server, d: nat, w: Write, now: nat, later: nat)
    requires Plausible(g) && TextInv(g, s) && Enabled(g, s, Feed(d, w, now, later))
    ensures LogText(g, Fed(g, s, d, w, now, later))
  {
    if s.mode == On {
      assert [] + PrintAll(s.log) == PrintAll(s.log);
      var more := FeedCommands(s.selected, d, w, now, later);
      FeedFine(g.known, s.selected, d, w, now, later);
      LoadableSum(g.known, s.log, more);
      PrintMore([], s.log, more, s.file, s.buf);
      assert [] + PrintAll(s.log + more) == PrintAll(s.log + more);
    }
  }

  lemma FeedKeepsChild(g: Config, s: Server, d: nat, w: Write, now: nat, later: nat)
    requires Plausible(g) && TextInv(g, s) && Enabled(g, s, Feed(d, w, now, later))
    ensures ChildText(g, Fed(g, s, d, w, now, later))
  {
    if s.child.Some? {
      var c, more := s.child.value, FeedCommands(s.selected, d, w, now, later);
      FeedFine(g.known, s.selected, d, w, now, later);
      LoadableSum(g.known, c.base + c.since, more);
      assert c.base + c.since + more == c.base + (c.since + more);
      ChildFed(c, more);
    }
  }

  lemma LiveKeepsLength(g: Config, w: Write, d: nat, now: nat, later: nat, live: Dataset)
    requires d < |live| && Feedable(g.known, w, now, later)
    ensures |Live(g.meaning, w, d, now, live)| == |live|
  {
    if w.Plain? {
      ExecKeepsLength(g.meaning, now, w.cmd, Client(d, live));
    }
  }

  lemma FlushKeepsText(g: Config, s: Server, n: nat)
    requires LogText(g, s) && n <= |s.buf|
    ensures LogText(g, Flushed(s, n))
  {
    assert s.file + s.buf[..n] + s.buf[n..] == s.file + s.buf;
  }

  lemma ForkIsLoadable(g: Config, live: Dataset, orders: seq<seq<Bytes>>, now: nat)
    requires Plausible(g) && |live| == g.dbnum && OrdersAll(live, orders) && Storable(live, now)
    ensures Loadable(g.known, Snapshot(live, orders, now, 0) + [])
  {
    var base := Snapshot(live, orders, now, 0);
    SnapshotFine(g.known, live, orders, now, 0);
    assert base + [] == base;
  }

  lemma SendConserves(c: Child, n: nat)
    requires Conserved(c) && !c.stop && n <= |c.pending|
    ensures Conserved(c.(pipe := c.pipe + c.pending[..n], pending := c.pending[n..]))
  {
    assert c.diff + (c.pipe + c.pending[..n]) + c.pending[n..] == c.diff + c.pipe + c.pending;
  }

  lemma ReadConserves(c: Child, n: nat)
    requires Conserved(c) && c.stage == Copying && n <= |c.pipe|
    ensures Conserved(c.(diff := c.diff + c.pipe[..n], pipe := c.pipe[n..]))
  {
    assert c.diff + c.pipe[..n] + c.pipe[n..] + c.pending == c.diff + c.pipe + c.pending;
  }

  /** The parent has stopped before it acknowledges, so the child's last read takes all there is. */
  lemma FinishConserves(c: Child)
    requires Conserved(c) && c.stage == Asked && c.ack
    ensures Conserved(Finished(c))
  {
    Associative(PrintAll(c.base), c.diff + c.pipe, c.pending);
  }

  /** The new file is the snapshot followed by every byte fed since the fork: none is lost, repeated or
      out of order. */
  lemma SwitchIsExact(g: Config, s: Server)
    requires TextInv(g, s) && Enabled(g, s, Switch)
    ensures Apply(g, s, Switch).file == PrintAll(s.child.value.base) + PrintAll(s.child.value.since)
    ensures TextInv(g, Apply(g, s, Switch))
  {
    var c := s.child.value;
    CatPlus(Print, c.base, c.since);
    assert c.tmp + c.pending + [] == c.tmp + c.pending;
  }

  lemma LoadablePart(known: Known, log: seq<Command>, m: nat)
    requires Loadable(known, log) && m <= |log|
    ensures Loadable(known, log[..m])
  {
  }

  lemma SurvivingPart(known: Known, log: seq<Command>, file: Bytes, buf: Bytes, n: nat)
    requires Loadable(known, log) && file + buf == PrintAll(log) && n <= |file|
    ensures var m := Whole(Print, log, n);
            var r := Load(known, file[..n]);
            r.cmds == log[..m] && r.validUpTo <= n && file[..r.validUpTo] == PrintAll(log[..m])
  {
    var f, m := PrintAll(log), Whole(Print, log, n);
    assert file[..n] == f[..n];
    LoadCut(known, log, n);
    WholeIsMaximal(Print, log, n);
    CatSplit(Print, log, m);
    var text := PrintAll(log[..m]);
    assert file[..|text|] == f[..|text|] == text;
  }

  /** Whatever part of the file survives a crash, loading it gives back a prefix of the commands, and
      the file that goes on from there is the text of that prefix. */
  lemma RestartKeepsText(g: Config, s: Server, n: nat, at: nat)
    requires TextInv(g, s) && s.mode == On && n <= |s.file|
    ensures var s' := Reloaded(g, s, n, at);
            && s'.log == s.log[..Whole(Print, s.log, n)] && s'.file <= s.file[..n]
            && LogText(g, s') && s'.live == Replayed(g, at, s'.log).data
  {
    SurvivingPart(g.known, s.log, s.file, s.buf, n);
    LoadablePart(g.known, s.log, Whole(Print, s.log, n));
    var text := PrintAll(s.log[..Whole(Print, s.log, n)]);
    assert text + [] == text;
  }

  lemma {:induction false} ReplayKeepsLength(m: Meaning, t: nat, cmds: seq<Command>, c: Client)
    ensures |Replay(Executor(m, t), cmds, c).data| == |c.data|
  {
    if cmds != [] {
      ExecKeepsLength(m, t, cmds[0], c);
      ReplayKeepsLength(m, t, cmds[1..], Exec(m, t, cmds[0], c));
    }
  }

  /** Every step of parent, child and pipes keeps the text. */
  lemma StepKeepsText(g: Config, s: Server, e: Event)
    requires Plausible(g) && TextInv(g, s) && Enabled(g, s, e)
    ensures TextInv(g, Apply(g, s, e))
  {
    match e
    case Feed(d, w, now, later) =>
      FeedKeepsLog(g, s, d, w, now, later);
      FeedKeepsChild(g, s, d, w, now, later);
      LiveKeepsLength(g, w, d, now, later, s.live);
    case Flush(n) =>
      FlushKeepsText(g, s, n);
    case Fork(orders, now) =>
      if s.mode != Off {
        ForkIsLoadable(g, s.live, orders, now);
      }
    case Send(n) =>
      SendConserves(s.child.value, n);
    case Read(n) =>
      ReadConserves(s.child.value, n);
    case Finish =>
      FinishConserves(s.child.value);
    case Switch =>
      SwitchIsExact(g, s);
    case Restart(n, at) =>
      RestartKeepsText(g, s, n, at);
      ReplayKeepsLength(g.meaning, at, Load(g.known, s.file[..n]).cmds, Client(0, Empty(g.dbnum)));
    case _ =>
  }

  // ---------------------------------------------------------------- what it replays to

  lemma SoundRespects(g: Config)
    requires Sound(g)
    ensures Respects(g.drift, g.meaning.other)
  {
    if g.drift == 0 {
      NoDriftRespects(g.meaning.other);
    }
  }

  lemma FaithfulFeed(g: Config, t: nat, cmds: seq<Command>, selected: int, live: Dataset, d: nat, w: Write, now: nat, later: nat)
    requires Sound(g) && Faithful(g, t, cmds, selected, live) && d < |live|
    requires Feedable(g.known, w, now, later) && later <= now + g.drift && Fresh(g.drift, g.meaning, w, now, t)
    ensures Faithful(g, t, cmds + FeedCommands(selected, d, w, now, later), d, Live(g.meaning, w, d, now, live))
  {
    var more, c := FeedCommands(selected, d, w, now, later), Replayed(g, t, cmds);
    ReplaySplit(Executor(g.meaning, t), cmds, more, Client(0, Empty(g.dbnum)));
    FeedReplays(g.meaning, g.known, selected, d, w, now, later, t, c);
    SoundRespects(g);
    LiveNear(g.drift, g.meaning, g.known, w, d, now, later, t, live, c.data);
  }

  lemma FeedKeepsFaith(g: Config, t: nat, s: Server, d: nat, w: Write, now: nat, later: nat)
    requires Sound(g) && ReplayInv(g, t, s) && |s.live| == g.dbnum
    requires Enabled(g, s, Feed(d, w, now, later)) && Timely(g, t, s, Feed(d, w, now, later))
    ensures ReplayInv(g, t, Fed(g, s, d, w, now, later))
  {
    if s.mode == On {
      FaithfulFeed(g, t, s.log, s.selected, s.live, d, w, now, later);
    }
    if s.child.Some? {
      var c := s.child.value;
      FaithfulFeed(g, t, c.base + c.since, s.selected, s.live, d, w, now, later);
      assert c.base + c.since + FeedCommands(s.selected, d, w, now, later) ==
             c.base + (c.since + FeedCommands(s.selected, d, w, now, later));
    }
  }

  /** At the fork, the child's snapshot replays to the live dataset, at whatever time. */
  lemma ForkIsFaithful(g: Config, t: nat, live: Dataset, orders: seq<seq<Bytes>>, now: nat)
    requires |live| == g.dbnum && OrdersAll(live, orders) && Storable(live, now)
    ensures Faithful(g, t, Snapshot(live, orders, now, 0) + [], -1, live)
  {
    var base := Snapshot(live, orders, now, 0);
    SnapshotReplays(g.meaning, t, live, orders, now, 0);
    NearItself(g.drift, live);
    assert base + [] == base;
  }

  /** After a restart, what was loaded then is what would be loaded at the time t, up to the drift. */
  lemma RestartIsFaithful(g: Config, t: nat, s: Server, n: nat, at: nat)
    requires Sound(g) && TextInv(g, s) && s.mode == On && n <= |s.file| && Timely(g, t, s, Restart(n, at))
    ensures LogFaithful(g, t, Reloaded(g, s, n, at))
  {
    RestartKeepsText(g, s, n, at);
    var cmds, c := Reloaded(g, s, n, at).log, Client(0, Empty(g.dbnum));
    NearItself(g.drift, c.data);
    if at <= t <= at + g.drift {
      SoundRespects(g);
      ReplayNear(g.drift, g.meaning, cmds, at, t, c, c);
    } else {
      assert AllSteady(g.meaning, cmds);
      SteadyReplays(g.meaning, cmds, at, t, c);
      NearItself(g.drift, Replayed(g, t, cmds).data);
    }
  }

  lemma StepKeepsFaith(g: Config, t: nat, s: Server, e: Event)
    requires Sound(g) && TextInv(g, s) && ReplayInv(g, t, s) && Enabled(g, s, e) && Timely(g, t, s, e)
    ensures ReplayInv(g, t, Apply(g, s, e))
  {
    match e
    case Feed(d, w, now, later) =>
      FeedKeepsFaith(g, t, s, d, w, now, later);
    case Fork(orders, now) =>
      if s.mode != Off {
        ForkIsFaithful(g, t, s.live, orders, now);
      }
    case Restart(n, at) =>
      RestartIsFaithful(g, t, s, n, at);
    case _ =>
  }

  // ---------------------------------------------------------------- whole runs

  /** An empty server, started with or without the file. */
  ghost predicate Initial(g: Config, s: Server) {
    s.mode != WaitRewrite && s == Server(Empty(g.dbnum), s.mode, -1, [], [], [], None)
  }

  ghost predicate Runs(g: Config, s: Server, events: seq<Event>, s': Server)
    decreases |events|
  {
    if events == [] then s == s'
    else |s.live| == g.dbnum && Enabled(g, s, events[0]) && Runs(g, Apply(g, s, events[0]), events[1..], s')
  }

  /** No step of the run comes too early for a load at the time t. */
  ghost predicate TimelyRun(g: Config, t: nat, s: Server, events: seq<Event>)
    decreases |events|
  {
    events == [] || (&& |s.live| == g.dbnum && Enabled(g, s, events[0]) && Timely(g, t, s, events[0])
                     && TimelyRun(g, t, Apply(g, s, events[0]), events[1..]))
  }

  lemma {:induction false} RunKeepsText(g: Config, s: Server, events: seq<Event>, s': Server)
    requires Plausible(g) && TextInv(g, s) && Runs(g, s, events, s')
    ensures TextInv(g, s')
    decreases |events|
  {
    if events != [] {
      StepKeepsText(g, s, events[0]);
      RunKeepsText(g, Apply(g, s, events[0]), events[1..], s');
    }
  }

  lemma {:induction false} RunKeepsFaith(g: Config, t: nat, s: Server, events: seq<Event>, s': Server)
    requires Plausible(g) && Sound(g) && TextInv(g, s) && ReplayInv(g, t, s)
    requires Runs(g, s, events, s') && TimelyRun(g, t, s, events)
    ensures ReplayInv(g, t, s')
    decreases |events|
  {
    if events != [] {
      StepKeepsText(g, s, events[0]);
      StepKeepsFaith(g, t, s, events[0]);
      RunKeepsFaith(g, t, Apply(g, s, events[0]), events[1..], s');
    }
  }

  lemma InitialInv(g: Config, t: nat, s: Server)
    requires Initial(g, s)
    ensures TextInv(g, s) && ReplayInv(g, t, s)
  {
    NearItself(g.drift, s.live);
  }

  /** In every state that a server reaches with the file enabled, the file and the buffer behind it parse
      to the end, to the commands of the log, and cleanly exactly if the log does not end inside a
      transaction. */
  lemma FileLoads(g: Config, s0: Server, events: seq<Event>, s: Server)
    requires Plausible(g) && Initial(g, s0) && Runs(g, s0, events, s) && s.mode == On
    ensures Load(g.known, s.file + s.buf) ==
            Loaded(s.log, |s.file + s.buf|, if InMulti(s.log) then Some(ShortRead) else None)
  {
    InitialInv(g, 0, s0);
    RunKeepsText(g, s0, events, s);
    LoadWhole(g.known, s.log);
  }

  /** And if no step came too early for it, loading them at the time t gives the live dataset: the same
      keys and values, each expiry later by at most the drift, and exactly the same without drift. */
  lemma FileReplaysToLive(g: Config, t: nat, s0: Server, events: seq<Event>, s: Server)
    requires Plausible(g) && Sound(g) && Initial(g, s0) && Runs(g, s0, events, s) && TimelyRun(g, t, s0, events) && s.mode == On
    ensures Near(g.drift, s.live, Replayed(g, t, Load(g.known, s.file + s.buf).cmds).data)
    ensures g.drift == 0 ==> Replayed(g, t, Load(g.known, s.file + s.buf).cmds).data == s.live
  {
    FileLoads(g, s0, events, s);
    InitialInv(g, t, s0);
    RunKeepsFaith(g, t, s0, events, s);
    NearIsSame(s.live, Replayed(g, t, s.log).data);
  }

  /** When a child has finished, the file that the switch puts in place does so too. */
  lemma RewriteReplaysToLive(g: Config, t: nat, s0: Server, events: seq<Event>, s: Server)
    requires Plausible(g) && Sound(g) && Initial(g, s0) && Runs(g, s0, events, s) && TimelyRun(g, t, s0, events)
    requires s.mode != Off && s.child.Some? && s.child.value.stage == Exited
    ensures var c := s.child.value;
            var r := Load(g.known, c.tmp + c.pending);
            && r.cmds == c.base + c.since && (r.end == if InMulti(r.cmds) then Some(ShortRead) else None)
            && Near(g.drift, s.live, Replayed(g, t, r.cmds).data)
            && (g.drift == 0 ==> Replayed(g, t, r.cmds).data == s.live)
  {
    InitialInv(g, t, s0);
    RunKeepsText(g, s0, events, s);
    RunKeepsFaith(g, t, s0, events, s);
    var c := s.child.value;
    NearIsSame(s.live, Replayed(g, t, c.base + c.since).data);
    CatPlus(Print, c.base, c.since);
    LoadWhole(g.known, c.base + c.since);
  }

  /** If the server crashes and only n bytes of the file survive, the loader ends cleanly or with a
      short read, never with a bad format, and recovers exactly the commands that lie wholly within
      those bytes; cleanly exactly if they fill them and do not end inside a transaction. */
  lemma CrashLosesOnlyATail(g: Config, s0: Server, events: seq<Event>, s: Server, n: nat)
    requires Plausible(g) && Initial(g, s0) && Runs(g, s0, events, s) && s.mode == On && n <= |s.file|
    ensures var r := Load(g.known, s.file[..n]);
            && (r.end == None || r.end == Some(ShortRead))
            && r.cmds == s.log[..Whole(Print, s.log, n)]
            && (r.end == None <==> |PrintAll(r.cmds)| == n && !InMulti(r.cmds))
  {
    InitialInv(g, 0, s0);
    RunKeepsText(g, s0, events, s);
    assert s.file[..n] == PrintAll(s.log)[..n];
    LoadCut(g.known, s.log, n);
  }
}
