/** What is fed to the append-only file for a write, and what replaying it gives. */
module AofRewrite {
  import opened Options
  import opened Resp
  import opened RespRoundTrip
  import opened AofDataset
  import opened AofTime
  import opened AofSnapshot
  import opened AofWriter

  // ---------------------------------------------------------------- writes

  const EXPIRE: Bytes := [69, 88, 80, 73, 82, 69]
  const PEXPIRE: Bytes := [80, 69, 88, 80, 73, 82, 69]
  const EXPIREAT: Bytes := [69, 88, 80, 73, 82, 69, 65, 84]
  const SETEX: Bytes := [83, 69, 84, 69, 88]
  const PSETEX: Bytes := [80, 83, 69, 84, 69, 88]

  /** A write as the server executes it. EXPIRE, PEXPIRE, EXPIREAT and PEXPIREAT (Expire), SETEX and PSETEX
      (SetEx) are logged with an absolute time in milliseconds. Every other command (Plain) is logged as
      it is, SET with EX or PX and RESTORE with a time to live included. */
  datatype Write =
    | Plain(cmd: Command)
    | Expire(key: Bytes, amount: int, seconds: bool, relative: bool)
    | SetEx(key: Bytes, value: Bytes, amount: int, seconds: bool)

  function When(w: Write, now: nat): int
    requires !w.Plain?
  {
    (if w.seconds then w.amount * 1000 else w.amount) + (if w.SetEx? || w.relative then now else 0)
  }

  /** When(w, now), as the time of an expiry that is in the future. */
  function Stamp(w: Write, now: nat): nat
    requires !w.Plain?
  {
    if When(w, now) < 0 then 0 else When(w, now)
  }

  /** The expiry is in the past already, so that a master deletes the key instead. */
  predicate Past(w: Write, now: nat)
    requires w.Expire?
  {
    When(w, now) <= now
  }

  predicate Special(cmd: Command) {
    || Named(cmd, SELECT) || Named(cmd, PEXPIREAT) || Named(cmd, EXPIRE) || Named(cmd, PEXPIRE) || Named(cmd, EXPIREAT)
    || Named(cmd, SETEX) || Named(cmd, PSETEX)
  }

  /** A write that succeeds, executed at the time now and fed as of the time later. */
  ghost predicate Feedable(known: Known, w: Write, now: nat, later: nat) {
    && now <= later
    && match w
       case Plain(cmd) => WellFormed(cmd) && known(cmd) && !Special(cmd)
       case Expire(key, _, _, _) => |key| <= MAX_LENGTH && (Past(w, now) || When(w, later) <= MAX_LENGTH)
       case SetEx(key, value, amount, _) => |key| <= MAX_LENGTH && |value| <= MAX_LENGTH && amount > 0 && When(w, later) <= MAX_LENGTH
  }

  /** What a write does to a dataset: decided at the time now, dated as of the time at, and executed, if it
      is logged as it is, at the time t. */
  function Effect(m: Meaning, w: Write, d: nat, now: nat, at: nat, t: nat, data: Dataset): Dataset
    requires d < |data|
  {
    match w
    case Plain(cmd) => Exec(m, t, cmd, Client(d, data)).data
    case Expire(key, _, _, _) =>
      data[d := if Past(w, now) then data[d] - {key} else SetExpire(data[d], key, Stamp(w, at))]
    case SetEx(key, value, _, _) => data[d := data[d][key := Object(Str(value), Some(Stamp(w, at)))]]
  }

  /** What it does to the live dataset. */
  function Live(m: Meaning, w: Write, d: nat, now: nat, live: Dataset): Dataset
    requires d < |live|
  {
    Effect(m, w, d, now, now, now, live)
  }

  // ---------------------------------------------------------------- feeding commands

  function Logged(w: Write, now: nat, later: nat): seq<Command> {
    match w
    case Plain(cmd) => [cmd]
    case Expire(key, _, _, _) => if Past(w, now) then [[DEL, key]] else [[PEXPIREAT, key, Decimal(Stamp(w, later))]]
    case SetEx(key, value, _, _) => [[SET, key, value], [PEXPIREAT, key, Decimal(Stamp(w, later))]]
  }

  function FeedCommands(selected: int, d: nat, w: Write, now: nat, later: nat): seq<Command> {
    (if selected != d then [[SELECT, Decimal(d)]] else []) + Logged(w, now, later)
  }

  /** The part of feedAppendOnlyFile that prints the command itself. */
  method FeedCommand(text0: Bytes, w: Write, now: nat, later: nat) returns (text: Bytes)
    ensures text == text0 + PrintAll(Logged(w, now, later))
  {
    match w {
      case Plain(cmd) =>
        text := CatCommand(text0, cmd);
        CatOne(Print, cmd);
      case Expire(key, _, _, _) =>
        var cmd := if Past(w, now) then [DEL, key] else [PEXPIREAT, key, Decimal(Stamp(w, later))];
        text := CatCommand(text0, cmd);
        CatOne(Print, cmd);
      case SetEx(key, value, _, _) =>
        var put, expire := [SET, key, value], [PEXPIREAT, key, Decimal(Stamp(w, later))];
        text := CatCommand(text0, put);
        text := CatCommand(text, expire);
        CatPlus(Print, [put], [expire]);
        CatOne(Print, put);
        CatOne(Print, expire);
        assert [put] + [expire] == [put, expire];
        Associative(text0, Print(put), Print(expire));
    }
  }

  /** feedAppendOnlyFile up to where the text goes. */
  method FeedText(selected: int, d: nat, w: Write, now: nat, later: nat) returns (text: Bytes, selected': int)
    ensures text == PrintAll(FeedCommands(selected, d, w, now, later)) && selected' == d
  {
    text := [];
    selected' := selected;
    if selected != d {
      text := CatCommand(text, [SELECT, Decimal(d)]);
      CatOne(Print, [SELECT, Decimal(d)]);
      assert [] + Print([SELECT, Decimal(d)]) == Print([SELECT, Decimal(d)]);
      selected' := d;
    }
    ghost var sel: seq<Command> := if selected != d then [[SELECT, Decimal(d)]] else [];
    assert text == PrintAll(sel);
    CatPlus(Print, sel, Logged(w, now, later));
    text := FeedCommand(text, w, now, later);
  }

  // ---------------------------------------------------------------- replaying them

  lemma ReplayTwo(exec: Run, a: Command, b: Command, c: Client)
    ensures Replay(exec, [a, b], c) == exec(b, exec(a, c))
  {
    assert [a, b] == [a] + [b];
    ReplaySplit(exec, [a], [b], c);
    ReplayOne(exec, a, c);
    ReplayOne(exec, b, exec(a, c));
  }

  lemma SetThenExpires(c: Client, key: Bytes, o: Object, when: nat)
    requires c.sel < |c.data|
    ensures var c1 := Changed(c, c.data[c.sel][key := o]);
            Changed(c1, SetExpire(c1.data[c.sel], key, when)) == Changed(c, c.data[c.sel][key := o.(expire := Some(when))])
  {
    var db1 := c.data[c.sel][key := o];
    assert SetExpire(db1, key, when) == c.data[c.sel][key := o.(expire := Some(when))];
    ChangedTwice(c, db1, SetExpire(db1, key, when));
  }

  lemma SetExReplays(exec: Run, key: Bytes, value: Bytes, when: nat, c: Client)
    requires Obeys(exec) && c.sel < |c.data|
    ensures Replay(exec, [[SET, key, value], [PEXPIREAT, key, Decimal(when)]], c) ==
            Changed(c, c.data[c.sel][key := Object(Str(value), Some(when))])
  {
    var o := Object(Str(value), None);
    ReplayTwo(exec, [SET, key, value], [PEXPIREAT, key, Decimal(when)], c);
    assert Sets(exec, key, value, c);
    assert Expires(exec, key, when, Changed(c, c.data[c.sel][key := o]));
    SetThenExpires(c, key, o, when);
  }

  /** Replaying at the time t what is logged for a write. */
  lemma LoggedReplays(m: Meaning, d: nat, known: Known, w: Write, now: nat, later: nat, t: nat, data: Dataset)
    requires d < |data| && Feedable(known, w, now, later)
    ensures Replay(Executor(m, t), Logged(w, now, later), Client(d, data)) == Client(d, Effect(m, w, d, now, later, t, data))
    ensures |Effect(m, w, d, now, later, t, data)| == |data|
  {
    var exec, c := Executor(m, t), Client(d, data);
    ExecObeys(m, t);
    match w {
      case Plain(cmd) =>
        ReplayOne(exec, cmd, c);
        ExecKeepsLength(m, t, cmd, c);
      case Expire(key, _, _, _) =>
        if Past(w, now) {
          ReplayOne(exec, [DEL, key], c);
          assert Deletes(exec, key, c);
        } else {
          ReplayOne(exec, [PEXPIREAT, key, Decimal(Stamp(w, later))], c);
          assert Expires(exec, key, Stamp(w, later), c);
        }
      case SetEx(key, value, _, _) =>
        SetExReplays(exec, key, value, Stamp(w, later), c);
    }
  }

  /** Replaying at the time t what is fed for a write, provided that a client that replays has selected
      the database that the server believes it has. */
  lemma FeedReplays(m: Meaning, known: Known, selected: int, d: nat, w: Write, now: nat, later: nat, t: nat, c: Client)
    requires d < |c.data| && Feedable(known, w, now, later) && (selected >= 0 ==> c.sel == selected)
    ensures Replay(Executor(m, t), FeedCommands(selected, d, w, now, later), c) ==
            Client(d, Effect(m, w, d, now, later, t, c.data))
    ensures |Effect(m, w, d, now, later, t, c.data)| == |c.data|
  {
    var exec := Executor(m, t);
    LoggedReplays(m, d, known, w, now, later, t, c.data);
    if selected != d {
      ReplaySplit(exec, [[SELECT, Decimal(d)]], Logged(w, now, later), c);
      ReplayOne(exec, [SELECT, Decimal(d)], c);
      ExecSelect(m, t, d, c);
    } else {
      assert [] + Logged(w, now, later) == Logged(w, now, later);
    }
  }

  /** A write that is dated for the log: the time is read again after the command was executed. If the
      clock has moved on, the log keeps the key for that much longer; the two agree exactly when it has
      not, or when the time was absolute or in the past, or the key is not there. */
  lemma ClockDrift(m: Meaning, known: Known, d: nat, w: Write, now: nat, later: nat, t: nat, live: Dataset)
    requires d < |live| && Feedable(known, w, now, later) && !w.Plain?
    ensures Replay(Executor(m, t), Logged(w, now, later), Client(d, live)).data == Live(m, w, d, now, live)
      <==> now == later || (w.Expire? && (!w.relative || w.key !in live[d] || Past(w, now)))
  {
    LoggedReplays(m, d, known, w, now, later, t, live);
    var a, b := Live(m, w, d, now, live), Effect(m, w, d, now, later, t, live);
    if now != later && (w.SetEx? || (w.relative && w.key in live[d] && !Past(w, now))) {
      assert Stamp(w, now) != Stamp(w, later);
      assert w.key in a[d] && w.key in b[d] && a[d][w.key] != b[d][w.key];
    }
  }

  /** A SET or RESTORE, which is logged as it is: replaying it at the time t gives what executing it at the
      time now did exactly if these are the same time, or the argument vector carries no relative expiry, or
      the command is refused. */
  lemma LoadTimeIff(m: Meaning, d: nat, cmd: Command, now: nat, later: nat, t: nat, live: Dataset)
    requires d < |live| && Stores(cmd)
    ensures Replay(Executor(m, t), Logged(Plain(cmd), now, later), Client(d, live)).data == Live(m, Plain(cmd), d, now, live)
      <==> now == t || !Relative(m.dump, cmd) || !Accepted(PlanOf(m.dump, cmd), cmd[1], live[d])
  {
    ReplayOne(Executor(m, t), cmd, Client(d, live));
    StoreExec(m, now, cmd, Client(d, live));
    StoreExec(m, t, cmd, Client(d, live));
    StoreAlikeFor(m, cmd, now, t, Client(d, live));
  }
}
