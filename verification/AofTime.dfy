/** The time at which a file is loaded. A command that is logged as it is runs again when the file is
    loaded, by the clock of that time: it does what it did exactly if it carries no relative expiry. */
module AofTime {
  import opened Options
  import opened Resp
  import opened AofDataset

  /** The command does the same at both times, to every client. */
  ghost predicate Alike(m: Meaning, cmd: Command, now: nat, t: nat) {
    forall c: Client :: AlikeFor(m, cmd, now, t, c)
  }

  ghost predicate AlikeFor(m: Meaning, cmd: Command, now: nat, t: nat, c: Client) {
    Exec(m, now, cmd, c) == Exec(m, t, cmd, c)
  }

  predicate Unmodelled(cmd: Command) {
    !Selecting(cmd) && !Stores(cmd) && !Pushing(cmd) && !Expiring(cmd) && !Deleting(cmd)
  }

  ghost predicate OtherAlike(other: Other, cmd: Command, now: nat, t: nat, c: Client) {
    c.sel < |c.data| ==> OtherAt(other, now, cmd, c) == OtherAt(other, t, cmd, c)
  }

  /** The argument vector carries no relative expiry, and a command that is not modelled does not look at
      the clock. */
  ghost predicate Steady(m: Meaning, cmd: Command) {
    && !Relative(m.dump, cmd)
    && (Unmodelled(cmd) ==> forall now: nat, t: nat, c: Client :: OtherAlike(m.other, cmd, now, t, c))
  }

  ghost predicate AllSteady(m: Meaning, cmds: seq<Command>) {
    forall i :: 0 <= i < |cmds| ==> Steady(m, cmds[i])
  }

  // ---------------------------------------------------------------- the exact condition

  lemma StoreIff(now: nat, t: nat, plan: Plan, k: Bytes, db: Db)
    ensures StoreAt(now, plan, k, db) == StoreAt(t, plan, k, db) <==>
            now == t || !Accepted(plan, k, db) || plan.delay.None?
  {
    if now != t && Accepted(plan, k, db) && plan.delay.Some? {
      assert StoreAt(now, plan, k, db)[k].expire != StoreAt(t, plan, k, db)[k].expire;
    }
  }

  lemma {:induction false} OptionsAreConsistent(args: seq<Bytes>, o: SetFlags)
    requires !(o.nx && o.xx)
    ensures var r := ParseOptions(args, o); r.Some? ==> !(r.value.nx && r.value.xx)
    decreases |args|
  {
    if args != [] {
      if Says(args[0], NX) && !o.xx {
        OptionsAreConsistent(args[1..], o.(nx := true));
      } else if Says(args[0], XX) && !o.nx {
        OptionsAreConsistent(args[1..], o.(xx := true));
      } else if Says(args[0], EX) && !o.px && |args| > 1 {
        OptionsAreConsistent(args[2..], o.(ex := true, time := Some(args[1])));
      } else if Says(args[0], PX) && !o.ex && |args| > 1 {
        OptionsAreConsistent(args[2..], o.(px := true, time := Some(args[1])));
      }
    }
  }

  /** No plan is refused by every database. */
  lemma PlanIsPossible(dump: Dump, cmd: Command) returns (db: Db)
    requires Stores(cmd)
    ensures var plan := PlanOf(dump, cmd); plan.Store? ==> Accepted(plan, cmd[1], db)
  {
    var plan := PlanOf(dump, cmd);
    if Named(cmd, SET) && |cmd| >= 3 {
      OptionsAreConsistent(cmd[3..], SetFlags(false, false, false, false, None));
    }
    db := if plan.Store? && plan.xx then map[cmd[1] := Object(Str([]), None)] else map[];
  }

  lemma StoreExec(m: Meaning, t: nat, cmd: Command, c: Client)
    requires Stores(cmd) && c.sel < |c.data|
    ensures Exec(m, t, cmd, c) == Changed(c, StoreAt(t, PlanOf(m.dump, cmd), cmd[1], c.data[c.sel]))
  {
    OneName(cmd);
  }

  /** On a given dataset: executing a SET or RESTORE again, at another time, gives the same exactly if the
      time is the same, or the command carries no relative expiry, or it is refused there. */
  lemma StoreAlikeFor(m: Meaning, cmd: Command, now: nat, t: nat, c: Client)
    requires Stores(cmd) && c.sel < |c.data|
    ensures AlikeFor(m, cmd, now, t, c) <==>
            now == t || !Relative(m.dump, cmd) || !Accepted(PlanOf(m.dump, cmd), cmd[1], c.data[c.sel])
  {
    var plan, db := PlanOf(m.dump, cmd), c.data[c.sel];
    StoreExec(m, now, cmd, c);
    StoreExec(m, t, cmd, c);
    StoreIff(now, t, plan, cmd[1], db);
    var a, b := StoreAt(now, plan, cmd[1], db), StoreAt(t, plan, cmd[1], db);
    assert c.data[c.sel := a][c.sel] == a && c.data[c.sel := b][c.sel] == b;
  }

  /** On all of them: exactly if the time is the same or the argument vector carries no relative expiry. */
  lemma StoreAlikeIff(m: Meaning, cmd: Command, now: nat, t: nat)
    requires Stores(cmd)
    ensures Alike(m, cmd, now, t) <==> now == t || !Relative(m.dump, cmd)
  {
    var db := PlanIsPossible(m.dump, cmd);
    StoreAlikeFor(m, cmd, now, t, Client(0, [db]));
    forall c: Client
      ensures now == t || !Relative(m.dump, cmd) ==> AlikeFor(m, cmd, now, t, c)
    {
      if c.sel < |c.data| {
        StoreAlikeFor(m, cmd, now, t, c);
      } else {
        OneName(cmd);
      }
    }
  }

  lemma SteadyIsAlike(m: Meaning, cmd: Command, now: nat, t: nat, c: Client)
    requires Steady(m, cmd)
    ensures AlikeFor(m, cmd, now, t, c)
  {
    OneName(cmd);
    if c.sel < |c.data| {
      if Stores(cmd) {
        StoreAlikeFor(m, cmd, now, t, c);
      } else if Unmodelled(cmd) {
        assert OtherAlike(m.other, cmd, now, t, c);
      }
    }
  }

  /** Any command, at any times: replay does what execution did exactly if the command is steady. */
  lemma SteadyIff(m: Meaning, cmd: Command)
    ensures Steady(m, cmd) <==> forall now: nat, t: nat :: Alike(m, cmd, now, t)
  {
    if Steady(m, cmd) {
      forall now: nat, t: nat, c: Client
        ensures AlikeFor(m, cmd, now, t, c)
      {
        SteadyIsAlike(m, cmd, now, t, c);
      }
    } else if Stores(cmd) {
      StoreAlikeIff(m, cmd, 0, 1);
      assert !Alike(m, cmd, 0, 1);
    } else {
      var now: nat, t: nat, c: Client :| !OtherAlike(m.other, cmd, now, t, c);
      assert !AlikeFor(m, cmd, now, t, c);
      assert !Alike(m, cmd, now, t);
    }
  }

  // ---------------------------------------------------------------- SET k v EX 100

  function SetEx100(k: Bytes, v: Bytes): Command {
    [SET, k, v, EX, [49, 48, 48]]
  }

  lemma SetEx100Plan(dump: Dump, k: Bytes, v: Bytes)
    ensures Stores(SetEx100(k, v)) && PlanOf(dump, SetEx100(k, v)) == Store(Str(v), false, false, Some(100000))
  {
    var cmd := SetEx100(k, v);
    UpperNames();
    var none, args := SetFlags(false, false, false, false, None), [EX, [49, 48, 48]];
    var o := none.(ex := true, time := Some([49, 48, 48]));
    assert cmd[3..] == args && args[2..] == [];
    assert EX[..2] == EX && Upper(EX) == EX && Says(EX, EX) && !Says(EX, NX) && !Says(EX, XX);
    assert ParseOptions(args, none) == ParseOptions(args[2..], o) == Some(o);
    assert Number([49, 48, 48]) == Some(100) by {
      assert Digits([49, 48, 48], 0) == Digits([48, 48], 1) == Digits([48], 10) == 100;
    }
  }

  /** Executed at the time now, it expires the key 100 seconds later; loaded at the time t, 100 seconds
      after that. */
  lemma SetEx100Moves(m: Meaning, k: Bytes, v: Bytes, t: nat, c: Client)
    requires c.sel < |c.data|
    ensures Exec(m, t, SetEx100(k, v), c) == Changed(c, c.data[c.sel][k := Object(Str(v), Some(t + 100000))])
    ensures forall now: nat :: Alike(m, SetEx100(k, v), now, t) <==> now == t
  {
    SetEx100Plan(m.dump, k, v);
    StoreExec(m, t, SetEx100(k, v), c);
    forall now: nat
      ensures Alike(m, SetEx100(k, v), now, t) <==> now == t
    {
      StoreAlikeIff(m, SetEx100(k, v), now, t);
    }
  }

  // ---------------------------------------------------------------- files of steady commands

  /** A file of steady commands gives the same at whatever time it is loaded. */
  lemma {:induction false} SteadyReplays(m: Meaning, cmds: seq<Command>, now: nat, t: nat, c: Client)
    requires AllSteady(m, cmds)
    ensures Replay(Executor(m, now), cmds, c) == Replay(Executor(m, t), cmds, c)
  {
    if cmds != [] {
      SteadyIsAlike(m, cmds[0], now, t, c);
      assert AllSteady(m, cmds[1..]);
      SteadyReplays(m, cmds[1..], now, t, Exec(m, now, cmds[0], c));
    }
  }
}
