/** Clocks that have moved on: the one that dates an expiry for the append-only file is read after the
    command was executed, and a command that is logged as it is runs again when the file is loaded. Two
    datasets are near if they have the same keys and values, and each expiry of the second is that of
    the first or later by at most the drift. */
module AofDrift {
  import opened Options
  import opened Resp
  import opened AofDataset
  import opened AofTime
  import opened AofRewrite

  ghost predicate NearObject(drift: nat, a: Object, b: Object) {
    && a.value == b.value
    && match a.expire
       case None => b.expire == None
       case Some(when) => b.expire.Some? && when <= b.expire.value <= when + drift
  }

  ghost predicate NearDb(drift: nat, a: Db, b: Db) {
    a.Keys == b.Keys && forall k :: k in a ==> NearObject(drift, a[k], b[k])
  }

  ghost predicate Near(drift: nat, a: Dataset, b: Dataset) {
    |a| == |b| && forall j :: 0 <= j < |a| ==> NearDb(drift, a[j], b[j])
  }

  ghost predicate RespectsAt(drift: nat, other: Other, cmd: Command, d: nat, u: nat, t: nat, a: Dataset, b: Dataset) {
    d < |a| && Near(drift, a, b) && u <= t <= u + drift ==> Near(drift, other(cmd, d, u, a), other(cmd, d, t, b))
  }

  /** The commands that are not modelled do the same to near datasets, up to the drift also at times that
      differ by no more than the drift. */
  ghost predicate Respects(drift: nat, other: Other) {
    forall cmd: Command, d: nat, u: nat, t: nat, a: Dataset, b: Dataset :: RespectsAt(drift, other, cmd, d, u, t, a, b)
  }

  lemma NearItself(drift: nat, a: Dataset)
    ensures Near(drift, a, a)
  {
  }

  lemma NearDbIsSame(a: Db, b: Db)
    requires NearDb(0, a, b)
    ensures a == b
  {
    forall k | k in a
      ensures a[k] == b[k]
    {
      assert NearObject(0, a[k], b[k]);
    }
  }

  /** Without drift, near is the same. */
  lemma NearIsSame(a: Dataset, b: Dataset)
    ensures Near(0, a, b) <==> a == b
  {
    if Near(0, a, b) {
      forall j | 0 <= j < |a|
        ensures a[j] == b[j]
      {
        NearDbIsSame(a[j], b[j]);
      }
    }
  }

  lemma NoDriftRespects(other: Other)
    ensures Respects(0, other)
  {
    forall cmd: Command, d: nat, u: nat, t: nat, a: Dataset, b: Dataset
      ensures RespectsAt(0, other, cmd, d, u, t, a, b)
    {
      NearIsSame(a, b);
      NearIsSame(other(cmd, d, u, a), other(cmd, d, t, b));
    }
  }

  lemma ChangedNear(drift: nat, a: Dataset, b: Dataset, d: nat, x: Db, y: Db)
    requires Near(drift, a, b) && d < |a| && NearDb(drift, x, y)
    ensures Near(drift, a[d := x], b[d := y])
  {
  }

  lemma PutNear(drift: nat, a: Db, b: Db, k: Bytes, x: Object, y: Object)
    requires NearDb(drift, a, b) && NearObject(drift, x, y)
    ensures NearDb(drift, a[k := x], b[k := y])
  {
  }

  lemma PushNear(drift: nat, a: Db, b: Db, k: Bytes, items: seq<Bytes>)
    requires NearDb(drift, a, b)
    ensures NearDb(drift, Push(a, k, items), Push(b, k, items))
  {
    if k in a {
      assert NearObject(drift, a[k], b[k]);
    }
  }

  /** An expiry set a little later in the second dataset. */
  lemma ExpireNear(drift: nat, a: Db, b: Db, k: Bytes, now: nat, later: nat)
    requires NearDb(drift, a, b) && now <= later <= now + drift
    ensures NearDb(drift, SetExpire(a, k, now), SetExpire(b, k, later))
  {
    if k in a {
      assert NearObject(drift, a[k], b[k]);
    }
  }

  lemma WithoutNear(drift: nat, a: Db, b: Db, keys: seq<Bytes>)
    requires NearDb(drift, a, b)
    ensures NearDb(drift, Without(a, keys), Without(b, keys))
  {
  }

  /** A value stored a little later in the second dataset. */
  lemma StoreNear(drift: nat, a: Db, b: Db, plan: Plan, k: Bytes, u: nat, t: nat)
    requires NearDb(drift, a, b) && u <= t <= u + drift
    ensures NearDb(drift, StoreAt(u, plan, k, a), StoreAt(t, plan, k, b))
  {
  }

  /** The same client, up to the drift. */
  ghost predicate NearClient(drift: nat, c: Client, c1: Client) {
    c.sel == c1.sel && Near(drift, c.data, c1.data)
  }

  lemma OtherNear(drift: nat, other: Other, cmd: Command, u: nat, t: nat, c: Client, c1: Client)
    requires Respects(drift, other) && NearClient(drift, c, c1) && c.sel < |c.data| && u <= t <= u + drift
    ensures NearClient(drift, OtherAt(other, u, cmd, c), OtherAt(other, t, cmd, c1))
  {
    assert RespectsAt(drift, other, cmd, c.sel, u, t, c.data, c1.data);
  }

  /** A command executed at one time, and up to the drift later on a near dataset. */
  lemma ExecNear(drift: nat, m: Meaning, cmd: Command, u: nat, t: nat, c: Client, c1: Client)
    requires Respects(drift, m.other) && NearClient(drift, c, c1) && u <= t <= u + drift
    ensures NearClient(drift, Exec(m, u, cmd, c), Exec(m, t, cmd, c1))
  {
    if c.sel < |c.data| && !Selecting(cmd) {
      var d, a, b := c.sel, c.data, c1.data;
      assert NearDb(drift, a[d], b[d]);
      if Stores(cmd) {
        var plan := PlanOf(m.dump, cmd);
        StoreNear(drift, a[d], b[d], plan, cmd[1], u, t);
        ChangedNear(drift, a, b, d, StoreAt(u, plan, cmd[1], a[d]), StoreAt(t, plan, cmd[1], b[d]));
      } else if Pushing(cmd) {
        PushNear(drift, a[d], b[d], cmd[1], cmd[2..]);
        ChangedNear(drift, a, b, d, Push(a[d], cmd[1], cmd[2..]), Push(b[d], cmd[1], cmd[2..]));
      } else if Expiring(cmd) {
        var when := Number(cmd[2]).value;
        ExpireNear(drift, a[d], b[d], cmd[1], when, when);
        ChangedNear(drift, a, b, d, SetExpire(a[d], cmd[1], when), SetExpire(b[d], cmd[1], when));
      } else if Deleting(cmd) {
        WithoutNear(drift, a[d], b[d], cmd[1..]);
        ChangedNear(drift, a, b, d, Without(a[d], cmd[1..]), Without(b[d], cmd[1..]));
      } else {
        OtherNear(drift, m.other, cmd, u, t, c, c1);
      }
    }
  }

  /** Files loaded at two times. */
  lemma {:induction false} ReplayNear(drift: nat, m: Meaning, cmds: seq<Command>, u: nat, t: nat, c: Client, c1: Client)
    requires Respects(drift, m.other) && NearClient(drift, c, c1) && u <= t <= u + drift
    ensures NearClient(drift, Replay(Executor(m, u), cmds, c), Replay(Executor(m, t), cmds, c1))
    decreases |cmds|
  {
    if cmds != [] {
      ExecNear(drift, m, cmds[0], u, t, c, c1);
      ReplayNear(drift, m, cmds[1..], u, t, Exec(m, u, cmds[0], c), Exec(m, t, cmds[0], c1));
    }
  }

  /** A write whose replay at the time t is not off by more than the drift: it is dated, or steady, or was
      executed no longer ago than that. */
  ghost predicate Fresh(drift: nat, m: Meaning, w: Write, now: nat, t: nat) {
    w.Plain? ==> Steady(m, w.cmd) || now <= t <= now + drift
  }

  lemma PlainNear(drift: nat, m: Meaning, cmd: Command, now: nat, t: nat, c: Client, c1: Client)
    requires Respects(drift, m.other) && NearClient(drift, c, c1) && (Steady(m, cmd) || now <= t <= now + drift)
    ensures NearClient(drift, Exec(m, now, cmd, c), Exec(m, t, cmd, c1))
  {
    if Steady(m, cmd) {
      ExecNear(drift, m, cmd, now, now, c, c1);
      SteadyIsAlike(m, cmd, now, t, c1);
    } else {
      ExecNear(drift, m, cmd, now, t, c, c1);
    }
  }

  /** A write executed at one time, and as it is logged up to the drift later and replayed at the time t,
      keeps datasets near. */
  lemma LiveNear(drift: nat, m: Meaning, known: Known, w: Write, d: nat, now: nat, later: nat, t: nat, a: Dataset, b: Dataset)
    requires Respects(drift, m.other) && Near(drift, a, b) && d < |a|
    requires Feedable(known, w, now, later) && later <= now + drift && Fresh(drift, m, w, now, t)
    ensures Near(drift, Live(m, w, d, now, a), Effect(m, w, d, now, later, t, b))
  {
    assert NearDb(drift, a[d], b[d]);
    match w
    case Plain(cmd) =>
      PlainNear(drift, m, cmd, now, t, Client(d, a), Client(d, b));
    case Expire(key, _, _, _) =>
      if Past(w, now) {
        ChangedNear(drift, a, b, d, a[d] - {key}, b[d] - {key});
      } else {
        ExpireNear(drift, a[d], b[d], key, Stamp(w, now), Stamp(w, later));
        ChangedNear(drift, a, b, d, SetExpire(a[d], key, Stamp(w, now)), SetExpire(b[d], key, Stamp(w, later)));
      }
    case SetEx(key, value, _, _) =>
      var x, y := Object(Str(value), Some(Stamp(w, now))), Object(Str(value), Some(Stamp(w, later)));
      PutNear(drift, a[d], b[d], key, x, y);
      ChangedNear(drift, a, b, d, a[d][key := x], b[d][key := y]);
  }
}
