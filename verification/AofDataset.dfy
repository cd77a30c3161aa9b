/** What the commands of the append-only file do to the dataset when they are executed at a given time:
    those that the server or the rewrite prints, and those that carry a relative expiry time. */
module AofDataset {
  import opened Options
  import opened Resp
  import opened RespRoundTrip

  // ---------------------------------------------------------------- dataset

  datatype Value = Str(bytes: Bytes) | Lst(items: seq<Bytes>)
  datatype Object = Object(value: Value, expire: Option<nat>)
  type Db = map<Bytes, Object>
  type Dataset = seq<Db>

  /** The client that executes: the database it has selected, and the dataset. */
  datatype Client = Client(sel: nat, data: Dataset)

  /** What the commands that are not modelled do to the dataset, given the selected database and the time;
      any function that keeps the number of databases will do. */
  type Other = (Command, nat, nat, Dataset) -> Dataset

  /** And what value a serialized one is, if it is one. */
  type Dump = Bytes -> Option<Value>

  datatype Meaning = Meaning(other: Other, dump: Dump)

  const SELECT: Bytes := [83, 69, 76, 69, 67, 84]
  const SET: Bytes := [83, 69, 84]
  const RPUSH: Bytes := [82, 80, 85, 83, 72]
  const PEXPIREAT: Bytes := [80, 69, 88, 80, 73, 82, 69, 65, 84]
  const DEL: Bytes := [68, 69, 76]
  const RESTORE: Bytes := [82, 69, 83, 84, 79, 82, 69]

  const NX: Bytes := [78, 88]
  const XX: Bytes := [88, 88]
  const EX: Bytes := [69, 88]
  const PX: Bytes := [80, 88]
  const REPLACE: Bytes := [82, 69, 80, 76, 65, 67, 69]

  function Push(db: Db, k: Bytes, items: seq<Bytes>): Db {
    if k !in db then db[k := Object(Lst(items), None)]
    else if db[k].value.Str? then db
    else db[k := Object(Lst(db[k].value.items + items), db[k].expire)]
  }

  function SetExpire(db: Db, k: Bytes, when: nat): Db {
    if k in db then db[k := db[k].(expire := Some(when))] else db
  }

  function Without(db: Db, keys: seq<Bytes>): Db {
    db - set k | k in keys
  }

  function Changed(c: Client, db: Db): Client
    requires c.sel < |c.data|
  {
    c.(data := c.data[c.sel := db])
  }

  // ---------------------------------------------------------------- numbers and options

  /** string2ll, but for the range: an optional sign and digits without a leading zero. */
  function Number(b: Bytes): Option<int> {
    if b == [48] then Some(0)
    else if b != [] && b[0] == 45 then
      if |b| > 1 && b[1] != 48 && AllDigits(b[1..]) then Some(0 - (Digits(b[1..], 0) as int)) else None
    else if b != [] && b[0] != 48 && AllDigits(b) then Some(Digits(b, 0))
    else None
  }

  lemma NumberOfDecimal(n: nat)
    ensures Number(Decimal(n)) == Some(n)
  {
    DecimalIsDigits(n);
    DigitsOfDecimal(n);
  }

  /** A positive number that fits a long long. */
  function Positive(b: Bytes): Option<nat> {
    match Number(b)
    case None => None
    case Some(n) => if 0 < n <= MAX_LENGTH then Some(n) else None
  }

  /** The argument as a C string is that word, in upper or lower case. */
  predicate Says(a: Bytes, word: Bytes) {
    |a| >= |word| && Upper(a[..|word|]) == word && (|a| == |word| || a[|word|] == 0)
  }

  /** The options of SET: only if there is no such key, only if there is, seconds, milliseconds, and the
      argument with the time. */
  datatype SetFlags = SetFlags(nx: bool, xx: bool, ex: bool, px: bool, time: Option<Bytes>)

  /** The loop of setCommand. */
  function ParseOptions(args: seq<Bytes>, o: SetFlags): Option<SetFlags> {
    if args == [] then Some(o)
    else if Says(args[0], NX) && !o.xx then ParseOptions(args[1..], o.(nx := true))
    else if Says(args[0], XX) && !o.nx then ParseOptions(args[1..], o.(xx := true))
    else if Says(args[0], EX) && !o.px && |args| > 1 then ParseOptions(args[2..], o.(ex := true, time := Some(args[1])))
    else if Says(args[0], PX) && !o.ex && |args| > 1 then ParseOptions(args[2..], o.(px := true, time := Some(args[1])))
    else None
  }

  /** What a command is to store: a value, under which condition on the key, and for how long. */
  datatype Plan = Refused | Store(value: Value, nx: bool, xx: bool, delay: Option<nat>)

  /** setCommand and setGenericCommand. */
  function SetPlan(cmd: Command): Plan
    requires |cmd| >= 3
  {
    match ParseOptions(cmd[3..], SetFlags(false, false, false, false, None))
    case None => Refused
    case Some(o) =>
      if o.time.None? then Store(Str(cmd[2]), o.nx, o.xx, None)
      else
        match Positive(o.time.value)
        case None => Refused
        case Some(n) => Store(Str(cmd[2]), o.nx, o.xx, Some(if o.ex then 1000 * n else n))
  }

  /** restoreCommand. */
  function RestorePlan(dump: Dump, cmd: Command): Plan
    requires |cmd| >= 4
  {
    if exists i :: 4 <= i < |cmd| && !Says(cmd[i], REPLACE) then Refused
    else
      match dump(cmd[3])
      case None => Refused
      case Some(v) =>
        if Number(cmd[2]) == Some(0) then Store(v, |cmd| == 4, false, None)
        else if Positive(cmd[2]).None? then Refused
        else Store(v, |cmd| == 4, false, Positive(cmd[2]))
  }

  predicate Accepted(plan: Plan, k: Bytes, db: Db) {
    plan.Store? && !(plan.nx && k in db) && !(plan.xx && k !in db)
  }

  /** Storing at the time t. */
  function StoreAt(t: nat, plan: Plan, k: Bytes, db: Db): Db {
    if !Accepted(plan, k, db) then db
    else db[k := Object(plan.value, if plan.delay.Some? then Some(t + plan.delay.value) else None)]
  }

  // ---------------------------------------------------------------- execution

  predicate Stores(cmd: Command) {
    (Named(cmd, SET) && |cmd| >= 3) || (Named(cmd, RESTORE) && |cmd| >= 4)
  }

  function PlanOf(dump: Dump, cmd: Command): Plan
    requires Stores(cmd)
  {
    if Named(cmd, SET) && |cmd| >= 3 then SetPlan(cmd) else RestorePlan(dump, cmd)
  }

  /** The command's argument vector carries a relative expiry time. */
  predicate Relative(dump: Dump, cmd: Command) {
    Stores(cmd) && var plan := PlanOf(dump, cmd); plan.Store? && plan.delay.Some?
  }

  function OtherAt(other: Other, t: nat, cmd: Command, c: Client): Client {
    var data := other(cmd, c.sel, t, c.data);
    if |data| == |c.data| then c.(data := data) else c
  }

  predicate Selecting(cmd: Command) {
    Named(cmd, SELECT) && |cmd| == 2
  }

  predicate Pushing(cmd: Command) {
    Named(cmd, RPUSH) && |cmd| >= 3
  }

  predicate Expiring(cmd: Command) {
    Named(cmd, PEXPIREAT) && |cmd| == 3 && Number(cmd[2]).Some? && Number(cmd[2]).value >= 0
  }

  predicate Deleting(cmd: Command) {
    Named(cmd, DEL) && |cmd| >= 2
  }

  /** Execution at the time t. While a file is loaded, PEXPIREAT does not delete. */
  function Exec(m: Meaning, t: nat, cmd: Command, c: Client): Client {
    if Selecting(cmd) then
      match Number(cmd[1])
      case None => c
      case Some(n) => if 0 <= n < |c.data| then c.(sel := n) else c
    else if c.sel >= |c.data| then c
    else if Stores(cmd) then Changed(c, StoreAt(t, PlanOf(m.dump, cmd), cmd[1], c.data[c.sel]))
    else if Pushing(cmd) then Changed(c, Push(c.data[c.sel], cmd[1], cmd[2..]))
    else if Expiring(cmd) then Changed(c, SetExpire(c.data[c.sel], cmd[1], Number(cmd[2]).value))
    else if Deleting(cmd) then Changed(c, Without(c.data[c.sel], cmd[1..]))
    else OtherAt(m.other, t, cmd, c)
  }

  type Run = (Command, Client) -> Client

  /** Execution of commands one after the other. */
  function Replay(exec: Run, cmds: seq<Command>, c: Client): Client {
    if cmds == [] then c else Replay(exec, cmds[1..], exec(cmds[0], c))
  }

  lemma {:induction false} ReplaySplit(exec: Run, a: seq<Command>, b: seq<Command>, c: Client)
    ensures Replay(exec, a + b, c) == Replay(exec, b, Replay(exec, a, c))
  {
    if a == [] {
      assert a + b == b;
    } else {
      assert (a + b)[1..] == a[1..] + b;
      ReplaySplit(exec, a[1..], b, exec(a[0], c));
    }
  }

  lemma ReplayOne(exec: Run, cmd: Command, c: Client)
    ensures Replay(exec, [cmd], c) == exec(cmd, c)
  {
    assert Replay(exec, [cmd], c) == Replay(exec, [cmd][1..], exec(cmd, c));
  }

  function Executor(m: Meaning, t: nat): Run {
    (cmd, c) => Exec(m, t, cmd, c)
  }

  // ---------------------------------------------------------------- the commands that are printed

  ghost predicate Selects(exec: Run, n: nat, c: Client) {
    n < |c.data| ==> exec([SELECT, Decimal(n)], c) == c.(sel := n)
  }

  ghost predicate Sets(exec: Run, k: Bytes, v: Bytes, c: Client) {
    c.sel < |c.data| ==> exec([SET, k, v], c) == Changed(c, c.data[c.sel][k := Object(Str(v), None)])
  }

  ghost predicate Pushes(exec: Run, k: Bytes, items: seq<Bytes>, c: Client) {
    c.sel < |c.data| && items != [] ==> exec([RPUSH, k] + items, c) == Changed(c, Push(c.data[c.sel], k, items))
  }

  ghost predicate Expires(exec: Run, k: Bytes, when: nat, c: Client) {
    c.sel < |c.data| ==> exec([PEXPIREAT, k, Decimal(when)], c) == Changed(c, SetExpire(c.data[c.sel], k, when))
  }

  ghost predicate Deletes(exec: Run, k: Bytes, c: Client) {
    c.sel < |c.data| ==> exec([DEL, k], c) == Changed(c, c.data[c.sel] - {k})
  }

  /** The commands that the server and the rewrite print do what their names say. */
  ghost predicate Obeys(exec: Run) {
    && (forall n: nat, c: Client :: Selects(exec, n, c))
    && (forall k, v, c: Client :: Sets(exec, k, v, c))
    && (forall k, items, c: Client :: Pushes(exec, k, items, c))
    && (forall k, when: nat, c: Client :: Expires(exec, k, when, c))
    && (forall k, c: Client :: Deletes(exec, k, c))
  }

  lemma UpperNames()
    ensures Upper(SELECT) == SELECT && Upper(SET) == SET && Upper(RPUSH) == RPUSH
    ensures Upper(PEXPIREAT) == PEXPIREAT && Upper(DEL) == DEL && Upper(RESTORE) == RESTORE
  {
  }

  /** A name is that of one command only. */
  lemma OneName(cmd: Command)
    ensures Named(cmd, SELECT) ==> !Named(cmd, SET) && !Named(cmd, RPUSH) && !Named(cmd, PEXPIREAT) && !Named(cmd, DEL) && !Named(cmd, RESTORE)
    ensures Named(cmd, SET) ==> !Named(cmd, RPUSH) && !Named(cmd, PEXPIREAT) && !Named(cmd, DEL) && !Named(cmd, RESTORE)
    ensures Named(cmd, RPUSH) ==> !Named(cmd, PEXPIREAT) && !Named(cmd, DEL) && !Named(cmd, RESTORE)
    ensures Named(cmd, PEXPIREAT) ==> !Named(cmd, DEL) && !Named(cmd, RESTORE)
    ensures Named(cmd, DEL) ==> !Named(cmd, RESTORE)
  {
    assert |SELECT| == 6 && |SET| == 3 && |RPUSH| == 5 && |PEXPIREAT| == 9 && |DEL| == 3 && |RESTORE| == 7 && SET[0] != DEL[0];
  }

  lemma ExecSelect(m: Meaning, t: nat, n: nat, c: Client)
    requires n < |c.data|
    ensures Exec(m, t, [SELECT, Decimal(n)], c) == c.(sel := n)
  {
    UpperNames();
    NumberOfDecimal(n);
  }

  lemma ExecSet(m: Meaning, t: nat, k: Bytes, v: Bytes, c: Client)
    requires c.sel < |c.data|
    ensures Exec(m, t, [SET, k, v], c) == Changed(c, c.data[c.sel][k := Object(Str(v), None)])
  {
    var cmd := [SET, k, v];
    UpperNames();
    OneName(cmd);
    assert cmd[3..] == [];
  }

  lemma ExecPush(m: Meaning, t: nat, k: Bytes, items: seq<Bytes>, c: Client)
    requires c.sel < |c.data| && items != []
    ensures Exec(m, t, [RPUSH, k] + items, c) == Changed(c, Push(c.data[c.sel], k, items))
  {
    var cmd := [RPUSH, k] + items;
    UpperNames();
    OneName(cmd);
    assert cmd[0] == RPUSH && cmd[1] == k && cmd[2..] == items;
  }

  lemma ExecExpire(m: Meaning, t: nat, k: Bytes, when: nat, c: Client)
    requires c.sel < |c.data|
    ensures Exec(m, t, [PEXPIREAT, k, Decimal(when)], c) == Changed(c, SetExpire(c.data[c.sel], k, when))
  {
    UpperNames();
    OneName([PEXPIREAT, k, Decimal(when)]);
    NumberOfDecimal(when);
  }

  lemma ExecDelete(m: Meaning, t: nat, k: Bytes, c: Client)
    requires c.sel < |c.data|
    ensures Exec(m, t, [DEL, k], c) == Changed(c, c.data[c.sel] - {k})
  {
    var cmd := [DEL, k];
    UpperNames();
    OneName(cmd);
    assert cmd[1..] == [k];
    assert (set x | x in [k]) == {k};
  }

  lemma ExecObeys(m: Meaning, t: nat)
    ensures Obeys(Executor(m, t))
  {
    var exec := Executor(m, t);
    forall n: nat, c: Client ensures Selects(exec, n, c) {
      if n < |c.data| {
        ExecSelect(m, t, n, c);
      }
    }
    forall k, v, c: Client ensures Sets(exec, k, v, c) {
      if c.sel < |c.data| {
        ExecSet(m, t, k, v, c);
      }
    }
    forall k, items, c: Client ensures Pushes(exec, k, items, c) {
      if c.sel < |c.data| && items != [] {
        ExecPush(m, t, k, items, c);
      }
    }
    forall k, when: nat, c: Client ensures Expires(exec, k, when, c) {
      if c.sel < |c.data| {
        ExecExpire(m, t, k, when, c);
      }
    }
    forall k, c: Client ensures Deletes(exec, k, c) {
      if c.sel < |c.data| {
        ExecDelete(m, t, k, c);
      }
    }
  }

  lemma ExecKeepsLength(m: Meaning, t: nat, cmd: Command, c: Client)
    ensures |Exec(m, t, cmd, c).data| == |c.data|
    ensures !Selecting(cmd) ==> Exec(m, t, cmd, c).sel == c.sel
  {
  }
}
