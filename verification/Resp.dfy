/** The text of the append-only file: how commands are printed, and how the loader reads them back. */
module Resp {
  import opened Options
  import opened Octets

  type Bytes = seq<Byte>

  /** A command as its argument vector. */
  type Command = seq<Bytes>

  const LF: Byte := 10
  const CR: Byte := 13
  const STAR: Byte := 42
  const DOLLAR: Byte := 36
  const CRLF: Bytes := [CR, LF]

  const MULTI: Bytes := [77, 85, 76, 84, 73]
  const EXEC: Bytes := [69, 88, 69, 67]
  const DISCARD: Bytes := [68, 73, 83, 67, 65, 82, 68]

  function UpperByte(b: Byte): Byte {
    if 97 <= b <= 122 then b - 32 else b
  }

  function Upper(s: Bytes): Bytes {
    seq(|s|, i requires 0 <= i < |s| => UpperByte(s[i]))
  }

  /** The command of that name; lookupCommand takes upper and lower case for the same. */
  predicate Named(c: Command, name: Bytes) {
    c != [] && Upper(c[0]) == name
  }

  // ---------------------------------------------------------------- printing

  /** ll2string. */
  function Decimal(n: nat): Bytes {
    if n < 10 then [(48 + n) as Byte] else Decimal(n / 10) + [(48 + n % 10) as Byte]
  }

  function Header(c: Byte, n: nat): Bytes {
    [c] + Decimal(n) + CRLF
  }

  function PrintArg(a: Bytes): Bytes {
    Header(DOLLAR, |a|) + a + CRLF
  }

  /** The texts of the items, one after the other. */
  function Cat<T>(text: T -> Bytes, items: seq<T>): Bytes {
    if items == [] then [] else text(items[0]) + Cat(text, items[1..])
  }

  function PrintArgs(args: seq<Bytes>): Bytes {
    Cat(PrintArg, args)
  }

  function Print(c: Command): Bytes {
    Header(STAR, |c|) + PrintArgs(c)
  }

  function PrintAll(cmds: seq<Command>): Bytes {
    Cat(Print, cmds)
  }

  lemma Associative(a: Bytes, b: Bytes, c: Bytes)
    ensures (a + b) + c == a + (b + c)
  {
  }

  lemma {:induction false} CatSplit<T>(text: T -> Bytes, items: seq<T>, n: nat)
    requires n <= |items|
    ensures Cat(text, items) == Cat(text, items[..n]) + Cat(text, items[n..])
  {
    if n == 0 {
      assert items[0..] == items;
    } else {
      CatSplit(text, items[1..], n - 1);
      assert items[..n][1..] == items[1..][..n - 1] && items[1..][n - 1..] == items[n..] && items[..n][0] == items[0];
      Associative(text(items[0]), Cat(text, items[1..][..n - 1]), Cat(text, items[n..]));
    }
  }

  lemma CatAppend<T>(text: T -> Bytes, items: seq<T>, x: T)
    ensures Cat(text, items + [x]) == Cat(text, items) + text(x)
  {
    CatSplit(text, items + [x], |items|);
    assert (items + [x])[..|items|] == items && (items + [x])[|items|..] == [x];
    assert Cat(text, [x]) == text(x) + Cat(text, [x][1..]);
  }

  /** catAppendOnlyGenericCommand. */
  method CatCommand(dst0: Bytes, argv: Command) returns (dst: Bytes)
    ensures dst == dst0 + Print(argv)
  {
    var buf := [STAR] + Decimal(|argv|) + CRLF;
    dst := dst0 + buf;
    ghost var head := dst;
    for j := 0 to |argv|
      invariant dst == head + PrintArgs(argv[..j])
    {
      buf := [DOLLAR] + Decimal(|argv[j]|) + CRLF;
      ghost var args := PrintArgs(argv[..j]);
      Associative(head, args, PrintArg(argv[j]));
      Associative(dst, buf, argv[j]);
      Associative(dst, buf + argv[j], CRLF);
      dst := dst + buf;
      dst := dst + argv[j];
      dst := dst + CRLF;
      CatAppend(PrintArg, argv[..j], argv[j]);
      assert argv[..j + 1] == argv[..j] + [argv[j]];
    }
    Associative(dst0, Header(STAR, |argv|), PrintArgs(argv));
    assert argv[..|argv|] == argv;
  }

  // ---------------------------------------------------------------- reading

  const BUF := 128

  /** The number of bytes fgets takes from s when it may take n. */
  function LineLength(s: Bytes, n: nat): (r: nat)
    ensures r <= |s| && r <= n && (s != [] && n > 0 ==> r > 0)
  {
    if s == [] || n == 0 then 0 else if s[0] == LF then 1 else 1 + LineLength(s[1..], n - 1)
  }

  /** fgets into a buffer of 128 bytes. */
  function Line(s: Bytes): Bytes {
    s[..LineLength(s, BUF - 1)]
  }

  function AfterLine(s: Bytes): Bytes {
    s[LineLength(s, BUF - 1)..]
  }

  predicate IsSpace(b: Byte) {
    b == 32 || 9 <= b <= 13
  }

  predicate IsDigit(b: Byte) {
    48 <= b <= 57
  }

  function Digits(s: Bytes, acc: nat): nat {
    if s == [] || !IsDigit(s[0]) then acc else Digits(s[1..], 10 * acc + (s[0] as int - 48))
  }

  /** atoi and strtol: white space, a sign, digits, whatever follows. */
  function ParseInt(s: Bytes): int {
    if s == [] then 0
    else if IsSpace(s[0]) then ParseInt(s[1..])
    else if s[0] == 45 then 0 - (Digits(s[1..], 0) as int)
    else if s[0] == 43 then Digits(s[1..], 0) as int
    else Digits(s, 0) as int
  }

  /** Why reading stops: the end of the file inside a command or a transaction; a byte that cannot be
      there; a length that cannot be allocated; an error that is not the end of the file; a command that
      there is none of. */
  datatype Stop = ShortRead | BadFormat | NoMemory | ReadError | UnknownCommand

  datatype Parsed<T> = Parsed(value: T, rest: Bytes) | Stopped(why: Stop)

  function ReadArg(s: Bytes): (r: Parsed<Bytes>)
    ensures r.Parsed? ==> |r.rest| < |s|
  {
    if s == [] then Stopped(ShortRead)
    else if Line(s)[0] != DOLLAR then Stopped(BadFormat)
    else
      var len, rest := ParseInt(Line(s)[1..]), AfterLine(s);
      if len < 0 then Stopped(NoMemory)
      else if |rest| < len + 2 then Stopped(ShortRead)
      else Parsed(rest[..len], rest[len + 2..])
  }

  function ReadArgs(s: Bytes, n: nat): (r: Parsed<seq<Bytes>>)
    ensures r.Parsed? ==> |r.rest| <= |s| && |r.value| == n
  {
    if n == 0 then Parsed([], s)
    else
      match ReadArg(s)
      case Stopped(why) => Stopped(why)
      case Parsed(a, rest) =>
        Prepend([a], ReadArgs(rest, n - 1))
  }

  function Prepend(argv: seq<Bytes>, p: Parsed<seq<Bytes>>): Parsed<seq<Bytes>> {
    match p
    case Stopped(why) => p
    case Parsed(more, rest) => Parsed(argv + more, rest)
  }

  lemma PrependAssociative(a: seq<Bytes>, x: Bytes, p: Parsed<seq<Bytes>>)
    ensures Prepend(a + [x], p) == Prepend(a, Prepend([x], p))
    ensures Prepend([], p) == p
  {
    if p.Parsed? {
      assert (a + [x]) + p.value == a + ([x] + p.value);
      assert [] + p.value == p.value;
    }
  }

  /** One round of the loader's loop, on a file that is not at its end. */
  function ReadCommand(s: Bytes): (r: Parsed<Command>)
    requires s != []
    ensures r.Parsed? ==> |r.rest| < |s|
  {
    var line, rest := Line(s), AfterLine(s);
    if line[0] != STAR then Stopped(BadFormat)
    else if |line| == 1 then Stopped(ShortRead)
    else if line[1] == 0 then Stopped(if rest == [] && |line| < BUF - 1 && line[|line| - 1] != LF then ShortRead else ReadError)
    else if ParseInt(line[1..]) < 1 then Stopped(BadFormat)
    else ReadArgs(rest, ParseInt(line[1..]))
  }

  /** What loading a file comes to: the commands run, the offset after the last of them
      (valid_up_to), and why it stopped if not at the end of the file. */
  datatype Loaded = Loaded(cmds: seq<Command>, validUpTo: nat, end: Option<Stop>)

  type CommandReader = Bytes -> Parsed<Command>

  /** The commands that lookupCommand finds. */
  type Known = Command -> bool

  /** What a command does to the flag CLIENT_MULTI of the client that runs it. */
  type Flag = (bool, Command) -> bool

  /** MULTI sets the flag, EXEC and DISCARD clear it. */
  predicate MultiAfter(multi: bool, c: Command) {
    Named(c, MULTI) || (multi && !Named(c, EXEC) && !Named(c, DISCARD))
  }

  function Flagged(after: Flag, multi: bool, cmds: seq<Command>): bool
    decreases |cmds|
  {
    if cmds == [] then multi else Flagged(after, after(multi, cmds[0]), cmds[1..])
  }

  /** A transaction is open after these commands. */
  predicate InMulti(cmds: seq<Command>) {
    Flagged(MultiAfter, false, cmds)
  }

  /** Loading with any way to read a command, as long as that gets on. */
  function LoadWith(read: CommandReader, known: Known, after: Flag, s: Bytes, cmds: seq<Command>, offset: nat, multi: bool): Loaded
    decreases |s|
  {
    if s == [] then Loaded(cmds, offset, if multi then Some(ShortRead) else None)
    else
      match read(s)
      case Stopped(why) => Loaded(cmds, offset, Some(why))
      case Parsed(c, rest) =>
        if !known(c) then Loaded(cmds, offset, Some(UnknownCommand))
        else if |rest| < |s| then
          LoadWith(read, known, after, rest, cmds + [c], offset + (|s| - |rest|), after(multi, c))
        else Loaded(cmds, offset, Some(ReadError))
  }

  function NextCommand(s: Bytes): (r: Parsed<Command>)
    ensures r.Parsed? ==> |r.rest| < |s|
  {
    if s == [] then Stopped(ShortRead) else ReadCommand(s)
  }

  function LoadFrom(known: Known, s: Bytes, cmds: seq<Command>, offset: nat, multi: bool): Loaded {
    LoadWith(NextCommand, known, MultiAfter, s, cmds, offset, multi)
  }

  function Load(known: Known, file: Bytes): Loaded {
    LoadFrom(known, file, [], 0, false)
  }

  /** The inner loop of loadAppendOnlyFile. */
  method ReadArgv(s: Bytes, argc: nat) returns (r: Parsed<Command>)
    ensures r == ReadArgs(s, argc)
  {
    var rest, argv := s, [];
    PrependAssociative([], [], ReadArgs(s, argc));
    for j := 0 to argc
      invariant ReadArgs(s, argc) == Prepend(argv, ReadArgs(rest, argc - j))
    {
      if rest == [] {
        return Stopped(ShortRead);
      }
      ghost var before := rest;
      var line := Line(rest);
      rest := AfterLine(rest);
      if line[0] != DOLLAR {
        return Stopped(BadFormat);
      }
      var len := ParseInt(line[1..]);
      if len < 0 {
        return Stopped(NoMemory);
      }
      if len != 0 && |rest| < len {
        return Stopped(ShortRead);
      }
      var arg := rest[..len];
      if |rest[len..]| < 2 {
        return Stopped(ShortRead);
      }
      rest := rest[len + 2..];
      assert ReadArg(before) == Parsed(arg, rest);
      PrependAssociative(argv, arg, ReadArgs(rest, argc - j - 1));
      argv := argv + [arg];
    }
    assert argv + [] == argv;
    return Parsed(argv, rest);
  }

  /** The header of a command, and then its arguments. */
  method ReadNext(s: Bytes) returns (p: Parsed<Command>)
    requires s != []
    ensures p == ReadCommand(s)
  {
    var line, rest := Line(s), AfterLine(s);
    if line[0] != STAR {
      return Stopped(BadFormat);
    }
    if |line| == 1 {
      return Stopped(ShortRead);
    }
    if line[1] == 0 {
      return Stopped(if rest == [] && |line| < BUF - 1 && line[|line| - 1] != LF then ShortRead else ReadError);
    }
    var argc := ParseInt(line[1..]);
    if argc < 1 {
      return Stopped(BadFormat);
    }
    p := ReadArgv(rest, argc);
  }

  /** The parse loop of loadAppendOnlyFile, with aof-load-truncated. */
  method LoadAppendOnlyFile(known: Known, file: Bytes) returns (r: Loaded)
    ensures r == Load(known, file)
  {
    r := LoadCommands(NextCommand, known, MultiAfter, file);
  }

  ghost predicate ReadsAs(read: CommandReader, s: Bytes) {
    s != [] ==> read(s) == ReadCommand(s)
  }

  method LoadCommands(ghost read: CommandReader, known: Known, after: Flag, file: Bytes) returns (r: Loaded)
    requires forall s: Bytes :: ReadsAs(read, s)
    ensures r == LoadWith(read, known, after, file, [], 0, false)
  {
    var s, cmds, validUpTo: nat, multi := file, [], 0, false;
    while s != []
      invariant LoadWith(read, known, after, s, cmds, validUpTo, multi) == LoadWith(read, known, after, file, [], 0, false)
      decreases |s|
    {
      assert ReadsAs(read, s);
      var p := ReadNext(s);
      if p.Stopped? {
        return Loaded(cmds, validUpTo, Some(p.why));
      }
      if !known(p.value) {
        return Loaded(cmds, validUpTo, Some(UnknownCommand));
      }
      cmds := cmds + [p.value];
      multi := after(multi, p.value);
      validUpTo := validUpTo + (|s| - |p.rest|);
      s := p.rest;
    }
    if multi {
      return Loaded(cmds, validUpTo, Some(ShortRead));
    }
    return Loaded(cmds, validUpTo, None);
  }
}
