/** Loading what was printed: every file of printed commands, cut at every byte. */
module RespRoundTrip {
  import opened Options
  import opened Powers
  import opened Octets
  import opened Resp

  // ---------------------------------------------------------------- numbers

  predicate AllDigits(s: Bytes) {
    forall i :: 0 <= i < |s| ==> IsDigit(s[i])
  }

  lemma {:induction false} DecimalIsDigits(n: nat)
    ensures AllDigits(Decimal(n)) && Decimal(n) != []
    ensures n >= 1 ==> Decimal(n)[0] >= 49
  {
    if n >= 10 {
      DecimalIsDigits(n / 10);
    }
  }

  lemma {:induction false} DecimalLength(n: nat, k: nat)
    requires k >= 1 && n < Power(10, k)
    ensures |Decimal(n)| <= k
  {
    if n >= 10 {
      DecimalLength(n / 10, k - 1);
    }
  }

  lemma {:induction false} DigitsSplit(d: Bytes, s: Bytes, acc: nat)
    requires AllDigits(d)
    ensures Digits(d + s, acc) == Digits(s, Digits(d, acc))
  {
    if d == [] {
      assert d + s == s;
    } else {
      assert (d + s)[1..] == d[1..] + s;
      DigitsSplit(d[1..], s, 10 * acc + (d[0] as int - 48));
    }
  }

  lemma {:induction false} DigitsOfDecimal(n: nat)
    ensures Digits(Decimal(n), 0) == n
  {
    if n >= 10 {
      DigitsOfDecimal(n / 10);
      DecimalIsDigits(n / 10);
      var d := [(48 + n % 10) as Byte];
      DigitsSplit(Decimal(n / 10), d, 0);
      assert Digits(d, n / 10) == Digits(d[1..], 10 * (n / 10) + n % 10);
    } else {
      assert Digits(Decimal(n), 0) == Digits(Decimal(n)[1..], n);
    }
  }

  lemma {:induction false} DigitsGrow(s: Bytes, acc: nat)
    ensures Digits(s, acc) >= acc
  {
    if s != [] && IsDigit(s[0]) {
      DigitsGrow(s[1..], 10 * acc + (s[0] as int - 48));
    }
  }

  lemma ParseDecimal(n: nat)
    ensures ParseInt(Decimal(n) + CRLF) == n
  {
    DecimalIsDigits(n);
    DigitsSplit(Decimal(n), CRLF, 0);
    DigitsOfDecimal(n);
  }

  /** Whatever is left of a number after a cut reads as a number, and as at least one if it was. */
  lemma ParseCut(n: nat, s: Bytes)
    requires s <= Decimal(n) + CRLF
    ensures ParseInt(s) >= 0
    ensures n >= 1 && s != [] ==> ParseInt(s) >= 1
  {
    DecimalIsDigits(n);
    if s != [] {
      assert s[0] == Decimal(n)[0];
      DigitsGrow(s[1..], s[0] as int - 48);
    }
  }

  // ---------------------------------------------------------------- lines

  lemma {:induction false} LineEnds(h: Bytes, tail: Bytes, n: nat)
    requires h != [] && |h| <= n && h[|h| - 1] == LF && forall i :: 0 <= i < |h| - 1 ==> h[i] != LF
    ensures LineLength(h + tail, n) == |h|
  {
    if |h| > 1 {
      assert (h + tail)[1..] == h[1..] + tail;
      LineEnds(h[1..], tail, n - 1);
    }
  }

  lemma {:induction false} LineUnended(s: Bytes, n: nat)
    requires |s| <= n && forall i :: 0 <= i < |s| ==> s[i] != LF
    ensures LineLength(s, n) == |s|
  {
    if s != [] {
      LineUnended(s[1..], n - 1);
    }
  }

  /** The sizes that a C int (argc) and a long (bulk length) hold. */
  const MAX_LENGTH: nat := 0x7FFF_FFFF_FFFF_FFFF

  lemma HeaderShape(c: Byte, n: nat)
    requires c != LF && n <= MAX_LENGTH
    ensures var h := Header(c, n);
            |h| <= 22 && h[0] == c && h[|h| - 1] == LF && (forall i :: 0 <= i < |h| - 1 ==> h[i] != LF) && h[1..] == Decimal(n) + CRLF
  {
    DecimalIsDigits(n);
    assert Power(10, 10) == 1_00000_00000;
    assert Power(10, 19) == 10000_00000_00000_00000;
    DecimalLength(n, 19);
  }

  /** A whole header is one line. */
  lemma HeaderWhole(c: Byte, n: nat, tail: Bytes)
    requires c != LF && n <= MAX_LENGTH
    ensures Line(Header(c, n) + tail) == Header(c, n) && AfterLine(Header(c, n) + tail) == tail
    ensures Header(c, n)[0] == c && ParseInt(Header(c, n)[1..]) == n
  {
    HeaderShape(c, n);
    ParseDecimal(n);
    LineEnds(Header(c, n), tail, BUF - 1);
  }

  /** A header that is cut short is the last line. */
  lemma HeaderCut(c: Byte, n: nat, k: nat)
    requires c != LF && n <= MAX_LENGTH && 0 < k < |Header(c, n)|
    ensures var s := Header(c, n)[..k];
            && Line(s) == s && AfterLine(s) == [] && s[0] == c && ParseInt(s[1..]) >= 0
            && (n >= 1 && k > 1 ==> ParseInt(s[1..]) >= 1 && s[1] != 0)
  {
    HeaderShape(c, n);
    DecimalIsDigits(n);
    var s := Header(c, n)[..k];
    LineUnended(s, BUF - 1);
    assert s[1..] <= Decimal(n) + CRLF;
    ParseCut(n, s[1..]);
  }

  // ---------------------------------------------------------------- arguments

  lemma ReadArgWhole(a: Bytes, tail: Bytes)
    requires |a| <= MAX_LENGTH
    ensures ReadArg(PrintArg(a) + tail) == Parsed(a, tail)
  {
    var rest := a + CRLF + tail;
    assert PrintArg(a) + tail == Header(DOLLAR, |a|) + rest;
    HeaderWhole(DOLLAR, |a|, rest);
    assert rest[..|a|] == a && rest[|a| + 2..] == tail;
  }

  lemma ReadArgCut(a: Bytes, k: nat)
    requires |a| <= MAX_LENGTH && k < |PrintArg(a)|
    ensures ReadArg(PrintArg(a)[..k]) == Stopped(ShortRead)
  {
    var h := Header(DOLLAR, |a|);
    var s := PrintArg(a)[..k];
    if 0 < k < |h| {
      assert s == h[..k];
      HeaderCut(DOLLAR, |a|, k);
    } else if k > 0 {
      var rest := (a + CRLF)[..k - |h|];
      assert s == h + rest;
      HeaderWhole(DOLLAR, |a|, rest);
    }
  }

  ghost predicate WellFormed(c: Command) {
    1 <= |c| <= 0x7FFF_FFFF && forall i :: 0 <= i < |c| ==> |c[i]| <= MAX_LENGTH
  }

  /** The text of an argument reads back, whatever follows, and not at all if it is cut. */
  ghost predicate ArgReads(text: Bytes -> Bytes, a: Bytes) {
    && (forall tail :: ReadArg(text(a) + tail) == Parsed(a, tail))
    && (forall k: nat :: k < |text(a)| ==> ReadArg(text(a)[..k]) == Stopped(ShortRead))
  }

  lemma PrintArgReads(args: seq<Bytes>)
    requires forall i :: 0 <= i < |args| ==> |args[i]| <= MAX_LENGTH
    ensures forall i :: 0 <= i < |args| ==> ArgReads(PrintArg, args[i])
  {
    forall i | 0 <= i < |args|
      ensures ArgReads(PrintArg, args[i])
    {
      forall tail ensures ReadArg(PrintArg(args[i]) + tail) == Parsed(args[i], tail) {
        ReadArgWhole(args[i], tail);
      }
      forall k: nat | k < |PrintArg(args[i])| ensures ReadArg(PrintArg(args[i])[..k]) == Stopped(ShortRead) {
        ReadArgCut(args[i], k);
      }
    }
  }

  lemma ReadArgsStep(p: Bytes, rest: Bytes, a: Bytes, args: seq<Bytes>, tail: Bytes)
    requires ReadArg(p + rest) == Parsed(a, rest) && ReadArgs(rest, |args|) == Parsed(args, tail)
    ensures ReadArgs(p + rest, |args| + 1) == Parsed([a] + args, tail)
  {
  }

  lemma {:induction false} ReadArgsWhole(text: Bytes -> Bytes, args: seq<Bytes>, tail: Bytes)
    requires forall i :: 0 <= i < |args| ==> ArgReads(text, args[i])
    ensures ReadArgs(Cat(text, args) + tail, |args|) == Parsed(args, tail)
  {
    if args == [] {
      assert Cat(text, args) + tail == tail;
    } else {
      var p, rest := text(args[0]), Cat(text, args[1..]) + tail;
      Associative(p, Cat(text, args[1..]), tail);
      assert ArgReads(text, args[0]);
      ReadArgsWhole(text, args[1..], tail);
      ReadArgsStep(p, rest, args[0], args[1..], tail);
      assert [args[0]] + args[1..] == args;
    }
  }

  lemma {:induction false} ReadArgsCut(text: Bytes -> Bytes, args: seq<Bytes>, k: nat)
    requires (forall i :: 0 <= i < |args| ==> ArgReads(text, args[i])) && k < |Cat(text, args)|
    ensures ReadArgs(Cat(text, args)[..k], |args|) == Stopped(ShortRead)
  {
    var p := text(args[0]);
    assert ArgReads(text, args[0]);
    TakeOfTwo(p, Cat(text, args[1..]), k);
    if k >= |p| {
      var rest := Cat(text, args[1..])[..k - |p|];
      ReadArgsCut(text, args[1..], k - |p|);
      ReadArgsStops(p, rest, args[0], |args| - 1);
    }
  }

  lemma TakeOfTwo(a: Bytes, b: Bytes, k: nat)
    requires k <= |a + b|
    ensures (a + b)[..k] == if k < |a| then a[..k] else a + b[..k - |a|]
  {
  }

  lemma ReadArgsStops(p: Bytes, rest: Bytes, a: Bytes, n: nat)
    requires ReadArg(p + rest) == Parsed(a, rest) && ReadArgs(rest, n) == Stopped(ShortRead)
    ensures ReadArgs(p + rest, n + 1) == Stopped(ShortRead)
  {
  }

  // ---------------------------------------------------------------- commands

  lemma ReadCommandWhole(c: Command, tail: Bytes)
    requires WellFormed(c)
    ensures Print(c) + tail != [] && ReadCommand(Print(c) + tail) == Parsed(c, tail)
  {
    Associative(Header(STAR, |c|), PrintArgs(c), tail);
    ReadCommandArgs(|c|, PrintArgs(c) + tail);
    PrintArgReads(c);
    ReadArgsWhole(PrintArg, c, tail);
  }

  lemma ReadCommandCut(c: Command, k: nat)
    requires WellFormed(c) && 0 < k < |Print(c)|
    ensures ReadCommand(Print(c)[..k]) == Stopped(ShortRead)
  {
    var h := Header(STAR, |c|);
    TakeOfTwo(h, PrintArgs(c), k);
    if k < |h| {
      ReadHeaderCut(|c|, k);
    } else {
      ReadCommandArgs(|c|, PrintArgs(c)[..k - |h|]);
      PrintArgReads(c);
      ReadArgsCut(PrintArg, c, k - |h|);
    }
  }

  lemma ReadHeaderCut(n: nat, k: nat)
    requires 1 <= n <= 0x7FFF_FFFF && 0 < k < |Header(STAR, n)|
    ensures ReadCommand(Header(STAR, n)[..k]) == Stopped(ShortRead)
  {
    DecimalIsDigits(n);
    HeaderCut(STAR, n, k);
  }

  lemma ReadCommandArgs(n: nat, rest: Bytes)
    requires 1 <= n <= 0x7FFF_FFFF
    ensures Header(STAR, n) != [] && ReadCommand(Header(STAR, n) + rest) == ReadArgs(rest, n)
  {
    DecimalIsDigits(n);
    HeaderWhole(STAR, n, rest);
  }

  // ---------------------------------------------------------------- files

  /** The number of commands that lie wholly within the first k bytes. */
  function Whole(text: Command -> Bytes, cmds: seq<Command>, k: nat): (n: nat)
    ensures n <= |cmds|
  {
    if cmds == [] || k < |text(cmds[0])| then 0 else 1 + Whole(text, cmds[1..], k - |text(cmds[0])|)
  }

  /** That number is the right one: the commands before it fit into k bytes, and one more does not. */
  lemma {:induction false} WholeIsMaximal(text: Command -> Bytes, cmds: seq<Command>, k: nat)
    ensures |Cat(text, cmds[..Whole(text, cmds, k)])| <= k
    ensures Whole(text, cmds, k) < |cmds| ==> k < |Cat(text, cmds[..Whole(text, cmds, k) + 1])|
  {
    var n := Whole(text, cmds, k);
    if n > 0 {
      WholeIsMaximal(text, cmds[1..], k - |text(cmds[0])|);
      assert cmds[..n][1..] == cmds[1..][..n - 1];
      if n < |cmds| {
        assert cmds[..n + 1][1..] == cmds[1..][..n];
      }
    }
  }

  type Loader = (Bytes, seq<Command>, nat, bool) -> Loaded

  ghost predicate LoadsOne(load: Loader, after: Flag, p: Bytes, c: Command) {
    forall rest, done, offset: nat, multi ::
      load(p + rest, done, offset, multi) == load(rest, done + [c], offset + |p|, after(multi, c))
  }

  ghost predicate LoadsNone(load: Loader, s: Bytes) {
    forall done, offset: nat, multi ::
      load(s, done, offset, multi) == Loaded(done, offset, if s == [] && !multi then None else Some(ShortRead))
  }

  /** The text of a command is loaded as that command, whatever follows, and not at all if it is cut. */
  ghost predicate Loads(load: Loader, after: Flag, text: Command -> Bytes, c: Command) {
    LoadsOne(load, after, text(c), c) && forall k: nat :: k < |text(c)| ==> LoadsNone(load, text(c)[..k])
  }

  /** The loader reads one command at s and goes on, or stops there. */
  ghost predicate LoadAt(load: Loader, read: CommandReader, known: Known, after: Flag, s: Bytes, done: seq<Command>,
                         offset: nat, multi: bool) {
    && (s == [] ==> load(s, done, offset, multi) == Loaded(done, offset, if multi then Some(ShortRead) else None))
    && (s != [] && read(s).Stopped? ==> load(s, done, offset, multi) == Loaded(done, offset, Some(read(s).why)))
    && (s != [] && read(s).Parsed? && !known(read(s).value) ==>
          load(s, done, offset, multi) == Loaded(done, offset, Some(UnknownCommand)))
    && (s != [] && read(s).Parsed? && known(read(s).value) && |read(s).rest| < |s| ==>
          load(s, done, offset, multi) == load(read(s).rest, done + [read(s).value], offset + (|s| - |read(s).rest|),
                                               after(multi, read(s).value)))
  }

  ghost predicate LoadsBy(load: Loader, read: CommandReader, known: Known, after: Flag) {
    forall s: Bytes, done: seq<Command>, offset: nat, multi: bool :: LoadAt(load, read, known, after, s, done, offset, multi)
  }

  function LoaderOf(read: CommandReader, known: Known, after: Flag): Loader {
    (s: Bytes, done: seq<Command>, offset: nat, multi: bool) => LoadWith(read, known, after, s, done, offset, multi)
  }

  lemma LoadWithReads(read: CommandReader, known: Known, after: Flag)
    ensures LoadsBy(LoaderOf(read, known, after), read, known, after)
  {
    forall s: Bytes, done: seq<Command>, offset: nat, multi: bool
      ensures LoadAt(LoaderOf(read, known, after), read, known, after, s, done, offset, multi)
    {
    }
  }

  lemma LoadsWhole(load: Loader, read: CommandReader, known: Known, after: Flag, p: Bytes, c: Command)
    requires LoadsBy(load, read, known, after) && p != [] && known(c) && forall rest :: read(p + rest) == Parsed(c, rest)
    ensures LoadsOne(load, after, p, c)
  {
    forall rest, done, offset: nat, multi
      ensures load(p + rest, done, offset, multi) == load(rest, done + [c], offset + |p|, after(multi, c))
    {
      assert LoadAt(load, read, known, after, p + rest, done, offset, multi);
      assert read(p + rest) == Parsed(c, rest);
    }
  }

  lemma LoadsCut(load: Loader, read: CommandReader, known: Known, after: Flag, s: Bytes)
    requires LoadsBy(load, read, known, after) && (s == [] || read(s) == Stopped(ShortRead))
    ensures LoadsNone(load, s)
  {
    forall done, offset: nat, multi
      ensures load(s, done, offset, multi) == Loaded(done, offset, if s == [] && !multi then None else Some(ShortRead))
    {
      assert LoadAt(load, read, known, after, s, done, offset, multi);
    }
  }

  lemma ReadsPrinted(c: Command)
    requires WellFormed(c)
    ensures forall rest :: NextCommand(Print(c) + rest) == Parsed(c, rest)
    ensures forall k: nat :: k < |Print(c)| ==> NextCommand(Print(c)[..k]) == Stopped(ShortRead)
  {
    var p := Print(c);
    forall rest
      ensures NextCommand(p + rest) == Parsed(c, rest)
    {
      ReadCommandWhole(c, rest);
    }
    forall k: nat | k < |p|
      ensures NextCommand(p[..k]) == Stopped(ShortRead)
    {
      if k > 0 {
        ReadCommandCut(c, k);
      }
    }
  }

  lemma ReadsMeansLoads(load: Loader, read: CommandReader, known: Known, after: Flag, text: Command -> Bytes, c: Command)
    requires LoadsBy(load, read, known, after) && known(c)
    requires text(c) != [] && forall rest :: read(text(c) + rest) == Parsed(c, rest)
    requires forall k: nat :: k < |text(c)| ==> read(text(c)[..k]) == Stopped(ShortRead)
    ensures Loads(load, after, text, c)
  {
    LoadsWhole(load, read, known, after, text(c), c);
    forall k: nat | k < |text(c)|
      ensures LoadsNone(load, text(c)[..k])
    {
      LoadsCut(load, read, known, after, text(c)[..k]);
    }
  }

  lemma PrintLoads(known: Known, after: Flag, c: Command)
    requires WellFormed(c) && known(c)
    ensures Loads(LoaderOf(NextCommand, known, after), after, Print, c)
  {
    LoadWithReads(NextCommand, known, after);
    ReadsPrinted(c);
    ReadsMeansLoads(LoaderOf(NextCommand, known, after), NextCommand, known, after, Print, c);
  }

  /** What loading the first k bytes of the commands' text gives. */
  function CutResult(after: Flag, text: Command -> Bytes, cmds: seq<Command>, k: nat, done: seq<Command>, offset: nat,
                     multi: bool): Loaded {
    var n := Whole(text, cmds, k);
    var size := |Cat(text, cmds[..n])|;
    Loaded(done + cmds[..n], offset + size, if size == k && !Flagged(after, multi, cmds[..n]) then None else Some(ShortRead))
  }

  lemma CutResultStep(after: Flag, text: Command -> Bytes, cmds: seq<Command>, k: nat, done: seq<Command>, offset: nat,
                      multi: bool)
    requires cmds != [] && |text(cmds[0])| <= k
    ensures var p := text(cmds[0]);
            CutResult(after, text, cmds, k, done, offset, multi) ==
            CutResult(after, text, cmds[1..], k - |p|, done + [cmds[0]], offset + |p|, after(multi, cmds[0]))
  {
    var n := Whole(text, cmds, k);
    assert cmds[..n][1..] == cmds[1..][..n - 1] && cmds[..n][0] == cmds[0];
    assert done + [cmds[0]] + cmds[1..][..n - 1] == done + cmds[..n];
  }

  lemma {:induction false} LoadCutFrom(load: Loader, after: Flag, text: Command -> Bytes, cmds: seq<Command>, k: nat,
                                       done: seq<Command>, offset: nat, multi: bool)
    requires k <= |Cat(text, cmds)| && LoadsNone(load, [])
    requires forall i :: 0 <= i < |cmds| ==> Loads(load, after, text, cmds[i])
    ensures load(Cat(text, cmds)[..k], done, offset, multi) == CutResult(after, text, cmds, k, done, offset, multi)
  {
    var s := Cat(text, cmds)[..k];
    if cmds == [] || k < |text(cmds[0])| {
      assert done + cmds[..0] == done;
      if cmds != [] {
        assert Loads(load, after, text, cmds[0]);
        assert s == text(cmds[0])[..k];
      }
      assert LoadsNone(load, s);
    } else {
      var p := text(cmds[0]);
      var rest := Cat(text, cmds[1..])[..k - |p|];
      assert Loads(load, after, text, cmds[0]);
      assert s == p + rest;
      LoadCutFrom(load, after, text, cmds[1..], k - |p|, done + [cmds[0]], offset + |p|, after(multi, cmds[0]));
      CutResultStep(after, text, cmds, k, done, offset, multi);
    }
  }

  /** Commands that can be printed and that the loader finds. */
  ghost predicate Loadable(known: Known, cmds: seq<Command>) {
    forall i :: 0 <= i < |cmds| ==> WellFormed(cmds[i]) && known(cmds[i])
  }

  lemma LoadableLoad(known: Known, after: Flag, cmds: seq<Command>)
    requires Loadable(known, cmds)
    ensures var load := LoaderOf(NextCommand, known, after);
            LoadsNone(load, []) && forall i :: 0 <= i < |cmds| ==> Loads(load, after, Print, cmds[i])
  {
    var load := LoaderOf(NextCommand, known, after);
    forall i | 0 <= i < |cmds|
      ensures Loads(load, after, Print, cmds[i])
    {
      PrintLoads(known, after, cmds[i]);
    }
    LoadWithReads(NextCommand, known, after);
    LoadsCut(load, NextCommand, known, after, []);
  }

  /** For every list of commands and every cut, the loader runs exactly the commands wholly before the
      cut, valid_up_to is where the last of them ends, and the loader stops cleanly exactly when the
      cut is between two commands and no transaction is open there. */
  lemma LoadCut(known: Known, cmds: seq<Command>, k: nat)
    requires k <= |PrintAll(cmds)| && Loadable(known, cmds)
    ensures var n := Whole(Print, cmds, k);
            var size := |PrintAll(cmds[..n])|;
            Load(known, PrintAll(cmds)[..k]) ==
            Loaded(cmds[..n], size, if size == k && !InMulti(cmds[..n]) then None else Some(ShortRead))
  {
    LoadableLoad(known, MultiAfter, cmds);
    LoadCutFrom(LoaderOf(NextCommand, known, MultiAfter), MultiAfter, Print, cmds, k, [], 0, false);
    assert [] + cmds[..Whole(Print, cmds, k)] == cmds[..Whole(Print, cmds, k)];
  }

  lemma {:induction false} WholeOfAll(text: Command -> Bytes, cmds: seq<Command>)
    ensures Whole(text, cmds, |Cat(text, cmds)|) == |cmds|
  {
    if cmds != [] {
      WholeOfAll(text, cmds[1..]);
    }
  }

  /** In particular, a file that was not cut loads as it was printed, and cleanly exactly if it does not
      end inside a transaction. */
  lemma LoadWhole(known: Known, cmds: seq<Command>)
    requires Loadable(known, cmds)
    ensures Load(known, PrintAll(cmds)) == Loaded(cmds, |PrintAll(cmds)|, if InMulti(cmds) then Some(ShortRead) else None)
  {
    var f := PrintAll(cmds);
    LoadCut(known, cmds, |f|);
    WholeOfAll(Print, cmds);
    assert f[..|f|] == f && cmds[..|cmds|] == cmds;
  }

  /** Truncating the file to valid_up_to, as the loader does, leaves a file that loads to the same
      commands, and cleanly exactly if no transaction is open after them. */
  lemma TruncationRepairs(known: Known, cmds: seq<Command>, k: nat)
    requires k <= |PrintAll(cmds)| && Loadable(known, cmds)
    ensures var r := Load(known, PrintAll(cmds)[..k]);
            && r.validUpTo <= k
            && var r1 := Load(known, PrintAll(cmds)[..k][..r.validUpTo]);
               r1.cmds == r.cmds && r1.validUpTo == r.validUpTo && (r1.end == None <==> !InMulti(r.cmds))
  {
    LoadCut(known, cmds, k);
    WholeIsMaximal(Print, cmds, k);
    var n := Whole(Print, cmds, k);
    CatSplit(Print, cmds, n);
    TakeTwice(PrintAll(cmds[..n]), PrintAll(cmds[n..]), k);
    LoadWhole(known, cmds[..n]);
  }

  lemma TakeTwice(a: Bytes, b: Bytes, k: nat)
    requires |a| <= k <= |a + b|
    ensures (a + b)[..k][..|a|] == a
  {
  }

  lemma {:induction false} FlaggedLast(after: Flag, multi: bool, cmds: seq<Command>, c: Command)
    ensures Flagged(after, multi, cmds + [c]) == after(Flagged(after, multi, cmds), c)
    decreases |cmds|
  {
    if cmds == [] {
      assert cmds + [c] == [c];
      assert Flagged(after, multi, [c]) == Flagged(after, after(multi, c), [c][1..]);
    } else {
      assert (cmds + [c])[1..] == cmds[1..] + [c];
      FlaggedLast(after, after(multi, cmds[0]), cmds[1..], c);
    }
  }

  /** The command at i is a MULTI, and no EXEC or DISCARD follows it. */
  ghost predicate OpensAt(cmds: seq<Command>, i: nat) {
    && i < |cmds| && Named(cmds[i], MULTI)
    && forall j :: i < j < |cmds| ==> Named(cmds[j], MULTI) || (!Named(cmds[j], EXEC) && !Named(cmds[j], DISCARD))
  }

  /** A transaction is open exactly if some MULTI is not followed by an EXEC or DISCARD. */
  lemma {:induction false} InMultiIff(cmds: seq<Command>)
    ensures InMulti(cmds) <==> exists i: nat :: OpensAt(cmds, i)
  {
    if cmds != [] {
      var n := |cmds| - 1;
      var rest, c := cmds[..n], cmds[n];
      assert cmds == rest + [c];
      InMultiIff(rest);
      FlaggedLast(MultiAfter, false, rest, c);
      if Named(c, MULTI) {
        assert OpensAt(cmds, n);
      } else {
        forall i: nat
          ensures OpensAt(cmds, i) <==> OpensAt(rest, i) && !Named(c, EXEC) && !Named(c, DISCARD)
        {
          OpensBefore(rest, c, i);
        }
      }
    }
  }

  lemma OpensBefore(rest: seq<Command>, c: Command, i: nat)
    requires !Named(c, MULTI)
    ensures OpensAt(rest + [c], i) <==> OpensAt(rest, i) && !Named(c, EXEC) && !Named(c, DISCARD)
  {
    var cmds := rest + [c];
    assert cmds[|rest|] == c && forall j :: 0 <= j < |rest| ==> cmds[j] == rest[j];
  }

  /** The truncation does not repair a file that was cut inside a transaction: whatever byte after the
      MULTI it is cut at, loading what is left ends unexpectedly again. */
  lemma OpenTransactionStays(known: Known, k: Bytes, v: Bytes, cut: nat)
    requires var cmds := [[MULTI], [[83, 69, 84], k, v]]; Loadable(known, cmds) && |Print([MULTI])| <= cut <= |PrintAll(cmds)|
    ensures var cmds := [[MULTI], [[83, 69, 84], k, v]];
            var r := Load(known, PrintAll(cmds)[..cut]);
            r.validUpTo <= cut && Load(known, PrintAll(cmds)[..cut][..r.validUpTo]).end == Some(ShortRead)
  {
    var cmds := [[MULTI], [[83, 69, 84], k, v]];
    TruncationRepairs(known, cmds, cut);
    LoadCut(known, cmds, cut);
    MultiStaysOpen(cmds, Whole(Print, cmds, cut));
    assert PrintAll(cmds) == Print(cmds[0]) + PrintAll(cmds[1..]);
    LoadWhole(known, cmds[..Whole(Print, cmds, cut)]);
    CatSplit(Print, cmds, Whole(Print, cmds, cut));
    TakeTwice(PrintAll(cmds[..Whole(Print, cmds, cut)]), PrintAll(cmds[Whole(Print, cmds, cut)..]), cut);
  }

  lemma MultiStaysOpen(cmds: seq<Command>, n: nat)
    requires 1 <= n <= |cmds| == 2 && cmds[0] == [MULTI] && |cmds[1]| > 0 && |cmds[1][0]| == 3
    ensures InMulti(cmds[..n])
  {
    assert Named(cmds[0], MULTI) && !Named(cmds[1], EXEC) && !Named(cmds[1], DISCARD);
  }

  /** A command that the loader does not find stops it there, and what comes before it has been run. */
  lemma UnknownStops(known: Known, cmds: seq<Command>, c: Command, rest: Bytes)
    requires Loadable(known, cmds) && WellFormed(c) && !known(c)
    ensures Load(known, PrintAll(cmds) + (Print(c) + rest)) == Loaded(cmds, |PrintAll(cmds)|, Some(UnknownCommand))
  {
    var load := LoaderOf(NextCommand, known, MultiAfter);
    LoadableLoad(known, MultiAfter, cmds);
    LoadsThrough(load, MultiAfter, Print, cmds, Print(c) + rest, [], 0, false);
    LoadWithReads(NextCommand, known, MultiAfter);
    ReadsPrinted(c);
    assert [] + cmds == cmds && Print(c) != [];
    StopsAt(load, NextCommand, known, MultiAfter, Print(c), rest, c, cmds, |PrintAll(cmds)|, InMulti(cmds));
  }

  lemma StopsAt(load: Loader, read: CommandReader, known: Known, after: Flag, p: Bytes, rest: Bytes, c: Command,
                done: seq<Command>, offset: nat, multi: bool)
    requires LoadsBy(load, read, known, after) && p != [] && read(p + rest) == Parsed(c, rest) && !known(c)
    ensures load(p + rest, done, offset, multi) == Loaded(done, offset, Some(UnknownCommand))
  {
    assert LoadAt(load, read, known, after, p + rest, done, offset, multi);
  }

  lemma {:induction false} LoadsThrough(load: Loader, after: Flag, text: Command -> Bytes, cmds: seq<Command>, rest: Bytes,
                                        done: seq<Command>, offset: nat, multi: bool)
    requires forall i :: 0 <= i < |cmds| ==> Loads(load, after, text, cmds[i])
    ensures load(Cat(text, cmds) + rest, done, offset, multi) ==
            load(rest, done + cmds, offset + |Cat(text, cmds)|, Flagged(after, multi, cmds))
  {
    if cmds == [] {
      assert Cat(text, cmds) + rest == rest && done + cmds == done;
    } else {
      var p, tail := text(cmds[0]), Cat(text, cmds[1..]);
      Associative(p, tail, rest);
      assert Loads(load, after, text, cmds[0]);
      LoadsThrough(load, after, text, cmds[1..], rest, done + [cmds[0]], offset + |p|, after(multi, cmds[0]));
      assert done + [cmds[0]] + cmds[1..] == done + cmds;
    }
  }
}
