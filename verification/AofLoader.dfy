/**
 * Replaying one append-only file (redis-stable/src/aof.c:1507-1772): which commands the fake client
 * ends up executing, and where a damaged file is truncated.
 */
module AofLoader {
  import opened Basics
  import opened Bytes
  import opened Resp

  const MULTI: Text := "multi"
  const EXEC: Text := "exec"

  predicate IsMulti(c: Command) {
    c != [] && Lower(c[0]) == MULTI
  }

  predicate IsExec(c: Command) {
    c != [] && Lower(c[0]) == EXEC
  }

  predicate IsPlain(c: Command) {
    !IsMulti(c) && !IsExec(c)
  }

  // ---------------------------------------------------------------- the fake client

  /** The commands executed so far, in order, and the open transaction if there is one. */
  datatype Client = Client(run: seq<Command>, queue: Option<seq<Command>>)

  const Fresh: Client := Client([], None)

  function Process(cl: Client, c: Command): Client {
    match cl.queue
    case Some(q) =>
      if IsExec(c) then Client(cl.run + q, None) else cl.(queue := Some(q + [c]))
    case None =>
      if IsMulti(c) then cl.(queue := Some([]))
      else if IsExec(c) then cl
      else cl.(run := cl.run + [c])
  }

  function ProcessAll(cl: Client, cs: seq<Command>): Client
    decreases |cs|
  {
    if cs == [] then cl else ProcessAll(Process(cl, cs[0]), cs[1..])
  }

  /** What a log means: the commands it executes when read from the start. */
  function Replay(cs: seq<Command>): Client {
    ProcessAll(Fresh, cs)
  }

  lemma {:induction false} ProcessAppend(cl: Client, xs: seq<Command>, ys: seq<Command>)
    ensures ProcessAll(cl, xs + ys) == ProcessAll(ProcessAll(cl, xs), ys)
    decreases |xs|
  {
    if xs == [] {
      assert xs + ys == ys;
    } else {
      assert (xs + ys)[1..] == xs[1..] + ys;
      ProcessAppend(Process(cl, xs[0]), xs[1..], ys);
    }
  }

  /** Without transactions the commands are executed one by one, in order. */
  lemma {:induction false} PlainReplay(cl: Client, cs: seq<Command>)
    requires cl.queue.None? && forall c <- cs :: IsPlain(c)
    ensures ProcessAll(cl, cs) == Client(cl.run + cs, None)
    decreases |cs|
  {
    if cs == [] {
      assert cl.run + cs == cl.run;
    } else {
      assert IsPlain(cs[0]);
      PlainReplay(Process(cl, cs[0]), cs[1..]);
      assert cl.run + cs == cl.run + [cs[0]] + cs[1..];
    }
  }

  // ---------------------------------------------------------------- the loader

  datatype Config = Config(loadTruncated: bool, corruptTailMaxSize: nat, truncateWorks: bool)
  {
    predicate Tracks() {
      loadTruncated || corruptTailMaxSize != 0
    }
  }

  datatype Progress = Progress(client: Client, validUpTo: nat, validBeforeMulti: nat)

  const Start: Progress := Progress(Fresh, 0, 0)

  /** The effect of one command that ends at byte `offset`. */
  function AfterCommand(p: Progress, c: Command, offset: nat, tracks: bool): Progress {
    Progress(Process(p.client, c),
             if tracks then offset else p.validUpTo,
             if IsMulti(c) then p.validUpTo else p.validBeforeMulti)
  }

  datatype Ending = CleanEof | UnexpectedEof | ReadFailure | FormatError | UnknownCommand

  /** The loader's main loop on the unread bytes `s` of a file of `size` bytes: its end and its progress. */
  function ReadAll(read: Text -> Read<Record>, s: Text, size: nat, p: Progress, tracks: bool, known: Command -> bool)
    : (Ending, Progress)
    requires Shrinks(read) && |s| <= size
    decreases |s|
  {
    if s == [] then
      if p.client.queue.Some? then (UnexpectedEof, p.(validUpTo := p.validBeforeMulti)) else (CleanEof, p)
    else
      match read(s)
      case ReadErr(eof) => (if eof then UnexpectedEof else ReadFailure, p)
      case BadFormat => (FormatError, p)
      case Got(Annotation, rest) => ReadAll(read, rest, size, p, tracks, known)
      case Got(Cmd(c), rest) =>
        if !known(c) then (UnknownCommand, p)
        else ReadAll(read, rest, size, AfterCommand(p, c, size - |rest|, tracks), tracks, known)
  }

  datatype Status = AofOk | AofEmpty | AofFailed | AofTruncated | AofBrokenRecovered

  /** The status, the commands executed, and the file left on disk. */
  datatype Loaded = Loaded(status: Status, run: seq<Command>, file: Text)

  function TruncateTo(file: Text, n: nat, run: seq<Command>, allowed: bool, status: Status): Loaded {
    if allowed && n <= |file| then Loaded(status, run, file[..n]) else Loaded(AofFailed, run, file)
  }

  function Finish(file: Text, cfg: Config, ending: Ending, p: Progress): Loaded {
    match ending
    case CleanEof => Loaded(AofOk, p.client.run, file)
    case UnexpectedEof =>
      TruncateTo(file, p.validUpTo, p.client.run, cfg.loadTruncated && cfg.truncateWorks, AofTruncated)
    case FormatError =>
      TruncateTo(file, p.validUpTo, p.client.run,
                 |file| - p.validUpTo < cfg.corruptTailMaxSize && cfg.truncateWorks, AofBrokenRecovered)
    case ReadFailure => Loaded(AofFailed, p.client.run, file)
    case UnknownCommand => Loaded(AofFailed, p.client.run, file)
  }

  /** `loadSingleAppendOnlyFile` on a file without an RDB preamble, whose records are read by `read`. */
  function Load(read: Text -> Read<Record>, file: Text, cfg: Config, known: Command -> bool): Loaded
    requires Shrinks(read)
  {
    if file == [] then Loaded(AofEmpty, [], file)
    else
      var (ending, p) := ReadAll(read, file, |file|, Start, cfg.Tracks(), known);
      Finish(file, cfg, ending, p)
  }

  /** The loop of `aof.c:1618-1647` on a stream whose unread bytes are `s`. */
  method ReadArguments<T>(read: Text -> Read<T>, s: Text, argc: nat) returns (r: Read<seq<T>>)
    ensures r == ReadMany(read, s, argc)
  {
    var argv, rest, j := [], s, 0;
    PrependNothing(ReadMany(read, s, argc));
    while j < argc
      invariant 0 <= j <= argc
      invariant ReadMany(read, s, argc) == Prepend(argv, ReadMany(read, rest, argc - j))
    {
      var arg := read(rest);
      if arg.ReadErr? { return ReadErr(arg.eof); }
      if arg.BadFormat? { return BadFormat; }
      PrependTwice(argv, arg.value, ReadMany(read, arg.rest, argc - j - 1));
      argv := argv + [arg.value];
      rest := arg.rest;
      j := j + 1;
    }
    r := Got(argv, rest);
    assert argv + [] == argv;
  }

  lemma PrependNothing<T>(r: Read<seq<T>>)
    ensures Prepend([], r) == r
  {
    if r.Got? { assert [] + r.value == r.value; }
  }

  lemma PrependTwice<T>(items: seq<T>, a: T, r: Read<seq<T>>)
    ensures Prepend(items, Prepend([a], r)) == Prepend(items + [a], r)
  {
    if r.Got? { assert items + ([a] + r.value) == items + [a] + r.value; }
  }

  /** One record of the stream (aof.c:1597-1647). */
  method ReadOneRecord(s: Text) returns (r: Read<Record>)
    requires s != []
    ensures r == ReadRecord(s)
  {
    var line := TakeLine(s, FGETS_MAX);
    var rest := s[|line|..];
    if line[0] == '#' { return Got(Annotation, rest); }
    if line[0] != '*' { return BadFormat; }
    if |line| == 1 { return ReadErr(rest == []); }
    if line[1] == '\0' { return ReadErr(line[|line| - 1] != '\n' && |line| < FGETS_MAX); }
    var argc := Atoi(line[1..]);
    if argc < 1 { return BadFormat; }
    var args := ReadArguments(ReadBulk, rest, argc);
    match args {
      case ReadErr(eof) => r := ReadErr(eof);
      case BadFormat => r := BadFormat;
      case Got(argv, rest') => r := Got(Cmd(argv), rest');
    }
  }

  /** The loader's loop, error exits included, computes `Load`. */
  method LoadSingleAppendOnlyFile(file: Text, cfg: Config, known: Command -> bool) returns (r: Loaded)
    ensures Shrinks(ReadRecord) && r == Load(ReadRecord, file, cfg, known)
  {
    ghost var all := ReadAll(ReadRecord, file, |file|, Start, cfg.Tracks(), known);
    if |file| == 0 { return Loaded(AofEmpty, [], file); }
    var rest, p := file, Start;
    while rest != []
      invariant |rest| <= |file|
      invariant all == ReadAll(ReadRecord, rest, |file|, p, cfg.Tracks(), known)
      decreases |rest|
    {
      var record := ReadOneRecord(rest);
      if record.ReadErr? { return Finish(file, cfg, if record.eof then UnexpectedEof else ReadFailure, p); }
      if record.BadFormat? { return Finish(file, cfg, FormatError, p); }
      rest := record.rest;
      if record.value.Annotation? { continue; }
      var argv := record.value.argv;
      if !known(argv) { return Finish(file, cfg, UnknownCommand, p); }
      if IsMulti(argv) { p := p.(validBeforeMulti := p.validUpTo); }
      p := p.(client := Process(p.client, argv));
      if cfg.Tracks() { p := p.(validUpTo := |file| - |rest|); }
    }
    if p.client.queue.Some? {
      return Finish(file, cfg, UnexpectedEof, p.(validUpTo := p.validBeforeMulti));
    }
    return Finish(file, cfg, CleanEof, p);
  }
}
