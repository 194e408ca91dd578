/**
 * The append-only file as a stream of bytes: commands are written as RESP arrays of bulk strings
 * (redis-stable/src/aof.c:1357-1380) and read back one record at a time (aof.c:1597-1647).
 */
module Resp {
  import opened Basics
  import opened Bytes

  type Command = seq<Text>

  /** What a C caller can hand over: `argc` is an int and every length fits a long long. */
  predicate WellFormed(c: Command) {
    1 <= |c| <= INT_MAX && forall a <- c :: |a| <= LLONG_MAX
  }

  predicate AllWellFormed(cs: seq<Command>) {
    forall c <- cs :: WellFormed(c)
  }

  // ---------------------------------------------------------------- writing

  /** The encodings of `xs`, one after the other. */
  function Concat<T>(enc: T -> Text, xs: seq<T>): Text {
    if xs == [] then [] else enc(xs[0]) + Concat(enc, xs[1..])
  }

  lemma {:induction false} ConcatAppend<T>(enc: T -> Text, xs: seq<T>, ys: seq<T>)
    ensures Concat(enc, xs + ys) == Concat(enc, xs) + Concat(enc, ys)
  {
    if xs == [] {
      assert xs + ys == ys;
    } else {
      assert (xs + ys)[1..] == xs[1..] + ys;
      ConcatAppend(enc, xs[1..], ys);
      SeqAssoc(enc(xs[0]), Concat(enc, xs[1..]), Concat(enc, ys));
    }
  }

  lemma ConcatOne<T>(enc: T -> Text, x: T)
    ensures Concat(enc, [x]) == enc(x)
  {
    assert [x][1..] == [];
    assert enc(x) + Concat(enc, []) == enc(x);
  }

  function Header(prefix: char, n: nat): Text {
    [prefix] + Decimal(n) + CRLF
  }

  function Bulk(a: Text): Text {
    Header('$', |a|) + (a + CRLF)
  }

  function Encode(c: Command): Text {
    Header('*', |c|) + Concat(Bulk, c)
  }

  function EncodeAll(cs: seq<Command>): Text {
    Concat(Encode, cs)
  }

  /** `catAppendOnlyGenericCommand`: the command's encoding is appended to `dst`. */
  method CatAppendOnlyGenericCommand(dst: Text, argv: seq<Text>) returns (r: Text)
    ensures r == dst + Encode(argv)
  {
    var buf := ['*'] + Decimal(|argv|) + CRLF;
    r := dst + buf;
    var j := 0;
    while j < |argv|
      invariant 0 <= j <= |argv|
      invariant r == dst + Header('*', |argv|) + Concat(Bulk, argv[..j])
    {
      ConcatAppend(Bulk, argv[..j], [argv[j]]);
      ConcatOne(Bulk, argv[j]);
      assert argv[..j + 1] == argv[..j] + [argv[j]];
      SeqAssoc(dst + Header('*', |argv|), Concat(Bulk, argv[..j]), Bulk(argv[j]));
      buf := ['$'] + Decimal(|argv[j]|) + CRLF;
      SeqAssoc(r, buf, argv[j] + CRLF);
      SeqAssoc(r + buf, argv[j], CRLF);
      r := r + buf;
      r := r + argv[j];
      r := r + CRLF;
      j := j + 1;
    }
    assert argv[..j] == argv;
    SeqAssoc(dst, Header('*', |argv|), Concat(Bulk, argv));
  }

  // ---------------------------------------------------------------- reading

  /** One `fgets`/`fread` conversation: a value, a read error (with `feof`), or a format error. */
  datatype Read<+T> =
    | Got(value: T, rest: Text)
    | ReadErr(eof: bool)
    | BadFormat

  datatype Record = Annotation | Cmd(argv: Command)

  const FGETS_MAX: nat := 1023  // sizeof(buf) - 1

  /** The bytes `fgets` stores: up to and including a line feed, at most `max`. */
  function TakeLine(s: Text, max: nat): (line: Text)
    ensures line <= s && |line| <= max
    ensures s != [] && max >= 1 ==> line != [] && line[0] == s[0]
  {
    if s == [] || max == 0 then []
    else if s[0] == '\n' then ['\n']
    else [s[0]] + TakeLine(s[1..], max - 1)
  }

  /** One `$<len>` line, its payload, and two more bytes whose value is not looked at. */
  function ReadBulk(s: Text): (r: Read<Text>)
    ensures r.Got? ==> |r.rest| < |s|
  {
    if s == [] then ReadErr(true)
    else
      var line := TakeLine(s, FGETS_MAX);
      if line[0] != '$' then BadFormat
      else
        var len := Atoi(line[1..]);
        var body := s[|line|..];
        // a negative length is converted to a huge unsigned one
        if len < 0 || len > |body| then ReadErr(true)
        else if |body| - len < 2 then ReadErr(true)
        else Got(body[..len], body[len + 2..])
  }

  /** `n` items in a row, each read by `read`, stopping at the first that cannot be read. */
  function ReadMany<T>(read: Text -> Read<T>, s: Text, n: nat): Read<seq<T>>
    decreases n
  {
    if n == 0 then Got([], s)
    else
      match read(s)
      case ReadErr(eof) => ReadErr(eof)
      case BadFormat => BadFormat
      case Got(a, rest) => Prepend([a], ReadMany(read, rest, n - 1))
  }

  function Prepend<T>(items: seq<T>, r: Read<seq<T>>): Read<seq<T>> {
    match r
    case Got(more, rest) => Got(items + more, rest)
    case ReadErr(eof) => ReadErr(eof)
    case BadFormat => BadFormat
  }

  lemma {:induction false} ReadManyShrinks<T>(read: Text -> Read<T>, s: Text, n: nat)
    requires forall t: Text :: read(t).Got? ==> |read(t).rest| <= |t|
    ensures var r := ReadMany(read, s, n); r.Got? ==> |r.value| == n && |r.rest| <= |s|
    decreases n
  {
    if n > 0 && read(s).Got? {
      ReadManyShrinks(read, read(s).rest, n - 1);
    }
  }

  function ReadBulks(s: Text, n: nat): (r: Read<seq<Text>>)
    ensures r.Got? ==> |r.value| == n && |r.rest| <= |s|
  {
    ReadManyShrinks(ReadBulk, s, n);
    ReadMany(ReadBulk, s, n)
  }

  /** One round of the loader's outer loop, up to the command lookup. */
  function ReadRecord(s: Text): (r: Read<Record>)
    ensures r.Got? ==> |r.rest| < |s|
  {
    if s == [] then ReadErr(true) else
    var line := TakeLine(s, FGETS_MAX);
    var rest := s[|line|..];
    if line[0] == '#' then Got(Annotation, rest)
    else if line[0] != '*' then BadFormat
    else if |line| == 1 then ReadErr(rest == [])
    else if line[1] == '\0' then ReadErr(line[|line| - 1] != '\n' && |line| < FGETS_MAX)
    else
      var argc := Atoi(line[1..]);
      if argc < 1 then BadFormat
      else
        match ReadBulks(rest, argc)
        case ReadErr(eof) => ReadErr(eof)
        case BadFormat => BadFormat
        case Got(argv, rest') => Got(Cmd(argv), rest')
  }

  // ---------------------------------------------------------------- round trip

  lemma {:induction false} TakeWholeLine(l: Text, rest: Text, max: nat)
    requires '\n' !in l && |l| + 1 <= max
    ensures TakeLine(l + ['\n'] + rest, max) == l + ['\n']
  {
    var s := l + ['\n'] + rest;
    if l == [] {
      assert s[0] == '\n';
    } else {
      TakeWholeLine(l[1..], rest, max - 1);
      assert s[1..] == l[1..] + ['\n'] + rest;
      assert s[0] == l[0] && l[0] in l;
      assert [l[0]] + (l[1..] + ['\n']) == l + ['\n'];
    }
  }

  lemma {:induction false} TakeUnfinishedLine(l: Text, max: nat)
    requires '\n' !in l && |l| <= max
    ensures TakeLine(l, max) == l
  {
    if l != [] {
      TakeUnfinishedLine(l[1..], max - 1);
    }
  }

  lemma HeaderLine(prefix: char, n: nat, rest: Text)
    requires n <= LLONG_MAX && prefix != '\n'
    ensures TakeLine(Header(prefix, n) + rest, FGETS_MAX) == Header(prefix, n)
    ensures Header(prefix, n)[0] == prefix && |Header(prefix, n)| >= 4 && IsDigit(Header(prefix, n)[1])
    ensures Atoi(Header(prefix, n)[1..]) == n
  {
    var l := [prefix] + Decimal(n) + ['\r'];
    LongLongDigits(n);
    TakeWholeLine(l, rest, FGETS_MAX);
    assert Header(prefix, n) == l + ['\n'];
    AtoiOfDecimal(n, CRLF);
    assert Header(prefix, n)[1..] == Decimal(n) + CRLF;
  }

  lemma BulkRoundTrip(a: Text, rest: Text)
    requires |a| <= LLONG_MAX
    ensures ReadBulk(Bulk(a) + rest) == Got(a, rest)
  {
    var h := Header('$', |a|);
    var s := Bulk(a) + rest;
    HeaderLine('$', |a|, a + CRLF + rest);
    assert s == h + (a + CRLF + rest);
    var body := s[|h|..];
    assert body == a + CRLF + rest;
    assert body[..|a|] == a && body[|a| + 2..] == rest;
  }

  /** Items that read back one by one read back in a row. */
  lemma {:induction false} ManyRoundTrip<T>(read: Text -> Read<T>, enc: T -> Text, xs: seq<T>, rest: Text)
    requires forall x, t: Text :: x in xs ==> read(enc(x) + t) == Got(x, t)
    ensures ReadMany(read, Concat(enc, xs) + rest, |xs|) == Got(xs, rest)
  {
    if xs == [] {
      assert Concat(enc, xs) + rest == rest;
    } else {
      ManyRoundTrip(read, enc, xs[1..], rest);
      SeqAssoc(enc(xs[0]), Concat(enc, xs[1..]), rest);
      assert [xs[0]] + xs[1..] == xs;
    }
  }

  /** A written command reads back as itself and leaves exactly what follows it. */
  lemma RecordRoundTrip(c: Command, rest: Text)
    requires WellFormed(c)
    ensures ReadRecord(Encode(c) + rest) == Got(Cmd(c), rest)
  {
    var h := Header('*', |c|);
    var args := Concat(Bulk, c) + rest;
    SeqAssoc(h, Concat(Bulk, c), rest);
    HeaderLine('*', |c|, args);
    ArgumentsRoundTrip(c, rest);
    RecordAfterHeader(h, args, |c|);
  }

  /** After a good header line the record is its arguments. */
  lemma RecordAfterHeader(line: Text, rest: Text, n: nat)
    requires TakeLine(line + rest, FGETS_MAX) == line && |line| >= 4 && line[0] == '*' && IsDigit(line[1])
    requires Atoi(line[1..]) == n >= 1 && ReadBulks(rest, n).Got?
    ensures ReadRecord(line + rest) == Got(Cmd(ReadBulks(rest, n).value), ReadBulks(rest, n).rest)
  {
    assert (line + rest)[|line|..] == rest;
  }

  lemma ArgumentsRoundTrip(c: Command, rest: Text)
    requires WellFormed(c)
    ensures ReadBulks(Concat(Bulk, c) + rest, |c|) == Got(c, rest)
  {
    forall x, t: Text | x in c ensures ReadBulk(Bulk(x) + t) == Got(x, t) {
      BulkRoundTrip(x, t);
    }
    ManyRoundTrip(ReadBulk, Bulk, c, rest);
  }

  // ---------------------------------------------------------------- a stream cut short

  /** Reading makes progress. */
  ghost predicate Shrinks<T>(read: Text -> Read<T>) {
    forall s: Text :: read(s).Got? ==> |read(s).rest| < |s|
  }

  /**
   * What the recovery argument needs of the format: written commands read back, and a command cut
   * short is always an unexpected end of file.
   */
  ghost predicate Sound(enc: Command -> Text, read: Text -> Read<Record>) {
    && Shrinks(read)
    && (forall c, t: Text :: ReadsBack(enc, read, c, t))
    && (forall c, p: Text :: CutsShort(enc, read, c, p))
  }

  ghost predicate ReadsBack(enc: Command -> Text, read: Text -> Read<Record>, c: Command, t: Text) {
    WellFormed(c) ==> enc(c) != [] && read(enc(c) + t) == Got(Cmd(c), t)
  }

  ghost predicate CutsShort(enc: Command -> Text, read: Text -> Read<Record>, c: Command, p: Text) {
    WellFormed(c) && p < enc(c) && p != [] ==> read(p) == ReadErr(true)
  }

  /** The RESP encoding is such a format. */
  lemma RespIsSound()
    ensures Sound(Encode, ReadRecord)
  {
    forall c, t: Text ensures ReadsBack(Encode, ReadRecord, c, t) {
      if WellFormed(c) { RecordRoundTrip(c, t); }
    }
    forall c, p: Text ensures CutsShort(Encode, ReadRecord, c, p) {
      if WellFormed(c) && p < Encode(c) && p != [] { CutRecord(c, p); }
    }
  }

  /** Strictly inside a header line there is no line feed yet. */
  lemma CutHeader(prefix: char, n: nat, p: Text)
    requires n <= LLONG_MAX && prefix != '\n' && p < Header(prefix, n) && p != []
    ensures TakeLine(p, FGETS_MAX) == p && p[0] == prefix
    ensures |p| >= 2 ==> p[1] == Decimal(n)[0]
  {
    var h := Header(prefix, n);
    LongLongDigits(n);
    var d := Decimal(n);
    forall i | 0 <= i < |p| ensures p[i] != '\n' {
      assert p[i] == h[i];
      if 1 <= i <= |d| { assert h[i] == d[i - 1] && d[i - 1] in d; }
    }
    assert h[1] == d[0];
    TakeUnfinishedLine(p, FGETS_MAX);
  }

  lemma CutBulk(a: Text, p: Text)
    requires |a| <= LLONG_MAX && p < Bulk(a)
    ensures ReadBulk(p) == ReadErr(true)
  {
    var h := Header('$', |a|);
    if p == [] {
    } else if |p| < |h| {
      CutInFirst(h, a + CRLF, p);
      CutHeader('$', |a|, p);
      assert p[|p|..] == [];
    } else {
      var q := CutInSecond(h, a + CRLF, p);
      HeaderLine('$', |a|, q);
    }
  }

  lemma CutInFirst<T>(h: seq<T>, t: seq<T>, p: seq<T>)
    requires p < h + t && |p| < |h|
    ensures p < h
  {
    assert (h + t)[..|p|] == h[..|p|];
  }

  lemma CutInSecond<T>(h: seq<T>, t: seq<T>, p: seq<T>) returns (q: seq<T>)
    requires p < h + t && |p| >= |h|
    ensures p == h + q && q < t
  {
    q := p[|h|..];
    assert h == (h + t)[..|h|] == p[..|h|];
    assert (h + t)[|h|..] == t && q == t[..|q|];
  }

  /** A row of items cut anywhere short of its end is an unexpected end of file. */
  lemma {:induction false} CutMany<T>(read: Text -> Read<T>, enc: T -> Text, xs: seq<T>, p: Text)
    requires forall x, t: Text :: x in xs ==> read(enc(x) + t) == Got(x, t)
    requires forall x, t: Text :: x in xs && t < enc(x) ==> read(t) == ReadErr(true)
    requires p < Concat(enc, xs)
    ensures ReadMany(read, p, |xs|) == ReadErr(true)
  {
    var x, others := xs[0], Concat(enc, xs[1..]);
    if |p| < |enc(x)| {
      CutInFirst(enc(x), others, p);
    } else {
      var q := CutInSecond(enc(x), others, p);
      CutMany(read, enc, xs[1..], q);
      assert read(p) == Got(x, q);
    }
  }

  /** Any proper non-empty prefix of a command is an unexpected end of file, never something else. */
  lemma CutRecord(c: Command, p: Text)
    requires WellFormed(c) && p < Encode(c) && p != []
    ensures ReadRecord(p) == ReadErr(true)
  {
    var h := Header('*', |c|);
    if |p| < |h| {
      CutInFirst(h, Concat(Bulk, c), p);
      CutHeader('*', |c|, p);
      assert p[|p|..] == [];
      if |p| >= 2 {
        AtoiOfCutDecimal(|c|, p[1..]);
        assert ReadBulks([], Atoi(p[1..])) == ReadErr(true);
      }
    } else {
      var q := CutInSecond(h, Concat(Bulk, c), p);
      HeaderLine('*', |c|, q);
      CutArguments(c, q);
    }
  }

  lemma CutArguments(c: Command, q: Text)
    requires WellFormed(c) && q < Concat(Bulk, c)
    ensures ReadBulks(q, |c|) == ReadErr(true)
  {
    forall x, t: Text | x in c ensures ReadBulk(Bulk(x) + t) == Got(x, t) {
      BulkRoundTrip(x, t);
    }
    forall x, t: Text | x in c && t < Bulk(x) ensures ReadBulk(t) == ReadErr(true) {
      CutBulk(x, t);
    }
    CutMany(ReadBulk, Bulk, c, q);
  }
}
