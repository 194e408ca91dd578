/**
 * What the loader makes of a log that was cut short at an arbitrary byte
 * (redis-stable/src/aof.c:1581-1740 on the output of aof.c:1357-1380). The argument is made for every
 * `Sound` format and then applied to RESP.
 */
module AofRecovery {
  import opened Basics
  import opened Bytes
  import opened Resp
  import opened AofLoader

  type Encoder = Command -> Text
  type Reader = Text -> Read<Record>

  predicate AllKnown(cs: seq<Command>, known: Command -> bool) {
    forall c <- cs :: known(c)
  }

  /** The number of leading commands of `cs` that lie entirely within the first `n` bytes. */
  function Complete(enc: Encoder, cs: seq<Command>, n: nat): (k: nat)
    ensures k <= |cs|
  {
    if cs == [] || |enc(cs[0])| > n then 0 else 1 + Complete(enc, cs[1..], n - |enc(cs[0])|)
  }

  /** `Complete` counts exactly: the commands counted fit, and the next one does not. */
  lemma {:induction false} CompleteIsExact(enc: Encoder, cs: seq<Command>, n: nat)
    ensures var k := Complete(enc, cs, n);
            |Concat(enc, cs[..k])| <= n && (k < |cs| ==> n < |Concat(enc, cs[..k])| + |enc(cs[k])|)
  {
    var k := Complete(enc, cs, n);
    if k > 0 {
      CompleteIsExact(enc, cs[1..], n - |enc(cs[0])|);
      assert cs[..k][1..] == cs[1..][..k - 1];
    }
  }

  lemma ConcatSplit(enc: Encoder, cs: seq<Command>, k: nat)
    requires k <= |cs|
    ensures Concat(enc, cs) == Concat(enc, cs[..k]) + Concat(enc, cs[k..])
  {
    assert cs == cs[..k] + cs[k..];
    ConcatAppend(enc, cs[..k], cs[k..]);
  }

  /** The first `n` bytes are the complete commands and a proper prefix of the next one. */
  lemma CutLog(enc: Encoder, cs: seq<Command>, n: nat) returns (tail: Text)
    requires n <= |Concat(enc, cs)|
    ensures var k := Complete(enc, cs, n);
            Concat(enc, cs)[..n] == Concat(enc, cs[..k]) + tail &&
            (tail == [] || (k < |cs| && tail < enc(cs[k])))
  {
    var k := Complete(enc, cs, n);
    CompleteIsExact(enc, cs, n);
    ConcatSplit(enc, cs, k);
    var a, b := Concat(enc, cs[..k]), Concat(enc, cs[k..]);
    tail := b[..n - |a|];
    assert (a + b)[..n] == a + tail;
    if k < |cs| {
      assert b == enc(cs[k]) + Concat(enc, cs[k..][1..]);
      assert tail == enc(cs[k])[..|tail|];
    }
  }

  // ---------------------------------------------------------------- progress over whole commands

  /** The loader's progress after the commands `cs`, the first of which starts at byte `off`. */
  ghost function Advance(enc: Encoder, p: Progress, cs: seq<Command>, off: nat, tracks: bool): Progress
    decreases |cs|
  {
    if cs == [] then p
    else
      var end := off + |enc(cs[0])|;
      Advance(enc, AfterCommand(p, cs[0], end, tracks), cs[1..], end, tracks)
  }

  /** Reading the encodings of `cs` amounts to processing `cs`. */
  lemma {:induction false} ReadWholeCommands(enc: Encoder, read: Reader, cs: seq<Command>, tail: Text, size: nat,
                                             p: Progress, tracks: bool, known: Command -> bool)
    requires Sound(enc, read) && AllWellFormed(cs) && AllKnown(cs, known)
    requires |Concat(enc, cs) + tail| <= size
    ensures ReadAll(read, Concat(enc, cs) + tail, size, p, tracks, known) ==
            ReadAll(read, tail, size, Advance(enc, p, cs, size - |Concat(enc, cs) + tail|, tracks), tracks, known)
    decreases |cs|
  {
    if cs == [] {
      assert Concat(enc, cs) + tail == tail;
    } else {
      var rest := Concat(enc, cs[1..]) + tail;
      SeqAssoc(enc(cs[0]), Concat(enc, cs[1..]), tail);
      assert ReadsBack(enc, read, cs[0], rest);
      ReadWholeCommands(enc, read, cs[1..], tail, size, AfterCommand(p, cs[0], size - |rest|, tracks), tracks, known);
    }
  }

  lemma {:induction false} AdvanceAppend(enc: Encoder, p: Progress, xs: seq<Command>, ys: seq<Command>, off: nat, tracks: bool)
    ensures Advance(enc, p, xs + ys, off, tracks) ==
            Advance(enc, Advance(enc, p, xs, off, tracks), ys, off + |Concat(enc, xs)|, tracks)
    decreases |xs|
  {
    if xs == [] {
      assert xs + ys == ys;
    } else {
      assert (xs + ys)[1..] == xs[1..] + ys;
      var end := off + |enc(xs[0])|;
      AdvanceAppend(enc, AfterCommand(p, xs[0], end, tracks), xs[1..], ys, end, tracks);
    }
  }

  lemma {:induction false} AdvanceClient(enc: Encoder, p: Progress, cs: seq<Command>, off: nat, tracks: bool)
    ensures Advance(enc, p, cs, off, tracks).client == ProcessAll(p.client, cs)
    decreases |cs|
  {
    if cs != [] {
      var end := off + |enc(cs[0])|;
      AdvanceClient(enc, AfterCommand(p, cs[0], end, tracks), cs[1..], end, tracks);
    }
  }

  /** The position of the last MULTI, or 0. */
  function LastMulti(cs: seq<Command>): (m: nat)
    ensures m <= |cs|
  {
    if cs == [] then 0
    else if IsMulti(cs[|cs| - 1]) then |cs| - 1
    else LastMulti(cs[..|cs| - 1])
  }

  /** The two truncation points of the loader, in closed form. */
  lemma {:induction false} AdvanceFromStart(enc: Encoder, cs: seq<Command>)
    ensures var p := Advance(enc, Start, cs, 0, true);
            p.client == Replay(cs) && p.validUpTo == |Concat(enc, cs)| &&
            p.validBeforeMulti == |Concat(enc, cs[..LastMulti(cs)])|
    decreases |cs|
  {
    AdvanceClient(enc, Start, cs, 0, true);
    if cs != [] {
      var front, c := cs[..|cs| - 1], cs[|cs| - 1];
      assert cs == front + [c];
      AdvanceFromStart(enc, front);
      AdvanceAppend(enc, Start, front, [c], 0, true);
      ConcatAppend(enc, front, [c]);
      ConcatOne(enc, c);
      assert [c][1..] == [];
      var p := Advance(enc, Start, front, 0, true);
      assert Advance(enc, Start, cs, 0, true) == AfterCommand(p, c, |Concat(enc, cs)|, true);
      var m := LastMulti(cs);
      assert cs[..m] == front[..m];
    }
  }

  // ---------------------------------------------------------------- main results

  const Lenient: Config := Config(true, 0, true)

  /** What is left on disk of the `k` commands read: an open transaction is rolled back at end of file. */
  function Kept(cs: seq<Command>, k: nat, atBoundary: bool): (m: nat)
    requires k <= |cs|
    ensures m <= k
  {
    if atBoundary && Replay(cs[..k]).queue.Some? then LastMulti(cs[..k]) else k
  }

  /**
   * A log cut after `n` bytes, with aof-load-truncated on. The commands executed are exactly those of
   * the `k` complete ones (an open transaction is not executed), whatever byte the cut falls on; the
   * status and the file left on disk are as stated.
   */
  lemma LoadCutLog(enc: Encoder, read: Reader, cs: seq<Command>, n: nat, known: Command -> bool)
    requires Sound(enc, read) && AllWellFormed(cs) && AllKnown(cs, known) && 0 < n <= |Concat(enc, cs)|
    ensures var k := Complete(enc, cs, n);
            var done := Replay(cs[..k]);
            var atBoundary := n == |Concat(enc, cs[..k])|;
            Load(read, Concat(enc, cs)[..n], Lenient, known) ==
            Loaded(if atBoundary && done.queue.None? then AofOk else AofTruncated,
                   done.run,
                   Concat(enc, cs[..Kept(cs, k, atBoundary)]))
  {
    var k := Complete(enc, cs, n);
    var front, file := cs[..k], Concat(enc, cs)[..n];
    var tail := CutLog(enc, cs, n);
    ReadWholeCommands(enc, read, front, tail, n, Start, true, known);
    AdvanceFromStart(enc, front);
    var m := LastMulti(front);
    ConcatSplit(enc, front, m);
    assert front[..m] == cs[..m];
    if tail != [] {
      assert CutsShort(enc, read, cs[k], tail);
    }
    var a, b := Concat(enc, front[..m]), Concat(enc, front[m..]);
    assert file[..|a + b|] == a + b;
    assert file[..|a|] == a;
  }

  /** The round trip: a log read from end to end executes itself, whatever the configuration. */
  lemma LoadWholeLog(enc: Encoder, read: Reader, cs: seq<Command>, cfg: Config, known: Command -> bool)
    requires Sound(enc, read) && AllWellFormed(cs) && AllKnown(cs, known) && cs != [] && Replay(cs).queue.None?
    ensures Load(read, Concat(enc, cs), cfg, known) == Loaded(AofOk, Replay(cs).run, Concat(enc, cs))
    ensures (forall c <- cs :: IsPlain(c)) ==> Replay(cs).run == cs
  {
    var file := Concat(enc, cs);
    assert file + [] == file;
    assert ReadsBack(enc, read, cs[0], []);
    ReadWholeCommands(enc, read, cs, [], |file|, Start, cfg.Tracks(), known);
    AdvanceClient(enc, Start, cs, 0, cfg.Tracks());
    if forall c <- cs :: IsPlain(c) {
      PlainReplay(Fresh, cs);
      assert [] + cs == cs;
    }
  }

  /** Without transactions: a prefix of the commands is executed and exactly its encoding is kept. */
  lemma LoadCutPlainLog(enc: Encoder, read: Reader, cs: seq<Command>, n: nat, known: Command -> bool)
    requires Sound(enc, read) && AllWellFormed(cs) && AllKnown(cs, known) && n <= |Concat(enc, cs)|
    requires forall c <- cs :: IsPlain(c)
    ensures var k := Complete(enc, cs, n);
            var r := Load(read, Concat(enc, cs)[..n], Lenient, known);
            r.run == cs[..k] && r.file == Concat(enc, cs[..k]) && r.status != AofFailed
  {
    var k := Complete(enc, cs, n);
    if n == 0 {
      CompleteIsExact(enc, cs, n);
    } else {
      LoadCutLog(enc, read, cs, n, known);
      PlainReplay(Fresh, cs[..k]);
      assert [] + cs[..k] == cs[..k];
    }
    if k > 0 { assert ReadsBack(enc, read, cs[0], []); }
  }

  /** The last MULTI stands inside a transaction opened before it. */
  predicate LastMultiNested(cs: seq<Command>) {
    Replay(cs[..LastMulti(cs)]).queue.Some?
  }

  /**
   * When is the file left by a recovery a complete log, so that commands appended to it later are
   * executed by the next load? Exactly when no transaction was open at the cut, or the cut fell on a
   * command boundary and the MULTI cut away was not nested. Otherwise the file keeps a MULTI, and
   * everything appended is queued behind it.
   */
  lemma RecoveredLogIsComplete(cs: seq<Command>, n: nat, known: Command -> bool)
    requires AllWellFormed(cs) && AllKnown(cs, known) && 0 < n <= |EncodeAll(cs)|
    ensures Shrinks(ReadRecord)
    ensures var k := Complete(Encode, cs, n);
            var atBoundary := n == |EncodeAll(cs[..k])|;
            var kept := Kept(cs, k, atBoundary);
            Load(ReadRecord, EncodeAll(cs)[..n], Lenient, known).file == EncodeAll(cs[..kept]) &&
            Replay(cs[..kept]).run == Replay(cs[..k]).run &&
            (Replay(cs[..kept]).queue.None? <==> Replay(cs[..k]).queue.None? || (atBoundary && !LastMultiNested(cs[..k])))
  {
    var k := Complete(Encode, cs, n);
    var atBoundary := n == |EncodeAll(cs[..k])|;
    RespIsSound();
    LoadCutLog(Encode, ReadRecord, cs, n, known);
    if atBoundary && Replay(cs[..k]).queue.Some? {
      OpenSinceLastMulti(cs[..k]);
      var m := LastMulti(cs[..k]);
      assert cs[..k][..m] == cs[..m];
    }
  }

  /** An open transaction was opened by the last MULTI, and nothing has been executed since. */
  lemma {:induction false} OpenSinceLastMulti(cs: seq<Command>)
    requires Replay(cs).queue.Some?
    ensures var m := LastMulti(cs); m < |cs| && IsMulti(cs[m]) && Replay(cs[..m]).run == Replay(cs).run
    decreases |cs|
  {
    var front, c := cs[..|cs| - 1], cs[|cs| - 1];
    assert cs == front + [c];
    ProcessAppend(Fresh, front, [c]);
    assert [c][1..] == [];
    assert ProcessAll(Replay(front), [c]) == Process(Replay(front), c);
    if !IsMulti(c) {
      OpenSinceLastMulti(front);
      var m := LastMulti(front);
      assert front[..m] == cs[..m];
    }
  }

  /** Cut one byte short of EXEC: the recovered file ends in an open transaction. */
  lemma CutInsideTransaction(enc: Encoder, read: Reader, known: Command -> bool)
    requires Sound(enc, read) && known(["MULTI"]) && known(["EXEC"]) && |enc(["EXEC"])| > 1
    ensures var cs := [["MULTI"], ["EXEC"]];
            var r := Load(read, Concat(enc, cs)[..|Concat(enc, cs)| - 1], Lenient, known);
            r.status == AofTruncated && r.file == Concat(enc, [["MULTI"]]) && Replay([["MULTI"]]).queue.Some?
  {
    var m, e: Command := ["MULTI"], ["EXEC"];
    var cs := [m, e];
    assert cs[..1] == [m] && cs[1..] == [e];
    ConcatSplit(enc, cs, 1);
    ConcatOne(enc, m);
    ConcatOne(enc, e);
    assert ReadsBack(enc, read, m, []);
    var n := |Concat(enc, cs)| - 1;
    assert Complete(enc, [e], n - |enc(m)|) == 0;
    assert Complete(enc, cs, n) == 1;
    LoadCutLog(enc, read, cs, n, known);
    assert Lower("MULTI") == MULTI;
    assert Process(Fresh, m).queue == Some([]);
  }
}
