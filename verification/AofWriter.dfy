/**
 * Feeding and flushing one open append-only file (redis-stable/src/aof.c:1109-1126, 1147-1355,
 * 1409-1448). The file descriptor has a position: it follows the end of the file only when the file was
 * opened with O_APPEND (aof.c:760), which the files opened by a rewrite are not (aof.c:824).
 */
module AofWriter {
  import opened Basics
  import opened Bytes
  import opened Resp
  import opened AofMeaning
  import opened AofProtocol

  datatype FsyncPolicy = No | Always | EverySec

  /** One `write(2)`: at most `n` bytes are taken, or a signal or an error interrupts it. */
  datatype SysWrite = Took(n: nat) | Interrupted | Failed

  /** What the outside world does during one flush. */
  datatype Env = Env(
    now: int,
    fsyncInProgress: bool,
    childActive: bool,
    noFsyncOnRewrite: bool,
    writes: seq<SysWrite>,
    truncateWorks: bool,
    fsyncWorks: bool)

  function Zeros(n: nat): Text {
    seq(n, _ => '\0')
  }

  /** A file after `data` is written at `pos`: a gap reads as zero bytes. */
  function WriteAt(file: Text, pos: nat, data: Text): Text {
    if data == "" then file
    else if pos >= |file| then file + Zeros(pos - |file|) + data
    else file[..pos] + data + (if pos + |data| <= |file| then file[pos + |data|..] else "")
  }

  /** The number of bytes that reach the file before `aofWrite` gives up. */
  function Taken(writes: seq<SysWrite>, len: nat): (n: nat)
    ensures n <= len
  {
    if len == 0 || writes == [] then 0
    else
      match writes[0]
      case Failed => 0
      case Interrupted => Taken(writes[1..], len)
      case Took(n) => Min(n, len) + Taken(writes[1..], len - Min(n, len))
  }

  /** The annotation line, if timestamps are on and the clock has moved (aof.c:1390-1399). */
  function TimestampLine(timestamps: bool, cur: int, now: int): Text {
    if timestamps && cur < now then "#TS:" + SignedDecimal(now) + CRLF else ""
  }

  class AppendOnlyFile {
    const append: bool
    const policy: FsyncPolicy
    var file: Text
    var offset: nat
    var aofBuf: Text
    var lastIncrSize: nat
    var currentSize: nat
    var fsyncOffset: nat
    var lastWriteOk: bool
    var flushPostponedStart: int
    var lastFsync: int
    var selectedDb: int
    var curTimestamp: int
    var exited: bool
    ghost var fed: Text

    /** Nothing fed is lost or repeated, and the recorded size is the file's. */
    ghost predicate Conserved()
      reads this
    {
      file + aofBuf == fed && lastIncrSize == |file|
    }

    /** The next write lands at the end of the file. */
    predicate AtEnd()
      reads this
    {
      append || offset == |file|
    }

    /** The descriptor is never before the end of the file. */
    predicate Placed()
      reads this
    {
      append || offset >= |file|
    }

    function Position(): nat
      reads this
    {
      if append then |file| else offset
    }

    constructor (append: bool, policy: FsyncPolicy, file: Text)
      ensures this.append == append && this.policy == policy && this.file == file && aofBuf == ""
      ensures Conserved() && AtEnd() && !exited && selectedDb == -1 && fed == file
    {
      this.append, this.policy, this.file, this.aofBuf := append, policy, file, "";
      offset, lastIncrSize, currentSize, fsyncOffset := |file|, |file|, |file|, |file|;
      lastWriteOk, flushPostponedStart, lastFsync := true, 0, 0;
      selectedDb, curTimestamp, exited := -1, 0, false;
      fed := file;
      assert file + "" == file;
    }

    /** `feedAppendOnlyFile` with AOF on: exactly the command, with a SELECT when the database changes. */
    method FeedAppendOnlyFile(dictid: int, argv: Command, timestamps: bool, unixtime: int)
      requires dictid >= -1
      modifies this`aofBuf, this`selectedDb, this`curTimestamp, this`fed
      ensures aofBuf == old(aofBuf) + (TimestampLine(timestamps, old(curTimestamp), unixtime) +
                                       EncodeAll(Fed(old(selectedDb), dictid, argv)))
      ensures selectedDb == if dictid == -1 then old(selectedDb) else dictid
      ensures curTimestamp == if timestamps && old(curTimestamp) < unixtime then unixtime else old(curTimestamp)
      ensures old(Conserved()) ==> Conserved()
    {
      var buf := TimestampLine(timestamps, curTimestamp, unixtime);
      if timestamps && curTimestamp < unixtime { curTimestamp := unixtime; }
      ghost var start := buf;
      ConcatOne(Encode, argv);
      if dictid != -1 && dictid != selectedDb {
        buf := CatAppendOnlyGenericCommand(buf, Select(dictid));
        ConcatOne(Encode, Select(dictid));
        ConcatAppend(Encode, [Select(dictid)], [argv]);
        SeqAssoc(start, Encode(Select(dictid)), Encode(argv));
        selectedDb := dictid;
      } else {
        assert [] + [argv] == [argv];
      }
      buf := CatAppendOnlyGenericCommand(buf, argv);
      SeqAssoc(file, aofBuf, buf);
      aofBuf := aofBuf + buf;
      fed := fed + buf;
    }

    /** `write(2)` taking all it is given. */
    method WriteChunk(data: Text, ghost was: Text, ghost pos: nat, ghost done: Text)
      requires file == WriteAt(was, pos, done) && Position() == pos + |done|
      modifies this`file, this`offset
      ensures file == WriteAt(was, pos, done + data) && Position() == pos + |done| + |data|
    {
      WriteTwice(was, pos, done, data);
      file := WriteAt(file, Position(), data);
      if !append { offset := offset + |data|; }
    }

    /** `aofWrite`: retry until everything is written or an error stops it. */
    method AofWrite(writes: seq<SysWrite>) returns (nwritten: int)
      requires aofBuf != ""
      modifies this`file, this`offset
      ensures var t := Taken(writes, |aofBuf|);
              nwritten == (if t == 0 then -1 else t) &&
              file == WriteAt(old(file), old(Position()), aofBuf[..t]) && Position() == old(Position()) + t
    {
      var len, tot, todo := |aofBuf|, 0, writes;
      var buf := aofBuf;
      ghost var all, was, pos := Taken(writes, |aofBuf|), file, Position();
      assert aofBuf[..0] == "";
      while len > 0
        invariant 0 <= len <= |aofBuf| && tot == |aofBuf| - len && buf == aofBuf[tot..]
        invariant tot + Taken(todo, len) == all
        invariant file == WriteAt(was, pos, aofBuf[..tot]) && Position() == pos + tot
        decreases |todo|, len
      {
        if todo == [] || todo[0].Failed? { return if tot > 0 then tot else -1; }
        if todo[0].Interrupted? { todo := todo[1..]; continue; }
        var n := Min(todo[0].n, len);
        assert aofBuf[..tot + n] == aofBuf[..tot] + buf[..n];
        WriteChunk(buf[..n], was, pos, aofBuf[..tot]);
        len, tot, buf, todo := len - n, tot + n, buf[n..], todo[1..];
      }
      nwritten := tot;
    }

    /** The `try_fsync` label. */
    method TryFsync(env: Env, syncInProgress: bool)
      modifies this`fsyncOffset, this`lastFsync, this`exited
      ensures !exited && policy.Always? && !(env.noFsyncOnRewrite && env.childActive) ==> fsyncOffset == lastIncrSize
      ensures exited ==> old(exited) || (policy.Always? && !env.fsyncWorks)
      ensures fsyncOffset == old(fsyncOffset) || fsyncOffset == lastIncrSize
    {
      if env.noFsyncOnRewrite && env.childActive { return; }
      if policy.Always? {
        if !env.fsyncWorks { exited := true; return; }
        fsyncOffset := lastIncrSize;
        lastFsync := env.now;
      } else if policy.EverySec? && env.now - lastFsync >= 1000 {
        if !syncInProgress { fsyncOffset := lastIncrSize; }
        lastFsync := env.now;
      }
    }

    /** The flush goes on to `write(2)`: it is not empty and not postponed behind a running fsync. */
    predicate Writes(force: bool, env: Env)
      reads this
    {
      aofBuf != "" &&
      !(policy.EverySec? && !force && env.fsyncInProgress &&
        (flushPostponedStart == 0 || env.now - flushPostponedStart < 2000))
    }

    /** A short write that `ftruncate` then takes back. */
    predicate Undone(force: bool, env: Env)
      reads this
    {
      Writes(force, env) && 0 < Taken(env.writes, |aofBuf|) < |aofBuf| && env.truncateWorks
    }

    /** The write and its four outcomes: full, error, short and undone, short and not undone (aof.c:1218-1321). */
    method WriteBuffer(env: Env) returns (kept: nat, full: bool)
      requires !exited && Conserved() && Placed() && aofBuf != ""
      modifies this`file, this`offset, this`aofBuf, this`lastIncrSize, this`currentSize, this`lastWriteOk,
               this`flushPostponedStart, this`exited
      ensures Placed() && (exited ==> policy.Always? && !full)
      ensures var t := Taken(env.writes, |old(aofBuf)|);
              full == (t == |old(aofBuf)|) && (!full && policy.Always? ==> exited) &&
              (!append ==> offset == old(offset) + t) &&
              (!exited ==> kept == if 0 < t < |old(aofBuf)| && env.truncateWorks then 0 else t)
      ensures !exited ==> file == WriteAt(old(file), old(Position()), old(aofBuf)[..kept]) && aofBuf == old(aofBuf)[kept..]
      ensures !exited ==> lastIncrSize == old(lastIncrSize) + kept
      ensures !exited ==> (Conserved() <==> old(AtEnd()) || kept == 0)
    {
      kept := 0;
      var nwritten := AofWrite(env.writes);
      flushPostponedStart := 0;
      full := nwritten == |aofBuf|;
      if !full {
        if nwritten != -1 && env.truncateWorks {
          TruncatedBack(old(file), old(Position()), aofBuf[..nwritten]);
          file := file[..lastIncrSize];
          nwritten := -1;
        }
        if policy.Always? {
          exited := true;
          return;
        }
        lastWriteOk := false;
        if nwritten > 0 {
          Appended(old(file), old(Position()), aofBuf, nwritten);
          currentSize := currentSize + nwritten;
          lastIncrSize := lastIncrSize + nwritten;
          aofBuf := aofBuf[nwritten..];
          kept := nwritten;
        }
        return;
      }
      lastWriteOk := true;
      Appended(old(file), old(Position()), aofBuf, nwritten);
      currentSize := currentSize + nwritten;
      lastIncrSize := lastIncrSize + nwritten;
      kept := nwritten;
      aofBuf := "";
    }

    /**
     * `flushAppendOnlyFile`. `kept` is the number of bytes by which the buffer shrank. Unless the process
     * exits, conservation survives the flush exactly when the descriptor was at the end of the file or no
     * byte was kept; and the descriptor leaves the end of the file exactly when a short write was undone
     * by `ftruncate` without O_APPEND.
     */
    method FlushAppendOnlyFile(force: bool, env: Env) returns (kept: nat)
      requires !exited && Conserved() && Placed()
      modifies this
      ensures fed == old(fed) && Placed()
      ensures !exited && !append ==> offset == old(offset) + (if old(Writes(force, env)) then Taken(env.writes, |old(aofBuf)|) else 0)
      ensures !exited ==> (Conserved() <==> old(AtEnd()) || kept == 0)
      ensures !exited && old(AtEnd()) ==> (AtEnd() <==> append || !old(Undone(force, env)))
      ensures !exited ==> kept == if old(Writes(force, env) && !Undone(force, env)) then Taken(env.writes, |old(aofBuf)|) else 0
      ensures !exited ==> file == WriteAt(old(file), old(Position()), old(aofBuf)[..kept]) && aofBuf == old(aofBuf)[kept..]
      ensures !exited ==> lastIncrSize == old(lastIncrSize) + kept
      ensures !exited && policy.Always? && !(env.noFsyncOnRewrite && env.childActive) ==>
                aofBuf == "" && fsyncOffset == lastIncrSize
      ensures exited ==> policy.Always?
    {
      kept := 0;
      var syncInProgress := false;
      if |aofBuf| == 0 {
        if fsyncOffset == lastIncrSize { return; }
        if policy.EverySec? && env.now - lastFsync >= 1000 {
          syncInProgress := env.fsyncInProgress;
          if !syncInProgress { TryFsync(env, syncInProgress); return; }
        }
        if policy.Always? { TryFsync(env, syncInProgress); }
        return;
      }
      if policy.EverySec? { syncInProgress := env.fsyncInProgress; }
      if policy.EverySec? && !force && syncInProgress {
        if flushPostponedStart == 0 {
          flushPostponedStart := env.now;
          return;
        } else if env.now - flushPostponedStart < 2000 {
          return;
        }
      }
      var full;
      kept, full := WriteBuffer(env);
      if full { TryFsync(env, syncInProgress); }
    }
  }

  /**
   * Where conservation fails, whatever the file and the buffer hold: without O_APPEND, one byte is written
   * and taken back, then the whole buffer is written. A zero byte is left before it.
   */
  method GapAfterUndoneWrite(f: AppendOnlyFile)
    requires !f.append && f.policy.No? && f.AtEnd() && f.Conserved() && !f.exited && |f.aofBuf| > 1
    modifies f
    ensures f.file == old(f.file) + "\0" + old(f.aofBuf) && f.aofBuf == "" && !f.Conserved()
  {
    var len := |f.aofBuf|;
    TakenOnce(1, len);
    var kept := f.FlushAppendOnlyFile(true, Env(0, false, false, false, [Took(1)], true, true));
    assert f.file == old(f.file) && f.offset == |f.file| + 1;
    TakenOnce(len, len);
    kept := f.FlushAppendOnlyFile(true, Env(0, false, false, false, [Took(len)], true, true));
    assert old(f.aofBuf)[..len] == old(f.aofBuf);
    assert Zeros(1) == "\0";
  }

  lemma TakenOnce(n: nat, len: nat)
    requires n <= len
    ensures Taken([Took(n)], len) == n
  {
    assert [Took(n)][1..] == [];
  }

  lemma WriteTwice(file: Text, pos: nat, a: Text, b: Text)
    ensures WriteAt(WriteAt(file, pos, a), pos + |a|, b) == WriteAt(file, pos, a + b)
  {
    if a == "" {
      assert a + b == b;
    } else if b == "" {
      assert a + b == a;
    } else if pos >= |file| {
      SeqAssoc(file + Zeros(pos - |file|), a, b);
    } else {
      WriteInside(file, pos, a, b);
    }
  }

  lemma WriteInside(file: Text, pos: nat, a: Text, b: Text)
    requires pos < |file| && a != "" && b != ""
    ensures WriteAt(WriteAt(file, pos, a), pos + |a|, b) == WriteAt(file, pos, a + b)
  {
    SeqAssoc(file[..pos], a, b);
  }

  /** `ftruncate` to the old size undoes a write that started at or after the end. */
  lemma TruncatedBack(file: Text, pos: nat, data: Text)
    requires pos >= |file|
    ensures |WriteAt(file, pos, data)| >= |file| && WriteAt(file, pos, data)[..|file|] == file
  {
  }

  /** Moving `n` bytes from buffer to file keeps their concatenation exactly when there is no gap. */
  lemma Appended(file: Text, pos: nat, buf: Text, n: nat)
    requires pos >= |file| && 0 < n <= |buf|
    ensures var file' := WriteAt(file, pos, buf[..n]);
            |file'| == pos + n &&
            (pos == |file| ==> file' + buf[n..] == file + buf) &&
            (pos > |file| ==> file' + buf[n..] != file + buf && |file'| != |file| + n)
  {
    var file' := WriteAt(file, pos, buf[..n]);
    assert buf[..n] + buf[n..] == buf;
    if pos == |file| {
      assert Zeros(0) == "";
      assert file + "" + buf[..n] + buf[n..] == file + buf;
    } else {
      assert |file' + buf[n..]| > |file + buf|;
    }
  }
}
