/**
 * The multi-part AOF as one step system: disk, manifest file, in-memory manifest, `aof_buf` and the
 * rewrite child (redis-stable/src/aof.c:506-536, 612-622, 682-706, 804-868, 1409-1448, 1775-1898,
 * 2596-2664, 2753-2913), at the granularity of system calls. A crash may come after any step.
 *
 * Premises the code relies on without enforcing them: the forced flush before a rewrite leaves `aof_buf`
 * empty, persisting the manifest is all or nothing, writes land at the end of the file.
 */
module AofProtocol {
  import opened Basics
  import opened Bytes
  import opened Resp
  import opened AofLoader
  import opened AofRecovery
  import opened AofMeaning
  import opened AofManifest

  /** Where the main thread is. */
  datatype Pc =
    | Idle
    | Writing(n: nat)             // n bytes of aof_buf are in the file, the buffer is not trimmed yet
    | Opened(next: Manifest)      // the new INCR file exists, its manifest is not on disk
    | Persisted(next: Manifest)   // the manifest is on disk, fd and memory are not switched
    | Forking
    | Renamed(next: Manifest)     // the new BASE file exists, its manifest is not on disk
    | Replaced(next: Manifest)    // the manifest is on disk, memory is not switched
    | Deleting                    // HISTORY files are being removed

  /** The rewrite child; `snapshot` is what had been fed when it was forked. */
  datatype Child = NoChild | Running(snapshot: seq<Command>) | Exited(snapshot: seq<Command>)

  /**
   * `fed` is everything fed to the AOF so far; `logs` is what was fed while each INCR file was current,
   * `bases` the log each BASE file stands for, and `loaded` the part of `fed` that the process loaded when
   * it started. These four only record what happened.
   */
  datatype State = State(
    disk: map<Name, Text>,
    onDisk: Manifest,
    mem: Manifest,
    buf: Text,
    selected: int,
    pc: Pc,
    child: Child,
    fed: seq<Command>,
    logs: map<nat, seq<Command>>,
    bases: map<nat, seq<Command>>,
    loaded: seq<Command>)

  function Current(m: Manifest): nat
    requires m.incr != []
  {
    m.incr[|m.incr| - 1]
  }

  /** What has been fed but is not in a file. */
  function Unwritten(s: State): Text {
    if s.pc.Writing? && s.pc.n <= |s.buf| then s.buf[s.pc.n..] else s.buf
  }

  /** What the running process has fed. */
  function Since(s: State): seq<Command>
    requires |s.loaded| <= |s.fed|
  {
    s.fed[|s.loaded|..]
  }

  /** The dataset in memory of a process that loaded `loaded` and has fed the rest of `log`: it executes what it feeds. */
  function InMemory<Db(!new)>(w: World<Db>, loaded: seq<Command>, log: seq<Command>): Db
    requires |loaded| <= |log|
  {
    RunAll(w.exec, Meaning(w, loaded), 0, Replay(log[|loaded|..]).run).0
  }

  // ---------------------------------------------------------------- loading

  /** The INCR loop of `loadAppendOnlyFiles`. */
  ghost function LoadIncrs<Db(!new)>(w: World<Db>, disk: map<Name, Text>, fs: seq<nat>, db: Db): Option<Db>
    requires w.Valid()
  {
    if fs == [] then Some(db)
    else if Incr(fs[0]) !in disk then None
    else
      var r := Load(w.read, disk[Incr(fs[0])], Lenient, w.known);
      if r.status == AofFailed || ((r.status == AofTruncated || r.status == AofBrokenRecovered) && |fs| > 1) then None
      else LoadIncrs(w, disk, fs[1..], RunAll(w.exec, db, 0, r.run).0)
  }

  /** `loadAppendOnlyFiles` with aof-load-truncated on: the dataset, or nothing if loading fails. */
  ghost function LoadAll<Db(!new)>(w: World<Db>, disk: map<Name, Text>, m: Manifest): Option<Db>
    requires w.Valid()
  {
    if m.base.None? && m.incr == [] then Some(w.empty)
    else if (m.base.Some? && Base(m.base.value) !in disk) || exists f :: f in m.incr && Incr(f) !in disk then None
    else if (m.base.Some? ==> disk[Base(m.base.value)] == "") && forall f :: f in m.incr ==> disk[Incr(f)] == ""
    then Some(w.empty)
    else if m.base.None? then LoadIncrs(w, disk, m.incr, w.empty)
    else
      match w.loadBase(disk[Base(m.base.value)])
      case None => None
      case Some(db) => LoadIncrs(w, disk, m.incr, db)
  }

  // ---------------------------------------------------------------- steps

  /** What `feedAppendOnlyFile` appends for a command aimed at database `dictid`. */
  function Fed(selected: int, dictid: int, argv: Command): seq<Command>
    requires dictid >= -1
  {
    (if dictid != -1 && dictid != selected then [Select(dictid)] else []) + [argv]
  }

  /** The commands the server propagates. */
  predicate Propagates<Db(!new)>(w: World<Db>, dictid: int, argv: Command) {
    && -1 <= dictid <= INT_MAX
    && WellFormed(argv) && w.known(argv) && !IsSelect(argv)
    && (dictid == -1 ==> w.global(argv))
  }

  predicate Feed<Db(!new)>(w: World<Db>, s: State, s': State, dictid: int, argv: Command) {
    && s.pc.Idle? && Propagates(w, dictid, argv) && s.mem.incr != [] && Current(s.mem) in s.logs
    && var more := Fed(s.selected, dictid, argv);
    && s' == s.(buf := s.buf + Concat(w.enc, more),
                selected := if dictid == -1 then s.selected else dictid,
                fed := s.fed + more,
                logs := s.logs[Current(s.mem) := s.logs[Current(s.mem)] + more])
  }

  /** `write` returned `n`: all of the buffer or, on a full disk, part of it. */
  predicate Write(s: State, s': State, n: nat) {
    && s.pc.Idle? && 0 < n <= |s.buf| && s.mem.incr != [] && Incr(Current(s.mem)) in s.disk
    && s' == s.(disk := s.disk[Incr(Current(s.mem)) := s.disk[Incr(Current(s.mem))] + s.buf[..n]], pc := Writing(n))
  }

  predicate TrimBuffer(s: State, s': State) {
    && s.pc.Writing? && s.pc.n <= |s.buf|
    && s' == s.(buf := s.buf[s.pc.n..], pc := Idle)
  }

  /** A short write undone by `ftruncate`. */
  predicate UndoWrite(s: State, s': State) {
    && s.pc.Writing? && s.mem.incr != [] && Incr(Current(s.mem)) in s.disk
    && var file := s.disk[Incr(Current(s.mem))];
    && s.pc.n <= |file|
    && s' == s.(disk := s.disk[Incr(Current(s.mem)) := file[..|file| - s.pc.n]], pc := Idle)
  }

  /**
   * A rewrite starts, with `aof_buf` flushed, outside any transaction, and in a process that did not load an open
   * one: the new INCR file is created.
   */
  predicate OpenIncr(s: State, s': State) {
    && s.pc.Idle? && s.child.NoChild? && s.buf == ""
    && |s.loaded| <= |s.fed| && Replay(Since(s)).queue.None? && Replay(s.loaded).queue.None?
    && var next := NewIncr(s.mem);
    && s' == s.(disk := s.disk[Incr(next.incrSeq) := ""], logs := s.logs[next.incrSeq := []],
                selected := -1, pc := Opened(next))
  }

  predicate PersistIncr(s: State, s': State, ok: bool) {
    && s.pc.Opened?
    && s' == if ok then s.(onDisk := s.pc.next, pc := Persisted(s.pc.next)) else s.(pc := Idle)
  }

  predicate SwitchFd(s: State, s': State) {
    && s.pc.Persisted?
    && s' == s.(mem := s.pc.next, pc := Forking)
  }

  predicate Fork(s: State, s': State, ok: bool) {
    && s.pc.Forking?
    && s' == s.(pc := Idle, child := if ok then Running(s.fed) else NoChild)
  }

  /** The child writes its temporary file. */
  predicate ChildWrites(s: State, s': State, text: Text) {
    && s.child.Running?
    && s' == s.(disk := s.disk[TempBase := text])
  }

  /** The child exits; on success its file holds the dataset in memory when it was forked. */
  ghost predicate ChildExits<Db(!new)>(w: World<Db>, s: State, s': State, ok: bool) {
    && s.child.Running?
    && (ok ==> && TempBase in s.disk && |s.loaded| <= |s.child.snapshot|
               && w.loadBase(s.disk[TempBase]) == Some(InMemory(w, s.loaded, s.child.snapshot)))
    && s' == s.(child := if ok then Exited(s.child.snapshot) else NoChild)
  }

  /** `backgroundRewriteDoneHandler`: the temporary file takes the new BASE name, or the rewrite is dropped. */
  predicate RenameBase(s: State, s': State, ok: bool) {
    && s.pc.Idle? && s.child.Exited? && s.mem.incr != [] && TempBase in s.disk
    && var next := MarkIncrAsHistory(NewBase(s.mem));
    && s' == if ok then
               s.(disk := (s.disk - {TempBase})[Base(next.baseSeq) := s.disk[TempBase]],
                  bases := s.bases[next.baseSeq := s.child.snapshot],
                  pc := Renamed(next))
             else s.(disk := s.disk - {TempBase}, child := NoChild)
  }

  predicate PersistBase(s: State, s': State, ok: bool) {
    && s.pc.Renamed?
    && s' == if ok then s.(onDisk := s.pc.next, pc := Replaced(s.pc.next))
             else s.(disk := s.disk - {Base(s.pc.next.baseSeq)}, child := NoChild, pc := Idle)
  }

  predicate AdoptManifest(s: State, s': State, autoGc: bool) {
    && s.pc.Replaced?
    && s' == s.(mem := s.pc.next, child := NoChild, pc := if autoGc then Deleting else Idle)
  }

  predicate DeleteHistory(s: State, s': State) {
    && s.pc.Deleting? && s.mem.history != []
    && s' == s.(disk := s.disk - {s.mem.history[0]}, mem := s.mem.(history := s.mem.history[1..]))
  }

  predicate PersistHistory(s: State, s': State, ok: bool) {
    && s.pc.Deleting? && s.mem.history == []
    && s' == s.(onDisk := if ok then s.mem else s.onDisk, pc := Idle)
  }

  /** The number of commands fed that are completely in a file. */
  function Durable<Db(!new)>(w: World<Db>, s: State): nat {
    var total := |Concat(w.enc, s.fed)|;
    if |Unwritten(s)| <= total then Complete(w.enc, s.fed, total - |Unwritten(s)|) else 0
  }

  /** The cut of the log fell inside a command of a transaction that is still open. */
  predicate TornTransaction<Db(!new)>(w: World<Db>, s: State) {
    var k := Durable(w, s);
    && k <= |s.fed| && Replay(s.fed[..k]).queue.Some?
    && |Concat(w.enc, s.fed[..k])| + |Unwritten(s)| != |Concat(w.enc, s.fed)|
  }

  /** The commands a restarted server continues from: an open transaction is rolled back unless it is torn. */
  function Survivors<Db(!new)>(w: World<Db>, s: State): nat {
    var k := Durable(w, s);
    if k <= |s.fed| && Replay(s.fed[..k]).queue.Some? && !TornTransaction(w, s) then LastMulti(s.fed[..k]) else k
  }

  /**
   * The process crashes in any state and restarts from disk: the manifest file is loaded, the last INCR
   * file is truncated by the loader and reopened for appending. Of a torn transaction the file keeps the
   * MULTI (see AofRestart.FedAfterRestart for what that means).
   */
  ghost predicate CrashAndRestart<Db(!new)>(w: World<Db>, s: State, s': State)
    requires w.Valid()
  {
    && s.onDisk.incr != [] && Current(s.onDisk) in s.logs && Incr(Current(s.onDisk)) in s.disk
    && var f := Current(s.onDisk);
    && var r := Load(w.read, s.disk[Incr(f)], Lenient, w.known);
    && var kept := Survivors(w, s);
    && kept <= |s.fed| && |s.fed| - kept <= |s.logs[f]|
    && s' == s.(disk := s.disk[Incr(f) := r.file], mem := s.onDisk, buf := "", selected := -1, pc := Idle,
                child := NoChild, fed := s.fed[..kept], loaded := s.fed[..kept],
                logs := s.logs[f := s.logs[f][..|s.logs[f]| - (|s.fed| - kept)]])
  }

  ghost predicate Step<Db(!new)>(w: World<Db>, s: State, s': State)
    requires w.Valid()
  {
    || (exists dictid, argv :: Feed(w, s, s', dictid, argv))
    || (exists n :: Write(s, s', n))
    || TrimBuffer(s, s')
    || UndoWrite(s, s')
    || OpenIncr(s, s')
    || (exists ok :: PersistIncr(s, s', ok))
    || SwitchFd(s, s')
    || (exists ok :: Fork(s, s', ok))
    || (exists text :: ChildWrites(s, s', text))
    || (exists ok :: ChildExits(w, s, s', ok))
    || (exists ok :: RenameBase(s, s', ok))
    || (exists ok :: PersistBase(s, s', ok))
    || (exists gc :: AdoptManifest(s, s', gc))
    || DeleteHistory(s, s')
    || (exists ok :: PersistHistory(s, s', ok))
    || CrashAndRestart(w, s, s')
  }

  /** A server started on an empty dataset (aof.c:727-782). */
  ghost predicate Init<Db(!new)>(w: World<Db>, s: State) {
    exists base: Text {:trigger w.loadBase(base)} ::
      && w.loadBase(base) == Some(w.empty)
      && s == State(map[Base(1) := base, Incr(1) := ""], Manifest(Some(1), [1], [], 1, 1),
                    Manifest(Some(1), [1], [], 1, 1), "", -1, Idle, NoChild, [], map[1 := []], map[1 := []], [])
  }

  ghost predicate Run<Db(!new)>(w: World<Db>, ss: seq<State>)
    requires w.Valid()
  {
    && ss != [] && Init(w, ss[0])
    && forall i | 0 <= i < |ss| - 1 :: Step(w, ss[i], ss[i + 1])
  }
}
