/** Crash safety of the multi-part AOF: in every reachable state, what is on disk loads, to exactly the commands written. */
module AofCrashSafety {
  import opened Basics
  import opened Bytes
  import opened Resp
  import opened AofLoader
  import opened AofRecovery
  import opened AofMeaning
  import opened AofManifest
  import opened AofProtocol

  // ---------------------------------------------------------------- the invariant

  function Flat(logs: map<nat, seq<Command>>, fs: seq<nat>): seq<Command>
    requires forall f <- fs :: f in logs
  {
    if fs == [] then [] else logs[fs[0]] + Flat(logs, fs[1..])
  }

  function BaseLog(bases: map<nat, seq<Command>>, m: Manifest): seq<Command> {
    if m.base.Some? && m.base.value in bases then bases[m.base.value] else []
  }

  /** The log of the `i`-th INCR file is pinned; unless it is the last, all of it is in the file and it is closed. */
  predicate IncrAt<Db(!new)>(w: World<Db>, disk: map<Name, Text>, logs: map<nat, seq<Command>>, fs: seq<nat>, i: nat)
    requires i < |fs|
  {
    var f := fs[i];
    f in logs && Incr(f) in disk && Pinned(w, logs[f]) &&
    (i < |fs| - 1 ==> disk[Incr(f)] == Concat(w.enc, logs[f]) && Replay(logs[f]).queue.None?)
  }

  /** The files of the INCR list `fs`, the last of which lacks the bytes `un`. */
  predicate IncrsOk<Db(!new)>(w: World<Db>, disk: map<Name, Text>, logs: map<nat, seq<Command>>, un: Text, fs: seq<nat>) {
    && fs != [] && (forall f <- fs :: f in logs && Incr(f) in disk) && (forall i | 0 <= i < |fs| :: IncrAt(w, disk, logs, fs, i))
    && var last := fs[|fs| - 1];
    && last in logs && Incr(last) in disk && disk[Incr(last)] + un == Concat(w.enc, logs[last])
  }

  ghost predicate BaseOk<Db(!new)>(w: World<Db>, disk: map<Name, Text>, bases: map<nat, seq<Command>>, b: nat) {
    b in bases && Base(b) in disk && w.loadBase(disk[Base(b)]) == Some(Meaning(w, bases[b])) &&
    Replay(bases[b]).queue.None?
  }

  /** The files `m` lists stand for the log `fed`. */
  ghost predicate Good<Db(!new)>(w: World<Db>, disk: map<Name, Text>, logs: map<nat, seq<Command>>,
                                 bases: map<nat, seq<Command>>, un: Text, fed: seq<Command>, m: Manifest)
  {
    && IncrsOk(w, disk, logs, un, m.incr)
    && (m.base.Some? ==> BaseOk(w, disk, bases, m.base.value))
    && fed == BaseLog(bases, m) + Flat(logs, m.incr)
  }

  ghost predicate GoodIn<Db(!new)>(w: World<Db>, s: State, m: Manifest) {
    Good(w, s.disk, s.logs, s.bases, Unwritten(s), s.fed, m)
  }

  predicate SameLive(m: Manifest, n: Manifest) {
    m.base == n.base && m.incr == n.incr
  }

  ghost predicate PcOk<Db(!new)>(w: World<Db>, s: State)
    requires WellShaped(s.mem) && GoodIn(w, s, s.mem)
  {
    match s.pc
    case Idle => SameLive(s.onDisk, s.mem)
    case Writing(n) =>
      SameLive(s.onDisk, s.mem) && n <= |s.buf| &&
      Incr(Current(s.mem)) in s.disk && n <= |s.disk[Incr(Current(s.mem))]| &&
      s.disk[Incr(Current(s.mem))][|s.disk[Incr(Current(s.mem))]| - n..] == s.buf[..n]
    case Opened(next) =>
      SameLive(s.onDisk, s.mem) && next == NewIncr(s.mem) && GoodIn(w, s, next) && AboutToFork(s) &&
      s.logs[next.incrSeq] == []
    case Persisted(next) =>
      s.onDisk == next == NewIncr(s.mem) && AboutToFork(s) && next.incrSeq in s.logs && s.logs[next.incrSeq] == []
    case Forking =>
      SameLive(s.onDisk, s.mem) && AboutToFork(s) && s.logs[Current(s.mem)] == []
    case Renamed(next) =>
      SameLive(s.onDisk, s.mem) && next == MarkIncrAsHistory(NewBase(s.mem)) && GoodIn(w, s, next) && s.child.Exited?
    case Replaced(next) =>
      s.onDisk == next == MarkIncrAsHistory(NewBase(s.mem)) && s.child.Exited?
    case Deleting => SameLive(s.onDisk, s.mem) && s.child.NoChild?
  }

  predicate AboutToFork(s: State) {
    s.buf == "" && s.selected == -1 && s.child.NoChild? && Replay(s.fed).queue.None?
  }

  ghost predicate ChildOk<Db(!new)>(w: World<Db>, s: State) {
    match s.child
    case NoChild => true
    case Running(snap) => Forked(s, snap)
    case Exited(snap) =>
      Forked(s, snap) &&
      (s.pc.Renamed? || s.pc.Replaced? ||
       (TempBase in s.disk && w.loadBase(s.disk[TempBase]) == Some(Meaning(w, snap))))
  }

  /** The INCR file being written holds exactly what was fed since the fork. */
  predicate Forked(s: State, snap: seq<Command>) {
    && s.mem.incr != [] && Current(s.mem) in s.logs && Replay(snap).queue.None?
    && s.fed == snap + s.logs[Current(s.mem)]
  }

  predicate FedOk<Db(!new)>(w: World<Db>, fed: seq<Command>) {
    AllWellFormed(fed) && AllKnown(fed, w.known)
  }

  /** The process rewrites, or is about to. */
  predicate Rewrites(s: State) {
    !s.child.NoChild? || s.pc.Opened? || s.pc.Persisted? || s.pc.Forking?
  }

  /** What the process has fed starts from the log it loaded and is pinned; a rewrite did not start from an open log. */
  ghost predicate LiveOk<Db(!new)>(w: World<Db>, s: State) {
    && s.loaded <= s.fed && Pinned(w, Since(s)) && (s.selected != -1 ==> HasSelect(Since(s)))
    && (Rewrites(s) ==> Replay(s.loaded).queue.None?)
    && (!s.child.NoChild? ==> |s.loaded| <= |s.child.snapshot| <= |s.fed| && s.child.snapshot == s.fed[..|s.child.snapshot|])
  }

  ghost predicate Inv<Db(!new)>(w: World<Db>, s: State) {
    && FedOk(w, s.fed) && LiveOk(w, s)
    && WellShaped(s.onDisk) && WellShaped(s.mem)
    && GoodIn(w, s, s.onDisk) && GoodIn(w, s, s.mem)
    && (s.selected != -1 ==> HasSelect(s.logs[Current(s.mem)]))
    && PcOk(w, s) && ChildOk(w, s)
  }

  // ---------------------------------------------------------------- what an invariant state recovers to

  lemma {:induction false} FlatAppend(logs: map<nat, seq<Command>>, xs: seq<nat>, ys: seq<nat>)
    requires (forall f <- xs :: f in logs) && forall f <- ys :: f in logs
    ensures Flat(logs, xs + ys) == Flat(logs, xs) + Flat(logs, ys)
  {
    if xs == [] {
      assert xs + ys == ys;
    } else {
      assert (xs + ys)[1..] == xs[1..] + ys;
      FlatAppend(logs, xs[1..], ys);
      SeqAssoc(logs[xs[0]], Flat(logs, xs[1..]), Flat(logs, ys));
    }
  }

  lemma {:induction false} CompleteAppend(enc: Encoder, xs: seq<Command>, ys: seq<Command>, n: nat)
    ensures Complete(enc, xs + ys, |Concat(enc, xs)| + n) == |xs| + Complete(enc, ys, n)
  {
    if xs == [] {
      assert xs + ys == ys;
    } else {
      assert (xs + ys)[1..] == xs[1..] + ys;
      CompleteAppend(enc, xs[1..], ys, n);
    }
  }

  /** The commands of the log `cs` that are complete when all but the bytes `un` are in the file. */
  function CompleteLog<Db(!new)>(w: World<Db>, file: Text, cs: seq<Command>): seq<Command> {
    cs[..Complete(w.enc, cs, |file|)]
  }

  lemma LoadLastFile<Db(!new)>(w: World<Db>, file: Text, un: Text, cs: seq<Command>)
    requires w.Valid() && AllWellFormed(cs) && AllKnown(cs, w.known) && file + un == Concat(w.enc, cs)
    ensures var r := Load(w.read, file, Lenient, w.known);
            r.status != AofFailed && r.run == Replay(CompleteLog(w, file, cs)).run
  {
    assert Concat(w.enc, cs)[..|file|] == file;
    if file == "" {
      NothingComplete(w.enc, w.read, cs);
    } else {
      LoadCutLog(w.enc, w.read, cs, |file|, w.known);
    }
  }

  lemma NothingComplete(enc: Encoder, read: Reader, cs: seq<Command>)
    requires Sound(enc, read) && AllWellFormed(cs)
    ensures Complete(enc, cs, 0) == 0
  {
    if cs != [] { assert ReadsBack(enc, read, cs[0], []); }
  }

  lemma LoadFullFile<Db(!new)>(w: World<Db>, cs: seq<Command>)
    requires w.Valid() && AllWellFormed(cs) && AllKnown(cs, w.known) && Replay(cs).queue.None?
    ensures var r := Load(w.read, Concat(w.enc, cs), Lenient, w.known);
            (r.status == AofOk || r.status == AofEmpty) && r.run == Replay(cs).run
  {
    if cs != [] { LoadWholeLog(w.enc, w.read, cs, Lenient, w.known); }
  }

  /** Loading the INCR files on top of the dataset of `h` gives the dataset of `h` and all complete commands. */
  lemma {:induction false} LoadIncrFiles<Db(!new)>(w: World<Db>, disk: map<Name, Text>, logs: map<nat, seq<Command>>,
                                                   un: Text, fs: seq<nat>, h: seq<Command>)
    requires w.Valid() && IncrsOk(w, disk, logs, un, fs) && Replay(h).queue.None?
    requires AllWellFormed(Flat(logs, fs)) && AllKnown(Flat(logs, fs), w.known)
    ensures var front, last := fs[..|fs| - 1], fs[|fs| - 1];
            LoadIncrs(w, disk, fs, Meaning(w, h)) ==
            Some(Meaning(w, h + Flat(logs, front) + CompleteLog(w, disk[Incr(last)], logs[last])))
    decreases |fs|
  {
    var f, log := fs[0], logs[fs[0]];
    FlatMembers(w, logs, fs);
    assert IncrAt(w, disk, logs, fs, 0);
    if |fs| == 1 {
      assert fs == [f] && fs[..0] == [];
      LoadLastIncr(w, disk, f, un, log, h);
      var done := CompleteLog(w, disk[Incr(f)], log);
      assert h + Flat(logs, []) + done == h + done;
    } else {
      var front, rest := fs[..|fs| - 1], fs[1..];
      IncrsTail(w, disk, logs, un, fs);
      LoadFirstIncr(w, disk, fs, log, h);
      ReplayContinues(h, log);
      LoadIncrFiles(w, disk, logs, un, rest, h + log);
      assert front[0] == f && rest[|rest| - 1] == fs[|fs| - 1];
      assert Flat(logs, front) == log + Flat(logs, front[1..]);
      SeqAssoc(h, log, Flat(logs, front[1..]));
    }
  }

  lemma FlatMembers<Db(!new)>(w: World<Db>, logs: map<nat, seq<Command>>, fs: seq<nat>)
    requires fs != [] && (forall f <- fs :: f in logs)
    requires AllWellFormed(Flat(logs, fs)) && AllKnown(Flat(logs, fs), w.known)
    ensures AllWellFormed(logs[fs[0]]) && AllKnown(logs[fs[0]], w.known)
    ensures AllWellFormed(Flat(logs, fs[1..])) && AllKnown(Flat(logs, fs[1..]), w.known)
  {
    var all := Flat(logs, fs);
    assert all == logs[fs[0]] + Flat(logs, fs[1..]);
    assert forall c <- logs[fs[0]] :: c in all;
    assert forall c <- Flat(logs, fs[1..]) :: c in all;
  }

  lemma IncrsTail<Db(!new)>(w: World<Db>, disk: map<Name, Text>, logs: map<nat, seq<Command>>, un: Text, fs: seq<nat>)
    requires IncrsOk(w, disk, logs, un, fs) && |fs| > 1
    ensures IncrsOk(w, disk, logs, un, fs[1..]) && fs[1..][..|fs| - 2] == fs[..|fs| - 1][1..]
    ensures disk[Incr(fs[0])] == Concat(w.enc, logs[fs[0]]) && Replay(logs[fs[0]]).queue.None? && Pinned(w, logs[fs[0]])
  {
    var front, rest := fs[..|fs| - 1], fs[1..];
    assert IncrAt(w, disk, logs, fs, 0);
    assert rest[..|rest| - 1] == front[1..];
    forall i | 0 <= i < |rest| ensures IncrAt(w, disk, logs, rest, i) {
      var n := i + 1;
      assert IncrAt(w, disk, logs, fs, n);
    }
  }

  lemma LoadLastIncr<Db(!new)>(w: World<Db>, disk: map<Name, Text>, f: nat, un: Text, log: seq<Command>, h: seq<Command>)
    requires w.Valid() && AllWellFormed(log) && AllKnown(log, w.known) && Pinned(w, log) && Replay(h).queue.None?
    requires Incr(f) in disk && disk[Incr(f)] + un == Concat(w.enc, log)
    ensures LoadIncrs(w, disk, [f], Meaning(w, h)) == Some(Meaning(w, h + CompleteLog(w, disk[Incr(f)], log)))
  {
    LoadLastFile(w, disk[Incr(f)], un, log);
    var done := CompleteLog(w, disk[Incr(f)], log);
    PinnedPrefix(w, log, |done|);
    SplitMeaning(w, h, done);
    assert [f][1..] == [];
  }

  lemma LoadFirstIncr<Db(!new)>(w: World<Db>, disk: map<Name, Text>, fs: seq<nat>, log: seq<Command>, h: seq<Command>)
    requires w.Valid() && AllWellFormed(log) && AllKnown(log, w.known) && Pinned(w, log)
    requires Replay(h).queue.None? && Replay(log).queue.None?
    requires fs != [] && Incr(fs[0]) in disk && disk[Incr(fs[0])] == Concat(w.enc, log)
    ensures LoadIncrs(w, disk, fs, Meaning(w, h)) == LoadIncrs(w, disk, fs[1..], Meaning(w, h + log))
  {
    LoadFullFile(w, log);
    SplitMeaning(w, h, log);
  }

  lemma {:induction false} EmptyIncrFiles<Db(!new)>(w: World<Db>, disk: map<Name, Text>, fs: seq<nat>, db: Db)
    requires w.Valid() && forall f <- fs :: Incr(f) in disk && disk[Incr(f)] == ""
    ensures LoadIncrs(w, disk, fs, db) == Some(db)
  {
    if fs != [] {
      EmptyIncrFiles(w, disk, fs[1..], db);
    }
  }

  lemma {:induction false} FlatQuiet(logs: map<nat, seq<Command>>, fs: seq<nat>, h: seq<Command>)
    requires (forall f <- fs :: f in logs && Replay(logs[f]).queue.None?) && Replay(h).queue.None?
    ensures Replay(h + Flat(logs, fs)).queue.None?
    decreases |fs|
  {
    if fs == [] {
      assert h + Flat(logs, fs) == h;
    } else {
      ReplayContinues(h, logs[fs[0]]);
      FlatQuiet(logs, fs[1..], h + logs[fs[0]]);
      SeqAssoc(h, logs[fs[0]], Flat(logs, fs[1..]));
    }
  }

  /** The log up to the file being written. */
  ghost function Earlier(s: State, m: Manifest): seq<Command>
    requires m.incr != [] && forall f <- m.incr :: f in s.logs
  {
    BaseLog(s.bases, m) + Flat(s.logs, m.incr[..|m.incr| - 1])
  }

  lemma EarlierSplits<Db(!new)>(w: World<Db>, s: State, m: Manifest)
    requires GoodIn(w, s, m)
    ensures s.fed == Earlier(s, m) + s.logs[Current(m)] && Replay(Earlier(s, m)).queue.None?
  {
    var front, last := m.incr[..|m.incr| - 1], m.incr[|m.incr| - 1];
    assert m.incr == front + [last];
    FlatAppend(s.logs, front, [last]);
    assert Flat(s.logs, [last]) == s.logs[last] by { assert [last][1..] == []; assert s.logs[last] + [] == s.logs[last]; }
    SeqAssoc(BaseLog(s.bases, m), Flat(s.logs, front), s.logs[last]);
    forall f <- front ensures f in s.logs && Replay(s.logs[f]).queue.None? {
      var i :| 0 <= i < |front| && front[i] == f;
      assert IncrAt(w, s.disk, s.logs, m.incr, i);
    }
    FlatQuiet(s.logs, front, BaseLog(s.bases, m));
  }

  /** The durable commands: everything before the file being written, and its complete commands. */
  lemma DurableSplits<Db(!new)>(w: World<Db>, s: State, m: Manifest)
    requires GoodIn(w, s, m)
    ensures var e, log := Earlier(s, m), s.logs[Current(m)];
            var k := Complete(w.enc, log, |s.disk[Incr(Current(m))]|);
            Durable(w, s) == |e| + k <= |s.fed| && s.fed[..|e| + k] == e + log[..k] &&
            |Concat(w.enc, s.fed)| == |Concat(w.enc, e)| + |s.disk[Incr(Current(m))]| + |Unwritten(s)|
  {
    EarlierSplits(w, s, m);
    var e, log := Earlier(s, m), s.logs[Current(m)];
    ConcatAppend(w.enc, e, log);
    CompleteAppend(w.enc, e, log, |s.disk[Incr(Current(m))]|);
  }

  lemma AllDurable<Db(!new)>(w: World<Db>, s: State)
    requires Unwritten(s) == ""
    ensures Durable(w, s) == |s.fed|
  {
    CompleteAppend(w.enc, s.fed, [], 0);
    assert s.fed + [] == s.fed;
  }

  lemma MeaningOfNothing<Db(!new)>(w: World<Db>)
    ensures Meaning(w, []) == w.empty && Replay([]).queue.None?
  {
  }

  /** Loading a good manifest gives exactly the dataset of the durable commands. */
  lemma GoodManifestRecovers<Db(!new)>(w: World<Db>, s: State, m: Manifest)
    requires w.Valid() && GoodIn(w, s, m) && FedOk(w, s.fed)
    ensures Durable(w, s) <= |s.fed|
    ensures LoadAll(w, s.disk, m) == Some(Meaning(w, s.fed[..Durable(w, s)]))
  {
    var h := BaseLog(s.bases, m);
    IncrsRecover(w, s, m);
    MeaningOfNothing(w);
    if (m.base.Some? ==> s.disk[Base(m.base.value)] == "") && forall f :: f in m.incr ==> s.disk[Incr(f)] == "" {
      EmptyIncrFiles(w, s.disk, m.incr, Meaning(w, h));
    }
  }

  lemma IncrsRecover<Db(!new)>(w: World<Db>, s: State, m: Manifest)
    requires w.Valid() && GoodIn(w, s, m) && FedOk(w, s.fed)
    ensures Durable(w, s) <= |s.fed|
    ensures LoadIncrs(w, s.disk, m.incr, Meaning(w, BaseLog(s.bases, m))) == Some(Meaning(w, s.fed[..Durable(w, s)]))
  {
    DurableSplits(w, s, m);
    MeaningOfNothing(w);
    FedSuffix(w, BaseLog(s.bases, m), Flat(s.logs, m.incr));
    LoadIncrFiles(w, s.disk, s.logs, Unwritten(s), m.incr, BaseLog(s.bases, m));
  }

  lemma FedSuffix<Db(!new)>(w: World<Db>, xs: seq<Command>, ys: seq<Command>)
    requires AllWellFormed(xs + ys) && AllKnown(xs + ys, w.known)
    ensures AllWellFormed(ys) && AllKnown(ys, w.known)
  {
    assert forall c <- ys :: c in xs + ys;
  }

  // ---------------------------------------------------------------- every step keeps the invariant

  lemma SameLiveGood<Db(!new)>(w: World<Db>, s: State, m: Manifest, n: Manifest)
    requires GoodIn(w, s, m) && SameLive(m, n)
    ensures GoodIn(w, s, n)
  {
  }

  /** Changing files and records that `m` does not list changes nothing for `m`. */
  lemma GoodFrame<Db(!new)>(w: World<Db>, s: State, s': State, m: Manifest)
    requires GoodIn(w, s, m) && Unwritten(s') == Unwritten(s) && s'.fed == s.fed
    requires forall f <- m.incr :: f in s'.logs && s'.logs[f] == s.logs[f] &&
                                   Incr(f) in s'.disk && s'.disk[Incr(f)] == s.disk[Incr(f)]
    requires m.base.Some? ==> var b := m.base.value;
                              b in s'.bases && s'.bases[b] == s.bases[b] &&
                              Base(b) in s'.disk && s'.disk[Base(b)] == s.disk[Base(b)]
    ensures GoodIn(w, s', m)
  {
    FlatFrame(s.logs, s'.logs, m.incr);
    forall i | 0 <= i < |m.incr| ensures IncrAt(w, s'.disk, s'.logs, m.incr, i) {
      assert IncrAt(w, s.disk, s.logs, m.incr, i);
      assert m.incr[i] in m.incr;
    }
  }

  lemma {:induction false} FlatFrame(logs: map<nat, seq<Command>>, logs': map<nat, seq<Command>>, fs: seq<nat>)
    requires forall f <- fs :: f in logs && f in logs' && logs[f] == logs'[f]
    ensures Flat(logs, fs) == Flat(logs', fs)
  {
    if fs != [] { FlatFrame(logs, logs', fs[1..]); }
  }

  lemma SameFiles<Db(!new)>(w: World<Db>, s: State, s': State, m: Manifest)
    requires GoodIn(w, s, m) && Unwritten(s') == Unwritten(s)
    requires s'.fed == s.fed && s'.disk == s.disk && s'.logs == s.logs && s'.bases == s.bases
    ensures GoodIn(w, s', m)
  {
  }

  /** Bytes move between the buffer and the current file. */
  lemma GoodMove<Db(!new)>(w: World<Db>, s: State, s': State, m: Manifest)
    requires GoodIn(w, s, m) && WellShaped(m)
    requires s'.fed == s.fed && s'.logs == s.logs && s'.bases == s.bases
    requires var cur := Incr(Current(m));
             s'.disk.Keys == s.disk.Keys && (forall name :: name in s.disk && name != cur ==> s'.disk[name] == s.disk[name]) &&
             s'.disk[cur] + Unwritten(s') == s.disk[cur] + Unwritten(s)
    ensures GoodIn(w, s', m)
  {
    UpToLast(m);
    forall i | 0 <= i < |m.incr| ensures IncrAt(w, s'.disk, s'.logs, m.incr, i) {
      assert IncrAt(w, s.disk, s.logs, m.incr, i);
    }
  }

  /** More commands are fed to the current file. */
  lemma GoodExtend<Db(!new)>(w: World<Db>, s: State, s': State, m: Manifest, more: seq<Command>)
    requires w.Valid() && GoodIn(w, s, m) && WellShaped(m)
    requires var cur := Current(m);
             s'.disk == s.disk && s'.bases == s.bases && s'.fed == s.fed + more &&
             s'.logs == s.logs[cur := s.logs[cur] + more] && Pinned(w, s.logs[cur] + more) &&
             Unwritten(s') == Unwritten(s) + Concat(w.enc, more)
    ensures GoodIn(w, s', m)
  {
    var cur := Current(m);
    NotEarlier(m);
    IncrsExtend(w, s.disk, s.logs, Unwritten(s), m.incr, more);
    FlatExtend(s.logs, m.incr, more);
    SeqAssoc(BaseLog(s.bases, m), Flat(s.logs, m.incr), more);
  }

  lemma NotEarlier(m: Manifest)
    requires WellShaped(m)
    ensures Current(m) !in m.incr[..|m.incr| - 1]
  {
    UpToLast(m);
  }

  lemma IncrsExtend<Db(!new)>(w: World<Db>, disk: map<Name, Text>, logs: map<nat, seq<Command>>, un: Text, fs: seq<nat>,
                              more: seq<Command>)
    requires IncrsOk(w, disk, logs, un, fs) && fs[|fs| - 1] !in fs[..|fs| - 1] && Pinned(w, logs[fs[|fs| - 1]] + more)
    ensures var cur := fs[|fs| - 1];
            IncrsOk(w, disk, logs[cur := logs[cur] + more], un + Concat(w.enc, more), fs)
  {
    var cur := fs[|fs| - 1];
    ConcatAppend(w.enc, logs[cur], more);
    SeqAssoc(disk[Incr(cur)], un, Concat(w.enc, more));
    var logs' := logs[cur := logs[cur] + more];
    forall i | 0 <= i < |fs| ensures IncrAt(w, disk, logs', fs, i) {
      assert IncrAt(w, disk, logs, fs, i);
      if i < |fs| - 1 { assert fs[..|fs| - 1][i] == fs[i]; }
    }
  }

  lemma FlatExtend(logs: map<nat, seq<Command>>, fs: seq<nat>, more: seq<Command>)
    requires fs != [] && (forall f <- fs :: f in logs) && fs[|fs| - 1] !in fs[..|fs| - 1]
    ensures var cur := fs[|fs| - 1];
            Flat(logs[cur := logs[cur] + more], fs) == Flat(logs, fs) + more
  {
    var front, cur := fs[..|fs| - 1], fs[|fs| - 1];
    var logs' := logs[cur := logs[cur] + more];
    assert fs == front + [cur];
    assert forall f <- front :: f in fs;
    FlatFrame(logs, logs', front);
    FlatLast(logs, front, cur);
    FlatLast(logs', front, cur);
    SeqAssoc(Flat(logs, front), logs[cur], more);
  }

  lemma FlatLast(logs: map<nat, seq<Command>>, front: seq<nat>, f: nat)
    requires (forall g <- front :: g in logs) && f in logs
    ensures Flat(logs, front + [f]) == Flat(logs, front) + logs[f]
  {
    FlatAppend(logs, front, [f]);
    assert [f][1..] == [];
    assert logs[f] + [] == logs[f];
  }

  /** A new, empty INCR file is added while nothing is buffered and no transaction is open. */
  lemma GoodNewIncr<Db(!new)>(w: World<Db>, s: State, s': State, m: Manifest)
    requires GoodIn(w, s, m) && WellShaped(m) && Unwritten(s) == Unwritten(s') == "" && Replay(s.fed).queue.None?
    requires var f := m.incrSeq + 1;
             s'.disk == s.disk[Incr(f) := ""] && s'.logs == s.logs[f := []] && s'.bases == s.bases && s'.fed == s.fed
    ensures GoodIn(w, s', NewIncr(m)) && GoodIn(w, s', m)
  {
    var f := m.incrSeq + 1;
    NewIncrShape(m);
    GoodFrame(w, s, s', m);
    GoodAdded(w, s', m, f);
  }

  lemma GoodAdded<Db(!new)>(w: World<Db>, s: State, m: Manifest, f: nat)
    requires GoodIn(w, s, m) && Unwritten(s) == "" && Replay(s.fed).queue.None? && f == m.incrSeq + 1 && f !in m.incr
    requires f in s.logs && s.logs[f] == [] && Incr(f) in s.disk && s.disk[Incr(f)] == ""
    ensures GoodIn(w, s, NewIncr(m))
  {
    QuietCurrent(w, s, m);
    IncrsNew(w, s.disk, s.logs, m.incr, f);
    FlatLast(s.logs, m.incr, f);
    assert Flat(s.logs, m.incr) + [] == Flat(s.logs, m.incr);
  }

  lemma QuietCurrent<Db(!new)>(w: World<Db>, s: State, m: Manifest)
    requires GoodIn(w, s, m) && Replay(s.fed).queue.None?
    ensures Replay(s.logs[Current(m)]).queue.None?
  {
    EarlierSplits(w, s, m);
    ReplayContinues(Earlier(s, m), s.logs[Current(m)]);
  }

  lemma IncrsNew<Db(!new)>(w: World<Db>, disk: map<Name, Text>, logs: map<nat, seq<Command>>, fs: seq<nat>, f: nat)
    requires IncrsOk(w, disk, logs, "", fs) && Replay(logs[fs[|fs| - 1]]).queue.None?
    requires f in logs && logs[f] == [] && Incr(f) in disk && disk[Incr(f)] == ""
    ensures IncrsOk(w, disk, logs, "", fs + [f])
  {
    var cur, gs := fs[|fs| - 1], fs + [f];
    assert disk[Incr(cur)] + "" == disk[Incr(cur)];
    forall i | 0 <= i < |gs| ensures IncrAt(w, disk, logs, gs, i) {
      if i < |fs| { assert IncrAt(w, disk, logs, fs, i); }
    }
  }

  /** The rewritten BASE and the current INCR file stand for the whole log. */
  lemma GoodRewrite<Db(!new)>(w: World<Db>, s: State, s': State, m: Manifest, snap: seq<Command>)
    requires GoodIn(w, s, m) && WellShaped(m) && s.fed == snap + s.logs[Current(m)] && Replay(snap).queue.None?
    requires s'.fed == s.fed && s'.logs == s.logs && Unwritten(s') == Unwritten(s)
    requires var b := m.baseSeq + 1;
             s'.bases == s.bases[b := snap] && Base(b) in s'.disk && w.loadBase(s'.disk[Base(b)]) == Some(Meaning(w, snap)) &&
             (forall name :: name in s.disk && name != Base(b) && name != TempBase ==> name in s'.disk && s'.disk[name] == s.disk[name])
    ensures GoodIn(w, s', MarkIncrAsHistory(NewBase(m))) && GoodIn(w, s', m)
  {
    RewriteShape(m);
    GoodFrame(w, s, s', m);
    var cur := Current(m);
    FlatLast(s.logs, [], cur);
    assert IncrAt(w, s.disk, s.logs, m.incr, |m.incr| - 1);
    assert [] + [cur] == [cur] && [] + s.logs[cur] == s.logs[cur];
  }

  lemma FedKeeps<Db(!new)>(w: World<Db>, fed: seq<Command>, c: Command)
    requires FedOk(w, fed) && WellFormed(c) && w.known(c)
    ensures FedOk(w, fed + [c])
  {
  }

  /** Everything `feedAppendOnlyFile` appends is pinned, and a database once selected stays selected. */
  lemma FeedIsPinned<Db(!new)>(w: World<Db>, s: State, dictid: int, argv: Command)
    requires w.Valid() && Inv(w, s) && Propagates(w, dictid, argv)
    ensures var log, more := s.logs[Current(s.mem)], Fed(s.selected, dictid, argv);
            Pinned(w, log + more) && FedOk(w, s.fed + more) && (dictid != -1 ==> HasSelect(log + more)) &&
            (HasSelect(log) ==> HasSelect(log + more))
  {
    assert IncrAt(w, s.disk, s.logs, s.mem.incr, |s.mem.incr| - 1);
    MorePinned(w, s.logs[Current(s.mem)], s.selected, dictid, argv);
    MoreFed(w, s.fed, s.selected, dictid, argv);
  }

  lemma MoreFed<Db(!new)>(w: World<Db>, fed: seq<Command>, selected: int, dictid: int, argv: Command)
    requires w.Valid() && FedOk(w, fed) && Propagates(w, dictid, argv)
    ensures FedOk(w, fed + Fed(selected, dictid, argv))
  {
    if dictid != -1 && dictid != selected {
      var sel := Select(dictid);
      SelectIsSelect(dictid);
      FedKeeps(w, fed, sel);
      FedKeeps(w, fed + [sel], argv);
      SeqAssoc(fed, [sel], [argv]);
    } else {
      assert [] + [argv] == [argv];
      FedKeeps(w, fed, argv);
    }
  }

  lemma SelectedIsPinned<Db(!new)>(w: World<Db>, log: seq<Command>, sel: Command, argv: Command)
    requires Pinned(w, log) && IsSelect(sel)
    ensures Pinned(w, log + ([sel] + [argv])) && HasSelect(log + ([sel] + [argv]))
  {
    PinnedSnoc(w, log, sel);
    assert (log + [sel])[|log|] == sel;
    PinnedSnoc(w, log + [sel], argv);
    SeqAssoc(log, [sel], [argv]);
    SelectStays(log + [sel], [argv]);
  }

  lemma SelectStays(xs: seq<Command>, ys: seq<Command>)
    ensures HasSelect(xs) ==> HasSelect(xs + ys)
  {
    if HasSelect(xs) {
      var j :| 0 <= j < |xs| && IsSelect(xs[j]);
      assert (xs + ys)[j] == xs[j];
    }
  }

  lemma KeepFeed<Db(!new)>(w: World<Db>, s: State, s': State, dictid: int, argv: Command)
    requires w.Valid() && Inv(w, s) && Feed(w, s, s', dictid, argv)
    ensures Inv(w, s')
  {
    var more := Fed(s.selected, dictid, argv);
    FeedIsPinned(w, s, dictid, argv);
    GoodExtend(w, s, s', s.mem, more);
    SameLiveGood(w, s', s.mem, s.onDisk);
    if !s.child.NoChild? {
      SeqAssoc(s.child.snapshot, s.logs[Current(s.mem)], more);
    }
    FeedIsLive(w, s, s', dictid, argv);
  }

  lemma FeedIsLive<Db(!new)>(w: World<Db>, s: State, s': State, dictid: int, argv: Command)
    requires w.Valid() && LiveOk(w, s) && Feed(w, s, s', dictid, argv)
    ensures LiveOk(w, s')
  {
    var since, more := Since(s), Fed(s.selected, dictid, argv);
    MorePinned(w, since, s.selected, dictid, argv);
    assert Since(s') == since + more;
    if !s.child.NoChild? { assert s'.fed[..|s.child.snapshot|] == s.fed[..|s.child.snapshot|]; }
  }

  /** What `feedAppendOnlyFile` appends keeps a log pinned, and a database once selected stays selected. */
  lemma MorePinned<Db(!new)>(w: World<Db>, log: seq<Command>, selected: int, dictid: int, argv: Command)
    requires w.Valid() && Propagates(w, dictid, argv) && Pinned(w, log) && (selected != -1 ==> HasSelect(log))
    ensures var more := Fed(selected, dictid, argv);
            Pinned(w, log + more) && (dictid != -1 ==> HasSelect(log + more)) && (HasSelect(log) ==> HasSelect(log + more))
  {
    if dictid != -1 && dictid != selected {
      SelectIsSelect(dictid);
      SelectedIsPinned(w, log, Select(dictid), argv);
    } else {
      assert [] + [argv] == [argv];
      PinnedSnoc(w, log, argv);
      SelectStays(log, [argv]);
    }
  }

  /** Unless the process loaded an open transaction, what is in memory is what the log means. */
  lemma LiveIsMeaning<Db(!new)>(w: World<Db>, loaded: seq<Command>, log: seq<Command>)
    requires w.Valid() && loaded <= log && Replay(loaded).queue.None? && Pinned(w, log[|loaded|..])
    ensures InMemory(w, loaded, log) == Meaning(w, log)
  {
    SplitMeaning(w, loaded, log[|loaded|..]);
    assert loaded + log[|loaded|..] == log;
  }

  lemma MovedBytes(file: Text, buf: Text, n: nat)
    requires n <= |buf|
    ensures file + buf[..n] + buf[n..] == file + buf && (file + buf[..n])[|file|..] == buf[..n]
  {
    SeqAssoc(file, buf[..n], buf[n..]);
    assert buf[..n] + buf[n..] == buf;
  }

  lemma KeepWrite<Db(!new)>(w: World<Db>, s: State, s': State, n: nat)
    requires w.Valid() && Inv(w, s) && Write(s, s', n)
    ensures Inv(w, s')
  {
    MovedBytes(s.disk[Incr(Current(s.mem))], s.buf, n);
    GoodMove(w, s, s', s.mem);
    SameLiveGood(w, s', s.mem, s.onDisk);
  }

  lemma KeepTrimBuffer<Db(!new)>(w: World<Db>, s: State, s': State)
    requires w.Valid() && Inv(w, s) && TrimBuffer(s, s')
    ensures Inv(w, s')
  {
    GoodFrame(w, s, s', s.mem);
    SameLiveGood(w, s', s.mem, s.onDisk);
  }

  lemma KeepUndoWrite<Db(!new)>(w: World<Db>, s: State, s': State)
    requires w.Valid() && Inv(w, s) && UndoWrite(s, s')
    ensures Inv(w, s')
  {
    var n, file := s.pc.n, s.disk[Incr(Current(s.mem))];
    assert file == file[..|file| - n] + s.buf[..n];
    assert s.buf == s.buf[..n] + s.buf[n..];
    GoodMove(w, s, s', s.mem);
    SameLiveGood(w, s', s.mem, s.onDisk);
  }

  lemma KeepOpenIncr<Db(!new)>(w: World<Db>, s: State, s': State)
    requires w.Valid() && Inv(w, s) && OpenIncr(s, s')
    ensures Inv(w, s')
  {
    ReplayContinues(s.loaded, Since(s));
    assert s.loaded + Since(s) == s.fed;
    GoodNewIncr(w, s, s', s.mem);
    SameLiveGood(w, s', s.mem, s.onDisk);
  }

  lemma KeepPersistIncr<Db(!new)>(w: World<Db>, s: State, s': State, ok: bool)
    requires w.Valid() && Inv(w, s) && PersistIncr(s, s', ok)
    ensures Inv(w, s')
  {
    NewIncrShape(s.mem);
    SameFiles(w, s, s', s.mem);
    if ok { SameFiles(w, s, s', s.pc.next); } else { SameFiles(w, s, s', s.onDisk); }
  }

  lemma KeepSwitchFd<Db(!new)>(w: World<Db>, s: State, s': State)
    requires w.Valid() && Inv(w, s) && SwitchFd(s, s')
    ensures Inv(w, s')
  {
  }

  lemma KeepFork<Db(!new)>(w: World<Db>, s: State, s': State, ok: bool)
    requires w.Valid() && Inv(w, s) && Fork(s, s', ok)
    ensures Inv(w, s')
  {
    assert s.fed + [] == s.fed && s.fed[..|s.fed|] == s.fed;
  }

  lemma KeepChildWrites<Db(!new)>(w: World<Db>, s: State, s': State, text: Text)
    requires w.Valid() && Inv(w, s) && ChildWrites(s, s', text)
    ensures Inv(w, s')
  {
    GoodFrame(w, s, s', s.mem);
    GoodFrame(w, s, s', s.onDisk);
  }

  lemma KeepChildExits<Db(!new)>(w: World<Db>, s: State, s': State, ok: bool)
    requires w.Valid() && Inv(w, s) && ChildExits(w, s, s', ok)
    ensures Inv(w, s')
  {
    SnapshotIsLive(w, s);
  }

  /** The dataset the child was forked with is what the log meant then. */
  lemma SnapshotIsLive<Db(!new)>(w: World<Db>, s: State)
    requires w.Valid() && LiveOk(w, s) && !s.child.NoChild?
    ensures |s.loaded| <= |s.child.snapshot| && InMemory(w, s.loaded, s.child.snapshot) == Meaning(w, s.child.snapshot)
  {
    var snap, n := s.child.snapshot, |s.loaded|;
    PinnedPrefix(w, Since(s), |snap| - n);
    assert Since(s)[..|snap| - n] == snap[n..];
    assert s.loaded <= snap;
    LiveIsMeaning(w, s.loaded, snap);
  }

  lemma KeepRenameBase<Db(!new)>(w: World<Db>, s: State, s': State, ok: bool)
    requires w.Valid() && Inv(w, s) && RenameBase(s, s', ok)
    ensures Inv(w, s')
  {
    if ok { KeepNewBase(w, s, s'); } else { KeepDropTemp(w, s, s'); }
  }

  lemma KeepNewBase<Db(!new)>(w: World<Db>, s: State, s': State)
    requires w.Valid() && Inv(w, s) && RenameBase(s, s', true)
    ensures Inv(w, s')
  {
    RewrittenIsGood(w, s, s');
    SameLiveGood(w, s', s.mem, s.onDisk);
  }

  lemma RewrittenIsGood<Db(!new)>(w: World<Db>, s: State, s': State)
    requires w.Valid() && RenameBase(s, s', true) && WellShaped(s.mem) && GoodIn(w, s, s.mem) && ChildOk(w, s)
    ensures GoodIn(w, s', s.mem) && GoodIn(w, s', MarkIncrAsHistory(NewBase(s.mem)))
  {
    GoodRewrite(w, s, s', s.mem, s.child.snapshot);
  }

  lemma KeepDropTemp<Db(!new)>(w: World<Db>, s: State, s': State)
    requires w.Valid() && Inv(w, s) && RenameBase(s, s', false)
    ensures Inv(w, s')
  {
    GoodFrame(w, s, s', s.mem);
    SameLiveGood(w, s', s.mem, s.onDisk);
  }

  lemma KeepPersistBase<Db(!new)>(w: World<Db>, s: State, s': State, ok: bool)
    requires w.Valid() && Inv(w, s) && PersistBase(s, s', ok)
    ensures Inv(w, s')
  {
    RewriteShape(s.mem);
    if ok { SameFiles(w, s, s', s.mem); } else { KeepDropBase(w, s, s'); }
  }

  /** The manifest could not be persisted and the new BASE file is unlinked. */
  lemma KeepDropBase<Db(!new)>(w: World<Db>, s: State, s': State)
    requires w.Valid() && Inv(w, s) && PersistBase(s, s', false)
    ensures Inv(w, s')
  {
    RewriteShape(s.mem);
    GoodFrame(w, s, s', s.mem);
    SameLiveGood(w, s', s.mem, s.onDisk);
  }

  lemma KeepAdoptManifest<Db(!new)>(w: World<Db>, s: State, s': State, gc: bool)
    requires w.Valid() && Inv(w, s) && AdoptManifest(s, s', gc)
    ensures Inv(w, s')
  {
    RewriteShape(s.mem);
  }

  lemma KeepDeleteHistory<Db(!new)>(w: World<Db>, s: State, s': State)
    requires w.Valid() && Inv(w, s) && DeleteHistory(s, s')
    ensures Inv(w, s')
  {
    HistoryIsNotLive(s.mem, s.mem.history[0]);
    GoodFrame(w, s, s', s.mem);
    SameLiveGood(w, s', s.mem, s'.mem);
    SameLiveGood(w, s', s.mem, s.onDisk);
    forall h <- s'.mem.history ensures Retired(s'.mem, h) { assert Retired(s.mem, h); }
  }

  lemma KeepPersistHistory<Db(!new)>(w: World<Db>, s: State, s': State, ok: bool)
    requires w.Valid() && Inv(w, s) && PersistHistory(s, s', ok)
    ensures Inv(w, s')
  {
  }

  // ---------------------------------------------------------------- crash and restart

  lemma {:induction false} LastMultiAppend(xs: seq<Command>, ys: seq<Command>)
    requires LastMulti(ys) < |ys| && IsMulti(ys[LastMulti(ys)])
    ensures LastMulti(xs + ys) == |xs| + LastMulti(ys)
    decreases |ys|
  {
    var front, c := ys[..|ys| - 1], ys[|ys| - 1];
    assert (xs + ys)[..|xs + ys| - 1] == xs + front;
    assert (xs + ys)[|xs + ys| - 1] == c;
    if !IsMulti(c) {
      LastMultiAppend(xs, front);
    }
  }

  /** The loader truncates the last file to the commands that survive. */
  lemma TruncatedFile<Db(!new)>(w: World<Db>, file: Text, un: Text, log: seq<Command>)
    requires w.Valid() && AllWellFormed(log) && AllKnown(log, w.known) && file + un == Concat(w.enc, log)
    ensures var k := Complete(w.enc, log, |file|);
            Load(w.read, file, Lenient, w.known).file ==
            Concat(w.enc, log[..Kept(log, k, |file| == |Concat(w.enc, log[..k])|)])
  {
    assert Concat(w.enc, log)[..|file|] == file;
    if file == "" {
      NothingComplete(w.enc, w.read, log);
      MeaningOfNothing(w);
      assert log[..0] == [];
    } else {
      LoadCutLog(w.enc, w.read, log, |file|, w.known);
    }
  }

  /** What survives a crash, in terms of the file being written. */
  lemma SurvivorsSplit<Db(!new)>(w: World<Db>, s: State, m: Manifest)
    requires w.Valid() && GoodIn(w, s, m)
    ensures var e, log, file := Earlier(s, m), s.logs[Current(m)], s.disk[Incr(Current(m))];
            var k := Complete(w.enc, log, |file|);
            Survivors(w, s) == |e| + Kept(log, k, |file| == |Concat(w.enc, log[..k])|)
  {
    DurableSplits(w, s, m);
    EarlierSplits(w, s, m);
    var e, log := Earlier(s, m), s.logs[Current(m)];
    var k := Complete(w.enc, log, |s.disk[Incr(Current(m))]|);
    ConcatAppend(w.enc, e, log[..k]);
    OpenIn(e, log[..k]);
  }

  /** After a closed log, the next one decides what is open and since when. */
  lemma OpenIn(xs: seq<Command>, ys: seq<Command>)
    requires Replay(xs).queue.None?
    ensures Replay(xs + ys).queue == Replay(ys).queue
    ensures Replay(ys).queue.Some? ==> LastMulti(xs + ys) == |xs| + LastMulti(ys)
  {
    ReplayContinues(xs, ys);
    if Replay(ys).queue.Some? {
      OpenSinceLastMulti(ys);
      LastMultiAppend(xs, ys);
    }
  }

  lemma FedPrefix<Db(!new)>(w: World<Db>, fed: seq<Command>, k: nat)
    requires FedOk(w, fed) && k <= |fed|
    ensures FedOk(w, fed[..k])
  {
    assert forall c <- fed[..k] :: c in fed;
  }

  /** The current file is cut back to a prefix of its log and the buffer is dropped. */
  lemma GoodCut<Db(!new)>(w: World<Db>, s: State, s': State, m: Manifest, k: nat)
    requires GoodIn(w, s, m) && WellShaped(m) && k <= |s.logs[Current(m)]| && Unwritten(s') == ""
    requires var cur, log := Current(m), s.logs[Current(m)];
             s'.disk == s.disk[Incr(cur) := Concat(w.enc, log[..k])] && s'.bases == s.bases &&
             s'.logs == s.logs[cur := log[..k]] && s'.fed == Earlier(s, m) + log[..k]
    ensures GoodIn(w, s', m)
  {
    var front, cur, log := m.incr[..|m.incr| - 1], Current(m), s.logs[Current(m)];
    NotEarlier(m);
    IncrsCut(w, s.disk, s.logs, Unwritten(s), m.incr, k);
    FlatCut(s.logs, m.incr, k);
    SeqAssoc(BaseLog(s.bases, m), Flat(s.logs, front), log[..k]);
  }

  lemma IncrsCut<Db(!new)>(w: World<Db>, disk: map<Name, Text>, logs: map<nat, seq<Command>>, un: Text, fs: seq<nat>, k: nat)
    requires IncrsOk(w, disk, logs, un, fs) && fs[|fs| - 1] !in fs[..|fs| - 1] && k <= |logs[fs[|fs| - 1]]|
    ensures var cur := fs[|fs| - 1];
            IncrsOk(w, disk[Incr(cur) := Concat(w.enc, logs[cur][..k])], logs[cur := logs[cur][..k]], "", fs)
  {
    var cur := fs[|fs| - 1];
    var disk', logs' := disk[Incr(cur) := Concat(w.enc, logs[cur][..k])], logs[cur := logs[cur][..k]];
    assert Concat(w.enc, logs[cur][..k]) + "" == Concat(w.enc, logs[cur][..k]);
    forall i | 0 <= i < |fs| ensures IncrAt(w, disk', logs', fs, i) {
      assert IncrAt(w, disk, logs, fs, i);
      if i < |fs| - 1 { assert fs[..|fs| - 1][i] == fs[i]; } else { PinnedPrefix(w, logs[cur], k); }
    }
  }

  lemma FlatCut(logs: map<nat, seq<Command>>, fs: seq<nat>, k: nat)
    requires fs != [] && (forall f <- fs :: f in logs) && fs[|fs| - 1] !in fs[..|fs| - 1] && k <= |logs[fs[|fs| - 1]]|
    ensures var cur := fs[|fs| - 1];
            Flat(logs[cur := logs[cur][..k]], fs) == Flat(logs, fs[..|fs| - 1]) + logs[cur][..k]
  {
    var front, cur := fs[..|fs| - 1], fs[|fs| - 1];
    var logs' := logs[cur := logs[cur][..k]];
    assert fs == front + [cur];
    assert forall f <- front :: f in fs;
    FlatFrame(logs, logs', front);
    FlatLast(logs', front, cur);
  }

  lemma KeepCrashAndRestart<Db(!new)>(w: World<Db>, s: State, s': State)
    requires w.Valid() && Inv(w, s) && CrashAndRestart(w, s, s')
    ensures Inv(w, s')
  {
    var k := RestartCuts(w, s, s');
    RestartKeeps(w, s, s', k);
  }

  ghost predicate Restarted(s: State, s': State) {
    s'.onDisk == s.onDisk == s'.mem && s'.bases == s.bases && s'.selected == -1 && s'.pc == Idle && s'.child == NoChild && Unwritten(s') == "" && s'.loaded == s'.fed
  }

  lemma RestartKeeps<Db(!new)>(w: World<Db>, s: State, s': State, k: nat)
    requires w.Valid() && FedOk(w, s.fed) && WellShaped(s.onDisk) && GoodIn(w, s, s.onDisk) && Restarted(s, s')
    requires var e, cur, log := Earlier(s, s.onDisk), Current(s.onDisk), s.logs[Current(s.onDisk)];
             k <= |log| && |e| + k <= |s.fed| && s'.disk == s.disk[Incr(cur) := Concat(w.enc, log[..k])] &&
             s'.logs == s.logs[cur := log[..k]] && s'.fed == s.fed[..|e| + k] == e + log[..k]
    ensures Inv(w, s')
  {
    FedPrefix(w, s.fed, |Earlier(s, s.onDisk)| + k);
    assert Since(s') == [];
    GoodCut(w, s, s', s.onDisk, k);
  }

  /** A restart cuts the current file, its log and the history at the same command. */
  lemma RestartCuts<Db(!new)>(w: World<Db>, s: State, s': State) returns (k: nat)
    requires w.Valid() && GoodIn(w, s, s.onDisk) && FedOk(w, s.fed) && CrashAndRestart(w, s, s')
    ensures var e, cur, log := Earlier(s, s.onDisk), Current(s.onDisk), s.logs[Current(s.onDisk)];
            k <= |log| && |e| + k <= |s.fed| && s'.disk == s.disk[Incr(cur) := Concat(w.enc, log[..k])] &&
            s'.logs == s.logs[cur := log[..k]] && s'.fed == s.fed[..|e| + k] == e + log[..k]
    ensures Restarted(s, s')
  {
    var m, f := s.onDisk, Current(s.onDisk);
    var e, log, file := Earlier(s, m), s.logs[f], s.disk[Incr(f)];
    EarlierSplits(w, s, m);
    FedSuffix(w, e, log);
    TruncatedFile(w, file, Unwritten(s), log);
    SurvivorsSplit(w, s, m);
    k := Survivors(w, s) - |e|;
    assert s.fed[..|e| + k] == e + log[..k];
  }

  /**
   * Why persisting the manifest must be all or nothing: were the rename done but an error reported (a failed
   * directory fsync), the handler would unlink the BASE file that the manifest on disk now names.
   */
  lemma HalfPersistedBaseIsLost<Db(!new)>(w: World<Db>, s: State)
    requires w.Valid() && Inv(w, s) && s.pc.Renamed?
    ensures LoadAll(w, s.disk - {Base(s.pc.next.baseSeq)}, s.pc.next) == None
  {
    RewriteShape(s.mem);
  }

  // ---------------------------------------------------------------- main results

  lemma KeepStep<Db(!new)>(w: World<Db>, s: State, s': State)
    requires w.Valid() && Inv(w, s) && Step(w, s, s')
    ensures Inv(w, s')
  {
    if dictid, argv :| Feed(w, s, s', dictid, argv) { KeepFeed(w, s, s', dictid, argv); }
    else if n :| Write(s, s', n) { KeepWrite(w, s, s', n); }
    else if TrimBuffer(s, s') { KeepTrimBuffer(w, s, s'); }
    else if UndoWrite(s, s') { KeepUndoWrite(w, s, s'); }
    else if OpenIncr(s, s') { KeepOpenIncr(w, s, s'); }
    else if ok :| PersistIncr(s, s', ok) { KeepPersistIncr(w, s, s', ok); }
    else if SwitchFd(s, s') { KeepSwitchFd(w, s, s'); }
    else if ok :| Fork(s, s', ok) { KeepFork(w, s, s', ok); }
    else if text :| ChildWrites(s, s', text) { KeepChildWrites(w, s, s', text); }
    else if ok :| ChildExits(w, s, s', ok) { KeepChildExits(w, s, s', ok); }
    else if ok :| RenameBase(s, s', ok) { KeepRenameBase(w, s, s', ok); }
    else if ok :| PersistBase(s, s', ok) { KeepPersistBase(w, s, s', ok); }
    else if gc :| AdoptManifest(s, s', gc) { KeepAdoptManifest(w, s, s', gc); }
    else if DeleteHistory(s, s') { KeepDeleteHistory(w, s, s'); }
    else if ok :| PersistHistory(s, s', ok) { KeepPersistHistory(w, s, s', ok); }
    else { KeepCrashAndRestart(w, s, s'); }
  }

  lemma InitOk<Db(!new)>(w: World<Db>, s: State)
    requires w.Valid() && Init(w, s)
    ensures Inv(w, s)
  {
    MeaningOfNothing(w);
    assert s.mem.incr[..0] == [];
    assert Flat(s.logs, [1]) == [] by { assert [1][1..] == []; }
  }

  lemma {:induction false} RunOk<Db(!new)>(w: World<Db>, ss: seq<State>, i: nat)
    requires w.Valid() && Run(w, ss) && i < |ss|
    ensures Inv(w, ss[i])
  {
    if i == 0 {
      InitOk(w, ss[0]);
    } else {
      RunOk(w, ss, i - 1);
      KeepStep(w, ss[i - 1], ss[i]);
    }
  }

  /**
   * Crash safety. In every state of every run, what is on disk at that moment loads, and to exactly the
   * dataset of the commands that are completely written; when nothing is buffered, to everything fed.
   */
  lemma CrashSafe<Db(!new)>(w: World<Db>, ss: seq<State>, i: nat)
    requires w.Valid() && Run(w, ss) && i < |ss|
    ensures Durable(w, ss[i]) <= |ss[i].fed|
    ensures LoadAll(w, ss[i].disk, ss[i].onDisk) == Some(Meaning(w, ss[i].fed[..Durable(w, ss[i])]))
    ensures Unwritten(ss[i]) == "" ==> Durable(w, ss[i]) == |ss[i].fed|
  {
    var s := ss[i];
    RunOk(w, ss, i);
    GoodManifestRecovers(w, s, s.onDisk);
    if Unwritten(s) == "" { AllDurable(w, s); }
  }
}
