/**
 * Restarts and transactions: what a crash inside a transaction means for the commands that follow
 * (redis-stable/src/aof.c:1702-1740, 1775-1898, 2596-2664).
 */
module AofRestart {
  import opened Basics
  import opened Bytes
  import opened Resp
  import opened AofLoader
  import opened AofRecovery
  import opened AofMeaning
  import opened AofManifest
  import opened AofProtocol
  import opened AofCrashSafety

  /** The transaction open at the crash survives it: it is torn, or only a nested MULTI is rolled back. */
  predicate StaysOpen<Db(!new)>(w: World<Db>, s: State) {
    var k := Durable(w, s);
    k <= |s.fed| && Replay(s.fed[..k]).queue.Some? && (TornTransaction(w, s) || LastMultiNested(s.fed[..k]))
  }

  /** After a restart nothing more has been executed, and a transaction is open exactly when it stayed open. */
  lemma RestartOpens<Db(!new)>(w: World<Db>, s: State)
    requires Durable(w, s) <= |s.fed|
    ensures Survivors(w, s) <= Durable(w, s)
    ensures var was, now := Replay(s.fed[..Durable(w, s)]), Replay(s.fed[..Survivors(w, s)]);
            now.run == was.run && (now.queue.Some? <==> StaysOpen(w, s))
  {
    var cs := s.fed[..Durable(w, s)];
    if Replay(cs).queue.Some? && !TornTransaction(w, s) {
      OpenSinceLastMulti(cs);
      assert cs[..LastMulti(cs)] == s.fed[..LastMulti(cs)];
    }
  }

  // ---------------------------------------------------------------- what an open transaction does to later commands

  predicate NoExec(cs: seq<Command>) {
    forall c <- cs :: !IsExec(c)
  }

  /** The position of the first EXEC, or the length. */
  function FirstExec(cs: seq<Command>): (i: nat)
    ensures i <= |cs| && NoExec(cs[..i]) && (i < |cs| ==> IsExec(cs[i]))
  {
    if cs == [] || IsExec(cs[0]) then 0
    else
      var i := FirstExec(cs[1..]);
      assert cs[..i + 1] == [cs[0]] + cs[1..][..i];
      i + 1
  }

  /**
   * What a client that has executed `run` and queued `q` executes of `more`: nothing before an EXEC; then the queue
   * and all that came before that EXEC, and the rest as it stands.
   */
  function AfterOpen(run: seq<Command>, q: seq<Command>, more: seq<Command>): seq<Command> {
    var i := FirstExec(more);
    if i == |more| then run else run + (q + more[..i]) + Replay(more[i + 1..]).run
  }

  lemma {:induction false} OpenQueues(cl: AofLoader.Client, cs: seq<Command>)
    requires cl.queue.Some? && NoExec(cs)
    ensures ProcessAll(cl, cs) == AofLoader.Client(cl.run, Some(cl.queue.value + cs))
    decreases |cs|
  {
    if cs == [] {
      assert cl.queue.value + [] == cl.queue.value;
    } else {
      assert cs[0] in cs && forall c <- cs[1..] :: c in cs;
      OpenQueues(Process(cl, cs[0]), cs[1..]);
      assert cl.queue.value + [cs[0]] + cs[1..] == cl.queue.value + cs;
    }
  }

  lemma OpenRuns(cl: AofLoader.Client, more: seq<Command>)
    requires cl.queue.Some?
    ensures ProcessAll(cl, more).run == AfterOpen(cl.run, cl.queue.value, more)
  {
    var i, q := FirstExec(more), cl.queue.value;
    if i == |more| {
      assert more[..i] == more;
      OpenQueues(cl, more);
    } else {
      var a, b := more[..i], more[i + 1..];
      OpenQueues(cl, a);
      OneMore(cl, a, more[i]);
      ProcessAppend(cl, a + [more[i]], b);
      assert more == a + [more[i]] + b;
      Continues(AofLoader.Client(cl.run + (q + a), None), b);
    }
  }

  /**
   * What a restart means for the commands fed after it, whatever they are. Once they are written, the next load
   * executes what was durable at the crash and then, if no transaction stayed open, what the restarted server itself
   * executed of them; if one did, nothing up to the next EXEC, and with it the commands of the old transaction too.
   */
  lemma FedAfterRestart<Db(!new)>(w: World<Db>, s: State, s': State, t: State, more: seq<Command>)
    requires w.Valid() && Inv(w, s) && CrashAndRestart(w, s, s')
    requires Inv(w, t) && Unwritten(t) == "" && t.fed == s'.fed + more
    ensures Durable(w, s) <= |s.fed| && (StaysOpen(w, s) <==> Replay(s'.fed).queue.Some?)
    ensures var was, open := Replay(s.fed[..Durable(w, s)]).run, Replay(s'.fed).queue;
            LoadAll(w, t.disk, t.onDisk) ==
            Some(RunAll(w.exec, w.empty, 0, if open.Some? then AfterOpen(was, open.value, more) else was + Replay(more).run).0)
  {
    DurableSplits(w, s, s.onDisk);
    RestartOpens(w, s);
    AfterRestart(Replay(s'.fed), more);
    ProcessAppend(Fresh, s'.fed, more);
    AllDurable(w, t);
    GoodManifestRecovers(w, t, t.onDisk);
    assert t.fed[..|t.fed|] == t.fed;
  }

  lemma AfterRestart(cl: AofLoader.Client, more: seq<Command>)
    ensures ProcessAll(cl, more).run == if cl.queue.Some? then AfterOpen(cl.run, cl.queue.value, more) else cl.run + Replay(more).run
  {
    if cl.queue.Some? { OpenRuns(cl, more); } else { Continues(cl, more); }
  }

  /** For plain commands: they are executed if and only if no transaction stayed open. */
  lemma PlainAfterRestart<Db(!new)>(w: World<Db>, s: State, s': State, more: seq<Command>)
    requires w.Valid() && Inv(w, s) && CrashAndRestart(w, s, s') && forall c <- more :: IsPlain(c)
    ensures Durable(w, s) <= |s.fed|
    ensures var was := Replay(s.fed[..Durable(w, s)]).run;
            ProcessAll(Replay(s'.fed), more).run == if StaysOpen(w, s) then was else was + more
  {
    DurableSplits(w, s, s.onDisk);
    RestartOpens(w, s);
    AfterRestart(Replay(s'.fed), more);
    PlainReplay(Fresh, more);
    forall i | 0 <= i < |more| ensures !IsExec(more[i]) { assert more[i] in more; }
    assert [] + more == more;
  }

  /** The log goes on to mean what the restarted server executes. */
  predicate AgreesOn(cl: AofLoader.Client, more: seq<Command>) {
    ProcessAll(cl, more).run == cl.run + Replay(more).run
  }

  /** The next load agrees with the restarted server on every continuation if and only if no transaction stayed open. */
  lemma AgreesExactly<Db(!new)>(w: World<Db>, s: State, s': State)
    requires w.Valid() && Inv(w, s) && CrashAndRestart(w, s, s')
    ensures (forall more: seq<Command> :: AgreesOn(Replay(s'.fed), more)) <==> !StaysOpen(w, s)
  {
    var cl := Replay(s'.fed);
    DurableSplits(w, s, s.onDisk);
    RestartOpens(w, s);
    if StaysOpen(w, s) {
      var c: Command := ["PING"];
      assert IsPlain(c) by { assert |Lower("PING")| == 4 && Lower("PING")[0] == 'p'; }
      PlainReplay(Fresh, [c]);
      OpenQueues(cl, [c]);
      assert !AgreesOn(cl, [c]) by { assert |cl.run + Replay([c]).run| == |cl.run| + 1; }
    } else {
      forall more: seq<Command> ensures AgreesOn(cl, more) { Continues(cl, more); }
    }
  }

  // ---------------------------------------------------------------- the live server

  /**
   * In every state of every run of a process that did not load an open transaction, with nothing buffered, the files
   * load to exactly the dataset in memory.
   */
  lemma LoadsWhatIsInMemory<Db(!new)>(w: World<Db>, ss: seq<State>, i: nat)
    requires w.Valid() && Run(w, ss) && i < |ss| && Unwritten(ss[i]) == "" && Replay(ss[i].loaded).queue.None?
    ensures |ss[i].loaded| <= |ss[i].fed|
    ensures LoadAll(w, ss[i].disk, ss[i].onDisk) == Some(InMemory(w, ss[i].loaded, ss[i].fed))
  {
    var s := ss[i];
    RunOk(w, ss, i);
    CrashSafe(w, ss, i);
    LiveIsMeaning(w, s.loaded, s.fed);
    assert s.fed[..|s.fed|] == s.fed;
  }

  /** A crash may come in any state. */
  lemma MayCrash<Db(!new)>(w: World<Db>, ss: seq<State>, i: nat) returns (s': State)
    requires w.Valid() && Run(w, ss) && i < |ss|
    ensures CrashAndRestart(w, ss[i], s') && Step(w, ss[i], s')
  {
    var s := ss[i];
    RunOk(w, ss, i);
    s' := CanRestart(w, s);
  }

  lemma CanRestart<Db(!new)>(w: World<Db>, s: State) returns (s': State)
    requires w.Valid() && Inv(w, s)
    ensures CrashAndRestart(w, s, s')
  {
    var f, kept := Current(s.onDisk), Survivors(w, s);
    EarlierSplits(w, s, s.onDisk);
    SurvivorsSplit(w, s, s.onDisk);
    s' := s.(disk := s.disk[Incr(f) := Load(w.read, s.disk[Incr(f)], Lenient, w.known).file], mem := s.onDisk, buf := "",
             selected := -1, pc := Idle, child := NoChild, fed := s.fed[..kept], loaded := s.fed[..kept],
             logs := s.logs[f := s.logs[f][..|s.logs[f]| - (|s.fed| - kept)]]);
  }

  // ---------------------------------------------------------------- a rewrite over an open transaction

  /** A file cut short is only accepted in the last place. */
  lemma {:induction false} CutBeforeLast<Db(!new)>(w: World<Db>, disk: map<Name, Text>, fs: seq<nat>, i: nat, db: Db)
    requires w.Valid() && i + 1 < |fs| && Incr(fs[i]) in disk && Load(w.read, disk[Incr(fs[i])], Lenient, w.known).status == AofTruncated
    ensures LoadIncrs(w, disk, fs, db) == None
    decreases i
  {
    if i > 0 && Incr(fs[0]) in disk {
      var r := Load(w.read, disk[Incr(fs[0])], Lenient, w.known);
      CutBeforeLast(w, disk, fs[1..], i - 1, RunAll(w.exec, db, 0, r.run).0);
    }
  }

  /**
   * Why a rewrite must start outside a transaction of the log, for every state: opening a new INCR file while one is
   * open, as a server that restarted from a torn transaction might, leaves files that do not load.
   */
  lemma RewriteOverOpenTransaction<Db(!new)>(w: World<Db>, s: State)
    requires w.Valid() && Inv(w, s) && Unwritten(s) == "" && Replay(s.fed).queue.Some?
    ensures LoadAll(w, s.disk[Incr(s.mem.incrSeq + 1) := ""], NewIncr(s.mem)) == None
  {
    var m, f := s.mem, s.mem.incrSeq + 1;
    var disk := s.disk[Incr(f) := ""];
    NewIncrShape(m);
    OpenFileIsCut(w, s);
    assert Incr(Current(m)) in disk && disk[Incr(Current(m))] == s.disk[Incr(Current(m))] != "";
    NeverLoads(w, disk, NewIncr(m), |m.incr| - 1);
  }

  /** The file being written ends in an open transaction. */
  lemma OpenFileIsCut<Db(!new)>(w: World<Db>, s: State)
    requires w.Valid() && GoodIn(w, s, s.mem) && FedOk(w, s.fed) && Unwritten(s) == "" && Replay(s.fed).queue.Some?
    ensures var file := s.disk[Incr(Current(s.mem))]; file != "" && Load(w.read, file, Lenient, w.known).status == AofTruncated
  {
    var e, log := Earlier(s, s.mem), s.logs[Current(s.mem)];
    EarlierSplits(w, s, s.mem);
    ReplayContinues(e, log);
    FedSuffix(w, e, log);
    assert s.disk[Incr(Current(s.mem))] + "" == s.disk[Incr(Current(s.mem))];
    WholeOpenLog(w, log);
  }

  lemma WholeOpenLog<Db(!new)>(w: World<Db>, log: seq<Command>)
    requires w.Valid() && AllWellFormed(log) && AllKnown(log, w.known) && Replay(log).queue.Some?
    ensures Concat(w.enc, log) != "" && Load(w.read, Concat(w.enc, log), Lenient, w.known).status == AofTruncated
  {
    var text := Concat(w.enc, log);
    assert log != [] && ReadsBack(w.enc, w.read, log[0], []);
    CompleteAppend(w.enc, log, [], 0);
    assert log + [] == log && log[..|log|] == log && text[..|text|] == text;
    LoadCutLog(w.enc, w.read, log, |text|, w.known);
  }

  lemma NeverLoads<Db(!new)>(w: World<Db>, disk: map<Name, Text>, m: Manifest, i: nat)
    requires w.Valid() && i + 1 < |m.incr| && Incr(m.incr[i]) in disk && disk[Incr(m.incr[i])] != ""
    requires Load(w.read, disk[Incr(m.incr[i])], Lenient, w.known).status == AofTruncated
    ensures LoadAll(w, disk, m) == None
  {
    forall db: Db ensures LoadIncrs(w, disk, m.incr, db) == None { CutBeforeLast(w, disk, m.incr, i, db); }
    assert m.incr[i] in m.incr;
  }
}
