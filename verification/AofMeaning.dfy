/**
 * What a log means to the dataset. Every file is replayed by a fresh fake client that starts on
 * database 0 (redis-stable/src/aof.c:1456-1476, 1544), so splitting a log over several files keeps
 * its meaning only because `feedAppendOnlyFile` re-issues SELECT in each of them
 * (aof.c:1425-1432, 2608-2610).
 */
module AofMeaning {
  import opened Basics
  import opened Bytes
  import opened Resp
  import opened AofLoader

  /** The parts of the server that the log layer does not look into. */
  datatype World<!Db(!new)> = World(
    empty: Db,
    exec: (Db, nat, Command) -> Db,      // run one command on database number n
    global: Command -> bool,             // fed with dictid -1: the current database does not matter
    known: Command -> bool,              // command lookup succeeds
    loadBase: Text -> Option<Db>,        // RDB or AOF format
    enc: Command -> Text,
    read: Text -> Read<Record>)
  {
    ghost predicate Valid() {
      && Sound(enc, read)
      && loadBase("") == Some(empty)
      && (forall c :: IsMulti(c) || IsExec(c) ==> global(c))
      && (forall n: nat :: known(Select(n)))
      && (forall db, i: nat, j: nat, c :: global(c) ==> SameOnBoth(db, i, j, c))
    }

    ghost predicate SameOnBoth(db: Db, i: nat, j: nat, c: Command) {
      exec(db, i, c) == exec(db, j, c)
    }
  }

  const SELECT: Text := "select"

  function Select(n: nat): Command {
    ["SELECT", Decimal(n)]
  }

  predicate IsSelect(c: Command) {
    |c| == 2 && Lower(c[0]) == SELECT && Atoi(c[1]) >= 0
  }

  lemma SelectIsSelect(n: nat)
    ensures IsSelect(Select(n)) && Atoi(Select(n)[1]) == n && IsPlain(Select(n))
    ensures n <= LLONG_MAX ==> WellFormed(Select(n))
  {
    AtoiOfDecimal(n, "");
    assert Decimal(n) + "" == Decimal(n);
    assert Lower("SELECT") == SELECT;
    if n <= LLONG_MAX { LongLongDigits(n); }
  }

  /** The dataset after executing `cs` from database `cur`, and the database then current. */
  function RunAll<Db(!new)>(exec: (Db, nat, Command) -> Db, db: Db, cur: nat, cs: seq<Command>): (Db, nat)
    decreases |cs|
  {
    if cs == [] then (db, cur)
    else if IsSelect(cs[0]) then RunAll(exec, db, Atoi(cs[0][1]), cs[1..])
    else RunAll(exec, exec(db, cur, cs[0]), cur, cs[1..])
  }

  /** The dataset a single uninterrupted log stands for. */
  function Meaning<Db(!new)>(w: World<Db>, cs: seq<Command>): Db {
    RunAll(w.exec, w.empty, 0, Replay(cs).run).0
  }

  lemma {:induction false} RunAppend<Db(!new)>(exec: (Db, nat, Command) -> Db, db: Db, cur: nat, xs: seq<Command>, ys: seq<Command>)
    ensures var mid := RunAll(exec, db, cur, xs);
            RunAll(exec, db, cur, xs + ys) == RunAll(exec, mid.0, mid.1, ys)
    decreases |xs|
  {
    if xs == [] {
      assert xs + ys == ys;
    } else {
      assert (xs + ys)[1..] == xs[1..] + ys;
      if IsSelect(xs[0]) {
        RunAppend(exec, db, Atoi(xs[0][1]), xs[1..], ys);
      } else {
        RunAppend(exec, exec(db, cur, xs[0]), cur, xs[1..], ys);
      }
    }
  }

  // ---------------------------------------------------------------- replaying in pieces

  /** Every command that depends on the current database comes after some SELECT. */
  predicate Pinned<Db(!new)>(w: World<Db>, cs: seq<Command>) {
    forall k | 0 <= k < |cs| :: PinnedAt(w, cs, k)
  }

  predicate PinnedAt<Db(!new)>(w: World<Db>, cs: seq<Command>, k: nat)
    requires k < |cs|
  {
    !IsSelect(cs[k]) && !w.global(cs[k]) ==> HasSelect(cs[..k])
  }

  predicate HasSelect(cs: seq<Command>) {
    exists j | 0 <= j < |cs| :: IsSelect(cs[j])
  }

  lemma PinnedPrefix<Db(!new)>(w: World<Db>, cs: seq<Command>, k: nat)
    requires Pinned(w, cs) && k <= |cs|
    ensures Pinned(w, cs[..k])
  {
    forall i | 0 <= i < k ensures PinnedAt(w, cs[..k], i) {
      assert PinnedAt(w, cs, i);
      assert cs[..k][..i] == cs[..i];
      assert cs[..k][i] == cs[i];
    }
  }

  /** A pinned log has the same effect from every starting database. */
  lemma {:induction false} PinnedRun<Db(!new)>(w: World<Db>, db: Db, i: nat, j: nat, cs: seq<Command>)
    requires w.Valid() && Pinned(w, cs)
    ensures RunAll(w.exec, db, i, cs).0 == RunAll(w.exec, db, j, cs).0
    decreases |cs|
  {
    if cs != [] {
      var c := cs[0];
      assert cs[..0] == [];
      if !IsSelect(c) {
        assert PinnedAt(w, cs, 0);
        assert w.global(c) && w.SameOnBoth(db, i, j, c);
        PinnedTail(w, cs);
        PinnedRun(w, w.exec(db, i, c), i, j, cs[1..]);
      }
    }
  }

  lemma PinnedTail<Db(!new)>(w: World<Db>, cs: seq<Command>)
    requires Pinned(w, cs) && cs != [] && !IsSelect(cs[0])
    ensures Pinned(w, cs[1..])
  {
    var t := cs[1..];
    forall k | 0 <= k < |t| ensures PinnedAt(w, t, k) {
      assert t[k] == cs[k + 1];
      var n := k + 1;
      assert PinnedAt(w, cs, n);
      if HasSelect(cs[..n]) {
        var j :| 0 <= j < n && IsSelect(cs[..n][j]);
        assert t[..k][j - 1] == cs[j];
      }
    }
  }

  /** All the commands the client has seen, transaction markers aside. */
  function Seen(cl: Client): seq<Command> {
    cl.run + (if cl.queue.Some? then cl.queue.value else [])
  }

  /** What the client has executed of a pinned log is pinned. */
  lemma {:induction false} PinnedReplay<Db(!new)>(w: World<Db>, cs: seq<Command>)
    requires w.Valid() && Pinned(w, cs)
    ensures Pinned(w, Replay(cs).run) && Pinned(w, Seen(Replay(cs)))
    ensures HasSelect(cs) ==> HasSelect(Seen(Replay(cs)))
    decreases |cs|
  {
    if cs != [] {
      var front, c := cs[..|cs| - 1], cs[|cs| - 1];
      assert cs == front + [c];
      PinnedPrefix(w, cs, |front|);
      assert PinnedAt(w, cs, |front|);
      PinnedReplay(w, front);
      ReplaySnoc(front, c);
      var before, after := Seen(Replay(front)), Seen(Replay(cs));
      assert after == before || after == before + [c];
      if after == before + [c] {
        PinnedSnoc(w, before, c);
        if HasSelect(before) {
          var j :| 0 <= j < |before| && IsSelect(before[j]);
          assert after[j] == before[j];
        }
        if IsSelect(c) { assert after[|before|] == c; }
      }
      if HasSelect(cs) && !IsSelect(c) {
        var j :| 0 <= j < |cs| && IsSelect(cs[j]);
        assert front[j] == cs[j];
      }
      PinnedPrefix(w, after, |Replay(cs).run|);
      assert after[..|Replay(cs).run|] == Replay(cs).run;
    }
  }

  lemma PinnedSnoc<Db(!new)>(w: World<Db>, cs: seq<Command>, c: Command)
    requires Pinned(w, cs) && (IsSelect(c) || w.global(c) || HasSelect(cs))
    ensures Pinned(w, cs + [c])
  {
    var t := cs + [c];
    forall k | 0 <= k < |t| ensures PinnedAt(w, t, k) {
      if k < |cs| { assert PinnedAt(w, cs, k) && t[..k] == cs[..k]; } else { assert t[..k] == cs; }
    }
  }

  lemma ReplaySnoc(cs: seq<Command>, c: Command)
    ensures Replay(cs + [c]) == Process(Replay(cs), c)
  {
    OneMore(Fresh, cs, c);
  }

  /** A client without an open transaction continues like a fresh one. */
  lemma {:induction false} Continues(cl: Client, cs: seq<Command>)
    requires cl.queue.None?
    ensures ProcessAll(cl, cs).run == cl.run + Replay(cs).run && ProcessAll(cl, cs).queue == Replay(cs).queue
    decreases |cs|
  {
    if cs == [] {
      assert cl.run + [] == cl.run;
    } else {
      var front, c := cs[..|cs| - 1], cs[|cs| - 1];
      assert cs == front + [c];
      Continues(cl, front);
      OneMore(cl, front, c);
      OneMore(Fresh, front, c);
      var b := Replay(front);
      SeqAssoc(cl.run, b.run, [c]);
      if b.queue.Some? { SeqAssoc(cl.run, b.run, b.queue.value); }
    }
  }

  lemma OneMore(cl: Client, cs: seq<Command>, c: Command)
    ensures ProcessAll(cl, cs + [c]) == Process(ProcessAll(cl, cs), c)
  {
    ProcessAppend(cl, cs, [c]);
    assert [c][1..] == [];
    assert ProcessAll(ProcessAll(cl, cs), [c]) == ProcessAll(Process(ProcessAll(cl, cs), c), []);
  }

  lemma ReplayContinues(xs: seq<Command>, ys: seq<Command>)
    requires Replay(xs).queue.None?
    ensures Replay(xs + ys) == Client(Replay(xs).run + Replay(ys).run, Replay(ys).queue)
  {
    ProcessAppend(Fresh, xs, ys);
    Continues(Replay(xs), ys);
  }

  /**
   * Replaying a log in two files, the second from database 0, means the same as replaying it in one,
   * provided no transaction is open at the boundary and the second file is pinned.
   */
  lemma SplitMeaning<Db(!new)>(w: World<Db>, xs: seq<Command>, ys: seq<Command>)
    requires w.Valid() && Replay(xs).queue.None? && Pinned(w, ys)
    ensures Meaning(w, xs + ys) == RunAll(w.exec, Meaning(w, xs), 0, Replay(ys).run).0
  {
    ReplayContinues(xs, ys);
    var first, second := Replay(xs).run, Replay(ys).run;
    RunAppend(w.exec, w.empty, 0, first, second);
    PinnedReplay(w, ys);
    var mid := RunAll(w.exec, w.empty, 0, first);
    PinnedRun(w, mid.0, mid.1, 0, second);
  }
}
