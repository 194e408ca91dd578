/**
 * The protocol over a concrete server: the dataset and the commands of AofDataset, the RESP format, and BASE files in
 * AOF format written by the rewriter (redis-stable/src/aof.c:2425-2507, 2596-2664).
 */
module AofConcrete {
  import opened Basics
  import opened Bytes
  import opened Resp
  import opened AofLoader
  import opened AofMeaning
  import opened AofRewrite
  import opened AofDataset
  import opened AofManifest
  import opened AofProtocol
  import opened AofCrashSafety

  ghost function Redis<S(!new)>(sc: Scores<S>): World<Db<S>>
    requires Shrinks(ReadRecord)
  {
    World(map[], Runner(sc), (c: Command) => IsMulti(c) || IsExec(c), (c: Command) => true, (t: Text) => LoadBase(sc, t), Encode, ReadRecord)
  }

  /** This is a world that every result about the protocol is about. */
  lemma RedisIsValid<S(!new)>(sc: Scores<S>)
    ensures Shrinks(ReadRecord) && Redis(sc).Valid()
  {
    RespIsSound();
    var w := Redis(sc);
    forall db: Db<S>, i: nat, j: nat, c: Command | w.global(c) ensures w.SameOnBoth(db, i, j, c) {
      MarkerDoesNothing(sc, db, i, c);
      MarkerDoesNothing(sc, db, j, c);
    }
  }

  lemma MarkerDoesNothing<S(!new)>(sc: Scores<S>, db: Db<S>, n: nat, c: Command)
    requires IsMulti(c) || IsExec(c)
    ensures Exec(sc, db, n, c) == db
  {
    if |c| >= 2 && (IsWrite(c[0]) || c[0] == "PEXPIREAT") { NotSelect(c); }
  }

  /** The entries of the databases determine the dataset. */
  lemma HoldsUnique<S(!new)>(a: Db<S>, b: Db<S>, dbs: seq<seq<Entry<S>>>)
    requires Holds(a, dbs, |dbs|) && Holds(b, dbs, |dbs|)
    ensures a == b
  {
    HoldsWithin(a, b, dbs);
    HoldsWithin(b, a, dbs);
  }

  lemma HoldsWithin<S(!new)>(a: Db<S>, b: Db<S>, dbs: seq<seq<Entry<S>>>)
    requires Holds(a, dbs, |dbs|) && Holds(b, dbs, |dbs|)
    ensures forall p <- a :: p in b && b[p] == a[p]
  {
    forall p <- a ensures p in b && b[p] == a[p] {
      var i :| 0 <= i < |dbs[p.0]| && dbs[p.0][i].key == p.1;
      assert p == (p.0, dbs[p.0][i].key);
    }
  }

  /** The rewritten text of a dataset loads to that very dataset. */
  lemma RewriteIsExact<S(!new)>(sc: Scores<S>, dbs: seq<seq<Entry<S>>>, db: Db<S>)
    requires sc.Valid() && ValidDbs(dbs) && Holds(db, dbs, |dbs|)
    ensures Shrinks(ReadRecord) && Redis(sc).loadBase(EncodeAll(DatasetCommands(sc, dbs, 0))) == Some(db)
  {
    RewrittenBaseLoads(sc, dbs);
    var r := LoadBase(sc, EncodeAll(DatasetCommands(sc, dbs, 0)));
    HoldsUnique(r.value, db, dbs);
  }

  /**
   * The child of `rewriteAppendOnlyFileBackground`, with the dataset in memory when it was forked held in `dbs`: what the
   * rewriter writes lets it exit with success, so that step of the protocol asks for no more than the rewriter does.
   */
  method RewriteInChild<S(!new)>(sc: Scores<S>, dbs: seq<seq<Entry<S>>>, ghost s: State)
    returns (text: Text, ghost written: State, ghost exited: State)
    requires sc.Valid() && ValidDbs(dbs) && Shrinks(ReadRecord) && s.child.Running? && |s.loaded| <= |s.child.snapshot|
    requires Holds(InMemory(Redis(sc), s.loaded, s.child.snapshot), dbs, |dbs|)
    ensures ChildWrites(s, written, text) && ChildExits(Redis(sc), written, exited, true)
  {
    text := RewriteAppendOnlyFileRio(sc, dbs);
    written := s.(disk := s.disk[TempBase := text]);
    exited := written.(child := Exited(s.child.snapshot));
    RewriteIsExact(sc, dbs, InMemory(Redis(sc), s.loaded, s.child.snapshot));
  }

  /** Crash safety of this server. */
  lemma RedisIsCrashSafe<S(!new)>(sc: Scores<S>, ss: seq<State>, i: nat)
    requires Shrinks(ReadRecord) && Redis(sc).Valid() && Run(Redis(sc), ss) && i < |ss|
    ensures var w, s := Redis(sc), ss[i];
            Durable(w, s) <= |s.fed| && LoadAll(w, s.disk, s.onDisk) == Some(Meaning(w, s.fed[..Durable(w, s)])) &&
            (Unwritten(s) == "" ==> Durable(w, s) == |s.fed|)
  {
    CrashSafe(Redis(sc), ss, i);
  }
}
