/**
 * A rewritten BASE file loads to the dataset it was written from: `rewriteAppendOnlyFileRio` and
 * `rewriteObject` (redis-stable/src/aof.c:2389-2507) against the loader.
 */
module AofDataset {
  import opened Basics
  import opened Distinct
  import opened Bytes
  import opened Resp
  import opened AofLoader
  import opened AofRecovery
  import opened AofMeaning
  import opened AofRewrite

  // ---------------------------------------------------------------- the value of an object

  /** The map of key-value pairs with distinct keys. */
  function MapOf<V>(xs: seq<(Text, V)>): (m: map<Text, V>)
    ensures forall k :: k in m <==> exists i | 0 <= i < |xs| :: xs[i].0 == k
    ensures (forall i, j | 0 <= i < j < |xs| :: xs[i].0 != xs[j].0) ==> forall i | 0 <= i < |xs| :: m[xs[i].0] == xs[i].1
  {
    if xs == [] then map[]
    else
      var n := |xs| - 1;
      var front := xs[..n];
      assert forall i | 0 <= i < n :: front[i] == xs[i];
      MapOf(front)[xs[n].0 := xs[n].1]
  }

  function Swapped<S>(xs: seq<(S, Text)>): seq<(Text, S)> {
    seq(|xs|, i requires 0 <= i < |xs| => (xs[i].1, xs[i].0))
  }

  function Firsts<V>(xs: seq<(Text, V)>): seq<Text> {
    seq(|xs|, i requires 0 <= i < |xs| => xs[i].0)
  }

  function ValueOf<S>(o: Obj<S>): Value<S> {
    match o
    case StringObj(t) => StringValue(t)
    case ListObj(xs) => ListValue(xs)
    case SetObj(xs) => SetValue(set x | x in xs)
    case ZSetObj(xs) => ZSetValue(MapOf(Swapped(xs)))
    case HashObj(xs) => HashValue(MapOf(xs))
  }

  /** Collections are never empty and their keys are distinct; every string has a C length. */
  ghost predicate ValidObj<S>(o: Obj<S>) {
    match o
    case StringObj(t) => |t| <= LLONG_MAX
    case ListObj(xs) => xs != [] && forall x <- xs :: |x| <= LLONG_MAX
    case SetObj(xs) => xs != [] && NoDup(xs) && forall x <- xs :: |x| <= LLONG_MAX
    case ZSetObj(xs) => xs != [] && NoDup(Firsts(Swapped(xs))) && forall x <- xs :: |x.1| <= LLONG_MAX
    case HashObj(xs) => xs != [] && NoDup(Firsts(xs)) && forall x <- xs :: |x.0| <= LLONG_MAX && |x.1| <= LLONG_MAX
  }

  /** The items of an object with its first `n` elements. */
  function Prefix<S>(o: Obj<S>, n: nat): Obj<S>
    requires n <= Size(o)
  {
    match o
    case StringObj(t) => o
    case ListObj(xs) => ListObj(xs[..n])
    case SetObj(xs) => SetObj(xs[..n])
    case ZSetObj(xs) => ZSetObj(xs[..n])
    case HashObj(xs) => HashObj(xs[..n])
  }

  function Size<S>(o: Obj<S>): nat {
    match o
    case StringObj(t) => 1
    case ListObj(xs) => |xs|
    case SetObj(xs) => |xs|
    case ZSetObj(xs) => |xs|
    case HashObj(xs) => |xs|
  }

  lemma MapSnoc<V>(xs: seq<(Text, V)>, n: nat)
    requires n < |xs|
    ensures MapOf(xs[..n + 1]) == MapOf(xs[..n])[xs[n].0 := xs[n].1]
  {
    assert xs[..n + 1][..n] == xs[..n];
  }

  /** Inserting the items one by one builds the value. */
  lemma {:induction false} ItemsBuildValue<S(!new)>(sc: Scores<S>, o: Obj<S>, n: nat)
    requires sc.Valid() && ValidObj(o) && !o.StringObj? && 0 < n <= Size(o)
    ensures InsertAll(sc, None, NameOf(o), Items(sc, o)[..n]) == Some(ValueOf(Prefix(o, n)))
  {
    var gs := Items(sc, o);
    assert gs[..n] == gs[..n - 1] + [gs[n - 1]];
    InsertAppend(sc, None, NameOf(o), gs[..n - 1], [gs[n - 1]]);
    InsertOne(sc, InsertAll(sc, None, NameOf(o), gs[..n - 1]), NameOf(o), gs[n - 1]);
    if n > 1 {
      ItemsBuildValue(sc, o, n - 1);
    } else {
      assert gs[..0] == [];
    }
    LastItem(sc, o, n);
  }

  lemma InsertOne<S(!new)>(sc: Scores<S>, v: Option<Value<S>>, name: Text, g: seq<Text>)
    ensures InsertAll(sc, v, name, [g]) == Insert(sc, v, name, g)
  {
    assert [g][1..] == [];
  }

  lemma LastItem<S(!new)>(sc: Scores<S>, o: Obj<S>, n: nat)
    requires sc.Valid() && ValidObj(o) && !o.StringObj? && 0 < n <= Size(o)
    ensures Insert(sc, if n == 1 then None else Some(ValueOf(Prefix(o, n - 1))), NameOf(o), Items(sc, o)[n - 1]) ==
            Some(ValueOf(Prefix(o, n)))
  {
    match o
    case ListObj(xs) => LastPushed(sc, xs, n);
    case SetObj(xs) => LastAdded(sc, xs, n);
    case ZSetObj(xs) => LastScored(sc, xs, n);
    case HashObj(xs) => LastField(sc, xs, n);
  }

  lemma LastPushed<S(!new)>(sc: Scores<S>, xs: seq<Text>, n: nat)
    requires 0 < n <= |xs|
    ensures Insert(sc, if n == 1 then None else Some(ListValue(xs[..n - 1])), "RPUSH", [xs[n - 1]]) == Some(ListValue(xs[..n]))
  {
    assert xs[..n] == xs[..n - 1] + [xs[n - 1]];
    if n == 1 { assert xs[..n] == [xs[0]]; }
  }

  lemma LastAdded<S(!new)>(sc: Scores<S>, xs: seq<Text>, n: nat)
    requires 0 < n <= |xs|
    ensures Insert(sc, if n == 1 then None else Some(SetValue(Members(xs[..n - 1]))), "SADD", [xs[n - 1]]) == Some(SetValue(Members(xs[..n])))
  {
    var front := xs[..n - 1];
    assert xs[..n] == front + [xs[n - 1]];
    assert Members(xs[..n]) == Members(front) + {xs[n - 1]};
    if n == 1 { assert Members(xs[..n]) == {xs[0]}; }
  }

  function Members(xs: seq<Text>): set<Text> {
    set x | x in xs
  }

  lemma LastScored<S(!new)>(sc: Scores<S>, xs: seq<(S, Text)>, n: nat)
    requires sc.Valid() && 0 < n <= |xs|
    ensures Insert(sc, if n == 1 then None else Some(ZSetValue(MapOf(Swapped(xs[..n - 1])))), "ZADD", [sc.show(xs[n - 1].0), xs[n - 1].1]) ==
            Some(ZSetValue(MapOf(Swapped(xs[..n]))))
  {
    var ys := Swapped(xs);
    assert Swapped(xs[..n]) == ys[..n] && Swapped(xs[..n - 1]) == ys[..n - 1];
    MapSnoc(ys, n - 1);
  }

  lemma LastField<S(!new)>(sc: Scores<S>, xs: seq<(Text, Text)>, n: nat)
    requires 0 < n <= |xs|
    ensures Insert(sc, if n == 1 then None else Some(HashValue(MapOf(xs[..n - 1]))), "HMSET", [xs[n - 1].0, xs[n - 1].1]) ==
            Some(HashValue(MapOf(xs[..n])))
  {
    MapSnoc(xs, n - 1);
  }

  // ---------------------------------------------------------------- the dataset

  datatype Entry<S> = Entry(key: Text, obj: Obj<S>, expire: int)  // expire -1: none

  datatype Stored<S> = Stored(value: Value<S>, expire: int)

  type Db<S> = map<(nat, Text), Stored<S>>

  predicate IsWrite(name: Text) {
    name == "SET" || name == "RPUSH" || name == "SADD" || name == "ZADD" || name == "HMSET"
  }

  /** One command on database `n`; commands that the rewriter does not emit change nothing here. */
  function Exec<S(!new)>(sc: Scores<S>, db: Db<S>, n: nat, c: Command): Db<S> {
    if |c| < 2 then db
    else if c[0] == "PEXPIREAT" then
      if |c| == 3 && (n, c[1]) in db then db[(n, c[1]) := db[(n, c[1])].(expire := Atoi(c[2]))] else db
    else if !IsWrite(c[0]) then db
    else
      var was := if (n, c[1]) in db then Some(db[(n, c[1])]) else None;
      var v := ExecWrite(sc, if was.Some? then Some(was.value.value) else None, c);
      if v.None? then db
      else db[(n, c[1]) := Stored(v.value, if was.Some? && c[0] != "SET" then was.value.expire else -1)]
  }

  /** The commands of one key (`rewriteObject`). */
  function ObjectCommands<S(!new)>(sc: Scores<S>, key: Text, o: Obj<S>): seq<Command> {
    if o.StringObj? then [["SET", key, o.text]] else Chunked(NameOf(o), key, Items(sc, o))
  }

  function EntryCommands<S(!new)>(sc: Scores<S>, e: Entry<S>): seq<Command> {
    ObjectCommands(sc, e.key, e.obj) +
    (if e.expire != -1 then [["PEXPIREAT", e.key, SignedDecimal(e.expire)]] else [])
  }

  /** The commands of each, in turn. */
  function Each<T>(commands: T -> seq<Command>, xs: seq<T>): seq<Command> {
    if xs == [] then [] else commands(xs[0]) + Each(commands, xs[1..])
  }

  function EntriesCommands<S(!new)>(sc: Scores<S>, es: seq<Entry<S>>): seq<Command> {
    Each((e: Entry<S>) => EntryCommands(sc, e), es)
  }

  /** All databases from number `j` on; an empty one gets no SELECT (`rewriteAppendOnlyFileRio`). */
  function DatasetCommands<S(!new)>(sc: Scores<S>, dbs: seq<seq<Entry<S>>>, j: nat): seq<Command>
    requires j <= |dbs|
    decreases |dbs| - j
  {
    if j == |dbs| then []
    else
      (if dbs[j] == [] then [] else [Select(j)] + EntriesCommands(sc, dbs[j])) + DatasetCommands(sc, dbs, j + 1)
  }

  ghost predicate ValidEntry<S>(e: Entry<S>) {
    |e.key| <= LLONG_MAX && ValidObj(e.obj) && 0 - LLONG_MAX <= e.expire <= LLONG_MAX
  }

  ghost predicate ValidDbs<S>(dbs: seq<seq<Entry<S>>>) {
    && |dbs| <= INT_MAX
    && forall j | 0 <= j < |dbs| ::
         (forall e <- dbs[j] :: ValidEntry(e)) &&
         forall a, b | 0 <= a < b < |dbs[j]| :: dbs[j][a].key != dbs[j][b].key
  }

  function StoredOf<S>(e: Entry<S>): Stored<S> {
    Stored(ValueOf(e.obj), e.expire)
  }

  /** The dataset held in database `n` by `es`, added to `db`. */
  function AddEntries<S>(db: Db<S>, n: nat, es: seq<Entry<S>>): Db<S>
    decreases |es|
  {
    if es == [] then db else AddEntries(db[(n, es[0].key) := StoredOf(es[0])], n, es[1..])
  }

  /** The dataset in memory: key `k` of database `j` holds its entry's value and expiry, and nothing else is there. */
  ghost predicate Holds<S(!new)>(db: Db<S>, dbs: seq<seq<Entry<S>>>, upto: nat)
    requires upto <= |dbs|
  {
    && (forall j, i | 0 <= j < upto && 0 <= i < |dbs[j]| ::
          (j, dbs[j][i].key) in db && db[(j, dbs[j][i].key)] == StoredOf(dbs[j][i]))
    && (forall p <- db :: p.0 < upto && exists i | 0 <= i < |dbs[p.0]| :: dbs[p.0][i].key == p.1)
  }

  const Strict: Config := Config(false, 0, true)

  ghost function Runner<S(!new)>(sc: Scores<S>): (Db<S>, nat, Command) -> Db<S> {
    (db: Db<S>, n: nat, c: Command) => Exec(sc, db, n, c)
  }

  /** Loading a BASE file in AOF format on a server with an empty dataset. */
  ghost function LoadBase<S(!new)>(sc: Scores<S>, t: Text): Option<Db<S>>
    requires Shrinks(ReadRecord)
  {
    if t == "" then Some(map[])
    else
      var r := Load(ReadRecord, t, Strict, c => true);
      if r.status == AofOk then Some(RunAll(Runner(sc), map[], 0, r.run).0) else None
  }

  // ---------------------------------------------------------------- running the commands of one key

  /** `db` with key `key` of database `n` holding `v`. */
  function Put<S>(db: Db<S>, n: nat, key: Text, v: Option<Value<S>>, expire: int): Db<S> {
    if v.None? then db else db[(n, key) := Stored(v.value, expire)]
  }

  /** Write commands on one absent key build its value and touch nothing else. */
  lemma {:induction false} RunKey<S(!new)>(sc: Scores<S>, db: Db<S>, n: nat, key: Text, v: Option<Value<S>>, cs: seq<Command>)
    requires (n, key) !in db
    requires forall c <- cs :: |c| >= 2 && c[1] == key && IsWrite(c[0])
    ensures RunAll(Runner(sc), Put(db, n, key, v, -1), n, cs) == (Put(db, n, key, ExecAll(sc, v, cs), -1), n)
    decreases |cs|
  {
    if cs != [] {
      var c := cs[0];
      assert c in cs;
      NotSelect(c);
      var v' := ExecWrite(sc, v, c);
      assert Exec(sc, Put(db, n, key, v, -1), n, c) == Put(db, n, key, v', -1) by {
        if v.Some? && v'.None? { WriteKeeps(sc, v, c); }
      }
      RunKey(sc, db, n, key, v', cs[1..]);
    }
  }

  lemma NotSelect(c: Command)
    requires |c| >= 2 && (IsWrite(c[0]) || c[0] == "PEXPIREAT")
    ensures !IsSelect(c) && IsPlain(c)
  {
    var l := Lower(c[0]);
    assert |l| == |c[0]|;
    assert c[0] == "PEXPIREAT" ==> |l| == 9;
    assert (c[0] == "RPUSH" || c[0] == "HMSET") ==> l[0] == 'r' || l[0] == 'h';
    assert (c[0] == "SADD" || c[0] == "ZADD") ==> l[0] == 's' || l[0] == 'z';
  }

  lemma {:induction false} InsertKeeps<S(!new)>(sc: Scores<S>, v: Option<Value<S>>, name: Text, gs: seq<seq<Text>>)
    requires v.Some?
    ensures InsertAll(sc, v, name, gs).Some?
    decreases |gs|
  {
    if gs != [] { InsertKeeps(sc, Insert(sc, v, name, gs[0]), name, gs[1..]); }
  }

  lemma WriteKeeps<S(!new)>(sc: Scores<S>, v: Option<Value<S>>, c: Command)
    requires |c| >= 2 && v.Some?
    ensures ExecWrite(sc, v, c).Some?
  {
    InsertKeeps(sc, v, c[0], Grouped(c[2..], ArgWidth(c[0])));
  }

  /** The commands of an entry, run where its key is absent, store exactly that entry. */
  lemma RunEntry<S(!new)>(sc: Scores<S>, db: Db<S>, n: nat, e: Entry<S>)
    requires sc.Valid() && ValidEntry(e) && (n, e.key) !in db
    ensures RunAll(Runner(sc), db, n, EntryCommands(sc, e)) == (db[(n, e.key) := StoredOf(e)], n)
  {
    var cs := ObjectCommands(sc, e.key, e.obj);
    RunObject(sc, db, n, e.key, e.obj);
    if e.expire == -1 {
      assert cs + [] == cs;
    } else {
      RunWithExpire(sc, db, n, e.key, ValueOf(e.obj), e.expire, cs);
    }
  }

  lemma RunWithExpire<S(!new)>(sc: Scores<S>, db: Db<S>, n: nat, key: Text, v: Value<S>, expire: int, cs: seq<Command>)
    requires RunAll(Runner(sc), db, n, cs) == (db[(n, key) := Stored(v, -1)], n)
    ensures RunAll(Runner(sc), db, n, cs + [["PEXPIREAT", key, SignedDecimal(expire)]]) == (db[(n, key) := Stored(v, expire)], n)
  {
    var mid := db[(n, key) := Stored(v, -1)];
    RunExpire(sc, mid, n, key, expire);
    assert mid[(n, key) := Stored(v, expire)] == db[(n, key) := Stored(v, expire)];
    RunThen(Runner(sc), db, n, cs, [["PEXPIREAT", key, SignedDecimal(expire)]], mid, db[(n, key) := Stored(v, expire)]);
  }

  lemma RunThen<D(!new)>(run: (D, nat, Command) -> D, db: D, n: nat, cs: seq<Command>, ds: seq<Command>, mid: D, end: D)
    requires RunAll(run, db, n, cs) == (mid, n) && RunAll(run, mid, n, ds) == (end, n)
    ensures RunAll(run, db, n, cs + ds) == (end, n)
  {
    RunAppend(run, db, n, cs, ds);
  }

  lemma RunExpire<S(!new)>(sc: Scores<S>, db: Db<S>, n: nat, key: Text, expire: int)
    requires (n, key) in db
    ensures RunAll(Runner(sc), db, n, [["PEXPIREAT", key, SignedDecimal(expire)]]) ==
            (db[(n, key) := db[(n, key)].(expire := expire)], n)
  {
    var c := ["PEXPIREAT", key, SignedDecimal(expire)];
    NotSelect(c);
    AtoiOfSigned(expire);
    assert [c][1..] == [];
  }

  lemma AtoiOfSigned(k: int)
    ensures Atoi(SignedDecimal(k)) == k
  {
    if k < 0 {
      var d := Decimal(-k);
      DigitsOfDecimal(-k, "");
      assert d + "" == d;
      assert ("-" + d)[1..] == d;
    } else {
      AtoiOfDecimal(k, "");
      assert Decimal(k) + "" == Decimal(k);
    }
  }

  lemma RunObject<S(!new)>(sc: Scores<S>, db: Db<S>, n: nat, key: Text, o: Obj<S>)
    requires sc.Valid() && ValidObj(o) && (n, key) !in db
    ensures RunAll(Runner(sc), db, n, ObjectCommands(sc, key, o)) == (db[(n, key) := Stored(ValueOf(o), -1)], n)
  {
    ObjectCommandsBuild(sc, key, o);
    RunKey(sc, db, n, key, None, ObjectCommands(sc, key, o));
  }

  /** The commands of one object, run on an absent key, rebuild its value. */
  lemma ObjectCommandsBuild<S(!new)>(sc: Scores<S>, key: Text, o: Obj<S>)
    requires sc.Valid() && ValidObj(o)
    ensures forall c <- ObjectCommands(sc, key, o) :: |c| >= 2 && c[1] == key && IsWrite(c[0])
    ensures ExecAll(sc, None, ObjectCommands(sc, key, o)) == Some(ValueOf(o))
  {
    var cs := ObjectCommands(sc, key, o);
    if o.StringObj? {
      assert cs[1..] == [];
    } else {
      ItemsBuildValue(sc, o, Size(o));
      assert Items(sc, o)[..Size(o)] == Items(sc, o);
      WholePrefix(o);
      ChunkedInserts(sc, None, NameOf(o), key, Items(sc, o));
      ChunkedShape(NameOf(o), key, Items(sc, o));
    }
  }

  lemma WholePrefix<S>(o: Obj<S>)
    ensures Prefix(o, Size(o)) == o
  {
  }

  lemma {:induction false} ChunkedShape(name: Text, key: Text, gs: seq<seq<Text>>)
    ensures forall c <- Chunked(name, key, gs) :: |c| >= 2 && c[0] == name && c[1] == key
    decreases |gs|
  {
    if gs != [] { ChunkedShape(name, key, gs[Min(ITEMS_PER_CMD, |gs|)..]); }
  }

  // ---------------------------------------------------------------- running the whole file

  lemma {:induction false} RunEntries<S(!new)>(sc: Scores<S>, db: Db<S>, n: nat, es: seq<Entry<S>>)
    requires sc.Valid() && (forall e <- es :: ValidEntry(e) && (n, e.key) !in db)
    requires forall a, b | 0 <= a < b < |es| :: es[a].key != es[b].key
    ensures RunAll(Runner(sc), db, n, EntriesCommands(sc, es)) == (AddEntries(db, n, es), n)
    decreases |es|
  {
    if es != [] {
      var e := es[0];
      assert e in es;
      RunEntry(sc, db, n, e);
      RunAppend(Runner(sc), db, n, EntryCommands(sc, e), EntriesCommands(sc, es[1..]));
      RunEntries(sc, db[(n, e.key) := StoredOf(e)], n, es[1..]);
    }
  }

  lemma {:induction false} AddEntriesHolds<S(!new)>(db: Db<S>, n: nat, es: seq<Entry<S>>)
    requires forall a, b | 0 <= a < b < |es| :: es[a].key != es[b].key
    ensures var r := AddEntries(db, n, es);
            (forall i | 0 <= i < |es| :: (n, es[i].key) in r && r[(n, es[i].key)] == StoredOf(es[i])) &&
            (forall p :: p in r ==> p in db || (p.0 == n && exists i | 0 <= i < |es| :: es[i].key == p.1)) &&
            (forall p :: p in db && (p.0 != n || forall i | 0 <= i < |es| :: es[i].key != p.1) ==> p in r && r[p] == db[p])
    decreases |es|
  {
    if es != [] {
      var t := es[1..];
      var db' := db[(n, es[0].key) := StoredOf(es[0])];
      AddEntriesHolds(db', n, t);
      var r := AddEntries(db, n, es);
      assert forall i | 0 < i < |es| :: es[i] == t[i - 1];
      forall p | p in r ensures p in db || (p.0 == n && exists i | 0 <= i < |es| :: es[i].key == p.1) {
        if p !in db' {
          var i :| 0 <= i < |t| && t[i].key == p.1;
          assert es[i + 1].key == p.1;
        }
      }
    }
  }

  /** Running the rewritten commands of databases `j` and up completes a dataset that holds those below `j`. */
  lemma {:induction false} RunDataset<S(!new)>(sc: Scores<S>, db: Db<S>, cur: nat, dbs: seq<seq<Entry<S>>>, j: nat)
    requires sc.Valid() && ValidDbs(dbs) && j <= |dbs| && Holds(db, dbs, j)
    ensures Holds(RunAll(Runner(sc), db, cur, DatasetCommands(sc, dbs, j)).0, dbs, |dbs|)
    decreases |dbs| - j
  {
    if j < |dbs| {
      var es := dbs[j];
      var here := if es == [] then [] else [Select(j)] + EntriesCommands(sc, es);
      RunAppend(Runner(sc), db, cur, here, DatasetCommands(sc, dbs, j + 1));
      HoldsNext(db, dbs, j);
      if es == [] {
        RunDataset(sc, db, cur, dbs, j + 1);
      } else {
        RunDatabase(sc, db, cur, j, es);
        RunDataset(sc, AddEntries(db, j, es), j, dbs, j + 1);
      }
    }
  }

  lemma RunDatabase<S(!new)>(sc: Scores<S>, db: Db<S>, cur: nat, j: nat, es: seq<Entry<S>>)
    requires sc.Valid() && (forall e <- es :: ValidEntry(e)) && (forall p <- db :: p.0 < j)
    requires forall a, b | 0 <= a < b < |es| :: es[a].key != es[b].key
    ensures RunAll(Runner(sc), db, cur, [Select(j)] + EntriesCommands(sc, es)) == (AddEntries(db, j, es), j)
  {
    var here := [Select(j)] + EntriesCommands(sc, es);
    SelectIsSelect(j);
    assert here[1..] == EntriesCommands(sc, es);
    RunEntries(sc, db, j, es);
  }

  lemma HoldsNext<S(!new)>(db: Db<S>, dbs: seq<seq<Entry<S>>>, j: nat)
    requires ValidDbs(dbs) && j < |dbs| && Holds(db, dbs, j)
    ensures Holds(AddEntries(db, j, dbs[j]), dbs, j + 1)
  {
    AddEntriesHolds(db, j, dbs[j]);
    var r := AddEntries(db, j, dbs[j]);
    forall p <- r ensures p.0 < j + 1 && exists i | 0 <= i < |dbs[p.0]| :: dbs[p.0][i].key == p.1 {
    }
  }

  // ---------------------------------------------------------------- writing and reading back the file

  ghost predicate Fine(c: Command) {
    WellFormed(c) && IsPlain(c)
  }

  lemma {:induction false} FlattenBound(gs: seq<seq<Text>>)
    requires forall g <- gs :: |g| <= 2 && forall a <- g :: |a| <= LLONG_MAX
    ensures |Flatten(gs)| <= 2 * |gs| && forall a <- Flatten(gs) :: |a| <= LLONG_MAX
  {
    if gs != [] {
      assert gs[0] in gs;
      FlattenBound(gs[1..]);
    }
  }

  lemma {:induction false} ChunkedFine(name: Text, key: Text, gs: seq<seq<Text>>)
    requires IsWrite(name) && |key| <= LLONG_MAX && forall g <- gs :: |g| <= 2 && forall a <- g :: |a| <= LLONG_MAX
    ensures forall c <- Chunked(name, key, gs) :: Fine(c)
    decreases |gs|
  {
    if gs != [] {
      var n := Min(ITEMS_PER_CMD, |gs|);
      var front, rest := gs[..n], gs[n..];
      assert forall g <- front :: g in gs;
      assert forall g <- rest :: g in gs;
      FlattenBound(front);
      var c := [name, key] + Flatten(front);
      assert forall a <- c :: a == name || a == key || a in Flatten(front);
      NotSelect(c);
      ChunkedFine(name, key, rest);
    }
  }

  lemma ItemsFine<S(!new)>(sc: Scores<S>, o: Obj<S>)
    requires sc.Valid() && ValidObj(o)
    ensures forall g <- Items(sc, o) :: |g| <= 2 && forall a <- g :: |a| <= LLONG_MAX
  {
  }

  lemma EntryFine<S(!new)>(sc: Scores<S>, e: Entry<S>)
    requires sc.Valid() && ValidEntry(e)
    ensures forall c <- EntryCommands(sc, e) :: Fine(c)
  {
    ObjectFine(sc, e.key, e.obj);
    ExpireFine(e.key, e.expire);
  }

  lemma ObjectFine<S(!new)>(sc: Scores<S>, key: Text, obj: Obj<S>)
    requires sc.Valid() && |key| <= LLONG_MAX && ValidObj(obj)
    ensures forall c <- ObjectCommands(sc, key, obj) :: Fine(c)
  {
    if obj.StringObj? {
      NotSelect(["SET", key, obj.text]);
    } else {
      ItemsFine(sc, obj);
      ChunkedFine(NameOf(obj), key, Items(sc, obj));
    }
  }

  lemma ExpireFine(key: Text, expire: int)
    requires |key| <= LLONG_MAX && 0 - LLONG_MAX <= expire <= LLONG_MAX
    ensures Fine(["PEXPIREAT", key, SignedDecimal(expire)])
  {
    NotSelect(["PEXPIREAT", key, SignedDecimal(expire)]);
    LongLongDigits(if expire < 0 then 0 - expire else expire);
  }

  lemma {:induction false} EntriesFine<S(!new)>(sc: Scores<S>, es: seq<Entry<S>>)
    requires sc.Valid() && forall e <- es :: ValidEntry(e)
    ensures forall c <- EntriesCommands(sc, es) :: Fine(c)
  {
    if es != [] {
      assert es[0] in es;
      EntryFine(sc, es[0]);
      EntriesFine(sc, es[1..]);
    }
  }

  lemma {:induction false} DatasetFine<S(!new)>(sc: Scores<S>, dbs: seq<seq<Entry<S>>>, j: nat)
    requires sc.Valid() && ValidDbs(dbs) && j <= |dbs|
    ensures forall c <- DatasetCommands(sc, dbs, j) :: Fine(c)
    decreases |dbs| - j
  {
    if j < |dbs| {
      EntriesFine(sc, dbs[j]);
      SelectIsSelect(j);
      DatasetFine(sc, dbs, j + 1);
    }
  }

  /** The rewritten file, loaded on an empty server, gives back the dataset: values, expiries, and nothing more. */
  lemma RewrittenBaseLoads<S(!new)>(sc: Scores<S>, dbs: seq<seq<Entry<S>>>)
    requires sc.Valid() && ValidDbs(dbs)
    ensures Shrinks(ReadRecord)
    ensures var r := LoadBase(sc, EncodeAll(DatasetCommands(sc, dbs, 0)));
            r.Some? && Holds(r.value, dbs, |dbs|)
  {
    var cs := DatasetCommands(sc, dbs, 0);
    RespIsSound();
    DatasetFine(sc, dbs, 0);
    RunDataset(sc, map[], 0, dbs, 0);
    if cs != [] {
      assert forall c <- cs :: Fine(c);
      PlainReplay(Fresh, cs);
      LoadWholeLog(Encode, ReadRecord, cs, Strict, c => true);
      assert ReadsBack(Encode, ReadRecord, cs[0], []);
    }
  }

  /** `rewriteObject`: the object's commands, then its expiry. */
  method RewriteObject<S(!new)>(sc: Scores<S>, out0: Text, e: Entry<S>) returns (out: Text)
    ensures out == out0 + EncodeAll(EntryCommands(sc, e))
  {
    ghost var cs := ObjectCommands(sc, e.key, e.obj);
    if e.obj.StringObj? {
      out := CatAppendOnlyGenericCommand(out0, ["SET", e.key, e.obj.text]);
      ConcatOne(Encode, ["SET", e.key, e.obj.text]);
    } else {
      out := EmitItems(out0, StartOf(NameOf(e.obj), e.key, Width(e.obj)), ItemText, Items(sc, e.obj));
      EmittedIsLog(NameOf(e.obj), e.key, Items(sc, e.obj), Width(e.obj));
    }
    if e.expire != -1 {
      var c := ["PEXPIREAT", e.key, SignedDecimal(e.expire)];
      ConcatAppend(Encode, cs, [c]);
      ConcatOne(Encode, c);
      SeqAssoc(out0, EncodeAll(cs), Encode(c));
      out := CatAppendOnlyGenericCommand(out, c);
    } else {
      assert cs + [] == cs;
    }
  }

  lemma {:induction false} EachSnoc<T>(commands: T -> seq<Command>, xs: seq<T>, i: nat)
    requires i < |xs|
    ensures EncodeAll(Each(commands, xs[..i + 1])) == EncodeAll(Each(commands, xs[..i])) + EncodeAll(commands(xs[i]))
  {
    var front := xs[..i];
    assert xs[..i + 1] == front + [xs[i]];
    EachAppend(commands, front, xs[i]);
    ConcatAppend(Encode, Each(commands, front), commands(xs[i]));
  }

  lemma {:induction false} EachAppend<T>(commands: T -> seq<Command>, xs: seq<T>, x: T)
    ensures Each(commands, xs + [x]) == Each(commands, xs) + commands(x)
  {
    if xs == [] {
      assert [x][1..] == [] && xs + [x] == [x];
      assert commands(x) + [] == commands(x) && [] + commands(x) == commands(x);
    } else {
      assert (xs + [x])[1..] == xs[1..] + [x];
      EachAppend(commands, xs[1..], x);
      SeqAssoc(commands(xs[0]), Each(commands, xs[1..]), commands(x));
    }
  }

  /** `rewriteAppendOnlyFileRio`: a SELECT for every database that is not empty, then its keys. */
  method RewriteAppendOnlyFileRio<S(!new)>(sc: Scores<S>, dbs: seq<seq<Entry<S>>>) returns (out: Text)
    ensures out == EncodeAll(DatasetCommands(sc, dbs, 0))
  {
    out := "";
    var j := 0;
    ghost var all := Rest(sc, dbs, 0);
    assert "" + all == all;
    while j < |dbs|
      invariant 0 <= j <= |dbs| && all == out + Rest(sc, dbs, j)
    {
      RestNext(sc, dbs, j, out);
      if |dbs[j]| == 0 {
        j := j + 1;
        continue;
      }
      out := RewriteDatabase(sc, out, dbs[j], j);
      j := j + 1;
    }
    RestEnd(sc, dbs, out);
  }

  /** What is still to be written from database `j` on. */
  ghost function Rest<S(!new)>(sc: Scores<S>, dbs: seq<seq<Entry<S>>>, j: nat): Text
    requires j <= |dbs|
  {
    EncodeAll(DatasetCommands(sc, dbs, j))
  }

  lemma RestNext<S(!new)>(sc: Scores<S>, dbs: seq<seq<Entry<S>>>, j: nat, out: Text)
    requires j < |dbs|
    ensures out + Rest(sc, dbs, j) ==
            (if dbs[j] == [] then out else out + EncodeAll([Select(j)] + EntriesCommands(sc, dbs[j]))) + Rest(sc, dbs, j + 1)
  {
    var later := DatasetCommands(sc, dbs, j + 1);
    if dbs[j] == [] {
      assert [] + later == later;
    } else {
      var here := [Select(j)] + EntriesCommands(sc, dbs[j]);
      ConcatAppend(Encode, here, later);
      SeqAssoc(out, EncodeAll(here), EncodeAll(later));
    }
  }

  lemma RestEnd<S(!new)>(sc: Scores<S>, dbs: seq<seq<Entry<S>>>, out: Text)
    ensures out + Rest(sc, dbs, |dbs|) == out
  {
  }

  method RewriteDatabase<S(!new)>(sc: Scores<S>, out0: Text, es: seq<Entry<S>>, j: nat) returns (out: Text)
    ensures out == out0 + EncodeAll([Select(j)] + EntriesCommands(sc, es))
  {
    out := CatAppendOnlyGenericCommand(out0, Select(j));
    ghost var start := out;
    var i := 0;
    assert es[..0] == [] && start + "" == start;
    while i < |es|
      invariant 0 <= i <= |es|
      invariant out == start + EncodeAll(EntriesCommands(sc, es[..i]))
    {
      EachSnoc((e: Entry<S>) => EntryCommands(sc, e), es, i);
      SeqAssoc(start, EncodeAll(EntriesCommands(sc, es[..i])), EncodeAll(EntryCommands(sc, es[i])));
      out := RewriteObject(sc, out, es[i]);
      i := i + 1;
    }
    assert es[..i] == es;
    ConcatAppend(Encode, [Select(j)], EntriesCommands(sc, es));
    ConcatOne(Encode, Select(j));
    SeqAssoc(out0, Encode(Select(j)), EncodeAll(EntriesCommands(sc, es)));
  }
}
