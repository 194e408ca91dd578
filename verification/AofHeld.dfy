/**
 * Every dataset that a log within the limits of the server reaches can be held as lists of entries, the form the rewriter
 * walks (redis-stable/src/aof.c:2389-2507): so the rewriter can always be run on it.
 */
module AofHeld {
  import opened Basics
  import opened Distinct
  import opened Bytes
  import opened Resp
  import opened AofLoader
  import opened AofMeaning
  import opened AofRewrite
  import opened AofDataset
  import opened AofProtocol
  import opened AofConcrete

  // ---------------------------------------------------------------- what every dataset reached is like

  predicate Short(t: Text) {
    |t| <= LLONG_MAX
  }

  /** Collections are not empty and every string has a C length. */
  ghost predicate GoodValue<S(!new)>(v: Value<S>) {
    match v
    case StringValue(t) => Short(t)
    case ListValue(xs) => xs != [] && forall x <- xs :: Short(x)
    case SetValue(m) => m != {} && forall x <- m :: Short(x)
    case ZSetValue(m) => m.Keys != {} && forall x <- m :: Short(x)
    case HashValue(m) => m.Keys != {} && forall x <- m :: Short(x) && Short(m[x])
  }

  predicate IsTime(t: int) {
    0 - LLONG_MAX <= t <= LLONG_MAX
  }

  /** The key `p` lies in one of the first `n` databases and what it holds is good. */
  ghost predicate GoodAt<S(!new)>(db: Db<S>, n: nat, p: (nat, Text)) {
    p in db ==> p.0 < n && Short(p.1) && GoodValue(db[p].value) && IsTime(db[p].expire)
  }

  ghost predicate GoodDb<S(!new)>(db: Db<S>, n: nat) {
    forall p: (nat, Text) :: GoodAt(db, n, p)
  }

  /** The server has `n` databases, and expiry times are long longs. */
  predicate Within(n: nat, c: Command) {
    WellFormed(c) && (IsSelect(c) ==> Atoi(c[1]) < n) && (|c| == 3 && c[0] == "PEXPIREAT" ==> IsTime(Atoi(c[2])))
  }

  predicate AllWithin(n: nat, cs: seq<Command>) {
    forall c <- cs :: Within(n, c)
  }

  lemma InsertGood<S(!new)>(sc: Scores<S>, v: Option<Value<S>>, name: Text, g: seq<Text>)
    requires (v.Some? ==> GoodValue(v.value)) && forall a <- g :: Short(a)
    ensures var r := Insert(sc, v, name, g); r.Some? ==> GoodValue(r.value)
  {
    var r := Insert(sc, v, name, g);
    if r != v {
      assert g[0] in g && g[|g| - 1] in g;
      if r.value.ZSetValue? { assert g[1] in r.value.scores; }
      if r.value.HashValue? { assert g[0] in r.value.fields; }
    }
  }

  lemma {:induction false} InsertAllGood<S(!new)>(sc: Scores<S>, v: Option<Value<S>>, name: Text, gs: seq<seq<Text>>)
    requires (v.Some? ==> GoodValue(v.value)) && forall g <- gs :: forall a <- g :: Short(a)
    ensures var r := InsertAll(sc, v, name, gs); r.Some? ==> GoodValue(r.value)
    decreases |gs|
  {
    if gs != [] {
      assert gs[0] in gs && forall g <- gs[1..] :: g in gs;
      InsertGood(sc, v, name, gs[0]);
      InsertAllGood(sc, Insert(sc, v, name, gs[0]), name, gs[1..]);
    }
  }

  lemma {:induction false} GroupedShort(args: seq<Text>, width: nat)
    requires width > 0 && forall a <- args :: Short(a)
    ensures forall g <- Grouped(args, width) :: forall a <- g :: Short(a)
    decreases |args|
  {
    if |args| >= width { GroupedShort(args[width..], width); }
  }

  lemma WriteGood<S(!new)>(sc: Scores<S>, v: Option<Value<S>>, c: Command)
    requires |c| >= 2 && WellFormed(c) && (v.Some? ==> GoodValue(v.value))
    ensures var r := ExecWrite(sc, v, c); r.Some? ==> GoodValue(r.value)
  {
    if c[0] != "SET" {
      GroupedShort(c[2..], ArgWidth(c[0]));
      InsertAllGood(sc, v, c[0], Grouped(c[2..], ArgWidth(c[0])));
    }
  }

  /** Every command keeps the dataset good. */
  lemma ExecGood<S(!new)>(sc: Scores<S>, db: Db<S>, n: nat, cur: nat, c: Command)
    requires GoodDb(db, n) && cur < n && Within(n, c)
    ensures GoodDb(Exec(sc, db, cur, c), n)
  {
    if |c| >= 2 {
      var k := (cur, c[1]);
      assert GoodAt(db, n, k);
      WriteGood(sc, if k in db then Some(db[k].value) else None, c);
      forall p: (nat, Text) ensures GoodAt(Exec(sc, db, cur, c), n, p) { assert GoodAt(db, n, p); }
    }
  }

  lemma {:induction false} RunGood<S(!new)>(sc: Scores<S>, db: Db<S>, n: nat, cur: nat, cs: seq<Command>)
    requires GoodDb(db, n) && cur < n && AllWithin(n, cs)
    ensures GoodDb(RunAll(Runner(sc), db, cur, cs).0, n)
    decreases |cs|
  {
    if cs != [] {
      var c := cs[0];
      assert c in cs && forall d <- cs[1..] :: d in cs;
      if IsSelect(c) {
        RunGood(sc, db, n, Atoi(c[1]), cs[1..]);
      } else {
        ExecGood(sc, db, n, cur, c);
        RunGood(sc, Exec(sc, db, cur, c), n, cur, cs[1..]);
      }
    }
  }

  /** A client executes only commands it was given. */
  lemma {:induction false} ReplayMembers(cs: seq<Command>)
    ensures forall c <- Seen(Replay(cs)) :: c in cs
    decreases |cs|
  {
    if cs != [] {
      var front, c := cs[..|cs| - 1], cs[|cs| - 1];
      assert cs == front + [c];
      ReplayMembers(front);
      ReplaySnoc(front, c);
    }
  }

  lemma ReplayWithin(n: nat, cs: seq<Command>)
    requires AllWithin(n, cs)
    ensures AllWithin(n, Replay(cs).run)
  {
    ReplayMembers(cs);
    forall c <- Replay(cs).run ensures c in cs { assert c in Seen(Replay(cs)); }
  }

  // ---------------------------------------------------------------- holding it as entries

  lemma {:induction false} Enumerate<T>(s: set<T>) returns (xs: seq<T>)
    ensures NoDup(xs) && forall x :: x in xs <==> x in s
    decreases s
  {
    if s == {} {
      xs := [];
    } else {
      var x :| x in s;
      var rest := Enumerate(s - {x});
      xs := rest + [x];
      NoDupSnoc(rest, x);
    }
  }

  /** The pairs list the map by those keys. */
  ghost predicate Lists<V(!new)>(m: map<Text, V>, keys: seq<Text>, xs: seq<(Text, V)>) {
    NoDup(keys) && (forall k :: k in keys <==> k in m) && |xs| == |keys| && forall i | 0 <= i < |keys| :: ListsAt(m, keys, xs, i)
  }

  ghost predicate ListsAt<V(!new)>(m: map<Text, V>, keys: seq<Text>, xs: seq<(Text, V)>, i: nat)
    requires i < |keys| == |xs|
  {
    keys[i] in m && xs[i] == (keys[i], m[keys[i]])
  }

  lemma MapAt<V(!new)>(m: map<Text, V>, keys: seq<Text>, xs: seq<(Text, V)>, n: nat)
    requires Lists(m, keys, xs) && n < |keys|
    ensures keys[n] in m && keys[n] in MapOf(xs) && MapOf(xs)[keys[n]] == m[keys[n]]
  {
    forall i, j | 0 <= i < j < |xs| ensures xs[i].0 != xs[j].0 {
      assert Differ(keys, i, j) && ListsAt(m, keys, xs, i) && ListsAt(m, keys, xs, j);
    }
    assert ListsAt(m, keys, xs, n) && xs[n].0 == keys[n];
  }

  /** Listing a map by its keys gives it back. */
  lemma MapBack<V(!new)>(m: map<Text, V>, keys: seq<Text>, xs: seq<(Text, V)>)
    requires Lists(m, keys, xs)
    ensures MapOf(xs) == m && Firsts(xs) == keys
  {
    var r := MapOf(xs);
    forall k <- m ensures k in r && r[k] == m[k] {
      var i :| 0 <= i < |keys| && keys[i] == k;
      MapAt(m, keys, xs, i);
    }
    forall k <- r ensures k in m {
      var i :| 0 <= i < |xs| && xs[i].0 == k;
      assert ListsAt(m, keys, xs, i);
    }
    forall i | 0 <= i < |keys| ensures Firsts(xs)[i] == keys[i] { assert ListsAt(m, keys, xs, i); }
  }

  lemma ObjectOf<S(!new)>(v: Value<S>) returns (o: Obj<S>)
    requires GoodValue(v)
    ensures ValidObj(o) && ValueOf(o) == v
  {
    match v
    case StringValue(t) => o := StringObj(t);
    case ListValue(xs) => o := ListObj(xs);
    case SetValue(m) => o := SetObjectOf(m);
    case ZSetValue(m) => o := ZSetObjectOf(m);
    case HashValue(m) => o := HashObjectOf(m);
  }

  lemma SetObjectOf<S(!new)>(m: set<Text>) returns (o: Obj<S>)
    requires m != {} && forall x <- m :: Short(x)
    ensures ValidObj(o) && ValueOf(o) == SetValue(m)
  {
    var xs := Enumerate(m);
    var x :| x in m;
    assert x in xs;
    o := SetObj(xs);
    assert (set y | y in xs) == m;
  }

  lemma ZSetObjectOf<S(!new)>(m: map<Text, S>) returns (o: Obj<S>)
    requires m.Keys != {} && forall x <- m :: Short(x)
    ensures ValidObj(o) && ValueOf(o) == ZSetValue(m)
  {
    var keys := Enumerate(m.Keys);
    var x :| x in m;
    assert x in keys;
    var xs := seq(|keys|, i requires 0 <= i < |keys| && keys[i] in m => (m[keys[i]], keys[i]));
    assert Lists(m, keys, Swapped(xs));
    MapBack(m, keys, Swapped(xs));
    o := ZSetObj(xs);
    forall y <- xs ensures Short(y.1) {
      var i :| 0 <= i < |xs| && xs[i] == y;
      assert keys[i] in m;
    }
  }

  lemma HashObjectOf<S(!new)>(m: map<Text, Text>) returns (o: Obj<S>)
    requires m.Keys != {} && forall x <- m :: Short(x) && Short(m[x])
    ensures ValidObj(o) && ValueOf(o) == HashValue(m)
  {
    var keys := Enumerate(m.Keys);
    var x :| x in m;
    assert x in keys;
    var xs := seq(|keys|, i requires 0 <= i < |keys| && keys[i] in m => (keys[i], m[keys[i]]));
    assert Lists(m, keys, xs);
    MapBack(m, keys, xs);
    o := HashObj(xs);
    forall y <- xs ensures Short(y.0) && Short(y.1) {
      var i :| 0 <= i < |xs| && xs[i] == y;
      assert keys[i] in m;
    }
  }

  /** The entry holds what the key does. */
  ghost predicate EntryAt<S(!new)>(db: Db<S>, j: nat, key: Text, e: Entry<S>) {
    (j, key) in db && e.key == key && ValidEntry(e) && StoredOf(e) == db[(j, key)]
  }

  lemma {:induction false} EntriesOf<S(!new)>(db: Db<S>, n: nat, j: nat, keys: seq<Text>) returns (es: seq<Entry<S>>)
    requires GoodDb(db, n) && forall k <- keys :: (j, k) in db
    ensures |es| == |keys| && forall i | 0 <= i < |keys| :: EntryAt(db, j, keys[i], es[i])
    decreases |keys|
  {
    if keys == [] {
      es := [];
    } else {
      var last := |keys| - 1;
      var front := EntriesOf(db, n, j, keys[..last]);
      var p := (j, keys[last]);
      assert keys[last] in keys && GoodAt(db, n, p);
      var o := ObjectOf(db[p].value);
      var e := Entry(keys[last], o, db[p].expire);
      assert EntryAt(db, j, keys[last], e);
      es := front + [e];
      forall i | 0 <= i < |keys| ensures EntryAt(db, j, keys[i], es[i]) {
        if i < last { assert EntryAt(db, j, keys[..last][i], front[i]); }
      }
    }
  }

  ghost predicate KeyIn<S(!new)>(es: seq<Entry<S>>, key: Text) {
    exists i | 0 <= i < |es| :: es[i].key == key
  }

  /** All of database `j`, each key once. */
  ghost predicate DatabaseAt<S(!new)>(db: Db<S>, j: nat, es: seq<Entry<S>>) {
    && (forall i | 0 <= i < |es| :: EntryAt(db, j, es[i].key, es[i]))
    && (forall a, b | 0 <= a < b < |es| :: es[a].key != es[b].key)
    && forall p <- db :: p.0 == j ==> KeyIn(es, p.1)
  }

  lemma DatabaseOf<S(!new)>(db: Db<S>, n: nat, j: nat) returns (es: seq<Entry<S>>)
    requires GoodDb(db, n)
    ensures DatabaseAt(db, j, es)
  {
    var here := set p | p in db && p.0 == j :: p.1;
    forall k <- here ensures (j, k) in db {
      var p :| p in db && p.0 == j && p.1 == k;
      assert p == (j, k);
    }
    var keys := Enumerate(here);
    es := EntriesOf(db, n, j, keys);
    forall i | 0 <= i < |es| ensures EntryAt(db, j, es[i].key, es[i]) { assert EntryAt(db, j, keys[i], es[i]); }
    forall a, b | 0 <= a < b < |es| ensures es[a].key != es[b].key {
      assert Differ(keys, a, b) && EntryAt(db, j, keys[a], es[a]) && EntryAt(db, j, keys[b], es[b]);
    }
    forall p <- db | p.0 == j ensures KeyIn(es, p.1) {
      assert p.1 in here;
      var i :| 0 <= i < |keys| && keys[i] == p.1;
      assert EntryAt(db, j, keys[i], es[i]);
    }
  }

  lemma {:induction false} DatabasesOf<S(!new)>(db: Db<S>, n: nat, m: nat) returns (dbs: seq<seq<Entry<S>>>)
    requires GoodDb(db, n)
    ensures |dbs| == m && forall j | 0 <= j < m :: DatabaseAt(db, j, dbs[j])
    decreases m
  {
    if m == 0 {
      dbs := [];
    } else {
      var front := DatabasesOf(db, n, m - 1);
      var es := DatabaseOf(db, n, m - 1);
      dbs := front + [es];
    }
  }

  /** A good dataset can be held as entries, in a form the rewriter accepts. */
  lemma Held<S(!new)>(db: Db<S>, n: nat) returns (dbs: seq<seq<Entry<S>>>)
    requires GoodDb(db, n) && n <= INT_MAX
    ensures ValidDbs(dbs) && Holds(db, dbs, |dbs|)
  {
    dbs := DatabasesOf(db, n, n);
    forall j | 0 <= j < |dbs| ensures forall e <- dbs[j] :: ValidEntry(e) {
      assert DatabaseAt(db, j, dbs[j]);
    }
    forall j, a, b | 0 <= j < |dbs| && 0 <= a < b < |dbs[j]| ensures dbs[j][a].key != dbs[j][b].key {
      assert DatabaseAt(db, j, dbs[j]);
    }
    forall j, i | 0 <= j < |dbs| && 0 <= i < |dbs[j]| ensures (j, dbs[j][i].key) in db && db[(j, dbs[j][i].key)] == StoredOf(dbs[j][i]) {
      assert DatabaseAt(db, j, dbs[j]);
      assert EntryAt(db, j, dbs[j][i].key, dbs[j][i]);
    }
    forall p <- db ensures p.0 < |dbs| && exists i | 0 <= i < |dbs[p.0]| :: dbs[p.0][i].key == p.1 {
      assert GoodAt(db, n, p) && DatabaseAt(db, p.0, dbs[p.0]);
      assert KeyIn(dbs[p.0], p.1);
    }
  }

  // ---------------------------------------------------------------- the child always has something to write

  /** The dataset in memory of the concrete server, whatever it loaded and has fed, can be held for its rewrite. */
  lemma MemoryIsHeld<S(!new)>(sc: Scores<S>, n: nat, loaded: seq<Command>, log: seq<Command>) returns (dbs: seq<seq<Entry<S>>>)
    requires Shrinks(ReadRecord) && 0 < n <= INT_MAX && loaded <= log && AllWithin(n, log)
    ensures ValidDbs(dbs) && Holds(InMemory(Redis(sc), loaded, log), dbs, |dbs|)
  {
    var w, since := Redis(sc), log[|loaded|..];
    assert AllWithin(n, loaded) && AllWithin(n, since);
    ReplayWithin(n, loaded);
    ReplayWithin(n, since);
    var none: Db<S> := map[];
    assert GoodDb(none, n);
    RunGood(sc, none, n, 0, Replay(loaded).run);
    RunGood(sc, Meaning(w, loaded), n, 0, Replay(since).run);
    dbs := Held(InMemory(w, loaded, log), n);
  }
}
