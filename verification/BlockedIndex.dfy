/**
 * The two sides of the blocking index (redis-stable/src/blocked.c:388-457, 536-569): for each key the list of
 * clients waiting for it, for each client the set of keys it waits for, and for each key how many of its waiters
 * want to hear of its deletion.
 */
module BlockedIndex {
  import opened Distinct

  type Cid = nat

  datatype DbKey = DbKey(db: nat, key: string)

  /** The blocking types; `NoBlock` is BLOCKED_NONE. */
  datatype BType =
    | NoBlock | BList | BZset | BStream | BModule
    | BWait | BWaitAof | BShutdown | BPostpone | BPostponeTrim | BLazyFree

  datatype Client = Client(
    db: nat,
    isModule: bool,
    btype: BType,
    keys: set<string>,
    nokey: bool,
    pending: bool,
    unblocked: bool)

  // ---------------------------------------------------------------- waiter lists

  /** Unlinking a node: the order of the others stays. */
  function Minus(xs: seq<Cid>, c: Cid): seq<Cid> {
    if xs == [] then []
    else if xs[|xs| - 1] == c then Minus(xs[..|xs| - 1], c)
    else Minus(xs[..|xs| - 1], c) + [xs[|xs| - 1]]
  }

  predicate WantsNoKey(v: map<Cid, Client>, c: Cid) {
    c in v && v[c].nokey
  }

  function Count(v: map<Cid, Client>, xs: seq<Cid>): nat {
    if xs == [] then 0 else Count(v, xs[..|xs| - 1]) + (if WantsNoKey(v, xs[|xs| - 1]) then 1 else 0)
  }

  lemma {:induction false} MinusMembers(xs: seq<Cid>, c: Cid)
    ensures forall x :: x in Minus(xs, c) <==> x in xs && x != c
    decreases |xs|
  {
    if xs != [] {
      var front := xs[..|xs| - 1];
      MinusMembers(front, c);
      assert xs == front + [xs[|xs| - 1]];
    }
  }

  lemma {:induction false} MinusNoDup(xs: seq<Cid>, c: Cid)
    requires NoDup(xs)
    ensures NoDup(Minus(xs, c))
    decreases |xs|
  {
    if xs != [] {
      var front, last := xs[..|xs| - 1], xs[|xs| - 1];
      NoDupPrefix(xs, |front|);
      MinusNoDup(front, c);
      MinusMembers(front, c);
      NoDupBefore(xs, |front|);
      if last != c { NoDupSnoc(Minus(front, c), last); }
    }
  }

  lemma {:induction false} MinusAbsent(xs: seq<Cid>, c: Cid)
    requires c !in xs
    ensures Minus(xs, c) == xs
    decreases |xs|
  {
    if xs != [] {
      var front, last := xs[..|xs| - 1], xs[|xs| - 1];
      assert last in xs;
      MinusAbsent(front, c);
      assert front + [last] == xs;
    }
  }

  lemma {:induction false} MinusAppend(xs: seq<Cid>, ys: seq<Cid>, c: Cid)
    ensures Minus(xs + ys, c) == Minus(xs, c) + Minus(ys, c)
    decreases |ys|
  {
    if ys == [] {
      assert xs + ys == xs && Minus(xs, c) + [] == Minus(xs, c);
    } else {
      var front, last := ys[..|ys| - 1], ys[|ys| - 1];
      assert (xs + ys)[..|xs + ys| - 1] == xs + front;
      MinusAppend(xs, front, c);
      assert Minus(xs, c) + Minus(front, c) + [last] == Minus(xs, c) + (Minus(front, c) + [last]);
    }
  }

  lemma {:induction false} CountMinus(v: map<Cid, Client>, xs: seq<Cid>, c: Cid)
    requires NoDup(xs) && c in xs
    ensures Count(v, xs) == Count(v, Minus(xs, c)) + (if WantsNoKey(v, c) then 1 else 0)
    decreases |xs|
  {
    var front, last := xs[..|xs| - 1], xs[|xs| - 1];
    NoDupPrefix(xs, |front|);
    NoDupBefore(xs, |front|);
    if last == c {
      MinusAbsent(front, c);
    } else {
      assert c in front;
      CountMinus(v, front, c);
      var kept := Minus(front, c);
      assert (kept + [last])[..|kept|] == kept;
    }
  }

  lemma CountSnoc(v: map<Cid, Client>, xs: seq<Cid>, c: Cid)
    ensures Count(v, xs + [c]) == Count(v, xs) + (if WantsNoKey(v, c) then 1 else 0)
  {
    assert (xs + [c])[..|xs|] == xs;
  }

  /** Only the wishes of the clients in the list matter. */
  lemma {:induction false} CountSame(v: map<Cid, Client>, w: map<Cid, Client>, xs: seq<Cid>)
    requires forall x <- xs :: WantsNoKey(v, x) == WantsNoKey(w, x)
    ensures Count(v, xs) == Count(w, xs)
    decreases |xs|
  {
    if xs != [] {
      assert xs[|xs| - 1] in xs && forall x <- xs[..|xs| - 1] :: x in xs;
      CountSame(v, w, xs[..|xs| - 1]);
    }
  }

  lemma {:induction false} CountPositive(v: map<Cid, Client>, xs: seq<Cid>)
    ensures Count(v, xs) > 0 <==> exists x <- xs :: WantsNoKey(v, x)
    decreases |xs|
  {
    if xs != [] {
      var front, last := xs[..|xs| - 1], xs[|xs| - 1];
      assert xs == front + [last];
      CountPositive(v, front);
    }
  }

  // ---------------------------------------------------------------- the index

  type Waiters = map<DbKey, seq<Cid>>
  type NoKeys = map<DbKey, nat>

  predicate Waits(v: map<Cid, Client>, dk: DbKey, c: Cid) {
    c in v && v[c].db == dk.db && dk.key in v[c].keys
  }

  predicate Listed(b: Waiters, dk: DbKey, c: Cid) {
    dk in b && c in b[dk]
  }

  /** Both sides agree about one key, its list is not empty, and the count is exact and absent when zero. */
  ghost predicate KeyOk(v: map<Cid, Client>, b: Waiters, n: NoKeys, dk: DbKey) {
    && (forall c: Cid :: Listed(b, dk, c) <==> Waits(v, dk, c))
    && (dk in b ==> b[dk] != [] && NoDup(b[dk]))
    && (dk in n <==> dk in b && Count(v, b[dk]) > 0)
    && (dk in n ==> n[dk] == Count(v, b[dk]))
  }

  ghost predicate IndexOk(v: map<Cid, Client>, b: Waiters, n: NoKeys) {
    forall dk: DbKey :: KeyOk(v, b, n, dk)
  }

  // ---------------------------------------------------------------- adding and releasing one entry

  function Linked(b: Waiters, dk: DbKey, c: Cid): Waiters {
    b[dk := (if dk in b then b[dk] else []) + [c]]
  }

  function Raised(n: NoKeys, dk: DbKey): NoKeys {
    n[dk := (if dk in n then n[dk] else 0) + 1]
  }

  /** Both dictionary edits of `releaseBlockedEntry`. */
  function Unlinked(b: Waiters, dk: DbKey, c: Cid): Waiters
    requires dk in b
  {
    var l := Minus(b[dk], c);
    if l == [] then b - {dk} else b[dk := l]
  }

  function Lowered(b: Waiters, n: NoKeys, dk: DbKey, c: Cid, nokey: bool): NoKeys
    requires dk in b
  {
    if Minus(b[dk], c) == [] then n - {dk}
    else if nokey && dk in n then (if n[dk] <= 1 then n - {dk} else n[dk := n[dk] - 1])
    else n
  }

  lemma OtherKey(v: map<Cid, Client>, b: Waiters, n: NoKeys, v': map<Cid, Client>, b': Waiters, n': NoKeys, dk: DbKey)
    requires KeyOk(v, b, n, dk)
    requires (dk in b <==> dk in b') && (dk in b ==> b[dk] == b'[dk]) && (dk in n <==> dk in n') && (dk in n ==> n[dk] == n'[dk])
    requires forall c: Cid :: Waits(v, dk, c) <==> Waits(v', dk, c)
    requires forall c: Cid :: Waits(v, dk, c) ==> WantsNoKey(v, c) == WantsNoKey(v', c)
    ensures KeyOk(v', b', n', dk)
  {
    forall c: Cid ensures Listed(b', dk, c) <==> Waits(v', dk, c) {
      assert Listed(b, dk, c) <==> Waits(v, dk, c);
    }
    if dk in b {
      forall x <- b[dk] ensures WantsNoKey(v, x) == WantsNoKey(v', x) {
        assert Listed(b, dk, x);
      }
      CountSame(v, v', b[dk]);
    }
  }

  lemma CountAdded(v: map<Cid, Client>, v': map<Cid, Client>, l: seq<Cid>, c: Cid)
    requires forall x: Cid :: WantsNoKey(v', x) == WantsNoKey(v, x)
    ensures Count(v', l + [c]) == Count(v, l) + (if WantsNoKey(v, c) then 1 else 0)
  {
    CountSnoc(v', l, c);
    CountSame(v, v', l);
  }

  lemma AddListed(v: map<Cid, Client>, b: Waiters, c: Cid, dk: DbKey, x: Cid)
    requires c in v && v[c].db == dk.db && (Listed(b, dk, x) <==> Waits(v, dk, x))
    ensures Listed(Linked(b, dk, c), dk, x) <==> Waits(v[c := v[c].(keys := v[c].keys + {dk.key})], dk, x)
  {
  }

  lemma AddHere(v: map<Cid, Client>, b: Waiters, n: NoKeys, c: Cid, dk: DbKey)
    requires c in v && v[c].db == dk.db && dk.key !in v[c].keys && KeyOk(v, b, n, dk)
    ensures KeyOk(v[c := v[c].(keys := v[c].keys + {dk.key})], Linked(b, dk, c), if v[c].nokey then Raised(n, dk) else n, dk)
  {
    var v' := v[c := v[c].(keys := v[c].keys + {dk.key})];
    var l := if dk in b then b[dk] else [];
    var b' := Linked(b, dk, c);
    assert !Waits(v, dk, c);
    assert !Listed(b, dk, c);
    NoDupSnoc(l, c);
    CountAdded(v, v', l, c);
    assert b'[dk] == l + [c];
    forall x: Cid ensures Listed(b', dk, x) <==> Waits(v', dk, x) {
      AddListed(v, b, c, dk, x);
    }
  }

  /** Adding an entry on both sides, with its count, keeps the index. */
  lemma AddOk(v: map<Cid, Client>, b: Waiters, n: NoKeys, c: Cid, key: string)
    requires IndexOk(v, b, n) && c in v && key !in v[c].keys
    ensures var dk := DbKey(v[c].db, key);
            IndexOk(v[c := v[c].(keys := v[c].keys + {key})], Linked(b, dk, c), if v[c].nokey then Raised(n, dk) else n)
  {
    var dk := DbKey(v[c].db, key);
    var v', b' := v[c := v[c].(keys := v[c].keys + {key})], Linked(b, dk, c);
    var n' := if v[c].nokey then Raised(n, dk) else n;
    forall o: DbKey ensures KeyOk(v', b', n', o) {
      assert KeyOk(v, b, n, o);
      if o == dk { AddHere(v, b, n, c, dk); } else { OtherKey(v, b, n, v', b', n', o); }
    }
  }

  lemma ReleaseHere(v: map<Cid, Client>, b: Waiters, n: NoKeys, c: Cid, dk: DbKey)
    requires c in v && v[c].db == dk.db && dk.key in v[c].keys && KeyOk(v, b, n, dk)
    ensures dk in b && c in b[dk] && (v[c].nokey ==> dk in n)
    ensures KeyOk(v[c := v[c].(keys := v[c].keys - {dk.key})], Unlinked(b, dk, c), Lowered(b, n, dk, c, v[c].nokey), dk)
  {
    var v' := v[c := v[c].(keys := v[c].keys - {dk.key})];
    assert Waits(v, dk, c);
    assert Listed(b, dk, c);
    var l := Minus(b[dk], c);
    MinusMembers(b[dk], c);
    MinusNoDup(b[dk], c);
    CountMinus(v, b[dk], c);
    CountSame(v, v', l);
    var b' := Unlinked(b, dk, c);
    forall x: Cid ensures Listed(b', dk, x) <==> Waits(v', dk, x) {
      assert Listed(b, dk, x) <==> Waits(v, dk, x);
    }
  }

  /** Releasing an entry on both sides keeps the index; the list and the count it needs are there. */
  lemma ReleaseOk(v: map<Cid, Client>, b: Waiters, n: NoKeys, c: Cid, key: string)
    requires IndexOk(v, b, n) && c in v && key in v[c].keys
    ensures var dk := DbKey(v[c].db, key);
            dk in b && c in b[dk] && (v[c].nokey ==> dk in n) &&
            IndexOk(v[c := v[c].(keys := v[c].keys - {key})], Unlinked(b, dk, c), Lowered(b, n, dk, c, v[c].nokey))
  {
    var dk := DbKey(v[c].db, key);
    assert KeyOk(v, b, n, dk);
    ReleaseHere(v, b, n, c, dk);
    var v', b' := v[c := v[c].(keys := v[c].keys - {key})], Unlinked(b, dk, c);
    var n' := Lowered(b, n, dk, c, v[c].nokey);
    forall o: DbKey ensures KeyOk(v', b', n', o) {
      assert KeyOk(v, b, n, o);
      if o != dk { OtherKey(v, b, n, v', b', n', o); }
    }
  }

  /** A client that waits for nothing may change its other fields freely. */
  lemma IdleClient(v: map<Cid, Client>, b: Waiters, n: NoKeys, c: Cid, x: Client)
    requires IndexOk(v, b, n) && (c in v ==> v[c].keys == {}) && x.keys == {}
    ensures IndexOk(v[c := x], b, n)
  {
    var w := v[c := x];
    forall o: DbKey ensures KeyOk(w, b, n, o) {
      assert KeyOk(v, b, n, o);
      OtherKey(v, b, n, w, b, n, o);
    }
  }

  /** Fields other than the keys and the wish do not matter to the index. */
  lemma SameWish(v: map<Cid, Client>, b: Waiters, n: NoKeys, c: Cid, x: Client)
    requires IndexOk(v, b, n) && c in v && x.db == v[c].db && x.keys == v[c].keys && x.nokey == v[c].nokey
    ensures IndexOk(v[c := x], b, n)
  {
    var w := v[c := x];
    forall o: DbKey ensures KeyOk(w, b, n, o) {
      assert KeyOk(v, b, n, o);
      OtherKey(v, b, n, w, b, n, o);
    }
  }

  // ---------------------------------------------------------------- joining and leaving lists

  function WaitersOf(b: Waiters, dk: DbKey): seq<Cid> {
    if dk in b then b[dk] else []
  }

  predicate JoinedAt(before: Waiters, after: Waiters, c: Cid, db: nat, keys: set<string>, dk: DbKey) {
    WaitersOf(after, dk) == WaitersOf(before, dk) + (if dk.db == db && dk.key in keys then [c] else [])
  }

  /** The client was put at the tail of the lists of those keys; nothing else moved. */
  ghost predicate Joined(before: Waiters, after: Waiters, c: Cid, db: nat, keys: set<string>) {
    forall dk: DbKey :: JoinedAt(before, after, c, db, keys, dk)
  }

  lemma JoinedNone(b: Waiters, c: Cid, db: nat)
    ensures Joined(b, b, c, db, {})
  {
    forall dk: DbKey ensures JoinedAt(b, b, c, db, {}, dk) {
      assert WaitersOf(b, dk) + [] == WaitersOf(b, dk);
    }
  }

  lemma JoinedMore(before: Waiters, b: Waiters, c: Cid, db: nat, keys: set<string>, key: string)
    requires Joined(before, b, c, db, keys) && key !in keys
    ensures Joined(before, Linked(b, DbKey(db, key), c), c, db, keys + {key})
  {
    var after, more := Linked(b, DbKey(db, key), c), keys + {key};
    forall dk: DbKey ensures JoinedAt(before, after, c, db, more, dk) {
      assert JoinedAt(before, b, c, db, keys, dk);
    }
  }

  predicate LeavingAt(before: Waiters, after: Waiters, c: Cid, db: nat, rest: set<string>, dk: DbKey) {
    WaitersOf(after, dk) == if dk.db == db && dk.key in rest then WaitersOf(before, dk) else Minus(WaitersOf(before, dk), c)
  }

  /** The client left every list, except those of the keys in `rest`; the order of the others stays. */
  ghost predicate Leaving(before: Waiters, after: Waiters, c: Cid, db: nat, rest: set<string>) {
    forall dk: DbKey :: LeavingAt(before, after, c, db, rest, dk)
  }

  lemma LeavingStart(v: map<Cid, Client>, b: Waiters, n: NoKeys, c: Cid)
    requires IndexOk(v, b, n) && c in v
    ensures Leaving(b, b, c, v[c].db, v[c].keys)
  {
    forall dk: DbKey ensures LeavingAt(b, b, c, v[c].db, v[c].keys, dk) {
      assert KeyOk(v, b, n, dk);
      assert Listed(b, dk, c) <==> Waits(v, dk, c);
      if !Waits(v, dk, c) { MinusAbsent(WaitersOf(b, dk), c); }
    }
  }

  lemma LeavingMore(before: Waiters, b: Waiters, c: Cid, db: nat, rest: set<string>, key: string)
    requires Leaving(before, b, c, db, rest) && key in rest && DbKey(db, key) in b
    ensures Leaving(before, Unlinked(b, DbKey(db, key), c), c, db, rest - {key})
  {
    var after, less := Unlinked(b, DbKey(db, key), c), rest - {key};
    forall dk: DbKey ensures LeavingAt(before, after, c, db, less, dk) {
      assert LeavingAt(before, b, c, db, rest, dk);
    }
  }

  /** Leaving the lists twice is leaving them once. */
  lemma LeavingTwice(before: Waiters, b: Waiters, after: Waiters, c: Cid, db: nat, rest: set<string>)
    requires Leaving(before, b, c, db, rest) && Leaving(b, after, c, db, {})
    ensures Leaving(before, after, c, db, {})
  {
    forall dk: DbKey ensures LeavingAt(before, after, c, db, {}, dk) {
      assert LeavingAt(before, b, c, db, rest, dk) && LeavingAt(b, after, c, db, {}, dk);
      MinusMembers(WaitersOf(before, dk), c);
      MinusAbsent(Minus(WaitersOf(before, dk), c), c);
    }
  }

  // ---------------------------------------------------------------- counters

  function OfType(v: map<Cid, Client>, t: BType): set<Cid> {
    set c <- v | v[c].btype == t
  }

  function Regular(v: map<Cid, Client>): set<Cid> {
    set c <- v | v[c].btype != NoBlock && !v[c].isModule
  }

  /** Both counters are the true numbers of blocked clients. */
  ghost predicate CountersOk(v: map<Cid, Client>, byType: BType -> int, blocked: int) {
    (forall t: BType | t != NoBlock :: TypeCount(v, byType, t)) && blocked == |Regular(v)|
  }

  predicate TypeCount(v: map<Cid, Client>, byType: BType -> int, t: BType) {
    byType(t) == |OfType(v, t)|
  }

  function Bumped(byType: BType -> int, t: BType, d: int): BType -> int {
    x => if x == t then byType(x) + d else byType(x)
  }

  lemma CountBlocked(v: map<Cid, Client>, byType: BType -> int, blocked: int, c: Cid, x: Client)
    requires CountersOk(v, byType, blocked) && c in v && v[c].btype == NoBlock && x.btype != NoBlock && x.isModule == v[c].isModule
    ensures CountersOk(v[c := x], Bumped(byType, x.btype, 1), if x.isModule then blocked else blocked + 1)
  {
    var w := v[c := x];
    forall t: BType | t != NoBlock ensures TypeCount(w, Bumped(byType, x.btype, 1), t) {
      assert TypeCount(v, byType, t);
      if t == x.btype {
        assert OfType(w, t) == OfType(v, t) + {c};
      } else {
        assert OfType(w, t) == OfType(v, t);
      }
    }
    if x.isModule {
      assert Regular(w) == Regular(v);
    } else {
      assert Regular(w) == Regular(v) + {c};
    }
  }

  lemma CountUnblocked(v: map<Cid, Client>, byType: BType -> int, blocked: int, c: Cid, x: Client)
    requires CountersOk(v, byType, blocked) && c in v && v[c].btype != NoBlock && x.btype == NoBlock && x.isModule == v[c].isModule
    ensures CountersOk(v[c := x], Bumped(byType, v[c].btype, -1), if x.isModule then blocked else blocked - 1)
  {
    var w := v[c := x];
    forall t: BType | t != NoBlock ensures TypeCount(w, Bumped(byType, v[c].btype, -1), t) {
      assert TypeCount(v, byType, t);
      if t == v[c].btype {
        assert OfType(v, t) == OfType(w, t) + {c};
      } else {
        assert OfType(w, t) == OfType(v, t);
      }
    }
    OneRegularLess(v, c, x);
  }

  lemma OneRegularLess(v: map<Cid, Client>, c: Cid, x: Client)
    requires c in v && v[c].btype != NoBlock && x.btype == NoBlock && x.isModule == v[c].isModule
    ensures |Regular(v[c := x])| == |Regular(v)| - if x.isModule then 0 else 1
  {
    var w := v[c := x];
    if x.isModule {
      assert Regular(w) == Regular(v);
    } else {
      assert Regular(v) == Regular(w) + {c};
    }
  }

  lemma CountSameType(v: map<Cid, Client>, byType: BType -> int, blocked: int, c: Cid, x: Client)
    requires CountersOk(v, byType, blocked) && c in v && x.btype == v[c].btype && x.isModule == v[c].isModule
    ensures CountersOk(v[c := x], byType, blocked)
  {
    var w := v[c := x];
    forall t: BType | t != NoBlock ensures TypeCount(w, byType, t) {
      assert TypeCount(v, byType, t);
      assert OfType(w, t) == OfType(v, t);
    }
    assert Regular(w) == Regular(v);
  }
}
