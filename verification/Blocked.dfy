/**
 * Blocking and unblocking clients on keys (redis-stable/src/blocked.c:74-87, 169-215, 335-379, 388-457, 476-523,
 * 536-618, 666-708). Re-running a command is a script: what the key holds at each visit, which keys the command
 * signals, and whether it blocks its client again.
 */
module Blocked {
  import opened Basics
  import opened Distinct
  import opened BlockedIndex

  /** Object types; `OOther` never blocks. */
  datatype OType = OList | OZset | OStream | OModule | OOther

  /** `getBlockedTypeByType`. */
  function BlockedTypeOf(t: OType): BType {
    match t
    case OList => BList
    case OZset => BZset
    case OStream => BStream
    case OModule => BModule
    case OOther => NoBlock
  }

  datatype Sig = Sig(dk: DbKey, otype: OType, deleted: bool)

  datatype Request = Request(btype: BType, keys: seq<string>, nokey: bool)

  /** One visit to a waiter: what the key holds then, what its command signals, and how it blocks again. */
  datatype Visit = Visit(found: Option<OType>, signals: seq<Sig>, again: Option<Request>)

  const QUIET := Visit(None, [], None)

  predicate OnKeys(t: BType) {
    t.BList? || t.BZset? || t.BStream? || t.BModule?
  }

  predicate ScriptOk(script: seq<Visit>) {
    forall v <- script :: v.again.Some? ==> OnKeys(v.again.value.btype)
  }

  function VisitAt(script: seq<Visit>, i: nat): Visit {
    if i < |script| then script[i] else QUIET
  }

  /** Whether a waiter is served when it is visited. */
  predicate Served(x: Client, v: Visit) {
    || (v.found.Some? && x.btype == BlockedTypeOf(v.found.value))
    || (v.found.Some? && x.btype == BModule)
    || x.nokey
  }

  /** Whether serving it re-runs its command; a module client is only told. */
  predicate Rerun(x: Client, v: Visit) {
    Served(x, v) && x.btype != BModule
  }

  function SetOf(keys: seq<string>): set<string> {
    set k <- keys
  }

  function KeysOf(r: Option<Request>): set<string> {
    if r.Some? then SetOf(r.value.keys) else {}
  }

  predicate BlocksOn(r: Option<Request>, db: nat, dk: DbKey) {
    dk.db == db && dk.key in KeysOf(r)
  }

  /** What running its command leaves of a client that is not blocked. */
  function Ran(x: Client, again: Option<Request>): Client {
    match again
    case Some(r) => x.(btype := r.btype, keys := SetOf(r.keys), nokey := r.nokey, pending := x.pending || r.btype != BModule)
    case None => x
  }

  /** What re-running its command leaves of a client: blocked again, or queued for its next command. */
  function Reblocked(x: Client, again: Option<Request>): Client {
    var idle := x.(btype := NoBlock, keys := {}, nokey := false, pending := false);
    if again.Some? then Ran(idle, again) else idle.(unblocked := x.unblocked || !x.isModule)
  }

  /** What a visit leaves of a waiter. */
  function AfterVisit(x: Client, v: Visit): Client {
    if Rerun(x, v) then Reblocked(x, v.again) else x
  }

  /** The waiter visited in turn `i` is as its visit left it. */
  predicate SettledAt(now: map<Cid, Client>, v: map<Cid, Client>, visited: seq<Cid>, script: seq<Visit>, i: nat)
    requires i < |visited|
  {
    var c := visited[i];
    c in v && c in now && now[c] == AfterVisit(v[c], VisitAt(script, i))
  }

  /** Every waiter visited is as its visit left it, all other clients are as they were. */
  ghost predicate Settled(now: map<Cid, Client>, v: map<Cid, Client>, visited: seq<Cid>, script: seq<Visit>) {
    && now.Keys == v.Keys
    && (forall i | 0 <= i < |visited| :: SettledAt(now, v, visited, script, i))
    && forall d <- v | d !in visited :: now[d] == v[d]
  }

  /** Keys were queued, at the end of both the history `q` and the queue `r`, and nothing else happened to them. */
  ghost predicate Grew(q0: seq<DbKey>, r0: seq<DbKey>, q: seq<DbKey>, r: seq<DbKey>) {
    q0 <= q && r == r0 + q[|q0|..]
  }

  lemma GrewMore(q0: seq<DbKey>, r0: seq<DbKey>, q1: seq<DbKey>, r1: seq<DbKey>, q2: seq<DbKey>, r2: seq<DbKey>)
    requires Grew(q0, r0, q1, r1) && Grew(q1, r1, q2, r2)
    ensures Grew(q0, r0, q2, r2)
  {
    assert q2[|q0|..] == q1[|q0|..] + q2[|q1|..];
    SeqAssoc(r0, q1[|q0|..], q2[|q1|..]);
  }

  lemma GrewNot(q: seq<DbKey>, r: seq<DbKey>)
    ensures Grew(q, r, q, r)
  {
  }

  /** Waiters among the first `i` that keep their place. */
  function Stayed(v: map<Cid, Client>, init: seq<Cid>, script: seq<Visit>, i: nat): seq<Cid>
    requires i <= |init| && forall c <- init :: c in v
  {
    if i == 0 then []
    else
      var c := init[i - 1];
      if Rerun(v[c], VisitAt(script, i - 1)) then Stayed(v, init, script, i - 1) else Stayed(v, init, script, i - 1) + [c]
  }

  /** Waiters among the first `i` that were served and block on the same key again. */
  function Returned(v: map<Cid, Client>, init: seq<Cid>, script: seq<Visit>, dk: DbKey, i: nat): seq<Cid>
    requires i <= |init| && forall c <- init :: c in v
  {
    if i == 0 then []
    else
      var c := init[i - 1];
      if Rerun(v[c], VisitAt(script, i - 1)) && BlocksOn(VisitAt(script, i - 1).again, v[c].db, dk)
      then Returned(v, init, script, dk, i - 1) + [c]
      else Returned(v, init, script, dk, i - 1)
  }

  /** The waiters after `i` visits: passed over, still to visit, back again. */
  function Shape(v: map<Cid, Client>, init: seq<Cid>, script: seq<Visit>, dk: DbKey, i: nat): seq<Cid>
    requires i <= |init| && forall c <- init :: c in v
  {
    Stayed(v, init, script, i) + init[i..] + Returned(v, init, script, dk, i)
  }

  ghost predicate PlannedAt(shapes: seq<seq<Cid>>, v: map<Cid, Client>, init: seq<Cid>, script: seq<Visit>, dk: DbKey, i: nat)
    requires i < |shapes| == |init| + 1 && forall c <- init :: c in v
  {
    shapes[i] == Shape(v, init, script, dk, i)
  }

  ghost predicate Planned(shapes: seq<seq<Cid>>, v: map<Cid, Client>, init: seq<Cid>, script: seq<Visit>, dk: DbKey) {
    && |shapes| == |init| + 1 && (forall c <- init :: c in v)
    && forall i | 0 <= i < |shapes| :: PlannedAt(shapes, v, init, script, dk, i)
  }

  lemma Plan(v: map<Cid, Client>, init: seq<Cid>, script: seq<Visit>, dk: DbKey) returns (shapes: seq<seq<Cid>>)
    requires forall c <- init :: c in v
    ensures Planned(shapes, v, init, script, dk) && shapes[0] == init
    ensures shapes[|init|] == Stayed(v, init, script, |init|) + Returned(v, init, script, dk, |init|)
  {
    shapes := seq(|init| + 1, i requires 0 <= i <= |init| => Shape(v, init, script, dk, i));
    assert Stayed(v, init, script, |init|) + [] == Stayed(v, init, script, |init|);
  }

  /** The node after a client's node. */
  function Succ(l: seq<Cid>, c: Cid): Option<Cid> {
    if l == [] then None
    else if l[0] == c then if |l| > 1 then Some(l[1]) else None
    else Succ(l[1..], c)
  }

  lemma {:induction false} SuccIs(a: seq<Cid>, c: Cid, b: seq<Cid>)
    requires c !in a
    ensures Succ(a + [c] + b, c) == if b == [] then None else Some(b[0])
  {
    var l := a + [c] + b;
    if a != [] {
      assert l[0] == a[0] && a[0] in a;
      assert l[1..] == a[1..] + [c] + b;
      SuccIs(a[1..], c, b);
    }
  }

  lemma MinusAt(a: seq<Cid>, c: Cid, b: seq<Cid>)
    requires c !in a && c !in b
    ensures Minus(a + [c] + b, c) == a + b
  {
    MinusAppend(a + [c], b, c);
    MinusAppend(a, [c], c);
    MinusAbsent(a, c);
    MinusAbsent(b, c);
    assert a + [] == a;
  }

  /** Fields that go together in one client. */
  predicate ClientOk(x: Client) {
    && (x.keys != {} || x.nokey ==> OnKeys(x.btype))
    && (x.btype.BList? || x.btype.BZset? || x.btype.BStream? ==> x.pending)
  }

  predicate ClientAt(v: map<Cid, Client>, c: Cid) {
    c in v ==> ClientOk(v[c])
  }

  ghost predicate ClientsOk(v: map<Cid, Client>) {
    forall c: Cid :: ClientAt(v, c)
  }

  predicate QueuedOk(v: map<Cid, Client>, q: seq<Cid>, c: Cid) {
    c in q <==> c in v && v[c].unblocked
  }

  /** A client is queued for reprocessing exactly when it is flagged so, and once. */
  ghost predicate QueueOk(v: map<Cid, Client>, q: seq<Cid>) {
    NoDup(q) && forall c: Cid :: QueuedOk(v, q, c)
  }

  /** The queued keys are distinct and are the ones the databases have marked. */
  ghost predicate ReadyOk(batch: seq<DbKey>, ready: seq<DbKey>, marked: set<DbKey>) {
    NoDup(batch + ready) && forall dk: DbKey :: dk in marked <==> dk in batch || dk in ready
  }

  class Server {
    var clients: map<Cid, Client>
    var blocking: Waiters
    var nokeys: NoKeys
    var byType: BType -> int
    var blockedClients: int
    var unblockedClients: seq<Cid>
    var readyKeys: seq<DbKey>
    var readySet: set<DbKey>
    var batch: seq<DbKey>
    var handling: bool  // in_handling_blocked_clients
    ghost var queued: seq<DbKey>  // every key ever put into readyKeys
    ghost var passes: seq<DbKey>  // every key whose waiters were visited

    ghost predicate Valid()
      reads this
    {
      && IndexOk(clients, blocking, nokeys)
      && CountersOk(clients, byType, blockedClients)
      && ClientsOk(clients)
      && QueueOk(clients, unblockedClients)
      && ReadyOk(batch, readyKeys, readySet)
    }

    constructor ()
      ensures Valid() && clients == map[] && readyKeys == [] && batch == [] && !handling
    {
      clients, blocking, nokeys, byType, blockedClients := map[], map[], map[], _ => 0, 0;
      unblockedClients, readyKeys, readySet, batch, handling, queued, passes := [], [], {}, [], false, [], [];
    }

    /** A client connects; its blocking state is the initial one (`initClientBlockingState`). */
    method Connect(c: Cid, db: nat, isModule: bool)
      requires Valid() && c !in clients
      modifies this`clients
      ensures Valid() && clients == old(clients)[c := Client(db, isModule, NoBlock, {}, false, false, false)]
    {
      var x := Client(db, isModule, NoBlock, {}, false, false, false);
      IdleClient(clients, blocking, nokeys, c, x);
      ConnectClient(clients, byType, blockedClients, unblockedClients, c, x);
      clients := clients[c := x];
    }

    /** `blockClient`. */
    method BlockClient(c: Cid, btype: BType)
      requires c in clients && clients[c].btype == NoBlock && btype != NoBlock && CountersOk(clients, byType, blockedClients)
      modifies this`clients, this`byType, this`blockedClients
      ensures clients == old(clients)[c := old(clients)[c].(btype := btype)] && CountersOk(clients, byType, blockedClients)
    {
      CountBlocked(clients, byType, blockedClients, c, clients[c].(btype := btype));
      clients := clients[c := clients[c].(btype := btype)];
      if !clients[c].isModule { blockedClients := blockedClients + 1; }
      byType := Bumped(byType, btype, 1);
    }

    /** One key of `blockForKeys`; the wish is recorded in the client only after the last key. */
    method LinkKey(c: Cid, key: string, nokey: bool)
      requires c in clients && IndexOk(clients[c := clients[c].(nokey := nokey)], blocking, nokeys)
      modifies this`clients, this`blocking, this`nokeys
      ensures clients == old(clients)[c := old(clients)[c].(keys := old(clients)[c].keys + {key})]
      ensures IndexOk(clients[c := clients[c].(nokey := nokey)], blocking, nokeys)
      ensures var dk := DbKey(clients[c].db, key);
              blocking == if key in old(clients)[c].keys then old(blocking) else Linked(old(blocking), dk, c)
    {
      ghost var view := clients[c := clients[c].(nokey := nokey)];
      ghost var more := clients[c].keys + {key};
      if key !in clients[c].keys {
        AddOk(view, blocking, nokeys, c, key);
        blocking := Linked(blocking, DbKey(clients[c].db, key), c);
        if nokey { nokeys := Raised(nokeys, DbKey(clients[c].db, key)); }
        clients := clients[c := clients[c].(keys := clients[c].keys + {key})];
        assert view[c := view[c].(keys := more)] == clients[c := clients[c].(nokey := nokey)];
      } else {
        assert clients[c].keys == more;
      }
    }

    method LinkKeys(c: Cid, keys: seq<string>, nokey: bool)
      requires c in clients && clients[c].keys == {} && IndexOk(clients, blocking, nokeys)
      modifies this`clients, this`blocking, this`nokeys
      ensures clients == old(clients)[c := old(clients)[c].(keys := SetOf(keys))]
      ensures IndexOk(clients[c := clients[c].(nokey := nokey)], blocking, nokeys)
      ensures Joined(old(blocking), blocking, c, clients[c].db, SetOf(keys))
    {
      IdleClient(clients, blocking, nokeys, c, clients[c].(nokey := nokey));
      var j := 0;
      JoinedNone(blocking, c, clients[c].db);
      assert keys[..0] == [] && SetOf([]) == {};
      while j < |keys|
        invariant 0 <= j <= |keys| && clients == old(clients)[c := old(clients)[c].(keys := SetOf(keys[..j]))]
        invariant IndexOk(clients[c := clients[c].(nokey := nokey)], blocking, nokeys)
        invariant Joined(old(blocking), blocking, c, clients[c].db, SetOf(keys[..j]))
      {
        assert keys[..j + 1] == keys[..j] + [keys[j]];
        assert SetOf(keys[..j + 1]) == SetOf(keys[..j]) + {keys[j]};
        if keys[j] !in clients[c].keys { JoinedMore(old(blocking), blocking, c, clients[c].db, clients[c].keys, keys[j]); } else { assert SetOf(keys[..j + 1]) == SetOf(keys[..j]); }
        LinkKey(c, keys[j], nokey);
        j := j + 1;
      }
      assert keys[..j] == keys;
    }

    /** `blockForKeys`: repeated keys count once, and the client goes to the tail of every list. */
    method BlockForKeys(c: Cid, btype: BType, keys: seq<string>, nokey: bool)
      requires Valid() && c in clients && clients[c].btype == NoBlock && OnKeys(btype)
      modifies this`clients, this`blocking, this`nokeys, this`byType, this`blockedClients
      ensures Valid()
      ensures clients == old(clients)[c := old(clients)[c].(btype := btype, keys := SetOf(keys), nokey := nokey,
                                                            pending := old(clients)[c].pending || btype != BModule)]
      ensures Joined(old(blocking), blocking, c, clients[c].db, SetOf(keys))
    {
      assert ClientAt(clients, c);
      ghost var v := clients;
      LinkKeys(c, keys, nokey);
      ghost var view := clients[c := clients[c].(nokey := nokey)];
      clients := clients[c := clients[c].(nokey := nokey)];
      if btype != BModule { clients := clients[c := clients[c].(pending := true)]; }
      ghost var x := clients[c];
      assert clients == v[c := x] == view[c := x];
      BlockedOk(v, view, blocking, nokeys, byType, blockedClients, unblockedClients, c, x, btype);
      BlockClient(c, btype);
      assert clients == v[c := x.(btype := btype)];
    }

    /** `releaseBlockedEntry`, the server's side; the two assertions of the source are the preconditions used here. */
    method ReleaseBlockedEntry(c: Cid, key: string)
      requires c in clients && DbKey(clients[c].db, key) in blocking
      requires clients[c].nokey ==> DbKey(clients[c].db, key) in nokeys
      modifies this`blocking, this`nokeys
      ensures var dk := DbKey(clients[c].db, key);
              blocking == Unlinked(old(blocking), dk, c) && nokeys == Lowered(old(blocking), old(nokeys), dk, c, clients[c].nokey)
    {
      var dk := DbKey(clients[c].db, key);
      var l := Minus(blocking[dk], c);
      if |l| == 0 {
        blocking := blocking - {dk};
        nokeys := nokeys - {dk};
      } else {
        blocking := blocking[dk := l];
        if clients[c].nokey {
          if nokeys[dk] <= 1 { nokeys := nokeys - {dk}; } else { nokeys := nokeys[dk := nokeys[dk] - 1]; }
        }
      }
    }

    /** `unblockClientWaitingData`: the client leaves every list; then its key set is emptied at once. */
    method UnblockClientWaitingData(c: Cid)
      requires c in clients && IndexOk(clients, blocking, nokeys)
      modifies this`clients, this`blocking, this`nokeys
      ensures clients == old(clients)[c := old(clients)[c].(keys := {})] && IndexOk(clients, blocking, nokeys)
      ensures Leaving(old(blocking), blocking, c, clients[c].db, {})
    {
      ghost var view := clients;
      var rest := clients[c].keys;
      LeavingStart(clients, blocking, nokeys, c);
      while rest != {}
        modifies this`blocking, this`nokeys
        invariant view == clients[c := clients[c].(keys := rest)] && IndexOk(view, blocking, nokeys)
        invariant Leaving(old(blocking), blocking, c, clients[c].db, rest)
        decreases rest
      {
        var key :| key in rest;
        ReleaseOk(view, blocking, nokeys, c, key);
        LeavingMore(old(blocking), blocking, c, clients[c].db, rest, key);
        ReleaseBlockedEntry(c, key);
        rest := rest - {key};
        view := view[c := view[c].(keys := rest)];
      }
      clients := clients[c := clients[c].(keys := {})];
    }

    /** `queueClientForReprocessing`: at most once. */
    method QueueClientForReprocessing(c: Cid)
      requires Valid() && c in clients
      modifies this`clients, this`unblockedClients
      ensures Valid() && clients == old(clients)[c := old(clients)[c].(unblocked := true)]
      ensures unblockedClients == if old(clients)[c].unblocked then old(unblockedClients) else old(unblockedClients) + [c]
    {
      if !clients[c].unblocked {
        var x := clients[c].(unblocked := true);
        SameWish(clients, blocking, nokeys, c, x);
        CountSameType(clients, byType, blockedClients, c, x);
        QueueClient(clients, unblockedClients, c);
        clients := clients[c := x];
        unblockedClients := unblockedClients + [c];
      }
    }

    /** The switch of `unblockClient` over the blocking types. */
    method LeaveKeys(c: Cid)
      requires c in clients && IndexOk(clients, blocking, nokeys) && ClientsOk(clients)
      modifies this`clients, this`blocking, this`nokeys
      ensures clients == old(clients)[c := old(clients)[c].(keys := {})] && IndexOk(clients, blocking, nokeys)
      ensures Leaving(old(blocking), blocking, c, clients[c].db, {})
    {
      assert ClientAt(clients, c);
      if OnKeys(clients[c].btype) {
        UnblockClientWaitingData(c);
      } else {
        LeavingStart(clients, blocking, nokeys, c);
        assert clients == clients[c := clients[c].(keys := {})];
      }
    }

    /** `unblockClient`. */
    method UnblockClient(c: Cid, queue: bool)
      requires Valid() && c in clients && clients[c].btype != NoBlock
      modifies this`clients, this`blocking, this`nokeys, this`byType, this`blockedClients, this`unblockedClients
      ensures Valid()
      ensures clients == old(clients)[c := old(clients)[c].(btype := NoBlock, keys := {}, nokey := false,
                                                            unblocked := old(clients)[c].unblocked || queue)]
      ensures Leaving(old(blocking), blocking, c, clients[c].db, {})
    {
      ghost var v := clients;
      LeaveKeys(c);
      var x := clients[c].(btype := NoBlock, nokey := false);
      UnblockedOk(v, clients, blocking, nokeys, byType, blockedClients, unblockedClients, c, x);
      if !clients[c].isModule { blockedClients := blockedClients - 1; }
      byType := Bumped(byType, clients[c].btype, -1);
      clients := clients[c := x];
      if queue { QueueClientForReprocessing(c); }
    }

    /** `unblockClientOnTimeout` and `unblockClientOnError`: the pending command is not run again. */
    method UnblockClientWithReply(c: Cid)
      requires Valid() && c in clients && clients[c].btype != NoBlock
      modifies this`clients, this`blocking, this`nokeys, this`byType, this`blockedClients, this`unblockedClients
      ensures Valid()
      ensures clients == old(clients)[c := old(clients)[c].(btype := NoBlock, keys := {}, nokey := false,
                                                            pending := false, unblocked := true)]
      ensures Leaving(old(blocking), blocking, c, clients[c].db, {})
    {
      UnblockClient(c, true);
      ClearPending(c);
    }

    /** Clears CLIENT_PENDING_COMMAND of a client that is not blocked. */
    method ClearPending(c: Cid)
      requires Valid() && c in clients && clients[c].btype == NoBlock
      modifies this`clients
      ensures Valid() && clients == old(clients)[c := old(clients)[c].(pending := false)]
    {
      var x := clients[c].(pending := false);
      assert ClientAt(clients, c);
      ClientChange(clients, unblockedClients, c, x);
      SameWish(clients, blocking, nokeys, c, x);
      CountSameType(clients, byType, blockedClients, c, x);
      clients := clients[c := x];
    }

    /**
     * `signalKeyAsReadyLogic`: the key is marked, and queued if it was not yet, exactly when some client could be
     * served: one is blocked on that type or by a module, and one waits for the key (and, for a deletion, wants
     * to hear of it).
     */
    method SignalKeyAsReady(sig: Sig)
      requires Valid()
      modifies this`readyKeys, this`readySet, this`queued
      ensures Valid() && Grew(old(queued), old(readyKeys), queued, readyKeys)
      ensures var bt, dk := BlockedTypeOf(sig.otype), sig.dk;
              readySet == old(readySet) +
                (if bt != NoBlock && (exists c <- clients :: clients[c].btype == bt || clients[c].btype == BModule) &&
                    exists c <- clients :: Waits(clients, dk, c) && (sig.deleted ==> clients[c].nokey)
                 then {dk} else {})
      ensures readyKeys == if sig.dk in readySet && sig.dk !in old(readySet) then old(readyKeys) + [sig.dk] else old(readyKeys)
    {
      var bt, dk := BlockedTypeOf(sig.otype), sig.dk;
      if bt == NoBlock { return; }
      NobodyBlocked(clients, byType, blockedClients, bt);
      if byType(bt) == 0 && byType(BModule) == 0 { return; }
      WaiterExists(clients, blocking, nokeys, dk);
      if sig.deleted {
        if dk !in nokeys { return; }
      } else {
        if dk !in blocking { return; }
      }
      if dk in readySet { return; }
      QueueReady(batch, readyKeys, readySet, dk);
      readySet := readySet + {dk};
      readyKeys := readyKeys + [dk];
      queued := queued + [dk];
    }

    /** Runs the command of a client just unblocked: it may signal keys, and may block again. */
    method Reprocess(c: Cid, visit: Visit)
      requires Valid() && c in clients && clients[c].btype == NoBlock && (visit.again.Some? ==> OnKeys(visit.again.value.btype))
      modifies this`clients, this`blocking, this`nokeys, this`byType, this`blockedClients, this`readyKeys, this`readySet, this`queued
      ensures Valid() && Grew(old(queued), old(readyKeys), queued, readyKeys) && (visit.signals == [] ==> readyKeys == old(readyKeys))
      ensures clients == old(clients)[c := Ran(old(clients)[c], visit.again)]
      ensures Joined(old(blocking), blocking, c, old(clients)[c].db, KeysOf(visit.again))
    {
      SignalAll(visit.signals);
      if visit.again.Some? {
        var r := visit.again.value;
        BlockForKeys(c, r.btype, r.keys, r.nokey);
      } else {
        JoinedNone(blocking, c, clients[c].db);
      }
    }

    /** `releaseBlockedEntry` with the key removed from the client's side too. */
    method ReleaseKey(c: Cid, key: string)
      requires Valid() && c in clients && key in clients[c].keys
      modifies this`clients, this`blocking, this`nokeys
      ensures Valid() && clients == old(clients)[c := old(clients)[c].(keys := old(clients)[c].keys - {key})]
      ensures Leaving(old(blocking), blocking, c, clients[c].db, clients[c].keys)
    {
      LeavingStart(clients, blocking, nokeys, c);
      ReleaseOk(clients, blocking, nokeys, c, key);
      var x := clients[c].(keys := clients[c].keys - {key});
      assert ClientAt(clients, c);
      ClientChange(clients, unblockedClients, c, x);
      CountSameType(clients, byType, blockedClients, c, x);
      LeavingMore(blocking, blocking, c, clients[c].db, clients[c].keys, key);
      ReleaseBlockedEntry(c, key);
      clients := clients[c := x];
    }

    /** The first half of `unblockClientOnKey`. */
    method LeaveLists(c: Cid, key: string)
      requires Valid() && c in clients && key in clients[c].keys
      modifies this`clients, this`blocking, this`nokeys, this`byType, this`blockedClients, this`unblockedClients
      ensures Valid() && clients == old(clients)[c := old(clients)[c].(btype := NoBlock, keys := {}, nokey := false)]
      ensures Leaving(old(blocking), blocking, c, clients[c].db, {})
    {
      assert ClientAt(clients, c);
      ghost var v := clients;
      ReleaseKey(c, key);
      ghost var b, x := blocking, clients[c];
      UnblockClient(c, false);
      ghost var mid: map<Cid, Client> := v[c := x];
      assert clients == mid[c := clients[c]] == v[c := clients[c]];
      LeavingTwice(old(blocking), b, blocking, c, clients[c].db, x.keys);
    }

    /** `unblockClientOnKey`: leave every list, then run the command again. */
    method UnblockClientOnKey(c: Cid, key: string, visit: Visit)
      requires Valid() && c in clients && key in clients[c].keys && clients[c].btype != BModule
      requires visit.again.Some? ==> OnKeys(visit.again.value.btype)
      modifies this
      ensures Valid() && batch == old(batch) && passes == old(passes)
      ensures Grew(old(queued), old(readyKeys), queued, readyKeys) && (visit.signals == [] ==> readyKeys == old(readyKeys))
      ensures clients == old(clients)[c := Reblocked(old(clients)[c], visit.again)]
      ensures forall dk: DbKey :: WaitersOf(blocking, dk) ==
                Minus(old(WaitersOf(blocking, dk)), c) + (if BlocksOn(visit.again, old(clients)[c].db, dk) then [c] else [])
    {
      assert ClientAt(clients, c);
      LeaveLists(c, key);
      ghost var b := blocking;
      if clients[c].pending {
        RunAgain(c, visit);
        LeftAndJoined(old(blocking), b, blocking, c, old(clients)[c].db, visit.again);
      }
    }

    /** The second half: the pending command of a client that has left its lists. */
    method RunAgain(c: Cid, visit: Visit)
      requires Valid() && c in clients && clients[c].btype == NoBlock && (visit.again.Some? ==> OnKeys(visit.again.value.btype))
      requires clients[c].keys == {} && !clients[c].nokey
      modifies this
      ensures Valid() && batch == old(batch) && passes == old(passes)
      ensures Grew(old(queued), old(readyKeys), queued, readyKeys) && (visit.signals == [] ==> readyKeys == old(readyKeys))
      ensures clients == old(clients)[c := Reblocked(old(clients)[c], visit.again)]
      ensures Joined(old(blocking), blocking, c, old(clients)[c].db, KeysOf(visit.again))
    {
      ghost var v, idle := clients, clients[c].(pending := false);
      ClearPending(c);
      Reprocess(c, visit);
      assert clients == v[c := Ran(idle, visit.again)];
      if clients[c].btype == NoBlock && !clients[c].isModule { QueueClientForReprocessing(c); }
    }

    /** One turn of the loop in `handleClientsBlockedOnKey`. */
    method VisitWaiter(c: Cid, dk: DbKey, visit: Visit)
      requires Valid() && Waits(clients, dk, c) && (visit.again.Some? ==> OnKeys(visit.again.value.btype))
      modifies this
      ensures Valid() && batch == old(batch) && passes == old(passes)
      ensures Grew(old(queued), old(readyKeys), queued, readyKeys) && (visit.signals == [] ==> readyKeys == old(readyKeys))
      ensures clients == old(clients)[c := AfterVisit(old(clients)[c], visit)]
      ensures WaitersOf(blocking, dk) ==
              if Rerun(old(clients)[c], visit)
              then Minus(old(WaitersOf(blocking, dk)), c) + (if BlocksOn(visit.again, old(clients)[c].db, dk) then [c] else [])
              else old(WaitersOf(blocking, dk))
    {
      GrewNot(queued, readyKeys);
      if Served(clients[c], visit) {
        if clients[c].btype != BModule {
          UnblockClientOnKey(c, dk.key, visit);
        } else {
          SignalAll(visit.signals);
        }
      }
    }

    /** A pass over a key with some waiters visited: they were the first ones, the others are as they were. */
    ghost predicate Passing(v: map<Cid, Client>, init: seq<Cid>, script: seq<Visit>, dk: DbKey, shapes: seq<seq<Cid>>, visited: seq<Cid>)
      reads this
    {
      && Valid() && Planned(shapes, v, init, script, dk)
      && |visited| <= |init| && visited == init[..|visited|]
      && Settled(clients, v, visited, script)
      && WaitersOf(blocking, dk) == shapes[|visited|]
    }

    /** One turn of the loop: the next node is fetched before the client is served. */
    method Turn(c: Cid, dk: DbKey, script: seq<Visit>, i: nat, ghost v: map<Cid, Client>, ghost init: seq<Cid>, ghost shapes: seq<seq<Cid>>)
      returns (next: Option<Cid>)
      requires ScriptOk(script) && i < |init| && c == init[i] && c !in init[..i] && Passing(v, init, script, dk, shapes, init[..i])
      modifies this
      ensures Passing(v, init, script, dk, shapes, init[..i] + [c])
      ensures batch == old(batch) && passes == old(passes)
      ensures Grew(old(queued), old(readyKeys), queued, readyKeys) && (script == [] ==> readyKeys == old(readyKeys))
      ensures i + 1 < |init| ==> next == Some(init[i + 1])
    {
      PassStep(clients, blocking, nokeys, v, init, script, dk, shapes, i);
      next := Succ(blocking[dk], c);
      SettledNext(clients, v, init[..i], c, script);
      VisitWaiter(c, dk, VisitAt(script, i));
      assert init[..i] + [c] == init[..i + 1];
    }

    /**
     * `handleClientsBlockedOnKey`. One pass visits every client that was waiting when it began, each once, in the
     * order they blocked, whatever the commands do; afterwards the waiters are those passed over, in their old
     * order, then those that blocked again, in the order they were served. Each client visited is as its visit left
     * it, and keys signalled meanwhile are queued behind those queued before.
     */
    method HandleClientsBlockedOnKey(dk: DbKey, script: seq<Visit>) returns (visited: seq<Cid>)
      requires Valid() && ScriptOk(script)
      modifies this
      ensures Valid() && batch == old(batch) && passes == old(passes) + [dk]
      ensures Grew(old(queued), old(readyKeys), queued, readyKeys) && (script == [] || visited == [] ==> readyKeys == old(readyKeys))
      ensures visited == old(WaitersOf(blocking, dk)) && Settled(clients, old(clients), visited, script)
      ensures (forall c <- visited :: c in old(clients)) &&
              WaitersOf(blocking, dk) == Stayed(old(clients), visited, script, |visited|) + Returned(old(clients), visited, script, dk, |visited|)
    {
      AllKnown(clients, blocking, nokeys, dk);
      visited := [];
      passes := passes + [dk];
      GrewNot(queued, readyKeys);
      if dk in blocking {
        FirstWaiter(clients, blocking, nokeys, dk);
        visited := VisitAll(dk, script);
      }
    }

    /** The loop over the waiters of a key. */
    method VisitAll(dk: DbKey, script: seq<Visit>) returns (visited: seq<Cid>)
      requires Valid() && ScriptOk(script) && dk in blocking && forall c <- blocking[dk] :: c in clients
      modifies this
      ensures Valid() && batch == old(batch) && passes == old(passes)
      ensures Grew(old(queued), old(readyKeys), queued, readyKeys) && (script == [] ==> readyKeys == old(readyKeys))
      ensures visited == old(blocking[dk]) && Settled(clients, old(clients), visited, script)
      ensures WaitersOf(blocking, dk) == Stayed(old(clients), visited, script, |visited|) + Returned(old(clients), visited, script, dk, |visited|)
    {
      ghost var init, v, b0, n0 := blocking[dk], clients, blocking, nokeys;
      visited := [];
      GrewNot(queued, readyKeys);
      FirstWaiter(clients, blocking, nokeys, dk);
      ghost var shapes := Plan(v, init, script, dk);
      var next, count := Some(blocking[dk][0]), |blocking[dk]|;
      while next.Some? && count > 0
        invariant Passing(v, init, script, dk, shapes, visited)
        invariant batch == old(batch) && passes == old(passes)
        invariant Grew(old(queued), old(readyKeys), queued, readyKeys) && (script == [] ==> readyKeys == old(readyKeys))
        invariant count == |init| - |visited| && (count > 0 ==> next == Some(init[|visited|]))
        decreases count
      {
        var c, i := next.value, |visited|;
        FirstVisit(v, b0, n0, dk, i);
        ghost var q1, r1 := queued, readyKeys;
        next := Turn(c, dk, script, i, v, init, shapes);
        GrewMore(old(queued), old(readyKeys), q1, r1, queued, readyKeys);
        count := count - 1;
        visited := visited + [c];
      }
      assert visited == init;
    }

    /** The inner loop of `handleClientsBlockedOnKeys`: each key of the batch gets one pass, in order. */
    method DrainBatch(script: seq<Visit>) returns (handled: seq<DbKey>, rest: seq<Visit>)
      requires Valid() && ScriptOk(script)
      modifies this
      ensures Valid() && batch == [] && handled == old(batch) && passes == old(passes) + handled
      ensures Grew(old(queued), old(readyKeys), queued, readyKeys)
      ensures ScriptOk(rest) && |rest| <= |script| && (|rest| == |script| ==> readyKeys == old(readyKeys))
    {
      handled, rest := [], script;
      GrewNot(queued, readyKeys);
      while batch != []
        invariant Valid() && ScriptOk(rest) && handled + batch == old(batch) && passes == old(passes) + handled
        invariant Grew(old(queued), old(readyKeys), queued, readyKeys)
        invariant |rest| <= |script| && (|rest| == |script| ==> readyKeys == old(readyKeys))
        decreases |batch|
      {
        var dk := batch[0];
        TakeReady(batch, readyKeys, readySet);
        assert handled + batch == handled + [dk] + batch[1..];
        readySet := readySet - {dk};
        batch := batch[1..];
        ghost var q1, r1 := queued, readyKeys;
        var visited := HandleClientsBlockedOnKey(dk, rest);
        GrewMore(old(queued), old(readyKeys), q1, r1, queued, readyKeys);
        rest := if |visited| < |rest| then rest[|visited|..] else [];
        handled := handled + [dk];
      }
    }

    /**
     * `handleClientsBlockedOnKeys`: batches are drained while commands signal further keys. The keys get one pass
     * each time they were queued, in the order of the queue: those queued at the start, then every key queued during
     * the drain. None is left at the end. A call from within the drain returns at once.
     */
    method HandleClientsBlockedOnKeys(script: seq<Visit>) returns (handled: seq<DbKey>)
      requires Valid() && ScriptOk(script) && (!handling ==> batch == [])
      modifies this
      ensures Valid() && handling == old(handling) && passes == old(passes) + handled
      ensures old(handling) ==> unchanged(this) && handled == []
      ensures !old(handling) ==> readyKeys == [] && batch == [] && readySet == {}
      ensures !old(handling) ==> old(queued) <= queued && handled == old(readyKeys) + queued[|old(queued)|..]
    {
      handled := [];
      if handling { return; }
      handling := true;
      var rest := script;
      GrewNot(queued, readyKeys);
      while readyKeys != []
        invariant Valid() && ScriptOk(rest) && batch == [] && passes == old(passes) + handled
        invariant Grew(old(queued), old(readyKeys), queued, handled + readyKeys)
        decreases |rest|, |readyKeys|
      {
        assert batch + readyKeys == readyKeys + [];
        batch, readyKeys := readyKeys, [];
        var more;
        ghost var q1 := queued;
        more, rest := DrainBatch(rest);
        handled := handled + more;
        GrewOn(q1, queued, readyKeys, handled);
        GrewMore(old(queued), old(readyKeys), q1, handled, queued, handled + readyKeys);
      }
      NoneLeft(batch, readyKeys, readySet);
      handling := false;
    }

    /** What a module's callback may signal while it serves its client. */
    method SignalAll(signals: seq<Sig>)
      requires Valid()
      modifies this`readyKeys, this`readySet, this`queued
      ensures Valid() && Grew(old(queued), old(readyKeys), queued, readyKeys) && (signals == [] ==> readyKeys == old(readyKeys))
    {
      var i := 0;
      GrewNot(queued, readyKeys);
      while i < |signals|
        invariant 0 <= i <= |signals| && Valid() && (signals == [] ==> readyKeys == old(readyKeys))
        invariant Grew(old(queued), old(readyKeys), queued, readyKeys)
      {
        ghost var q1, r1 := queued, readyKeys;
        SignalKeyAsReady(signals[i]);
        GrewMore(old(queued), old(readyKeys), q1, r1, queued, readyKeys);
        i := i + 1;
      }
    }
  }

  /** Leaving every list, then joining some at the tail. */
  lemma LeftAndJoined(before: Waiters, mid: Waiters, after: Waiters, c: Cid, db: nat, again: Option<Request>)
    requires Leaving(before, mid, c, db, {}) && Joined(mid, after, c, db, KeysOf(again))
    ensures forall dk: DbKey :: WaitersOf(after, dk) == Minus(WaitersOf(before, dk), c) + (if BlocksOn(again, db, dk) then [c] else [])
  {
    forall dk: DbKey
      ensures WaitersOf(after, dk) == Minus(WaitersOf(before, dk), c) + (if BlocksOn(again, db, dk) then [c] else [])
    {
      assert LeavingAt(before, mid, c, db, {}, dk);
      assert JoinedAt(mid, after, c, db, KeysOf(again), dk);
    }
  }

  /** The same keys behind another queue. */
  lemma GrewOn(q0: seq<DbKey>, q: seq<DbKey>, r: seq<DbKey>, before: seq<DbKey>)
    requires Grew(q0, [], q, r)
    ensures Grew(q0, before, q, before + r)
  {
    assert [] + q[|q0|..] == q[|q0|..];
  }

  lemma SettledNext(now: map<Cid, Client>, v: map<Cid, Client>, visited: seq<Cid>, c: Cid, script: seq<Visit>)
    requires Settled(now, v, visited, script) && c in v && c !in visited
    ensures Settled(now[c := AfterVisit(now[c], VisitAt(script, |visited|))], v, visited + [c], script)
  {
    var w := now[c := AfterVisit(now[c], VisitAt(script, |visited|))];
    forall i | 0 <= i < |visited + [c]| ensures SettledAt(w, v, visited + [c], script, i) {
      if i < |visited| { assert SettledAt(now, v, visited, script, i); }
    }
  }

  lemma QueueReady(batch: seq<DbKey>, ready: seq<DbKey>, marked: set<DbKey>, dk: DbKey)
    requires ReadyOk(batch, ready, marked) && dk !in marked
    ensures ReadyOk(batch, ready + [dk], marked + {dk})
  {
    var all, more := batch + ready, batch + (ready + [dk]);
    assert more == all + [dk];
    assert dk !in batch && dk !in ready;
    NoDupSnoc(all, dk);
  }

  /** The entry in hand is neither queued nor marked any more. */
  lemma TakeReady(batch: seq<DbKey>, ready: seq<DbKey>, marked: set<DbKey>)
    requires ReadyOk(batch, ready, marked) && batch != []
    ensures ReadyOk(batch[1..], ready, marked - {batch[0]})
  {
    var all := batch + ready;
    NoDupTail(all);
    assert all[1..] == batch[1..] + ready;
    assert batch == [batch[0]] + batch[1..];
  }

  lemma NoneLeft(batch: seq<DbKey>, ready: seq<DbKey>, marked: set<DbKey>)
    requires ReadyOk(batch, ready, marked) && batch == [] && ready == []
    ensures marked == {}
  {
  }

  lemma ClientChange(v: map<Cid, Client>, q: seq<Cid>, c: Cid, x: Client)
    requires ClientsOk(v) && QueueOk(v, q) && c in v && ClientOk(x) && x.unblocked == v[c].unblocked
    ensures ClientsOk(v[c := x]) && QueueOk(v[c := x], q)
  {
    var w := v[c := x];
    forall d: Cid ensures ClientAt(w, d) && QueuedOk(w, q, d) {
      assert ClientAt(v, d) && QueuedOk(v, q, d);
    }
  }

  /** A client that is on its lists takes its block. */
  lemma BlockedOk(v: map<Cid, Client>, view: map<Cid, Client>, b: Waiters, n: NoKeys, byType: BType -> int, blocked: int, q: seq<Cid>,
                  c: Cid, x: Client, btype: BType)
    requires IndexOk(view, b, n) && CountersOk(v, byType, blocked) && ClientsOk(v) && QueueOk(v, q)
    requires c in v && c in view && view[c := x] == v[c := x] && ClientOk(x.(btype := btype)) && x.unblocked == v[c].unblocked
    requires x.db == view[c].db && x.keys == view[c].keys && x.nokey == view[c].nokey && x.btype == v[c].btype && x.isModule == v[c].isModule
    ensures CountersOk(v[c := x], byType, blocked)
    ensures var u := v[c := x.(btype := btype)]; IndexOk(u, b, n) && ClientsOk(u) && QueueOk(u, q)
  {
    var y := x.(btype := btype);
    CountSameType(v, byType, blocked, c, x);
    SameWish(view, b, n, c, y);
    ClientChange(v, q, c, y);
    var mid: map<Cid, Client> := view[c := x];
    assert view[c := y] == mid[c := y] == v[c := y];
  }

  /** A client that has left its lists gives up its block. */
  lemma UnblockedOk(v: map<Cid, Client>, now: map<Cid, Client>, b: Waiters, n: NoKeys, byType: BType -> int, blocked: int, q: seq<Cid>,
                    c: Cid, x: Client)
    requires IndexOk(now, b, n) && CountersOk(v, byType, blocked) && ClientsOk(v) && QueueOk(v, q)
    requires c in v && v[c].btype != NoBlock && now == v[c := v[c].(keys := {})] && x == now[c].(btype := NoBlock, nokey := false)
    ensures now[c := x] == v[c := x] && IndexOk(now[c := x], b, n) && ClientsOk(now[c := x]) && QueueOk(now[c := x], q)
    ensures CountersOk(now[c := x], Bumped(byType, v[c].btype, -1), if x.isModule then blocked else blocked - 1)
  {
    assert now[c := x] == v[c := x];
    assert ClientAt(v, c);
    IdleClient(now, b, n, c, x);
    CountUnblocked(v, byType, blocked, c, x);
    ClientChange(v, q, c, x);
  }

  lemma QueueClient(v: map<Cid, Client>, q: seq<Cid>, c: Cid)
    requires ClientsOk(v) && QueueOk(v, q) && c in v && !v[c].unblocked
    ensures ClientsOk(v[c := v[c].(unblocked := true)]) && QueueOk(v[c := v[c].(unblocked := true)], q + [c])
  {
    var w := v[c := v[c].(unblocked := true)];
    assert ClientAt(v, c) && QueuedOk(v, q, c);
    NoDupSnoc(q, c);
    forall d: Cid ensures ClientAt(w, d) && QueuedOk(w, q + [c], d) {
      assert ClientAt(v, d) && QueuedOk(v, q, d);
    }
  }

  lemma ConnectClient(v: map<Cid, Client>, byType: BType -> int, blocked: int, q: seq<Cid>, c: Cid, x: Client)
    requires ClientsOk(v) && QueueOk(v, q) && CountersOk(v, byType, blocked) && c !in v && x.btype == NoBlock && !x.unblocked && ClientOk(x)
    ensures ClientsOk(v[c := x]) && QueueOk(v[c := x], q) && CountersOk(v[c := x], byType, blocked)
  {
    var w := v[c := x];
    forall d: Cid ensures ClientAt(w, d) && QueuedOk(w, q, d) {
      assert ClientAt(v, d) && QueuedOk(v, q, d);
    }
    forall t: BType | t != NoBlock ensures TypeCount(w, byType, t) {
      assert TypeCount(v, byType, t);
      assert OfType(w, t) == OfType(v, t);
    }
    assert Regular(w) == Regular(v);
  }

  lemma NobodyBlocked(v: map<Cid, Client>, byType: BType -> int, blocked: int, bt: BType)
    requires CountersOk(v, byType, blocked) && bt != NoBlock
    ensures byType(bt) == 0 && byType(BModule) == 0 <==> !exists c <- v :: v[c].btype == bt || v[c].btype == BModule
  {
    assert TypeCount(v, byType, bt) && TypeCount(v, byType, BModule);
    if c :| c in v && (v[c].btype == bt || v[c].btype == BModule) {
      assert c in OfType(v, v[c].btype);
    }
    if OfType(v, bt) != {} { var c :| c in OfType(v, bt); }
    if OfType(v, BModule) != {} { var c :| c in OfType(v, BModule); }
  }

  lemma WaiterExists(v: map<Cid, Client>, b: Waiters, n: NoKeys, dk: DbKey)
    requires IndexOk(v, b, n)
    ensures dk in b <==> exists c <- v :: Waits(v, dk, c)
    ensures dk in n <==> exists c <- v :: Waits(v, dk, c) && v[c].nokey
  {
    assert KeyOk(v, b, n, dk);
    if dk in b {
      assert Listed(b, dk, b[dk][0]);
      CountPositive(v, b[dk]);
      if x :| x in b[dk] && WantsNoKey(v, x) { assert Listed(b, dk, x); }
    }
    if c :| c in v && Waits(v, dk, c) && v[c].nokey {
      assert Listed(b, dk, c) && WantsNoKey(v, c);
    }
    if c :| c in v && Waits(v, dk, c) { assert Listed(b, dk, c); }
  }

  lemma AllKnown(v: map<Cid, Client>, b: Waiters, n: NoKeys, dk: DbKey)
    requires IndexOk(v, b, n)
    ensures forall c <- WaitersOf(b, dk) :: c in v && Waits(v, dk, c)
  {
    assert KeyOk(v, b, n, dk);
    forall c <- WaitersOf(b, dk) ensures Waits(v, dk, c) { assert Listed(b, dk, c); }
  }

  /** The client under the cursor stands once in the list: its successor, and the list without it. */
  lemma Around(v: map<Cid, Client>, bl: Waiters, n: NoKeys, dk: DbKey, a: seq<Cid>, c: Cid, b: seq<Cid>)
    requires IndexOk(v, bl, n) && WaitersOf(bl, dk) == a + [c] + b
    ensures Succ(WaitersOf(bl, dk), c) == (if b == [] then None else Some(b[0])) && Minus(WaitersOf(bl, dk), c) == a + b
  {
    var l := WaitersOf(bl, dk);
    assert KeyOk(v, bl, n, dk);
    NoDupSplit(a, c, b);
    SuccIs(a, c, b);
    MinusAt(a, c, b);
  }

  lemma FirstWaiter(v: map<Cid, Client>, b: Waiters, n: NoKeys, dk: DbKey)
    requires IndexOk(v, b, n) && dk in b
    ensures b[dk] != []
  {
    assert KeyOk(v, b, n, dk);
  }

  lemma FirstVisit(v: map<Cid, Client>, b: Waiters, n: NoKeys, dk: DbKey, i: nat)
    requires IndexOk(v, b, n) && i < |WaitersOf(b, dk)|
    ensures WaitersOf(b, dk)[i] !in WaitersOf(b, dk)[..i]
  {
    assert KeyOk(v, b, n, dk);
    NoDupBefore(b[dk], i);
  }

  /** What one visit does to the shape of the list. */
  lemma ShapeNext(v: map<Cid, Client>, init: seq<Cid>, script: seq<Visit>, dk: DbKey, i: nat) returns (s: seq<Cid>, w: seq<Cid>)
    requires i < |init| && forall c <- init :: c in v
    ensures Shape(v, init, script, dk, i) == s + [init[i]] + w
    ensures var c, visit := init[i], VisitAt(script, i);
            Shape(v, init, script, dk, i + 1) ==
            if Rerun(v[c], visit) then s + w + (if BlocksOn(visit.again, v[c].db, dk) then [c] else []) else s + [c] + w
    ensures i + 1 < |init| ==> w != [] && w[0] == init[i + 1]
  {
    var c, t, r := init[i], init[i + 1..], Returned(v, init, script, dk, i);
    s, w := Stayed(v, init, script, i), t + r;
    assert init[i..] == [c] + t;
    assert s + ([c] + t) + r == s + [c] + w;
    assert s + w == s + t + r;
    assert s + t + r + [c] == s + t + (r + [c]);
    assert s + [c] + w == s + [c] + t + r;
    assert s + w + [] == s + w;
  }

  /** One visit turns the list into the shape of the next turn, and the cursor is already there. */
  lemma PassStep(now: map<Cid, Client>, b: Waiters, n: NoKeys, v: map<Cid, Client>, init: seq<Cid>, script: seq<Visit>, dk: DbKey,
                 shapes: seq<seq<Cid>>, i: nat)
    requires IndexOk(now, b, n) && i < |init| && Planned(shapes, v, init, script, dk) && WaitersOf(b, dk) == shapes[i]
    ensures dk in b && Waits(now, dk, init[i])
    ensures i + 1 < |init| ==> Succ(b[dk], init[i]) == Some(init[i + 1])
    ensures var c, visit := init[i], VisitAt(script, i);
            shapes[i + 1] ==
            if Rerun(v[c], visit)
            then Minus(b[dk], c) + (if BlocksOn(visit.again, v[c].db, dk) then [c] else [])
            else b[dk]
  {
    var c := init[i];
    assert PlannedAt(shapes, v, init, script, dk, i) && PlannedAt(shapes, v, init, script, dk, i + 1);
    var s, w := ShapeNext(v, init, script, dk, i);
    assert c in WaitersOf(b, dk) by { assert (s + [c] + w)[|s|] == c; }
    AllKnown(now, b, n, dk);
    Around(now, b, n, dk, s, c, w);
  }
}
