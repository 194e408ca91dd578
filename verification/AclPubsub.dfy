/**
 * Revoking pub/sub permissions with ACL SETUSER (redis-stable/src/acl.c:1649-1666, 1823-1843, 1901-2032, 2097-2152).
 * The glob matcher is a parameter. A stored pattern is an address with a text: the list of upcoming channels has no
 * match method, so it is searched by address.
 */
module AclPubsub {
  import opened Basics

  datatype Sds = Sds(addr: nat, text: string)

  datatype Selector = Selector(allChannels: bool, channels: seq<Sds>)

  datatype User = User(selectors: seq<Selector>)

  datatype Client = Client(user: nat, pubsub: bool, patterns: seq<string>, channels: seq<string>, shards: seq<string>)

  type Glob = (string, string) -> bool

  // ---------------------------------------------------------------- permissions

  /** What `strcmp` sees of a string: up to its first NUL. */
  function CString(s: string): string {
    if s == "" || s[0] == '\0' then "" else [s[0]] + CString(s[1..])
  }

  /** Patterns are compared literally, names are matched by the glob. */
  predicate Covers(glob: Glob, p: Sds, name: string, isPattern: bool) {
    if isPattern then CString(p.text) == CString(name) else glob(p.text, name)
  }

  predicate ListAllows(glob: Glob, ps: seq<Sds>, name: string, isPattern: bool) {
    exists p <- ps :: Covers(glob, p, name, isPattern)
  }

  predicate UserAllows(glob: Glob, u: User, name: string, isPattern: bool) {
    exists s <- u.selectors :: s.allChannels || ListAllows(glob, s.channels, name, isPattern)
  }

  /** Every subscription of the client is allowed by the user. */
  predicate Allowed(glob: Glob, u: User, c: Client) {
    && (forall x <- c.patterns :: UserAllows(glob, u, x, true))
    && (forall x <- c.channels :: UserAllows(glob, u, x, false))
    && (forall x <- c.shards :: UserAllows(glob, u, x, false))
  }

  predicate Subscribed(c: Client) {
    c.patterns != [] || c.channels != [] || c.shards != []
  }

  /** `ACLCheckChannelAgainstList`. */
  method CheckChannelAgainstList(glob: Glob, reference: seq<Sds>, channel: string, isPattern: bool) returns (ok: bool)
    ensures ok == ListAllows(glob, reference, channel, isPattern)
  {
    var i := 0;
    while i < |reference|
      invariant 0 <= i <= |reference| && forall k | 0 <= k < i :: !Covers(glob, reference[k], channel, isPattern)
    {
      if Covers(glob, reference[i], channel, isPattern) { return true; }
      i := i + 1;
    }
    ok := false;
  }

  /** `ACLUserCheckChannelPerm`. */
  method UserCheckChannelPerm(glob: Glob, u: User, channel: string, isPattern: bool) returns (ok: bool)
    ensures ok == UserAllows(glob, u, channel, isPattern)
  {
    var i := 0;
    while i < |u.selectors|
      invariant 0 <= i <= |u.selectors|
      invariant forall k | 0 <= k < i :: !u.selectors[k].allChannels && !ListAllows(glob, u.selectors[k].channels, channel, isPattern)
    {
      if u.selectors[i].allChannels { return true; }
      var found := CheckChannelAgainstList(glob, u.selectors[i].channels, channel, isPattern);
      if found { return true; }
      i := i + 1;
    }
    ok := false;
  }

  // ---------------------------------------------------------------- the upcoming list

  /** All the patterns of the first `n` selectors, in order. */
  function Patterns(ss: seq<Selector>, n: nat): seq<Sds>
    requires n <= |ss|
  {
    if n == 0 then [] else Patterns(ss, n - 1) + ss[n - 1].channels
  }

  lemma {:induction false} PatternsMembers(ss: seq<Selector>, n: nat)
    requires n <= |ss|
    ensures forall p :: p in Patterns(ss, n) <==> exists k | 0 <= k < n :: p in ss[k].channels
  {
    if n > 0 { PatternsMembers(ss, n - 1); }
  }

  /** Without an all-channels selector, the list allows what the user allows. */
  lemma PatternsAllow(glob: Glob, u: User, name: string, isPattern: bool)
    requires forall s <- u.selectors :: !s.allChannels
    ensures ListAllows(glob, Patterns(u.selectors, |u.selectors|), name, isPattern) == UserAllows(glob, u, name, isPattern)
  {
    var ps := Patterns(u.selectors, |u.selectors|);
    PatternsMembers(u.selectors, |u.selectors|);
    if p :| p in ps && Covers(glob, p, name, isPattern) {
      var k :| 0 <= k < |u.selectors| && p in u.selectors[k].channels;
      assert ListAllows(glob, u.selectors[k].channels, name, isPattern);
    }
    if s :| s in u.selectors && ListAllows(glob, s.channels, name, isPattern) {
      var p :| p in s.channels && Covers(glob, p, name, isPattern);
      assert p in ps;
    }
  }

  /** The strings of a user are those stored at their addresses. */
  ghost predicate InHeap(heap: nat -> string, u: User) {
    forall s <- u.selectors, p <- s.channels :: p.text == heap(p.addr)
  }

  /** `listSearchKey` without a match method. */
  method SearchByAddress(l: seq<Sds>, p: Sds) returns (found: bool)
    ensures found <==> exists q <- l :: q.addr == p.addr
  {
    var i := 0;
    while i < |l|
      invariant 0 <= i <= |l| && forall k | 0 <= k < i :: l[k].addr != p.addr
    {
      if l[i].addr == p.addr { return true; }
      i := i + 1;
    }
    found := false;
  }

  ghost predicate Kept(upcoming: seq<Sds>, s: Selector) {
    !s.allChannels && forall p <- s.channels :: exists q <- upcoming :: q.addr == p.addr
  }

  method SelectorKept(upcoming: seq<Sds>, s: Selector) returns (kept: bool)
    ensures kept <==> Kept(upcoming, s)
  {
    if s.allChannels { return false; }
    var i := 0;
    while i < |s.channels|
      invariant 0 <= i <= |s.channels| && forall k | 0 <= k < i :: exists q <- upcoming :: q.addr == s.channels[k].addr
    {
      var found := SearchByAddress(upcoming, s.channels[i]);
      if !found {
        assert s.channels[i] in s.channels;
        return false;
      }
      i := i + 1;
    }
    kept := true;
  }

  /** What the old user allowed through patterns that are all in the new list, the new user allows. */
  lemma KeptAllows(glob: Glob, heap: nat -> string, next: User, original: User, name: string, isPattern: bool)
    requires (forall s <- next.selectors :: !s.allChannels) && InHeap(heap, original) && InHeap(heap, next)
    requires forall s <- original.selectors :: Kept(Patterns(next.selectors, |next.selectors|), s)
    ensures UserAllows(glob, original, name, isPattern) ==> UserAllows(glob, next, name, isPattern)
  {
    if s :| s in original.selectors && (s.allChannels || ListAllows(glob, s.channels, name, isPattern)) {
      var ps := Patterns(next.selectors, |next.selectors|);
      assert Kept(ps, s);
      var p :| p in s.channels && Covers(glob, p, name, isPattern);
      var q :| q in ps && q.addr == p.addr;
      PatternsMembers(next.selectors, |next.selectors|);
      var k :| 0 <= k < |next.selectors| && q in next.selectors[k].channels;
      assert next.selectors[k] in next.selectors;
      assert q.text == heap(q.addr) == p.text;
      assert Covers(glob, q, name, isPattern);
      PatternsAllow(glob, next, name, isPattern);
    }
  }

  /**
   * `getUpcomingChannelList`: none if the new user allows all the old one did; otherwise a list that allows exactly
   * what the new user allows.
   */
  method GetUpcomingChannelList(glob: Glob, next: User, original: User, ghost heap: nat -> string) returns (upcoming: Option<seq<Sds>>)
    requires InHeap(heap, original) && InHeap(heap, next)
    ensures upcoming.None? ==> forall x, b :: UserAllows(glob, original, x, b) ==> UserAllows(glob, next, x, b)
    ensures upcoming.Some? ==> forall x, b :: ListAllows(glob, upcoming.value, x, b) == UserAllows(glob, next, x, b)
  {
    var i := 0;
    while i < |next.selectors|
      invariant 0 <= i <= |next.selectors| && forall k | 0 <= k < i :: !next.selectors[k].allChannels
    {
      if next.selectors[i].allChannels { return None; }
      i := i + 1;
    }
    var list := [];
    i := 0;
    while i < |next.selectors|
      invariant 0 <= i <= |next.selectors| && list == Patterns(next.selectors, i)
    {
      list := list + next.selectors[i].channels;
      i := i + 1;
    }
    var allKept := true;
    i := 0;
    while i < |original.selectors| && allKept
      invariant 0 <= i <= |original.selectors| && (allKept ==> forall k | 0 <= k < i :: Kept(list, original.selectors[k]))
      decreases |original.selectors| - i, allKept
    {
      allKept := SelectorKept(list, original.selectors[i]);
      i := i + 1;
    }
    if allKept {
      forall x, b ensures UserAllows(glob, original, x, b) ==> UserAllows(glob, next, x, b) {
        KeptAllows(glob, heap, next, original, x, b);
      }
      return None;
    }
    forall x, b ensures ListAllows(glob, list, x, b) == UserAllows(glob, next, x, b) {
      PatternsAllow(glob, next, x, b);
    }
    upcoming := Some(list);
  }

  // ---------------------------------------------------------------- disconnecting clients

  method AnyDenied(glob: Glob, upcoming: seq<Sds>, names: seq<string>, isPattern: bool) returns (kill: bool)
    ensures kill <==> exists x <- names :: !ListAllows(glob, upcoming, x, isPattern)
  {
    var i := 0;
    kill := false;
    while i < |names| && !kill
      invariant 0 <= i <= |names| && (kill <==> exists k | 0 <= k < i :: !ListAllows(glob, upcoming, names[k], isPattern))
      decreases |names| - i, !kill
    {
      var ok := CheckChannelAgainstList(glob, upcoming, names[i], isPattern);
      kill := !ok;
      i := i + 1;
    }
  }

  /** `ACLShouldKillPubsubClient`. */
  method ShouldKill(glob: Glob, c: Client, upcoming: seq<Sds>) returns (kill: bool)
    ensures kill <==> c.pubsub && ((exists x <- c.patterns :: !ListAllows(glob, upcoming, x, true)) ||
                                   (exists x <- c.channels :: !ListAllows(glob, upcoming, x, false)) ||
                                   (exists x <- c.shards :: !ListAllows(glob, upcoming, x, false)))
  {
    if !c.pubsub { return false; }
    kill := AnyDenied(glob, upcoming, c.patterns, true);
    if !kill { kill := AnyDenied(glob, upcoming, c.channels, false); }
    if !kill { kill := AnyDenied(glob, upcoming, c.shards, false); }
  }

  /** The clients that stay: all those of other users, and of this one exactly those the new user still allows. */
  function Staying(glob: Glob, clients: seq<Client>, user: nat, next: User): seq<Client> {
    if clients == [] then []
    else
      var c := clients[|clients| - 1];
      var front := Staying(glob, clients[..|clients| - 1], user, next);
      if c.user == user && !Allowed(glob, next, c) then front else front + [c]
  }

  lemma {:induction false} AllStay(glob: Glob, clients: seq<Client>, user: nat, next: User)
    requires forall c <- clients | c.user == user :: Allowed(glob, next, c)
    ensures Staying(glob, clients, user, next) == clients
    decreases |clients|
  {
    if clients != [] {
      var front, c := clients[..|clients| - 1], clients[|clients| - 1];
      assert c in clients && forall x <- front :: x in clients;
      AllStay(glob, front, user, next);
      assert front + [c] == clients;
    }
  }

  lemma AllowedMore(glob: Glob, u: User, v: User, c: Client)
    requires Allowed(glob, u, c) && forall x, b :: UserAllows(glob, u, x, b) ==> UserAllows(glob, v, x, b)
    ensures Allowed(glob, v, c)
  {
  }

  /** `ACLKillPubsubClientsIfNeeded`: disconnects exactly the clients of the user that the new rules no longer allow. */
  method KillPubsubClientsIfNeeded(glob: Glob, clients: seq<Client>, user: nat, next: User, original: User, ghost heap: nat -> string)
    returns (left: seq<Client>)
    requires InHeap(heap, original) && InHeap(heap, next)
    requires forall c <- clients | c.user == user :: Allowed(glob, original, c)
    requires forall c <- clients | Subscribed(c) :: c.pubsub
    ensures left == Staying(glob, clients, user, next)
  {
    var subscriptions := AnySubscribed(clients);
    if !subscriptions {
      AllStay(glob, clients, user, next);
      return clients;
    }
    var channels := GetUpcomingChannelList(glob, next, original, heap);
    if channels.None? {
      forall c <- clients | c.user == user ensures Allowed(glob, next, c) { AllowedMore(glob, original, next, c); }
      AllStay(glob, clients, user, next);
      return clients;
    }
    left := [];
    var i := 0;
    assert clients[..0] == [];
    while i < |clients|
      invariant 0 <= i <= |clients| && left == Staying(glob, clients[..i], user, next)
    {
      var c := clients[i];
      assert c in clients;
      assert clients[..i + 1][..i] == clients[..i];
      var kill := ShouldKill(glob, c, channels.value);
      KillIsDenied(glob, c, channels.value, next, kill);
      if c.user != user || !kill { left := left + [c]; }
      i := i + 1;
    }
    assert clients[..i] == clients;
  }

  lemma KillIsDenied(glob: Glob, c: Client, upcoming: seq<Sds>, next: User, kill: bool)
    requires forall x, b :: ListAllows(glob, upcoming, x, b) == UserAllows(glob, next, x, b)
    requires Subscribed(c) ==> c.pubsub
    requires kill <==> c.pubsub && ((exists x <- c.patterns :: !ListAllows(glob, upcoming, x, true)) ||
                                    (exists x <- c.channels :: !ListAllows(glob, upcoming, x, false)) ||
                                    (exists x <- c.shards :: !ListAllows(glob, upcoming, x, false)))
    ensures kill <==> !Allowed(glob, next, c)
  {
  }

  /** `pubsubTotalSubscriptions() == 0` is the quick return. */
  method AnySubscribed(clients: seq<Client>) returns (any: bool)
    ensures any <==> exists c <- clients :: Subscribed(c)
  {
    var i := 0;
    while i < |clients|
      invariant 0 <= i <= |clients| && forall k | 0 <= k < i :: !Subscribed(clients[k])
    {
      if Subscribed(clients[i]) { return true; }
      i := i + 1;
    }
    any := false;
  }

  // ---------------------------------------------------------------- ACL SETUSER

  /** The modifiers applied one after the other, if all of them are valid. */
  function ApplyAll(apply: (User, string) -> Option<User>, u: User, args: seq<string>): Option<User> {
    if args == [] then Some(u)
    else
      match ApplyAll(apply, u, args[..|args| - 1])
      case None => None
      case Some(v) => apply(v, args[|args| - 1])
  }

  lemma {:induction false} PrefixFails(apply: (User, string) -> Option<User>, u: User, args: seq<string>, i: nat)
    requires i <= |args| && ApplyAll(apply, u, args[..i]).None?
    ensures ApplyAll(apply, u, args).None?
    decreases |args|
  {
    if i == |args| {
      assert args[..i] == args;
    } else {
      assert args[..|args| - 1][..i] == args[..i];
      PrefixFails(apply, u, args[..|args| - 1], i);
    }
  }

  /**
   * `ACLStringSetUser` on an existing user: with one invalid modifier nothing changes and nobody is disconnected;
   * otherwise the user takes all the changes and every client left has only subscriptions the user now allows.
   */
  method StringSetUser(glob: Glob, apply: (User, string) -> Option<User>, user: nat, u: User, args: seq<string>, clients: seq<Client>,
                       ghost heap: nat -> string)
    returns (after: User, left: seq<Client>, ok: bool)
    requires InHeap(heap, u) && (ApplyAll(apply, u, args).Some? ==> InHeap(heap, ApplyAll(apply, u, args).value))
    requires forall c <- clients | c.user == user :: Allowed(glob, u, c)
    requires forall c <- clients | Subscribed(c) :: c.pubsub
    ensures ok <==> ApplyAll(apply, u, args).Some?
    ensures !ok ==> after == u && left == clients
    ensures ok ==> ApplyAll(apply, u, args) == Some(after) && left == Staying(glob, clients, user, after)
    ensures forall c <- left | c.user == user :: Allowed(glob, after, c)
  {
    var temp := u;
    var i := 0;
    assert args[..0] == [];
    while i < |args|
      invariant 0 <= i <= |args| && ApplyAll(apply, u, args[..i]) == Some(temp)
    {
      assert args[..i + 1][..i] == args[..i];
      var r := apply(temp, args[i]);
      if r.None? {
        PrefixFails(apply, u, args, i + 1);
        return u, clients, false;
      }
      temp := r.value;
      i := i + 1;
    }
    assert args[..i] == args;
    left := KillPubsubClientsIfNeeded(glob, clients, user, temp, u, heap);
    StayingAllowed(glob, clients, user, temp);
    after, ok := temp, true;
  }

  lemma {:induction false} StayingAllowed(glob: Glob, clients: seq<Client>, user: nat, next: User)
    ensures forall c <- Staying(glob, clients, user, next) | c.user == user :: Allowed(glob, next, c)
    decreases |clients|
  {
    if clients != [] { StayingAllowed(glob, clients[..|clients| - 1], user, next); }
  }
}
