/**
 * ACL command rules as data (redis-stable/src/acl.c:571-713, 902-968): the command table, what a rule
 * overwrites, and why dropping superseded rules does not change what a list of rules grants.
 */
module AclRules {
  import opened Basics

  const COMMAND_BITS: nat := 1024
  const RESERVED: nat := 1023  // the last bit: set only by +@all

  lemma LowerTwice(s: string)
    ensures Lower(Lower(s)) == Lower(s)
  {
  }

  lemma LowerKeeps(s: string, c: char)
    requires c == '|' || c == ' ' || c == '@' || c == '"' || c == '\'' || c == '+' || c == '-'
    ensures c in Lower(s) <==> c in s
    ensures forall i | 0 <= i < |s| :: Lower(s)[i] == c <==> s[i] == c
  {
    if c in s {
      var i :| 0 <= i < |s| && s[i] == c;
      assert Lower(s)[i] == c;
    }
    if c in Lower(s) {
      var i :| 0 <= i < |s| && Lower(s)[i] == c;
      assert s[i] == c;
    }
  }

  // ---------------------------------------------------------------- the command table

  datatype Sub = Sub(word: string, id: nat, cats: set<string>)

  datatype Cmd = Cmd(name: string, id: nat, cats: set<string>, subs: seq<Sub>)

  datatype Table = Table(cmds: seq<Cmd>, categories: set<string>)

  predicate GoodWord(s: string) {
    s != "" && Lower(s) == s && '|' !in s && ' ' !in s
  }

  /** Lower-case names without separators; ids below the reserved one (acl.c:1542-1550), each used once. */
  ghost predicate GoodTable(t: Table) {
    && (forall c <- t.cmds :: GoodCmd(c))
    && (forall i, j | 0 <= i < |t.cmds| && 0 <= j < |t.cmds| && t.cmds[i].id == t.cmds[j].id :: i == j)
    && (forall c <- t.cmds, d <- t.cmds, s <- d.subs :: s.id != c.id)
    && (forall k <- t.categories :: GoodWord(k) && k != "all")
  }

  ghost predicate GoodCmd(c: Cmd) {
    GoodWord(c.name) && c.name[0] != '@' && c.id < RESERVED && forall s <- c.subs :: GoodWord(s.word) && s.id < RESERVED
  }

  function FindCmd(cs: seq<Cmd>, name: string): (r: Option<Cmd>)
    ensures r.Some? ==> r.value in cs && r.value.name == name
  {
    if cs == [] then None else if cs[0].name == name then Some(cs[0]) else FindCmd(cs[1..], name)
  }

  function FindSub(ss: seq<Sub>, word: string): (r: Option<Sub>)
    ensures r.Some? ==> r.value in ss && r.value.word == word
  {
    if ss == [] then None else if ss[0].word == word then Some(ss[0]) else FindSub(ss[1..], word)
  }

  /** The position of the first '|', or the length. */
  function Bar(s: string): (i: nat)
    ensures i <= |s| && '|' !in s[..i] && (i < |s| ==> s[i] == '|')
    ensures i == |s| <==> '|' !in s
  {
    if s == "" || s[0] == '|' then 0
    else
      var i := 1 + Bar(s[1..]);
      assert s[..i] == [s[0]] + s[1..][..i - 1];
      assert s == [s[0]] + s[1..];
      i
  }

  /** What the text of a rule, after its sign, names. */
  datatype Target =
    | Nothing
    | Category(cat: string)
    | Whole(cmd: Cmd)
    | Part(cmd: Cmd, sub: Sub)
    | FirstArg(cmd: Cmd, word: string)

  function Resolve(t: Table, name: string): Target {
    if name == "" then Nothing
    else if name[0] == '@' then if name[1..] in t.categories then Category(name[1..]) else Nothing
    else
      var i := Bar(name);
      var c := FindCmd(t.cmds, name[..i]);
      if c.None? then Nothing
      else if i == |name| then Whole(c.value)
      else if c.value.subs != [] then
        var s := FindSub(c.value.subs, name[i + 1..]);
        if s.None? then Nothing else Part(c.value, s.value)
      else if name[i + 1..] == "" || '|' in name[i + 1..] then Nothing
      else FirstArg(c.value, name[i + 1..])
  }

  // ---------------------------------------------------------------- rules and what they overwrite

  datatype Rule = Rule(allow: bool, name: string)

  /** A fact a selector can grant: a command bit, or a first argument (lower case) of a command. */
  datatype Loc = Bit(id: nat) | Arg(id: nat, word: string)

  function SubIds(ss: seq<Sub>): set<nat> {
    set s <- ss :: s.id
  }

  function CmdIds(c: Cmd): set<nat> {
    {c.id} + SubIds(c.subs)
  }

  function CatIds(c: Cmd, cat: string): set<nat> {
    (if cat in c.cats then CmdIds(c) else {}) + (set s <- c.subs | cat in s.cats :: s.id)
  }

  /** What a rule leaves at `loc`, if it writes there at all. */
  function Writes(t: Table, r: Rule, loc: Loc): Option<bool> {
    match Resolve(t, r.name)
    case Nothing => None
    case Category(cat) =>
      (match loc
       case Bit(i) => if exists c <- t.cmds :: i in CatIds(c, cat) then Some(r.allow) else None
       case Arg(i, _) => if exists c <- t.cmds :: c.id == i && c.subs == [] && cat in c.cats then Some(false) else None)
    case Whole(c) =>
      (match loc
       case Bit(i) => if i in CmdIds(c) then Some(r.allow) else None
       case Arg(i, _) => if i == c.id && c.subs == [] then Some(false) else None)
    case Part(c, s) => if loc == Bit(s.id) then Some(r.allow) else None
    case FirstArg(c, w) => if loc == Arg(c.id, w) then Some(true) else None
  }

  /** The rule takes some command away. */
  ghost predicate Denies(t: Table, r: Rule) {
    exists id: nat :: Writes(t, r, Bit(id)) == Some(false)
  }

  ghost predicate NoDenial(t: Table, log: seq<Rule>) {
    forall r <- log :: !Denies(t, r)
  }

  /** The outcome of a list of rules at one place: the last writer wins. */
  function At(t: Table, log: seq<Rule>, loc: Loc, initially: bool): bool {
    if log == [] then initially
    else
      match Writes(t, log[|log| - 1], loc)
      case Some(b) => b
      case None => At(t, log[..|log| - 1], loc, initially)
  }

  /** `ACLSelectorRemoveCommandRule`: the same rule, or a rule about a subcommand or first argument of it. */
  predicate Supersedes(newer: string, older: string) {
    older == newer || (|older| > |newer| && older[..|newer|] == newer && older[|newer|] == '|')
  }

  function Without(log: seq<Rule>, name: string): seq<Rule> {
    if log == [] then []
    else if Supersedes(name, log[|log| - 1].name) then Without(log[..|log| - 1], name)
    else Without(log[..|log| - 1], name) + [log[|log| - 1]]
  }

  lemma {:induction false} WithoutMembers(log: seq<Rule>, name: string)
    ensures forall x <- Without(log, name) :: x in log && !Supersedes(name, x.name)
    decreases |log|
  {
    if log != [] {
      var front := log[..|log| - 1];
      WithoutMembers(front, name);
      assert forall x <- front :: x in log;
    }
  }

  predicate ValidRule(t: Table, r: Rule) {
    && !Resolve(t, r.name).Nothing? && (Resolve(t, r.name).FirstArg? ==> r.allow)
    && Lower(r.name) == r.name && ' ' !in r.name
  }

  predicate ValidLog(t: Table, log: seq<Rule>) {
    forall r <- log :: ValidRule(t, r)
  }

  /** No rule in the list is superseded by a later one. */
  predicate Reduced(log: seq<Rule>) {
    forall i, j | 0 <= i < j < |log| :: !Supersedes(log[j].name, log[i].name)
  }

  /** A superseding rule overwrites everything the superseded one wrote. */
  lemma SupersedesOverwrites(t: Table, r: Rule, d: Rule, loc: Loc)
    requires GoodTable(t) && ValidRule(t, r) && ValidRule(t, d) && Supersedes(r.name, d.name)
    ensures Writes(t, d, loc).Some? ==> Writes(t, r, loc).Some?
  {
    if d.name != r.name {
      var n := |r.name|;
      NoBarAbove(t, r, d);
      FirstBarAt(d.name, n);
      assert r.name[..n] == r.name && d.name[..n] == r.name;
    }
  }

  /** A rule that supersedes a longer one names a whole command. */
  lemma NoBarAbove(t: Table, r: Rule, d: Rule)
    requires GoodTable(t) && ValidRule(t, r) && ValidRule(t, d) && Supersedes(r.name, d.name) && r.name != d.name
    ensures r.name[0] != '@' && '|' !in r.name
  {
    var n, i := |r.name|, Bar(r.name);
    assert d.name[0] == r.name[0] && d.name[n] == '|';
    if r.name[0] == '@' {
      CategoryHasNoBar(t, d);
      assert false;
    } else if i < n {
      assert d.name[..n][..i] == d.name[..i] && d.name[i] == d.name[..n][i];
      FirstBarAt(d.name, i);
      assert d.name[i + 1..][n - i - 1] == '|';
      OneBar(t, d);
      assert false;
    }
  }

  lemma CategoryHasNoBar(t: Table, d: Rule)
    requires GoodTable(t) && ValidRule(t, d) && d.name[0] == '@'
    ensures '|' !in d.name
  {
    assert GoodWord(d.name[1..]);
    assert d.name == [d.name[0]] + d.name[1..];
  }

  /** What follows the first bar holds no other. */
  lemma OneBar(t: Table, d: Rule)
    requires GoodTable(t) && ValidRule(t, d) && d.name[0] != '@' && Bar(d.name) < |d.name|
    ensures '|' !in d.name[Bar(d.name) + 1..]
  {
    match Resolve(t, d.name)
    case Part(c, s) => assert c in t.cmds && s in c.subs && GoodCmd(c);
    case FirstArg(c, w) =>
  }

  lemma FirstBarAt(s: string, n: nat)
    requires n < |s| && s[n] == '|' && '|' !in s[..n]
    ensures Bar(s) == n
  {
    if n > 0 {
      assert s[0] == s[..n][0] && s[1..][..n - 1] == s[..n][1..];
      FirstBarAt(s[1..], n - 1);
    }
  }

  /** Dropping superseded rules and adding the new one at the end grants what adding it alone does. */
  lemma {:induction false} DropSuperseded(t: Table, log: seq<Rule>, r: Rule, loc: Loc, initially: bool)
    requires GoodTable(t) && ValidLog(t, log) && ValidRule(t, r)
    ensures At(t, Without(log, r.name) + [r], loc, initially) ==
            (match Writes(t, r, loc) case Some(b) => b case None => At(t, log, loc, initially))
  {
    var kept := Without(log, r.name);
    assert (kept + [r])[..|kept|] == kept;
    if Writes(t, r, loc).None? {
      DropUnrelated(t, log, r, loc, initially);
    }
  }

  lemma {:induction false} DropUnrelated(t: Table, log: seq<Rule>, r: Rule, loc: Loc, initially: bool)
    requires GoodTable(t) && ValidLog(t, log) && ValidRule(t, r) && Writes(t, r, loc).None?
    ensures At(t, Without(log, r.name), loc, initially) == At(t, log, loc, initially)
    decreases |log|
  {
    if log != [] {
      var front, d := log[..|log| - 1], log[|log| - 1];
      assert d in log;
      DropUnrelated(t, front, r, loc, initially);
      if Supersedes(r.name, d.name) {
        SupersedesOverwrites(t, r, d, loc);
      } else {
        assert (Without(front, r.name) + [d])[..|Without(front, r.name)|] == Without(front, r.name);
      }
    }
  }

  /** The list stays reduced. */
  lemma {:induction false} WithoutReduced(log: seq<Rule>, name: string)
    requires Reduced(log)
    ensures Reduced(Without(log, name))
    decreases |log|
  {
    if log != [] {
      var front, d := log[..|log| - 1], log[|log| - 1];
      WithoutReduced(front, name);
      var kept := Without(front, name);
      WithoutMembers(front, name);
      var all := Without(log, name);
      forall i, j | 0 <= i < j < |all| ensures !Supersedes(all[j].name, all[i].name) {
        if j == |kept| {
          assert all[i] in kept;
          var k :| 0 <= k < |front| && front[k] == all[i];
          assert log[k] == all[i];
        }
      }
    }
  }

  /** In a reduced list nothing is dropped by its own rules, so replaying it rebuilds it. */
  lemma {:induction false} WithoutNothing(log: seq<Rule>, name: string)
    requires forall x <- log :: !Supersedes(name, x.name)
    ensures Without(log, name) == log
    decreases |log|
  {
    if log != [] {
      var front, d := log[..|log| - 1], log[|log| - 1];
      assert d in log && forall x <- front :: x in log;
      WithoutNothing(front, name);
      assert front + [d] == log;
    }
  }
}
