/**
 * ACL selectors (redis-stable/src/acl.c:345-362, 557-714, 757-810, 913-968, 1034-1209, 1691-1716): a command
 * bitmap and a rule string that must regenerate it.
 */
module AclSelector {
  import opened Basics
  import opened AclRules

  /** Command bits, first arguments as typed, and the ALLCOMMANDS flag. */
  datatype Perms = Perms(bits: set<nat>, args: map<nat, seq<string>>, all: bool)

  predicate IsBit(i: nat) {
    i < COMMAND_BITS
  }

  function AllBits(): set<nat> {
    set i: nat | 0 <= i < COMMAND_BITS && IsBit(i)
  }

  const NoPerms: Perms := Perms({}, map[], false)

  function AllPerms(): Perms {
    Perms(AllBits(), map[], true)
  }

  predicate HasWord(words: seq<string>, w: string) {
    exists i | 0 <= i < |words| :: Lower(words[i]) == w
  }

  predicate Grants(p: Perms, loc: Loc) {
    match loc
    case Bit(i) => i in p.bits
    case Arg(i, w) => i in p.args && HasWord(p.args[i], w)
  }

  // ---------------------------------------------------------------- the setters, as functions

  function SetBit(p: Perms, id: nat, value: bool): Perms {
    if id >= COMMAND_BITS then p
    else if value then p.(bits := p.bits + {id})
    else p.(bits := p.bits - {id}, all := false)
  }

  function SetSubBits(p: Perms, ss: seq<Sub>, value: bool): Perms
    decreases |ss|
  {
    if ss == [] then p else SetBit(SetSubBits(p, ss[..|ss| - 1], value), ss[|ss| - 1].id, value)
  }

  function ResetArgs(p: Perms, id: nat): Perms {
    p.(args := p.args - {id})
  }

  function ChangePerm(p: Perms, c: Cmd, allow: bool): Perms {
    SetSubBits(ResetArgs(SetBit(p, c.id, allow), c.id), c.subs, allow)
  }

  function ChangeSubPerm(p: Perms, s: Sub, allow: bool): Perms {
    ResetArgs(SetBit(p, s.id, allow), s.id)
  }

  function SubsInCategory(p: Perms, ss: seq<Sub>, cat: string, allow: bool): Perms
    decreases |ss|
  {
    if ss == [] then p
    else
      var q := SubsInCategory(p, ss[..|ss| - 1], cat, allow);
      if cat in ss[|ss| - 1].cats then ChangeSubPerm(q, ss[|ss| - 1], allow) else q
  }

  function CmdInCategory(p: Perms, c: Cmd, cat: string, allow: bool): Perms {
    SubsInCategory(if cat in c.cats then ChangePerm(p, c, allow) else p, c.subs, cat, allow)
  }

  function CmdsInCategory(p: Perms, cs: seq<Cmd>, cat: string, allow: bool): Perms
    decreases |cs|
  {
    if cs == [] then p else CmdInCategory(CmdsInCategory(p, cs[..|cs| - 1], cat, allow), cs[|cs| - 1], cat, allow)
  }

  function AddArg(p: Perms, id: nat, word: string): Perms {
    var words := if id in p.args then p.args[id] else [];
    if HasWord(words, Lower(word)) then p else p.(args := p.args[id := words + [word]])
  }

  // ---------------------------------------------------------------- what the setters write

  /** First arguments are only kept for plain commands; ALLCOMMANDS means every bit is set. */
  ghost predicate PermsOk(t: Table, p: Perms) {
    && (forall i <- p.args :: exists c <- t.cmds :: c.id == i && c.subs == [])
    && (p.all ==> p.bits == AllBits())
    && p.bits <= AllBits()
  }

  lemma {:induction false} SetSubBitsIs(p: Perms, ss: seq<Sub>, value: bool)
    requires forall s <- ss :: s.id < RESERVED
    ensures SetSubBits(p, ss, value) ==
            Perms(if value then p.bits + SubIds(ss) else p.bits - SubIds(ss), p.args, p.all && (value || ss == []))
    decreases |ss|
  {
    if ss == [] {
      assert SubIds(ss) == {};
    } else {
      var front, s := ss[..|ss| - 1], ss[|ss| - 1];
      assert s in ss && forall x <- front :: x in ss;
      SetSubBitsIs(p, front, value);
      assert ss == front + [s];
      assert SubIds(ss) == SubIds(front) + {s.id};
    }
  }

  lemma ChangePermIs(p: Perms, c: Cmd, allow: bool)
    requires GoodCmd(c)
    ensures ChangePerm(p, c, allow) ==
            Perms(if allow then p.bits + CmdIds(c) else p.bits - CmdIds(c), p.args - {c.id}, p.all && allow)
  {
    SetSubBitsIs(ResetArgs(SetBit(p, c.id, allow), c.id), c.subs, allow);
  }

  /** Clearing or setting the places of one set after another. */
  function Cleared(p: Perms, ids: set<nat>, top: set<nat>, allow: bool): Perms {
    Perms(if allow then p.bits + ids else p.bits - ids, p.args - top, p.all && (allow || ids == {}))
  }

  lemma ClearedTwice(p: Perms, ids: set<nat>, top: set<nat>, more: set<nat>, moreTop: set<nat>, allow: bool)
    ensures Cleared(Cleared(p, ids, top, allow), more, moreTop, allow) == Cleared(p, ids + more, top + moreTop, allow)
  {
  }

  function SubCatIds(ss: seq<Sub>, cat: string): set<nat> {
    set s <- ss | cat in s.cats :: s.id
  }

  lemma SubCatSnoc(ss: seq<Sub>, s: Sub, cat: string)
    ensures SubCatIds(ss + [s], cat) == SubCatIds(ss, cat) + (if cat in s.cats then {s.id} else {})
  {
    var more := ss + [s];
    assert forall x :: x in more <==> x in ss || x == s;
  }

  lemma SubInCategoryIs(p: Perms, s: Sub, cat: string, allow: bool)
    requires s.id < RESERVED
    ensures var ids := if cat in s.cats then {s.id} else {};
            (if cat in s.cats then ChangeSubPerm(p, s, allow) else p) == Cleared(p, ids, ids, allow)
  {
  }

  lemma {:induction false} SubsInCategoryIs(p: Perms, ss: seq<Sub>, cat: string, allow: bool)
    requires forall s <- ss :: s.id < RESERVED
    ensures SubsInCategory(p, ss, cat, allow) == Cleared(p, SubCatIds(ss, cat), SubCatIds(ss, cat), allow)
    decreases |ss|
  {
    if ss == [] {
      assert SubCatIds(ss, cat) == {};
    } else {
      var front, s := ss[..|ss| - 1], ss[|ss| - 1];
      assert s in ss && forall x <- front :: x in ss;
      SubsInCategoryIs(p, front, cat, allow);
      assert ss == front + [s];
      SubCatSnoc(front, s, cat);
      var ids := if cat in s.cats then {s.id} else {};
      SubInCategoryIs(SubsInCategory(p, front, cat, allow), s, cat, allow);
      ClearedTwice(p, SubCatIds(front, cat), SubCatIds(front, cat), ids, ids, allow);
    }
  }

  function CatTop(c: Cmd, cat: string): set<nat> {
    (if cat in c.cats then {c.id} else {}) + SubCatIds(c.subs, cat)
  }

  lemma CmdInCategoryIs(p: Perms, c: Cmd, cat: string, allow: bool)
    requires GoodCmd(c)
    ensures CmdInCategory(p, c, cat, allow) == Cleared(p, CatIds(c, cat), CatTop(c, cat), allow)
  {
    ChangePermIs(p, c, allow);
    SubsInCategoryIs(if cat in c.cats then ChangePerm(p, c, allow) else p, c.subs, cat, allow);
    assert SubCatIds(c.subs, cat) <= CatIds(c, cat);
    assert c.id in CmdIds(c);
  }

  function AllCatIds(cs: seq<Cmd>, cat: string): set<nat> {
    set c <- cs, i <- CatIds(c, cat) :: i
  }

  function AllCatTop(cs: seq<Cmd>, cat: string): set<nat> {
    set c <- cs, i <- CatTop(c, cat) :: i
  }

  lemma CatIdsSnoc(cs: seq<Cmd>, c: Cmd, cat: string)
    ensures AllCatIds(cs + [c], cat) == AllCatIds(cs, cat) + CatIds(c, cat)
  {
    var more := cs + [c];
    assert forall x :: x in more <==> x in cs || x == c;
  }

  lemma CatTopSnoc(cs: seq<Cmd>, c: Cmd, cat: string)
    ensures AllCatTop(cs + [c], cat) == AllCatTop(cs, cat) + CatTop(c, cat)
  {
    var more := cs + [c];
    assert forall x :: x in more <==> x in cs || x == c;
  }

  lemma {:induction false} CmdsInCategoryIs(p: Perms, cs: seq<Cmd>, cat: string, allow: bool)
    requires forall c <- cs :: GoodCmd(c)
    ensures CmdsInCategory(p, cs, cat, allow) == Cleared(p, AllCatIds(cs, cat), AllCatTop(cs, cat), allow)
    decreases |cs|
  {
    if cs == [] {
      assert AllCatIds(cs, cat) == {} && AllCatTop(cs, cat) == {};
    } else {
      var front, c := cs[..|cs| - 1], cs[|cs| - 1];
      assert c in cs && forall x <- front :: x in cs;
      CmdsInCategoryIs(p, front, cat, allow);
      CmdInCategoryIs(CmdsInCategory(p, front, cat, allow), c, cat, allow);
      ClearedTwice(p, AllCatIds(front, cat), AllCatTop(front, cat), CatIds(c, cat), CatTop(c, cat), allow);
      assert cs == front + [c];
      CatIdsSnoc(front, c, cat);
      CatTopSnoc(front, c, cat);
    }
  }

  /** The effect of one resolved rule on the permissions. */
  function ApplyTarget(t: Table, p: Perms, target: Target, allow: bool, typed: string): Perms {
    match target
    case Nothing => p
    case Category(cat) => CmdsInCategory(p, t.cmds, cat, allow)
    case Whole(c) => ChangePerm(p, c, allow)
    case Part(c, s) => ChangeSubPerm(p, s, allow)
    case FirstArg(c, w) => AddArg(p, c.id, typed)
  }

  /** Every rule overwrites exactly the places `Writes` says, with the value it says. */
  lemma ApplyWrites(t: Table, p: Perms, r: Rule, typed: string, loc: Loc)
    requires GoodTable(t) && PermsOk(t, p) && ValidRule(t, r)
    requires Resolve(t, r.name).FirstArg? ==> Lower(typed) == Resolve(t, r.name).word
    ensures Grants(ApplyTarget(t, p, Resolve(t, r.name), r.allow, typed), loc) ==
            (match Writes(t, r, loc) case Some(b) => b case None => Grants(p, loc))
  {
    match Resolve(t, r.name)
    case Category(cat) => CategoryWrites(t, p, cat, r.allow, loc);
    case Whole(c) => WholeWrites(t, p, c, r.allow, loc);
    case Part(c, s) => PartWrites(t, p, c, s, r.allow, loc);
    case FirstArg(c, w) => AddArgGrants(p, c.id, typed, loc);
  }

  lemma WholeWrites(t: Table, p: Perms, c: Cmd, allow: bool, loc: Loc)
    requires GoodTable(t) && PermsOk(t, p) && c in t.cmds
    ensures Grants(ChangePerm(p, c, allow), loc) ==
            (match loc
             case Bit(i) => if i in CmdIds(c) then allow else Grants(p, loc)
             case Arg(i, _) => if i == c.id && c.subs == [] then false else Grants(p, loc))
  {
    assert GoodCmd(c);
    ChangePermIs(p, c, allow);
    if loc.Arg? && loc.id == c.id && c.id in p.args {
      NotContainer(t, p, c);
    }
  }

  lemma PartWrites(t: Table, p: Perms, c: Cmd, s: Sub, allow: bool, loc: Loc)
    requires GoodTable(t) && PermsOk(t, p) && c in t.cmds && s in c.subs
    ensures Grants(ChangeSubPerm(p, s, allow), loc) == (if loc == Bit(s.id) then allow else Grants(p, loc))
  {
    assert GoodCmd(c);
    assert forall d <- t.cmds :: d.id != s.id;
  }

  lemma NotContainer(t: Table, p: Perms, c: Cmd)
    requires GoodTable(t) && PermsOk(t, p) && c in t.cmds && c.id in p.args
    ensures c.subs == []
  {
    var d :| d in t.cmds && d.id == c.id && d.subs == [];
    var i :| 0 <= i < |t.cmds| && t.cmds[i] == c;
    var j :| 0 <= j < |t.cmds| && t.cmds[j] == d;
  }

  lemma AddArgGrants(p: Perms, id: nat, word: string, loc: Loc)
    ensures Grants(AddArg(p, id, word), loc) == (if loc == Arg(id, Lower(word)) then true else Grants(p, loc))
  {
    var words := if id in p.args then p.args[id] else [];
    if loc.Arg? && loc.id == id && !HasWord(words, Lower(word)) {
      var more := words + [word];
      if HasWord(words, loc.word) {
        var i :| 0 <= i < |words| && Lower(words[i]) == loc.word;
        assert more[i] == words[i];
      }
      assert more[|words|] == word;
    }
  }

  lemma CategoryWrites(t: Table, p: Perms, cat: string, allow: bool, loc: Loc)
    requires GoodTable(t) && PermsOk(t, p)
    ensures Grants(CmdsInCategory(p, t.cmds, cat, allow), loc) ==
            (match loc
             case Bit(i) => if exists c <- t.cmds :: i in CatIds(c, cat) then allow else Grants(p, loc)
             case Arg(i, _) =>
               if exists c <- t.cmds :: c.id == i && c.subs == [] && cat in c.cats then false else Grants(p, loc))
  {
    CmdsInCategoryIs(p, t.cmds, cat, allow);
    match loc
    case Bit(i) => CatIdsAre(t.cmds, cat, i);
    case Arg(i, _) => if i in p.args { CatTopIs(t, p, cat, i); }
  }

  lemma CatIdsAre(cs: seq<Cmd>, cat: string, i: nat)
    ensures i in AllCatIds(cs, cat) <==> exists c <- cs :: i in CatIds(c, cat)
  {
  }

  lemma CatTopIs(t: Table, p: Perms, cat: string, i: nat)
    requires GoodTable(t) && PermsOk(t, p) && i in p.args
    ensures i in AllCatTop(t.cmds, cat) <==> exists c <- t.cmds :: c.id == i && c.subs == [] && cat in c.cats
  {
    if i in AllCatTop(t.cmds, cat) {
      var c :| c in t.cmds && i in CatTop(c, cat);
      assert forall s <- c.subs :: s.id != i;
      NotContainer(t, p, c);
    }
    if c :| c in t.cmds && c.id == i && c.subs == [] && cat in c.cats {
      assert i in CatTop(c, cat);
    }
  }

  /** Every rule keeps the shape of the permissions. */
  lemma ApplyOk(t: Table, p: Perms, r: Rule, typed: string)
    requires GoodTable(t) && PermsOk(t, p) && ValidRule(t, r)
    ensures PermsOk(t, ApplyTarget(t, p, Resolve(t, r.name), r.allow, typed))
  {
    match Resolve(t, r.name)
    case Category(cat) => CategoryOk(t, p, cat, r.allow);
    case Whole(c) =>
      assert GoodCmd(c);
      ChangePermIs(p, c, r.allow);
      ClearedOk(t, p, CmdIds(c), {c.id}, r.allow);
    case Part(c, s) =>
      assert GoodCmd(c);
      ClearedOk(t, p, {s.id}, {s.id}, r.allow);
    case FirstArg(c, w) => assert c in t.cmds;
  }

  lemma ClearedOk(t: Table, p: Perms, ids: set<nat>, top: set<nat>, allow: bool)
    requires PermsOk(t, p) && ids <= AllBits() && ids != {}
    ensures PermsOk(t, Cleared(p, ids, top, allow))
  {
  }

  lemma CategoryOk(t: Table, p: Perms, cat: string, allow: bool)
    requires GoodTable(t) && PermsOk(t, p)
    ensures PermsOk(t, CmdsInCategory(p, t.cmds, cat, allow))
  {
    var ids := AllCatIds(t.cmds, cat);
    CmdsInCategoryIs(p, t.cmds, cat, allow);
    forall i <- ids ensures i in AllBits() {
      var c :| c in t.cmds && i in CatIds(c, cat);
      assert GoodCmd(c);
    }
    if ids != {} {
      ClearedOk(t, p, ids, AllCatTop(t.cmds, cat), allow);
    }
  }

  /** A rule takes ALLCOMMANDS away exactly when it takes some command away; no rule gives it back. */
  lemma FlagAfter(t: Table, p: Perms, r: Rule, typed: string)
    requires GoodTable(t) && ValidRule(t, r)
    ensures ApplyTarget(t, p, Resolve(t, r.name), r.allow, typed).all == (p.all && !Denies(t, r))
  {
    match Resolve(t, r.name)
    case Category(cat) => FlagAfterCategory(t, p, r, cat);
    case Whole(c) => FlagAfterWhole(t, p, r, c);
    case Part(c, s) => FlagAfterPart(t, p, r, c, s);
    case FirstArg(c, w) =>
  }

  lemma FlagAfterWhole(t: Table, p: Perms, r: Rule, c: Cmd)
    requires GoodTable(t) && Resolve(t, r.name) == Whole(c)
    ensures ChangePerm(p, c, r.allow).all == (p.all && !Denies(t, r))
  {
    assert GoodCmd(c);
    ChangePermIs(p, c, r.allow);
    assert Writes(t, r, Bit(c.id)) == Some(r.allow);
  }

  lemma FlagAfterPart(t: Table, p: Perms, r: Rule, c: Cmd, s: Sub)
    requires GoodTable(t) && Resolve(t, r.name) == Part(c, s)
    ensures ChangeSubPerm(p, s, r.allow).all == (p.all && !Denies(t, r))
  {
    assert GoodCmd(c);
    assert Writes(t, r, Bit(s.id)) == Some(r.allow);
  }

  lemma FlagAfterCategory(t: Table, p: Perms, r: Rule, cat: string)
    requires GoodTable(t) && Resolve(t, r.name) == Category(cat)
    ensures CmdsInCategory(p, t.cmds, cat, r.allow).all == (p.all && !Denies(t, r))
  {
    var ids := AllCatIds(t.cmds, cat);
    CmdsInCategoryIs(p, t.cmds, cat, r.allow);
    forall i: nat ensures i in ids <==> Writes(t, r, Bit(i)) == Some(r.allow) { CatIdsAre(t.cmds, cat, i); }
    if ids != {} {
      var i :| i in ids;
      assert Writes(t, r, Bit(i)) == Some(r.allow);
    }
  }

  // ---------------------------------------------------------------- permissions that follow a list of rules

  /** What `+@all` (reserved bit set) or `-@all` grants. */
  predicate Base(all: bool, loc: Loc) {
    all && loc.Bit? && loc.id < COMMAND_BITS
  }

  /** The permissions are those of `+@all` or `-@all`, by the reserved bit, followed by the rules. */
  ghost predicate Follows(t: Table, p: Perms, log: seq<Rule>) {
    forall loc: Loc :: Grants(p, loc) == At(t, log, loc, Base(RESERVED in p.bits, loc))
  }

  /** No rule writes the reserved bit. */
  lemma ReservedUnwritten(t: Table, r: Rule)
    requires GoodTable(t)
    ensures Writes(t, r, Bit(RESERVED)).None?
  {
    match Resolve(t, r.name)
    case Category(cat) =>
      forall c <- t.cmds ensures RESERVED !in CatIds(c, cat) { assert GoodCmd(c); }
    case Whole(c) => assert GoodCmd(c);
    case Part(c, s) => assert GoodCmd(c);
    case _ =>
  }

  /** Applying a rule and dropping what it supersedes keeps permissions and rules in step. */
  lemma StepFollows(t: Table, p: Perms, log: seq<Rule>, r: Rule, typed: string)
    requires GoodTable(t) && PermsOk(t, p) && ValidLog(t, log) && Follows(t, p, log) && ValidRule(t, r)
    requires Resolve(t, r.name).FirstArg? ==> Lower(typed) == Resolve(t, r.name).word
    ensures Follows(t, ApplyTarget(t, p, Resolve(t, r.name), r.allow, typed), Without(log, r.name) + [r])
  {
    var q := ApplyTarget(t, p, Resolve(t, r.name), r.allow, typed);
    ReservedUnwritten(t, r);
    ApplyWrites(t, p, r, typed, Bit(RESERVED));
    assert Grants(q, Bit(RESERVED)) == Grants(p, Bit(RESERVED));
    var all := RESERVED in p.bits;
    forall loc: Loc ensures Grants(q, loc) == At(t, Without(log, r.name) + [r], loc, Base(RESERVED in q.bits, loc)) {
      ApplyWrites(t, p, r, typed, loc);
      DropSuperseded(t, log, r, loc, Base(all, loc));
    }
  }

  /** Two sets of permissions that follow the same rules from the same start grant the same things. */
  lemma SameGrants(t: Table, p: Perms, q: Perms, log: seq<Rule>)
    requires Follows(t, p, log) && Follows(t, q, log) && (RESERVED in p.bits <==> RESERVED in q.bits)
    ensures p.bits == q.bits && forall loc: Loc :: Grants(p, loc) == Grants(q, loc)
  {
    forall loc: Loc ensures Grants(p, loc) == Grants(q, loc) {
      assert Grants(p, loc) == At(t, log, loc, Base(RESERVED in p.bits, loc));
    }
    forall i: nat ensures i in p.bits <==> i in q.bits {
      assert Grants(p, Bit(i)) == Grants(q, Bit(i));
    }
  }

  // ---------------------------------------------------------------- reading one operation

  datatype Errno = ENOENT | ECHILD | EINVAL

  /** What one operation asks for; key and channel patterns are `Elsewhere`. */
  datatype Op = AllCommands | NoCommands | Change(rule: Rule, typed: string) | Fail(errno: Errno) | Elsewhere

  /** `ACLLookupCommand`: a command or a subcommand, by its case-insensitive full name. */
  function Lookup(t: Table, name: string): Target {
    match Resolve(t, Lower(name))
    case Whole(c) => Whole(c)
    case Part(c, s) => Part(c, s)
    case _ => Nothing
  }

  function FullName(target: Target): string
    requires target.Whole? || target.Part?
  {
    if target.Whole? then target.cmd.name else target.cmd.name + "|" + target.sub.word
  }

  function LastBar(s: string): (i: nat)
    requires '|' in s
    ensures i < |s| && s[i] == '|' && '|' !in s[i + 1..]
  {
    if s[|s| - 1] == '|' then |s| - 1
    else
      assert s == s[..|s| - 1] + [s[|s| - 1]];
      var i := LastBar(s[..|s| - 1]);
      assert s[i + 1..] == s[..|s| - 1][i + 1..] + [s[|s| - 1]];
      i
  }

  function ParsePlain(t: Table, allow: bool, name: string): Op {
    var target := Lookup(t, name);
    if target.Nothing? then Fail(ENOENT) else Change(Rule(allow, FullName(target)), "")
  }

  function ParseBar(t: Table, name: string): Op
    requires '|' in name
  {
    var i := LastBar(name);
    var target, sub := Lookup(t, name[..i]), name[i + 1..];
    if target.Nothing? then Fail(ENOENT)
    else if target.Part? then Fail(ECHILD)
    else if sub == "" then Fail(EINVAL)
    else if target.cmd.subs != [] && Lookup(t, name).Nothing? then Fail(ENOENT)
    else Change(Rule(true, Lower(name)), if target.cmd.subs != [] then "" else sub)
  }

  function ParseCategory(t: Table, allow: bool, name: string): Op
    requires name != ""
  {
    if Lower(name[1..]) in t.categories then Change(Rule(allow, Lower(name)), "") else Fail(ENOENT)
  }

  function Parse(t: Table, op: string): Op {
    var l := Lower(op);
    if l == "allcommands" || l == "+@all" then AllCommands
    else if l == "nocommands" || l == "-@all" then NoCommands
    else if l == "allkeys" || l == "resetkeys" || l == "allchannels" || l == "resetchannels" then Elsewhere
    else if op == "" then Fail(EINVAL)
    else if op[0] == '~' || op[0] == '%' || op[0] == '&' then Elsewhere
    else if op[0] != '+' && op[0] != '-' then Fail(EINVAL)
    else if |op| > 1 && op[1] == '@' then ParseCategory(t, op[0] == '+', op[1..])
    else if op[0] == '+' && '|' in op[1..] then ParseBar(t, op[1..])
    else ParsePlain(t, op[0] == '+', op[1..])
  }

  lemma LowerSlice(s: string, i: nat, j: nat)
    requires i <= j <= |s|
    ensures Lower(s[i..j]) == Lower(s)[i..j]
  {
  }

  lemma FullNameIs(t: Table, name: string)
    requires !Lookup(t, name).Nothing?
    ensures FullName(Lookup(t, name)) == Lower(name)
  {
    var l := Lower(name);
    var i := Bar(l);
    assert l[..|l|] == l;
    if i < |l| { assert l == l[..i] + "|" + l[i + 1..]; }
  }

  /** The rule is known to the table, and its argument, if it has one, is what its text names. */
  predicate GoodChange(t: Table, r: Rule, typed: string) {
    ValidRule(t, r) && (Resolve(t, r.name).FirstArg? ==> Lower(typed) == Resolve(t, r.name).word)
  }

  /** Whatever is read as a rule is one. */
  lemma ParseValid(t: Table, op: string)
    requires GoodTable(t) && ' ' !in op && Parse(t, op).Change?
    ensures GoodChange(t, Parse(t, op).rule, Parse(t, op).typed)
  {
    var name := op[1..];
    assert ' ' !in name;
    if |op| > 1 && op[1] == '@' {
      assert name[0] == '@';
      ParseCategoryValid(t, op[0] == '+', name);
    } else if op[0] == '+' && '|' in name {
      ParseBarValid(t, name);
    } else {
      ParsePlainValid(t, op[0] == '+', name);
    }
  }

  lemma ParseCategoryValid(t: Table, allow: bool, name: string)
    requires ' ' !in name && name != "" && name[0] == '@' && ParseCategory(t, allow, name).Change?
    ensures GoodChange(t, Rule(allow, Lower(name)), "")
  {
    LowerTwice(name);
    LowerKeeps(name, ' ');
    LowerSlice(name, 1, |name|);
    assert name[1..] == name[1..|name|] && Lower(name)[1..] == Lower(name)[1..|name|];
    assert Lower(name)[0] == '@';
  }

  lemma ParsePlainValid(t: Table, allow: bool, name: string)
    requires ' ' !in name && ParsePlain(t, allow, name).Change?
    ensures GoodChange(t, ParsePlain(t, allow, name).rule, "")
  {
    LowerTwice(name);
    LowerKeeps(name, ' ');
    FullNameIs(t, name);
  }

  lemma ParseBarValid(t: Table, name: string)
    requires '|' in name && ' ' !in name && ParseBar(t, name).Change?
    ensures GoodChange(t, ParseBar(t, name).rule, ParseBar(t, name).typed)
  {
    var i, l := LastBar(name), Lower(name);
    LowerTwice(name);
    LowerKeeps(name, ' ');
    var c := Lookup(t, name[..i]).cmd;
    if c.subs == [] {
      assert name[i] == '|' && '|' !in name[i + 1..];
      FirstArgName(t, name, i, c);
    }
  }

  /** A command without subcommands, a bar and a word name a first argument. */
  lemma FirstArgName(t: Table, name: string, i: nat, c: Cmd)
    requires i + 1 < |name| && name[i] == '|' && '|' !in name[i + 1..]
    requires Lookup(t, name[..i]) == Whole(c) && c.subs == []
    ensures Resolve(t, Lower(name)) == FirstArg(c, Lower(name[i + 1..]))
  {
    var l := Lower(name);
    var front := l[..i];
    assert front == Lower(name[..i]) && l[i + 1..] == Lower(name[i + 1..]);
    assert Bar(front) == |front| && front[..|front|] == front;
    assert l[0] == front[0];
    FirstBarAt(l, i);
    LowerKeeps(name[i + 1..], '|');
  }
}
