/**
 * The selector object (redis-stable/src/acl.c:345-362, 557-713, 757-810, 913-968, 1034-1209, 1527-1552,
 * 1691-1716): every operation keeps the bitmap, the first arguments and `command_rules` in step, so printing
 * and recomputing from the string reproduces them.
 */
module AclReplay {
  import opened Basics
  import opened AclRules
  import opened AclText
  import opened AclSelector

  // ---------------------------------------------------------------- a stored rule is read back as itself

  lemma LowerText(r: Rule)
    requires Lower(r.name) == r.name
    ensures Lower(RuleText(r)) == RuleText(r) && RuleText(r)[1..] == r.name
  {
    var s := RuleText(r);
    forall i | 0 <= i < |s| ensures Lower(s)[i] == s[i] {
      if i > 0 { assert s[i] == r.name[i - 1] == Lower(r.name)[i - 1]; }
    }
  }

  lemma {:induction false} LastBarIs(s: string, i: nat)
    requires i < |s| && s[i] == '|' && '|' !in s[i + 1..]
    ensures LastBar(s) == i
  {
    if i < |s| - 1 {
      var front := s[..|s| - 1];
      assert s[i + 1..][|s| - 2 - i] == s[|s| - 1];
      assert s[i + 1..] == front[i + 1..] + [s[|s| - 1]];
      LastBarIs(front, i);
    }
  }

  lemma LowerFront(s: string, i: nat)
    requires Lower(s) == s && i <= |s|
    ensures Lower(s[..i]) == s[..i] && Lower(s[i..]) == s[i..]
  {
    assert forall k | 0 <= k < |s| :: LowerChar(s[k]) == Lower(s)[k];
  }

  lemma LookupFront(t: Table, front: string, c: Cmd)
    requires Lower(front) == front && front != "" && front[0] != '@' && '|' !in front
    requires FindCmd(t.cmds, front) == Some(c)
    ensures Lookup(t, front) == Whole(c)
  {
    assert front[..|front|] == front;
  }

  /** A rule with a bar: what stands before it is a command, what follows holds no other bar. */
  lemma BarRule(t: Table, r: Rule)
    requires GoodTable(t) && ValidRule(t, r)
    requires Resolve(t, r.name).Part? || Resolve(t, r.name).FirstArg?
    ensures '|' in r.name && LastBar(r.name) == Bar(r.name) < |r.name|
    ensures Lookup(t, r.name[..Bar(r.name)]) == Whole(Resolve(t, r.name).cmd)
    ensures r.name[Bar(r.name) + 1..] != ""
  {
    var i := Bar(r.name);
    var c := Resolve(t, r.name).cmd;
    assert c in t.cmds && GoodCmd(c);
    if Resolve(t, r.name).Part? {
      assert Resolve(t, r.name).sub in c.subs;
    }
    LastBarIs(r.name, i);
    LowerFront(r.name, i);
    LookupFront(t, r.name[..i], c);
  }

  /** Reading the text of a stored rule gives that rule. */
  lemma ParseStored(t: Table, r: Rule)
    requires GoodTable(t) && ValidRule(t, r)
    ensures Parse(t, RuleText(r)).Change? && Parse(t, RuleText(r)).rule == r
    ensures ' ' !in RuleText(r)
  {
    var op := RuleText(r);
    LowerText(r);
    assert op[0] == '+' || op[0] == '-';
    NotAll(t, r);
    if r.name[0] == '@' {
      ParseStoredCategory(t, r);
    } else if r.allow && '|' in r.name {
      ParseStoredBar(t, r);
    } else {
      ParseStoredPlain(t, r);
    }
  }

  lemma NotAll(t: Table, r: Rule)
    requires GoodTable(t) && ValidRule(t, r)
    ensures RuleText(r) != "+@all" && RuleText(r) != "-@all"
  {
    assert r.name[0] == '@' ==> r.name[1..] != "all";
    assert "@all"[1..] == "all" && "+@all"[1..] == "@all" && "-@all"[1..] == "@all";
    assert RuleText(r)[1..] == r.name;
  }

  lemma ParseStoredCategory(t: Table, r: Rule)
    requires ValidRule(t, r) && r.name[0] == '@'
    ensures ParseCategory(t, r.allow, r.name) == Change(r, "")
  {
    LowerFront(r.name, 1);
  }

  lemma ParseStoredBar(t: Table, r: Rule)
    requires GoodTable(t) && ValidRule(t, r) && r.name[0] != '@' && '|' in r.name && r.allow
    ensures ParseBar(t, r.name).Change? && ParseBar(t, r.name).rule == r
  {
    BarRule(t, r);
    var i, c := LastBar(r.name), Resolve(t, r.name).cmd;
    assert Lookup(t, r.name[..i]) == Whole(c) && r.name[i + 1..] != "";
    assert c.subs != [] ==> Lookup(t, r.name).Part?;
    ParseBarIs(t, r.name, c);
  }

  lemma ParseBarIs(t: Table, name: string, c: Cmd)
    requires '|' in name && Lower(name) == name && Lookup(t, name[..LastBar(name)]) == Whole(c) && name[LastBar(name) + 1..] != ""
    requires c.subs != [] ==> !Lookup(t, name).Nothing?
    ensures ParseBar(t, name).Change? && ParseBar(t, name).rule == Rule(true, name)
  {
  }

  lemma ParseStoredPlain(t: Table, r: Rule)
    requires ValidRule(t, r) && r.name[0] != '@' && !(r.allow && '|' in r.name)
    ensures ParsePlain(t, r.allow, r.name) == Change(r, "")
  {
    FullNameIs(t, r.name);
  }

  // ---------------------------------------------------------------- the object

  datatype Status = Ok | Err(errno: Errno) | NotCommandRule

  class Selector {
    const table: Table
    var bits: set<nat>
    var firstArgs: map<nat, seq<string>>
    var allCommands: bool
    var commandRules: string
    ghost var log: seq<Rule>

    ghost function State(): Perms
      reads this
    {
      Perms(bits, firstArgs, allCommands)
    }

    /** The string is the list of rules in force, no rule in it is overtaken by a later one, and they give the state. */
    ghost predicate Valid()
      reads this
    {
      && GoodTable(table) && PermsOk(table, State())
      && commandRules == TextOf(log) && ValidLog(table, log) && Reduced(log)
      && Follows(table, State(), log)
      && (allCommands ==> RESERVED in bits && NoDenial(table, log))
    }

    constructor (t: Table)
      requires GoodTable(t)
      ensures Valid() && table == t && State() == NoPerms && log == []
    {
      table := t;
      bits, firstArgs, allCommands, commandRules, log := {}, map[], false, "", [];
    }

    /** `ACLSetSelectorCommandBit`. */
    method SetCommandBit(id: nat, value: bool)
      modifies this`bits, this`allCommands
      ensures State() == SetBit(old(State()), id, value)
    {
      if id >= COMMAND_BITS { return; }
      if value {
        bits := bits + {id};
      } else {
        bits := bits - {id};
        allCommands := false;
      }
    }

    /** `ACLChangeSelectorPerm`, for a command with its subcommands or for a subcommand alone. */
    method ChangeCommandPerm(id: nat, subs: seq<Sub>, allow: bool)
      modifies this`bits, this`allCommands, this`firstArgs
      ensures State() == SetSubBits(ResetArgs(SetBit(old(State()), id, allow), id), subs, allow)
    {
      SetCommandBit(id, allow);
      firstArgs := firstArgs - {id};
      ghost var start := State();
      var i := 0;
      assert subs[..0] == [];
      while i < |subs|
        invariant 0 <= i <= |subs| && State() == SetSubBits(start, subs[..i], allow)
      {
        SetCommandBit(subs[i].id, allow);
        assert subs[..i + 1][..i] == subs[..i];
        i := i + 1;
      }
      assert subs[..i] == subs;
    }

    /** `ACLSetSelectorCommandBitsForCategory` on a table of subcommands. */
    method SetSubsOfCategory(subs: seq<Sub>, cat: string, value: bool)
      modifies this`bits, this`allCommands, this`firstArgs
      ensures State() == SubsInCategory(old(State()), subs, cat, value)
    {
      var i := 0;
      assert subs[..0] == [];
      while i < |subs|
        invariant 0 <= i <= |subs| && State() == SubsInCategory(old(State()), subs[..i], cat, value)
      {
        if cat in subs[i].cats { ChangeCommandPerm(subs[i].id, [], value); }
        assert subs[..i + 1][..i] == subs[..i];
        i := i + 1;
      }
      assert subs[..i] == subs;
    }

    /** `ACLSetSelectorCommandBitsForCategory` on the command table. */
    method SetBitsForCategory(cat: string, value: bool)
      modifies this`bits, this`allCommands, this`firstArgs
      ensures State() == CmdsInCategory(old(State()), table.cmds, cat, value)
    {
      var i := 0;
      assert table.cmds[..0] == [];
      while i < |table.cmds|
        invariant 0 <= i <= |table.cmds| && State() == CmdsInCategory(old(State()), table.cmds[..i], cat, value)
      {
        var c := table.cmds[i];
        if cat in c.cats { ChangeCommandPerm(c.id, c.subs, value); }
        SetSubsOfCategory(c.subs, cat, value);
        assert table.cmds[..i + 1][..i] == table.cmds[..i];
        i := i + 1;
      }
      assert table.cmds[..i] == table.cmds;
    }

    /** `ACLAddAllowedFirstArg`: a word already there, up to case, is not added again. */
    method AddAllowedFirstArg(id: nat, word: string)
      modifies this`firstArgs
      ensures State() == AddArg(old(State()), id, word)
    {
      var words := if id in firstArgs then firstArgs[id] else [];
      var items := 0;
      while items < |words|
        invariant 0 <= items <= |words| && forall i | 0 <= i < items :: Lower(words[i]) != Lower(word)
      {
        if Lower(words[items]) == Lower(word) { return; }
        items := items + 1;
      }
      firstArgs := firstArgs[id := words + [word]];
    }

    /** `ACLUpdateCommandRules`: drop what the rule supersedes, then append it. */
    method UpdateCommandRules(rule: string, allow: bool)
      requires GoodTable(table) && ValidLog(table, log) && commandRules == TextOf(log)
      modifies this`commandRules, this`log
      ensures log == Without(old(log), Lower(rule)) + [Rule(allow, Lower(rule))] && commandRules == TextOf(log)
    {
      var newRule := Lower(rule);
      TextsAreWords(table, log);
      var buf := RemoveCommandRule(commandRules, newRule, Texts(log));
      KeptTexts(log, newRule);
      ghost var kept, r := Without(log, newRule), Rule(allow, newRule);
      TextSnoc(kept, r);
      commandRules := (if |buf| > 0 then buf + SP else buf) + ((if allow then "+" else "-") + newRule);
      log := kept + [r];
      assert "" + RuleText(r) == RuleText(r);
    }

    method ApplyRuleTarget(target: Target, allow: bool, typed: string)
      modifies this`bits, this`allCommands, this`firstArgs
      ensures State() == ApplyTarget(table, old(State()), target, allow, typed)
    {
      match target
      case Nothing =>
      case Category(cat) => SetBitsForCategory(cat, allow);
      case Whole(c) => ChangeCommandPerm(c.id, c.subs, allow);
      case Part(c, s) => ChangeCommandPerm(s.id, [], allow);
      case FirstArg(c, _) => AddAllowedFirstArg(c.id, typed);
    }

    /**
     * `ACLSetSelector`, restricted to its effect on commands. A rejected operation changes nothing; an accepted
     * rule acts on the state as its target says and replaces the rules it supersedes.
     */
    method SetSelector(op: string) returns (st: Status)
      requires Valid() && ' ' !in op
      modifies this
      ensures Valid()
      ensures match Parse(table, op)
              case AllCommands => st == Ok && State() == AllPerms() && log == []
              case NoCommands => st == Ok && State() == NoPerms && log == []
              case Change(r, typed) =>
                st == Ok && log == Without(old(log), r.name) + [r] && (RESERVED in bits <==> RESERVED in old(bits)) &&
                State() == ApplyTarget(table, old(State()), Resolve(table, r.name), r.allow, typed)
              case Fail(e) => st == Err(e) && State() == old(State()) && log == old(log)
              case Elsewhere => st == NotCommandRule && State() == old(State()) && log == old(log)
    {
      match Parse(table, op)
      case AllCommands =>
        bits, allCommands, commandRules, firstArgs, log := AllBits(), true, "", map[], [];
        st := Ok;
      case NoCommands =>
        bits, allCommands, commandRules, firstArgs, log := {}, false, "", map[], [];
        st := Ok;
      case Change(r, typed) =>
        ParseValid(table, op);
        StepKeeps(table, State(), log, r, typed);
        FlagStep(table, State(), log, r, typed);
        ApplyRuleTarget(Resolve(table, r.name), r.allow, typed);
        UpdateCommandRules(r.name, r.allow);
        st := Ok;
      case Fail(e) => st := Err(e);
      case Elsewhere => st := NotCommandRule;
    }

    /** Replays stored rules on a selector that was just set to `+@all` or `-@all`. */
    method ApplyStored(rules: string, ghost stored: seq<Rule>)
      requires Valid() && log == [] && rules == TextOf(stored) && ValidLog(table, stored) && Reduced(stored)
      requires allCommands == (RESERVED in bits)
      modifies this
      ensures Valid() && log == stored && (RESERVED in bits <==> RESERVED in old(bits))
      ensures allCommands == (RESERVED in bits && NoDenial(table, log))
    {
      var argv := SplitArgs(rules);
      TextsAreWords(table, stored);
      SplitJoin(Texts(stored));
      var i := 0;
      while i < |argv|
        invariant 0 <= i <= |argv| && Valid() && log == stored[..i]
        invariant RESERVED in bits <==> RESERVED in old(bits)
        invariant allCommands == (RESERVED in bits && NoDenial(table, log))
      {
        assert stored[i] in stored;
        ParseStored(table, stored[i]);
        FlagAfter(table, State(), stored[i], Parse(table, argv[i]).typed);
        var res := SetSelector(argv[i]);
        assert res == Ok;
        ReplayNext(stored, i);
        i := i + 1;
      }
    }

    /**
     * `ACLDescribeSelectorCommandRules`: the text printed, replayed on a fresh selector, gives the very same
     * bitmap; `matches` is the test whose failure panics.
     */
    method Describe() returns (rules: string, matches: bool)
      requires Valid()
      ensures matches
      ensures rules == (if RESERVED in bits then "+@all" else "-@all") + (if log == [] then "" else SP + commandRules)
    {
      var fake := new Selector(table);
      var all := RESERVED in bits;
      ParseAll(table);
      var res := fake.SetSelector(if all then "+@all" else "-@all");
      fake.ApplyStored(commandRules, log);
      SameGrants(table, State(), fake.State(), log);
      rules := if all then "+@all" else "-@all";
      TextEmpty(log);
      if |commandRules| > 0 { rules := rules + (SP + commandRules); }
      matches := fake.bits == bits;
    }

    /**
     * `ACLRecomputeCommandBitsFromCommandRulesAllUsers`, one selector: nothing is granted or denied that was not
     * before. The ALLCOMMANDS flag is afterwards set exactly when the rules start from `+@all` and none takes a
     * command away, so it is kept exactly when it was set or that is not so.
     */
    method Recompute()
      requires Valid()
      modifies this
      ensures Valid() && commandRules == old(commandRules) && log == old(log) && bits == old(bits)
      ensures forall loc: Loc :: Grants(State(), loc) == Grants(old(State()), loc)
      ensures allCommands == (RESERVED in bits && NoDenial(table, log))
      ensures allCommands == old(allCommands) <==> old(allCommands) || RESERVED !in bits || !NoDenial(table, log)
    {
      ghost var was, stored := State(), log;
      var rules := commandRules;
      ParseAll(table);
      var res := SetSelector(if RESERVED in bits then "+@all" else "-@all");
      ApplyStored(rules, stored);
      SameGrants(table, was, State(), stored);
    }

    /**
     * The command part of `ACLSelectorCheckCmd`. The ALLCOMMANDS short cut decides as the bit test would, and the
     * argument read for a subcommand is never missing, because only plain commands have first arguments.
     */
    method CheckCommand(id: nat, subcommand: bool, noAuth: bool, argv: seq<string>) returns (allowed: bool)
      requires Valid() && id < COMMAND_BITS
      requires subcommand <==> exists c <- table.cmds, s <- c.subs :: s.id == id
      ensures allowed <==>
              noAuth || Grants(State(), Bit(id)) || (|argv| >= 2 && Grants(State(), Arg(id, Lower(argv[1]))))
    {
      if subcommand { SubcommandHasNoArgs(table, State(), id); }
      if allCommands || noAuth { return true; }
      if id in bits { return true; }
      if |argv| < 2 || id !in firstArgs { return false; }
      var subid := 0;
      while subid < |firstArgs[id]|
        invariant 0 <= subid <= |firstArgs[id]| && forall i | 0 <= i < subid :: Lower(firstArgs[id][i]) != Lower(argv[1])
      {
        if Lower(argv[if subcommand then 2 else 1]) == Lower(firstArgs[id][subid]) { return true; }
        subid := subid + 1;
      }
      allowed := false;
    }
  }

  lemma SubcommandHasNoArgs(t: Table, p: Perms, id: nat)
    requires GoodTable(t) && PermsOk(t, p) && exists c <- t.cmds, s <- c.subs :: s.id == id
    ensures id !in p.args
  {
    var c, s :| c in t.cmds && s in c.subs && s.id == id;
    assert forall d <- t.cmds :: d.id != id;
  }

  /** One accepted rule keeps everything the selector promises. */
  lemma StepKeeps(t: Table, p: Perms, log: seq<Rule>, r: Rule, typed: string)
    requires GoodTable(t) && PermsOk(t, p) && ValidLog(t, log) && Reduced(log) && Follows(t, p, log)
    requires GoodChange(t, r, typed)
    ensures var q, next := ApplyTarget(t, p, Resolve(t, r.name), r.allow, typed), Without(log, r.name) + [r];
            PermsOk(t, q) && ValidLog(t, next) && Reduced(next) && Follows(t, q, next) &&
            (RESERVED in q.bits <==> RESERVED in p.bits)
  {
    var kept := Without(log, r.name);
    ApplyOk(t, p, r, typed);
    StepFollows(t, p, log, r, typed);
    WithoutMembers(log, r.name);
    WithoutReduced(log, r.name);
    ReservedUnwritten(t, r);
    ApplyWrites(t, p, r, typed, Bit(RESERVED));
    var next := kept + [r];
    forall i, j | 0 <= i < j < |next| ensures !Supersedes(next[j].name, next[i].name) {
      if j == |kept| { assert next[i] == kept[i] && kept[i] in kept; }
    }
    assert forall x <- next :: x in kept || x == r;
  }

  lemma FlagStep(t: Table, p: Perms, log: seq<Rule>, r: Rule, typed: string)
    requires GoodTable(t) && ValidRule(t, r) && (p.all ==> NoDenial(t, log))
    ensures ApplyTarget(t, p, Resolve(t, r.name), r.allow, typed).all ==> p.all && NoDenial(t, Without(log, r.name) + [r])
  {
    FlagAfter(t, p, r, typed);
    WithoutMembers(log, r.name);
  }

  /**
   * Where the flag is not kept, whatever the table and the command: `+@all`, then the command taken away and given
   * back. Every bit is set and the flag is not; recomputing sets it.
   */
  method FlagComesBack(s: Selector, c: Cmd) returns (before: bool, after: bool)
    requires s.Valid() && Resolve(s.table, c.name) == Whole(c) && ValidRule(s.table, Rule(true, c.name))
    modifies s
    ensures s.Valid() && s.bits == AllBits() && s.log == [Rule(true, c.name)] && !before && after
  {
    ParseAll(s.table);
    var st := s.SetSelector("+@all");
    SetRule(s, Rule(false, c.name));
    SetRule(s, Rule(true, c.name));
    TakenAndGiven(s.table, c);
    before := s.allCommands;
    s.Recompute();
    after := s.allCommands;
  }

  /** Setting a rule by its stored text, where it is about a whole command. */
  method SetRule(s: Selector, r: Rule)
    requires s.Valid() && ValidRule(s.table, r) && Resolve(s.table, r.name).Whole?
    modifies s
    ensures s.Valid() && s.log == Without(old(s.log), r.name) + [r]
    ensures s.State() == ChangePerm(old(s.State()), Resolve(s.table, r.name).cmd, r.allow)
  {
    ParseStored(s.table, r);
    var st := s.SetSelector(RuleText(r));
  }

  lemma TakenAndGiven(t: Table, c: Cmd)
    requires GoodTable(t) && Resolve(t, c.name) == Whole(c)
    ensures var q := ChangePerm(ChangePerm(AllPerms(), c, false), c, true); q.bits == AllBits() && !q.all
    ensures var minus, plus := Rule(false, c.name), Rule(true, c.name); Without(Without([], c.name) + [minus], c.name) + [plus] == [plus]
    ensures !Denies(t, Rule(true, c.name))
  {
    assert GoodCmd(c);
    BitsTakenAndGiven(c);
    RuleReplaced(c.name);
  }

  lemma BitsTakenAndGiven(c: Cmd)
    requires GoodCmd(c)
    ensures var q := ChangePerm(ChangePerm(AllPerms(), c, false), c, true); q.bits == AllBits() && !q.all
  {
    ChangePermIs(AllPerms(), c, false);
    ChangePermIs(ChangePerm(AllPerms(), c, false), c, true);
    assert CmdIds(c) <= AllBits();
  }

  lemma RuleReplaced(name: string)
    ensures var minus, plus := Rule(false, name), Rule(true, name); Without(Without([], name) + [minus], name) + [plus] == [plus]
  {
    assert [] + [Rule(false, name)] == [Rule(false, name)];
    assert [Rule(false, name)][..0] == [];
  }

  lemma ReplayNext(stored: seq<Rule>, i: nat)
    requires Reduced(stored) && i < |stored|
    ensures Without(stored[..i], stored[i].name) + [stored[i]] == stored[..i + 1]
  {
    var front := stored[..i];
    forall x <- front ensures !Supersedes(stored[i].name, x.name) {
      var k :| 0 <= k < i && stored[k] == x;
    }
    WithoutNothing(front, stored[i].name);
  }

  lemma ParseAll(t: Table)
    ensures Parse(t, "+@all") == AllCommands && Parse(t, "-@all") == NoCommands
    ensures ' ' !in "+@all" && ' ' !in "-@all"
  {
    assert Lower("+@all") == "+@all" && Lower("-@all") == "-@all";
  }

  lemma TextEmpty(log: seq<Rule>)
    ensures TextOf(log) == "" <==> log == []
  {
    if log != [] { JoinNonEmpty(Texts(log)); }
  }

  // ---------------------------------------------------------------- command ids

  /** `ACLGetCommandID`. */
  class CommandIds {
    var ids: map<string, nat>
    var nextId: nat

    /** Ids are given in order, skipping the reserved one. */
    ghost predicate Valid()
      reads this
    {
      && nextId == (if |ids| < RESERVED then |ids| else |ids| + 1)
      && (forall n <- ids :: ids[n] < nextId && ids[n] != RESERVED)
      && (forall n <- ids, m <- ids | ids[n] == ids[m] :: n == m)
    }

    constructor ()
      ensures Valid() && ids == map[]
    {
      ids, nextId := map[], 0;
    }

    /**
     * The same id for the same name up to case, different ids for different names, never the reserved id, and
     * an id below it as long as at most 1023 names are known.
     */
    method GetCommandId(name: string) returns (id: nat)
      requires Valid()
      modifies this
      ensures Valid() && Lower(name) in ids && ids[Lower(name)] == id != RESERVED
      ensures if Lower(name) in old(ids) then ids == old(ids) else ids == old(ids)[Lower(name) := id]
      ensures |ids| <= RESERVED ==> id < RESERVED
    {
      var lower := Lower(name);
      if lower in ids { return ids[lower]; }
      id := nextId;
      ids := ids[lower := nextId];
      nextId := nextId + 1;
      if nextId == RESERVED { nextId := nextId + 1; }
    }
  }
}
