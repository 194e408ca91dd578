/** The `command_rules` string and its in-place edit (redis-stable/src/acl.c:571-625, 682, 780). */
module AclText {
  import opened Basics
  import opened AclRules

  // ---------------------------------------------------------------- words separated by single spaces

  const SP: string := " "

  function Join(ws: seq<string>): string {
    if ws == [] then "" else if |ws| == 1 then ws[0] else ws[0] + SP + Join(ws[1..])
  }

  /** Every word followed by a space. */
  function Spaced(ws: seq<string>): string {
    if ws == [] then "" else ws[0] + SP + Spaced(ws[1..])
  }

  predicate Word(w: string) {
    w != "" && ' ' !in w
  }

  lemma {:induction false} SpacedSnoc(ws: seq<string>, w: string)
    ensures Spaced(ws + [w]) == Spaced(ws) + (w + SP)
  {
    if ws == [] {
      assert [] + [w] == [w] && [w][1..] == [];
      assert w + SP + "" == "" + (w + SP);
    } else {
      assert (ws + [w])[1..] == ws[1..] + [w];
      SpacedSnoc(ws[1..], w);
      SeqAssoc(ws[0] + SP, Spaced(ws[1..]), w + SP);
    }
  }

  lemma {:induction false} SpacedJoin(ws: seq<string>, w: string)
    ensures Spaced(ws) + w == Join(ws + [w])
  {
    if ws == [] {
      assert [] + [w] == [w] && "" + w == w;
    } else {
      assert (ws + [w])[1..] == ws[1..] + [w];
      SpacedJoin(ws[1..], w);
      SeqAssoc(ws[0] + SP, Spaced(ws[1..]), w);
    }
  }

  lemma {:induction false} SpacedIsJoin(ws: seq<string>)
    requires ws != []
    ensures Spaced(ws) == Join(ws) + SP
  {
    if |ws| == 1 {
      assert ws[1..] == [];
      assert ws[0] + SP + "" == ws[0] + SP;
    } else {
      SpacedIsJoin(ws[1..]);
      SeqAssoc(ws[0] + SP, Join(ws[1..]), SP);
    }
  }

  /** The position of the first space at or after `i`, or the length. */
  function SpaceFrom(s: string, i: nat): (j: nat)
    requires i <= |s|
    ensures i <= j <= |s| && (forall k | i <= k < j :: s[k] != ' ') && (j < |s| ==> s[j] == ' ')
    decreases |s| - i
  {
    if i == |s| || s[i] == ' ' then i else SpaceFrom(s, i + 1)
  }

  // ---------------------------------------------------------------- the edit

  /** `memcmp` over the shorter length, then the length test. */
  predicate Matches(existing: string, newRule: string) {
    var n := if |existing| <= |newRule| then |existing| else |newRule|;
    existing[..n] == newRule[..n] &&
    (|existing| == |newRule| || (|existing| > |newRule| && existing[|newRule|] == '|'))
  }

  lemma MatchesIsSupersedes(existing: string, newRule: string)
    ensures Matches(existing, newRule) <==> Supersedes(newRule, existing)
  {
    if |existing| == |newRule| {
      assert existing[..|existing|] == existing && newRule[..|newRule|] == newRule;
    } else if |existing| > |newRule| {
      assert newRule[..|newRule|] == newRule;
    }
  }

  /** The words whose rule, after the sign, is not superseded. */
  function Kept(ws: seq<string>, newRule: string): seq<string> {
    if ws == [] then []
    else
      var w := ws[|ws| - 1];
      if w != "" && Supersedes(newRule, w[1..]) then Kept(ws[..|ws| - 1], newRule) else Kept(ws[..|ws| - 1], newRule) + [w]
  }

  /**
   * `ACLSelectorRemoveCommandRule`: scan the string once, closing the gap over every superseded rule. The
   * result is the text of the remaining rules, with no stray space.
   */
  method RemoveCommandRule(rules: string, newRule: string, ghost ws: seq<string>) returns (buf: string)
    requires rules == Join(ws) && forall w <- ws :: Word(w)
    ensures buf == Join(Kept(ws, newRule))
  {
    buf := rules;
    var pos := 0;
    ghost var n := 0;
    assert ws[..0] == [] && ws[0..] == ws;
    while pos < |buf|
      invariant 0 <= pos <= |buf| && Scanned(buf, pos, ws, newRule, n)
      decreases |ws| - n
    {
      ScanStep(buf, pos, ws, newRule, n);
      var copyPosition := pos;
      var start := pos + 1;
      var ruleEnd := SpaceFrom(buf, start);
      if ruleEnd == |buf| && copyPosition != 0 { copyPosition := copyPosition - 1; }
      var copyEnd := if ruleEnd < |buf| then ruleEnd + 1 else ruleEnd;
      if Matches(buf[start..ruleEnd], newRule) {
        buf := buf[..copyPosition] + buf[copyEnd..];
        pos := copyPosition;
      } else {
        pos := copyEnd;
      }
      n := n + 1;
    }
    JoinEmpty(ws[n..]);
    assert ws[..n] == ws;
  }

  /** The scan past the first `n` words: those kept stand before the position, the others after it. */
  ghost predicate Scanned(buf: string, pos: nat, ws: seq<string>, newRule: string, n: nat) {
    n <= |ws| &&
    var done := Kept(ws[..n], newRule);
    if n < |ws| then buf == Spaced(done) + Join(ws[n..]) && pos == |Spaced(done)| else buf == Join(done) && pos == |buf|
  }

  /** One turn: closing the gap over a superseded word, or stepping over a word that stays. */
  lemma ScanStep(buf: string, pos: nat, ws: seq<string>, newRule: string, n: nat)
    requires n < |ws| && (forall w <- ws :: Word(w)) && Scanned(buf, pos, ws, newRule, n)
    ensures pos + 1 <= |buf|
    ensures var end := SpaceFrom(buf, pos + 1);
            var from, to := if end == |buf| && pos != 0 then pos - 1 else pos, if end < |buf| then end + 1 else end;
            if Matches(buf[pos + 1..end], newRule)
            then from <= to && Scanned(buf[..from] + buf[to..], from, ws, newRule, n + 1)
            else Scanned(buf, to, ws, newRule, n + 1)
  {
    var done := Kept(ws[..n], newRule);
    assert ws[..n + 1][..n] == ws[..n];
    ScanWord(buf, done, ws, n);
    MatchesIsSupersedes(ws[n][1..], newRule);
    if Supersedes(newRule, ws[n][1..]) { DropWord(done, ws, n); } else { KeepWord(done, ws, n); }
  }

  lemma JoinEmpty(ws: seq<string>)
    requires forall w <- ws :: Word(w)
    ensures Join(ws) == "" <==> ws == []
  {
    if ws != [] {
      assert Word(ws[0]);
      JoinNonEmpty(ws);
    }
  }

  lemma JoinNonEmpty(ws: seq<string>)
    requires ws != [] && ws[0] != ""
    ensures Join(ws) != ""
  {
  }

  /** The word under the cursor ends at the next space, or at the end if it is the last. */
  lemma ScanWord(buf: string, done: seq<string>, ws: seq<string>, n: nat)
    requires n < |ws| && (forall w <- ws :: Word(w)) && buf == Spaced(done) + Join(ws[n..])
    ensures var pos, end := |Spaced(done)|, |Spaced(done)| + |ws[n]|;
            pos + 1 <= end <= |buf| && SpaceFrom(buf, pos + 1) == end && buf[pos + 1..end] == ws[n][1..] &&
            (end == |buf| <==> n + 1 == |ws|)
  {
    var a, w := Spaced(done), ws[n];
    assert Word(w);
    var tail := JoinHead(ws, n);
    ScanText(a, w, tail);
    SeqAssoc(a, w, tail);
  }

  lemma JoinHead(ws: seq<string>, n: nat) returns (tail: string)
    requires n < |ws|
    ensures Join(ws[n..]) == ws[n] + tail && (tail != "" ==> tail[0] == ' ') && (tail == "" <==> n + 1 == |ws|)
  {
    assert ws[n..][0] == ws[n] && ws[n..][1..] == ws[n + 1..];
    if n + 1 < |ws| {
      tail := SP + Join(ws[n + 1..]);
      SeqAssoc(ws[n], SP, Join(ws[n + 1..]));
    } else {
      tail := "";
      assert ws[n] + "" == ws[n];
    }
  }

  lemma ScanText(a: string, w: string, tail: string)
    requires Word(w) && (tail != "" ==> tail[0] == ' ')
    ensures var s := a + w + tail;
            SpaceFrom(s, |a| + 1) == |a| + |w| && s[|a| + 1..|a| + |w|] == w[1..]
  {
    var s, end := a + w + tail, |a| + |w|;
    forall i | |a| < i < end ensures s[i] != ' ' {
      assert s[i] == w[i - |a|] && w[i - |a|] in w;
    }
    if end < |s| { assert s[end] == tail[0]; }
    SpaceIs(s, |a| + 1, end);
    assert s[|a| + 1..end] == w[1..];
  }

  lemma SpaceIs(s: string, i: nat, j: nat)
    requires i <= j <= |s| && (forall k | i <= k < j :: s[k] != ' ') && (j < |s| ==> s[j] == ' ')
    ensures SpaceFrom(s, i) == j
  {
  }

  /** Closing the gap over a word leaves the other words, properly separated. */
  lemma DropWord(done: seq<string>, ws: seq<string>, n: nat)
    requires n < |ws|
    ensures var a, w, s := Spaced(done), ws[n], Spaced(done) + Join(ws[n..]);
            if n + 1 == |ws| then
              |s| == |a| + |w| && (|a| == 0 <==> done == []) &&
              s[..if |a| == 0 then 0 else |a| - 1] + s[|s|..] == Join(done) && |Join(done)| == if |a| == 0 then 0 else |a| - 1
            else
              |a| + |w| + 1 <= |s| && s[..|a|] + s[|a| + |w| + 1..] == a + Join(ws[n + 1..])
  {
    var a, w := Spaced(done), ws[n];
    assert ws[n..][0] == w && ws[n..][1..] == ws[n + 1..];
    if n + 1 == |ws| {
      if done != [] { SpacedIsJoin(done); }
    } else {
      Cut(a, w + SP, Join(ws[n + 1..]));
    }
  }

  lemma Cut(a: string, b: string, c: string)
    ensures (a + (b + c))[..|a|] == a && (a + (b + c))[|a| + |b|..] == c
  {
  }

  /** Stepping over a word moves it to the words done. */
  lemma KeepWord(done: seq<string>, ws: seq<string>, n: nat)
    requires n < |ws|
    ensures var a, w, s := Spaced(done), ws[n], Spaced(done) + Join(ws[n..]);
            if n + 1 == |ws| then s == Join(done + [w]) && |s| == |a| + |w|
            else s == Spaced(done + [w]) + Join(ws[n + 1..]) && |Spaced(done + [w])| == |a| + |w| + 1
  {
    var a, w := Spaced(done), ws[n];
    assert ws[n..][0] == w && ws[n..][1..] == ws[n + 1..];
    SpacedJoin(done, w);
    SpacedSnoc(done, w);
    if n + 1 < |ws| { SeqAssoc(a, w + SP, Join(ws[n + 1..])); }
  }

  // ---------------------------------------------------------------- splitting the string again

  /** `sdssplitargs` on a string without quotes: the maximal runs without blanks. */
  function SplitArgs(s: string): seq<string>
    decreases |s|
  {
    if s == "" then []
    else if s[0] == ' ' then SplitArgs(s[1..])
    else
      var j := SpaceFrom(s, 0);
      [s[..j]] + SplitArgs(s[j..])
  }

  /** The words are read back one by one. */
  lemma {:induction false} SplitJoin(ws: seq<string>)
    requires forall w <- ws :: Word(w)
    ensures SplitArgs(Join(ws)) == ws
    decreases |ws|
  {
    if ws != [] {
      var w, rest := ws[0], ws[1..];
      assert w in ws;
      if rest == [] {
        SplitFirst(w, "");
        assert w + "" == w;
      } else {
        SplitFirst(w, SP + Join(rest));
        SeqAssoc(w, SP, Join(rest));
        assert (SP + Join(rest))[1..] == Join(rest);
        SplitJoin(rest);
      }
      assert [w] + rest == ws;
    }
  }

  lemma SplitFirst(w: string, tail: string)
    requires Word(w) && (tail != "" ==> tail[0] == ' ')
    ensures SplitArgs(w + tail) == [w] + SplitArgs(tail)
  {
    var s := w + tail;
    forall i | 0 <= i < |w| ensures s[i] == w[i] != ' ' {
      assert w[i] in w;
    }
    if |w| < |s| { assert s[|w|] == tail[0]; }
    SpaceIs(s, 0, |w|);
    assert s[..|w|] == w && s[|w|..] == tail;
  }

  // ---------------------------------------------------------------- rules as words

  function RuleText(r: Rule): string {
    [if r.allow then '+' else '-'] + r.name
  }

  function Texts(log: seq<Rule>): seq<string> {
    seq(|log|, i requires 0 <= i < |log| => RuleText(log[i]))
  }

  function TextOf(log: seq<Rule>): string {
    Join(Texts(log))
  }

  lemma {:induction false} KeptTexts(log: seq<Rule>, name: string)
    ensures Kept(Texts(log), name) == Texts(Without(log, name))
    decreases |log|
  {
    if log != [] {
      var front, r := log[..|log| - 1], log[|log| - 1];
      KeptTexts(front, name);
      assert Texts(log)[..|log| - 1] == Texts(front);
      assert RuleText(r)[1..] == r.name;
      assert Texts(Without(front, name) + [r]) == Texts(Without(front, name)) + [RuleText(r)];
    }
  }

  lemma TextsAreWords(t: Table, log: seq<Rule>)
    requires ValidLog(t, log)
    ensures forall w <- Texts(log) :: Word(w)
  {
    forall i | 0 <= i < |log| ensures Word(Texts(log)[i]) {
      assert log[i] in log;
    }
  }

  /** `sdscatfmt` after a separating space. */
  lemma TextSnoc(log: seq<Rule>, r: Rule)
    ensures TextOf(log + [r]) == if log == [] then RuleText(r) else TextOf(log) + SP + RuleText(r)
    ensures TextOf(log) == "" <==> log == []
  {
    var ws := Texts(log);
    assert Texts(log + [r]) == ws + [RuleText(r)];
    SpacedJoin(ws, RuleText(r));
    if log == [] {
      assert "" + RuleText(r) == RuleText(r);
    } else {
      SpacedIsJoin(ws);
      JoinNonEmpty(ws);
    }
  }
}
