/** Reciprocal-rank fusion (backend/ai_services/utils.py:236-277), over exact reals. */
module RankFusion {
  import opened Distinct

  const K: nat := 60

  datatype Entry = Entry(id: nat, score: real)

  // ---------------------------------------------------------------- scores

  /** The place of a chunk in a result list, the length if it is not there. */
  function Place(xs: seq<nat>, id: nat): (i: nat)
    ensures i <= |xs| && (i < |xs| ==> xs[i] == id) && (i == |xs| ==> id !in xs) && id !in xs[..i]
  {
    if xs == [] then 0
    else if xs[0] == id then 0
    else
      var i := 1 + Place(xs[1..], id);
      assert xs == [xs[0]] + xs[1..] && xs[..i] == [xs[0]] + xs[1..][..i - 1];
      i
  }

  function Share(rank: nat): real {
    1.0 / (K + rank + 1) as real
  }

  function ShareIn(share: nat -> real, xs: seq<nat>, id: nat): real {
    if id in xs then share(Place(xs, id)) else 0.0
  }

  /** The fused score, for any way to value a rank. */
  function Score(share: nat -> real, vector: seq<nat>, keyword: seq<nat>, id: nat): real {
    ShareIn(share, vector, id) + ShareIn(share, keyword, id)
  }

  lemma Reciprocal(a: real, b: real)
    requires 0.0 < a <= b
    ensures 1.0 / b <= 1.0 / a
    ensures a < b ==> 1.0 / b < 1.0 / a
  {
    var x, y := 1.0 / a, 1.0 / b;
    Positive(a);
    Positive(b);
    assert x * a == 1.0 && y * b == 1.0;
    assert x * y * (b - a) == x * (y * b) - y * (x * a);
  }

  /** Later ranks give less. */
  lemma ShareFalls(r: nat, s: nat)
    requires r <= s
    ensures 0.0 < Share(s) <= Share(r) && (r < s ==> Share(s) < Share(r))
  {
    Reciprocal((K + r + 1) as real, (K + s + 1) as real);
    Positive((K + s + 1) as real);
  }

  lemma Positive(a: real)
    requires a > 0.0
    ensures 1.0 / a > 0.0
  {
    assert (1.0 / a) * a == 1.0;
  }

  lemma {:induction false} PlaceIs(xs: seq<nat>, i: nat)
    requires NoDup(xs) && i < |xs|
    ensures Place(xs, xs[i]) == i
  {
    if i > 0 {
      NoDupTail(xs);
      assert xs[1..][i - 1] == xs[i];
      PlaceIs(xs[1..], i - 1);
    }
  }

  // ---------------------------------------------------------------- accumulation

  /** The members of `xs` that are not in `seen`, in order. */
  function Fresh(xs: seq<nat>, seen: seq<nat>): seq<nat> {
    if xs == [] then []
    else if xs[|xs| - 1] in seen then Fresh(xs[..|xs| - 1], seen)
    else Fresh(xs[..|xs| - 1], seen) + [xs[|xs| - 1]]
  }

  lemma {:induction false} FreshMembers(xs: seq<nat>, seen: seq<nat>)
    ensures forall id <- Fresh(xs, seen) :: id in xs
    decreases |xs|
  {
    if xs != [] {
      FreshMembers(xs[..|xs| - 1], seen);
      assert xs == xs[..|xs| - 1] + [xs[|xs| - 1]];
    }
  }

  /** The next chunk is new exactly when it is not among those seen before the list. */
  lemma FreshNext(xs: seq<nat>, seen: seq<nat>, rank: nat)
    requires NoDup(xs) && rank < |xs|
    ensures var order, id := seen + Fresh(xs[..rank], seen), xs[rank];
            (id in order <==> id in seen) && seen + Fresh(xs[..rank + 1], seen) == if id in seen then order else order + [id]
  {
    NoDupBefore(xs, rank);
    FreshMembers(xs[..rank], seen);
    assert xs[..rank + 1][..rank] == xs[..rank];
    assert seen + Fresh(xs[..rank], seen) + [xs[rank]] == seen + (Fresh(xs[..rank], seen) + [xs[rank]]);
  }

  /** The score of a chunk after the first `n` of a list have been counted in. */
  predicate AddedAt(share: nat -> real, xs: seq<nat>, n: nat, before: map<nat, real>, after: map<nat, real>, id: nat)
    requires n <= |xs|
  {
    id in after ==> after[id] == (if id in before then before[id] else 0.0) + (if id in xs[..n] then ShareIn(share, xs, id) else 0.0)
  }

  ghost predicate Added(share: nat -> real, xs: seq<nat>, n: nat, before: map<nat, real>, after: map<nat, real>)
    requires n <= |xs|
  {
    before.Keys <= after.Keys && forall id: nat :: AddedAt(share, xs, n, before, after, id)
  }

  lemma AddedNext(share: nat -> real, xs: seq<nat>, n: nat, before: map<nat, real>, mid: map<nat, real>)
    requires NoDup(xs) && n < |xs| && Added(share, xs, n, before, mid)
    ensures Added(share, xs, n + 1, before, mid[xs[n] := (if xs[n] in mid then mid[xs[n]] else 0.0) + share(n)])
  {
    var after := mid[xs[n] := (if xs[n] in mid then mid[xs[n]] else 0.0) + share(n)];
    NoDupBefore(xs, n);
    PlaceIs(xs, n);
    assert xs[..n + 1] == xs[..n] + [xs[n]];
    var m := n + 1;
    forall id: nat ensures AddedAt(share, xs, m, before, after, id) {
      assert AddedAt(share, xs, n, before, mid, id);
    }
  }

  function Keys(order: seq<nat>): set<nat> {
    set id <- order
  }

  /** `chunk_scores`: keys in the order of their insertion. */
  method AddShares(share: nat -> real, xs: seq<nat>, order0: seq<nat>, scores0: map<nat, real>) returns (order: seq<nat>, scores: map<nat, real>)
    requires NoDup(xs) && scores0.Keys == Keys(order0)
    ensures order == order0 + Fresh(xs, order0) && scores.Keys == Keys(order) && Added(share, xs, |xs|, scores0, scores)
  {
    order, scores := order0, scores0;
    var rank := 0;
    assert order0 + [] == order0 && xs[..0] == [];
    while rank < |xs|
      invariant 0 <= rank <= |xs| && order == order0 + Fresh(xs[..rank], order0) && scores.Keys == Keys(order)
      invariant Added(share, xs, rank, scores0, scores)
    {
      var id := xs[rank];
      FreshNext(xs, order0, rank);
      AddedNext(share, xs, rank, scores0, scores);
      ghost var mid := scores;
      if id !in scores {
        order := order + [id];
        scores := scores[id := 0.0];
      }
      scores := scores[id := scores[id] + share(rank)];
      assert scores == mid[id := (if id in mid then mid[id] else 0.0) + share(rank)];
      rank := rank + 1;
    }
    assert xs[..rank] == xs;
  }

  // ---------------------------------------------------------------- the sort

  /** A stable insertion into a list in descending order: after all that are not smaller. */
  function Insert(e: Entry, s: seq<Entry>): seq<Entry> {
    if s == [] then [e]
    else if s[|s| - 1].score >= e.score then s + [e]
    else Insert(e, s[..|s| - 1]) + [s[|s| - 1]]
  }

  /** `sorted(..., reverse=True)`: descending, equal scores in their old order. */
  function Sorted(es: seq<Entry>): seq<Entry> {
    if es == [] then [] else Insert(es[|es| - 1], Sorted(es[..|es| - 1]))
  }

  predicate DescendsAt(s: seq<Entry>, i: nat, j: nat)
    requires i < j < |s|
  {
    s[i].score >= s[j].score
  }

  predicate Descends(s: seq<Entry>) {
    forall i, j | 0 <= i < j < |s| :: DescendsAt(s, i, j)
  }

  lemma {:induction false} InsertMembers(e: Entry, s: seq<Entry>)
    ensures |Insert(e, s)| == |s| + 1 && forall x :: x in Insert(e, s) <==> x == e || x in s
    decreases |s|
  {
    if s != [] && s[|s| - 1].score < e.score {
      InsertMembers(e, s[..|s| - 1]);
      assert s == s[..|s| - 1] + [s[|s| - 1]];
    }
  }

  lemma {:induction false} InsertDescends(e: Entry, s: seq<Entry>)
    requires Descends(s)
    ensures Descends(Insert(e, s))
    decreases |s|
  {
    if s == [] {
    } else if s[|s| - 1].score >= e.score {
      var t := s + [e];
      forall i, j | 0 <= i < j < |t| ensures DescendsAt(t, i, j) {
        if j < |s| { assert DescendsAt(s, i, j); }
        else if i < |s| - 1 { assert DescendsAt(s, i, |s| - 1); }
      }
    } else {
      var front, last := s[..|s| - 1], s[|s| - 1];
      forall i, j | 0 <= i < j < |front| ensures DescendsAt(front, i, j) { assert DescendsAt(s, i, j); }
      InsertDescends(e, front);
      InsertMembers(e, front);
      var t := Insert(e, front) + [last];
      forall i, j | 0 <= i < j < |t| ensures DescendsAt(t, i, j) {
        if j < |t| - 1 {
          assert DescendsAt(Insert(e, front), i, j);
        } else if t[i] != e {
          assert t[i] in Insert(e, front);
          var k :| 0 <= k < |front| && front[k] == t[i];
          assert DescendsAt(s, k, |s| - 1);
        }
      }
    }
  }

  lemma {:induction false} SortedIs(es: seq<Entry>)
    ensures Descends(Sorted(es)) && |Sorted(es)| == |es| && forall x :: x in Sorted(es) <==> x in es
    decreases |es|
  {
    if es != [] {
      var front, e := es[..|es| - 1], es[|es| - 1];
      SortedIs(front);
      InsertMembers(e, Sorted(front));
      InsertDescends(e, Sorted(front));
      assert es == front + [e];
    }
  }

  function Ids(es: seq<Entry>): seq<nat> {
    seq(|es|, i requires 0 <= i < |es| => es[i].id)
  }

  lemma {:induction false} InsertNoDup(e: Entry, s: seq<Entry>)
    requires NoDup(Ids(s)) && e.id !in Ids(s)
    ensures NoDup(Ids(Insert(e, s)))
    decreases |s|
  {
    if s == [] {
      assert Ids([e]) == [e.id];
    } else if s[|s| - 1].score >= e.score {
      assert Ids(s + [e]) == Ids(s) + [e.id];
      NoDupSnoc(Ids(s), e.id);
    } else {
      var front, last := s[..|s| - 1], s[|s| - 1];
      assert Ids(front) == Ids(s)[..|s| - 1];
      NoDupPrefix(Ids(s), |s| - 1);
      NoDupBefore(Ids(s), |s| - 1);
      InsertNoDup(e, front);
      InsertMembers(e, front);
      var t := Insert(e, front);
      forall i | 0 <= i < |t| ensures Ids(t)[i] != last.id {
        if t[i] != e {
          assert t[i] in t;
          var k :| 0 <= k < |front| && front[k] == t[i];
          assert Ids(front)[k] == t[i].id;
        } else {
          assert Ids(s)[|s| - 1] == last.id;
        }
      }
      assert Ids(t + [last]) == Ids(t) + [last.id];
      NoDupSnoc(Ids(t), last.id);
    }
  }

  lemma {:induction false} SortedNoDup(es: seq<Entry>)
    requires NoDup(Ids(es))
    ensures NoDup(Ids(Sorted(es)))
    decreases |es|
  {
    if es != [] {
      var front, e := es[..|es| - 1], es[|es| - 1];
      assert Ids(front) == Ids(es)[..|es| - 1];
      NoDupPrefix(Ids(es), |es| - 1);
      NoDupBefore(Ids(es), |es| - 1);
      SortedNoDup(front);
      SortedIs(front);
      forall i | 0 <= i < |Sorted(front)| ensures Ids(Sorted(front))[i] != e.id {
        assert Sorted(front)[i] in Sorted(front);
        var k :| 0 <= k < |front| && front[k] == Sorted(front)[i];
        assert Ids(front)[k] == front[k].id && Ids(es)[|es| - 1] == e.id;
      }
      InsertNoDup(e, Sorted(front));
    }
  }

  // ---------------------------------------------------------------- the result

  /** Chunks of the vector search first, then those only the keyword search found. */
  function Union(vector: seq<nat>, keyword: seq<nat>): seq<nat> {
    vector + Fresh(keyword, vector)
  }

  /** The chunks found, with their scores. */
  function Entries(share: nat -> real, vector: seq<nat>, keyword: seq<nat>): seq<Entry> {
    var order := Union(vector, keyword);
    seq(|order|, i requires 0 <= i < |order| => Entry(order[i], Score(share, vector, keyword, order[i])))
  }

  function Take(es: seq<Entry>, n: nat): seq<Entry> {
    if |es| <= n then es else es[..n]
  }

  function Best(share: nat -> real, vector: seq<nat>, keyword: seq<nat>, limit: nat): seq<Entry> {
    Take(Sorted(Entries(share, vector, keyword)), limit)
  }

  lemma {:induction false} AllFresh(xs: seq<nat>)
    ensures Fresh(xs, []) == xs
    decreases |xs|
  {
    if xs != [] {
      AllFresh(xs[..|xs| - 1]);
      assert xs[..|xs| - 1] + [xs[|xs| - 1]] == xs;
    }
  }

  /** Both loops over the results. */
  method Accumulate(share: nat -> real, vector: seq<nat>, keyword: seq<nat>) returns (order: seq<nat>, scores: map<nat, real>)
    requires NoDup(vector) && NoDup(keyword)
    ensures order == Union(vector, keyword) && scores.Keys == Keys(order)
    ensures forall i | 0 <= i < |order| :: scores[order[i]] == Score(share, vector, keyword, order[i])
  {
    var first, scores1 := AddShares(share, vector, [], map[]);
    AllFresh(vector);
    assert [] + vector == vector;
    order, scores := AddShares(share, keyword, first, scores1);
    forall i | 0 <= i < |order| ensures scores[order[i]] == Score(share, vector, keyword, order[i]) {
      SumIs(share, vector, keyword, scores1, scores, order[i]);
    }
  }

  lemma SumIs(share: nat -> real, vector: seq<nat>, keyword: seq<nat>, one: map<nat, real>, two: map<nat, real>, id: nat)
    requires Added(share, vector, |vector|, map[], one) && Added(share, keyword, |keyword|, one, two)
    requires id in two && one.Keys == Keys(vector)
    ensures two[id] == Score(share, vector, keyword, id)
  {
    assert AddedAt(share, vector, |vector|, map[], one, id) && AddedAt(share, keyword, |keyword|, one, two, id);
    assert vector[..|vector|] == vector && keyword[..|keyword|] == keyword;
  }

  /** `chunk_scores.values()`. */
  method Values(share: nat -> real, vector: seq<nat>, keyword: seq<nat>) returns (items: seq<Entry>)
    requires NoDup(vector) && NoDup(keyword)
    ensures items == Entries(share, vector, keyword)
  {
    var order, scores := Accumulate(share, vector, keyword);
    items := [];
    var i := 0;
    while i < |order|
      invariant 0 <= i <= |order| && |items| == i && forall k | 0 <= k < i :: items[k] == Entry(order[k], Score(share, vector, keyword, order[k]))
    {
      assert order[i] in scores.Keys;
      items := items + [Entry(order[i], scores[order[i]])];
      i := i + 1;
    }
  }

  /** The fusion part of `search_knowledge`. */
  method Fuse(vector: seq<nat>, keyword: seq<nat>, limit: nat) returns (best: seq<Entry>)
    requires NoDup(vector) && NoDup(keyword)
    ensures best == Best(Share, vector, keyword, limit)
  {
    var items := Values(Share, vector, keyword);
    best := Take(Sorted(items), limit);
  }

  lemma {:induction false} FreshIs(xs: seq<nat>, seen: seq<nat>)
    requires NoDup(xs) && NoDup(seen)
    ensures NoDup(seen + Fresh(xs, seen)) && forall id :: id in Fresh(xs, seen) <==> id in xs && id !in seen
    decreases |xs|
  {
    if xs == [] {
      assert seen + [] == seen;
    } else {
      var front, x := xs[..|xs| - 1], xs[|xs| - 1];
      NoDupPrefix(xs, |xs| - 1);
      NoDupBefore(xs, |xs| - 1);
      FreshIs(front, seen);
      assert xs == front + [x];
      if x !in seen {
        NoDupSnoc(seen + Fresh(front, seen), x);
        assert seen + Fresh(front, seen) + [x] == seen + (Fresh(front, seen) + [x]);
      }
    }
  }

  /** A chunk that is not returned scores no higher than any that is. */
  predicate NoBetter(share: nat -> real, vector: seq<nat>, keyword: seq<nat>, best: seq<Entry>, id: nat) {
    id !in Ids(best) ==> forall e <- best :: Score(share, vector, keyword, id) <= e.score
  }

  lemma LeftOut(share: nat -> real, vector: seq<nat>, keyword: seq<nat>, limit: nat, id: nat)
    requires NoDup(vector) && NoDup(keyword) && (id in vector || id in keyword)
    ensures NoBetter(share, vector, keyword, Best(share, vector, keyword, limit), id)
  {
    var es, order := Entries(share, vector, keyword), Union(vector, keyword);
    var s, best := Sorted(es), Best(share, vector, keyword, limit);
    FreshIs(keyword, vector);
    SortedIs(es);
    assert id in order;
    var k :| 0 <= k < |order| && order[k] == id;
    assert es[k] in s;
    var j :| 0 <= j < |s| && s[j] == es[k];
    if j < |best| {
      assert Ids(best)[j] == id;
    } else {
      forall e <- best ensures es[k].score <= e.score {
        var i :| 0 <= i < |best| && best[i] == e;
        assert DescendsAt(s, i, j);
      }
    }
  }

  /** Each chunk once, in descending score, as many as asked for or as there are, and none left out scores higher. */
  lemma BestIs(share: nat -> real, vector: seq<nat>, keyword: seq<nat>, limit: nat)
    requires NoDup(vector) && NoDup(keyword)
    ensures var best, n := Best(share, vector, keyword, limit), |Union(vector, keyword)|;
            |best| == (if n <= limit then n else limit) && Descends(best) && NoDup(Ids(best)) &&
            forall e <- best :: (e.id in vector || e.id in keyword) && e.score == Score(share, vector, keyword, e.id)
    ensures forall id | id in vector || id in keyword :: NoBetter(share, vector, keyword, Best(share, vector, keyword, limit), id)
  {
    forall id | id in vector || id in keyword ensures NoBetter(share, vector, keyword, Best(share, vector, keyword, limit), id) {
      LeftOut(share, vector, keyword, limit, id);
    }
    var es := Entries(share, vector, keyword);
    FreshIs(keyword, vector);
    assert Ids(es) == Union(vector, keyword);
    SortedIs(es);
    SortedNoDup(es);
    TakeIs(Sorted(es), limit);
    forall e <- Best(share, vector, keyword, limit) ensures (e.id in vector || e.id in keyword) && e.score == Score(share, vector, keyword, e.id) {
      assert e in Sorted(es) && e in es;
    }
  }

  lemma TakeIs(s: seq<Entry>, n: nat)
    requires Descends(s) && NoDup(Ids(s))
    ensures Descends(Take(s, n)) && NoDup(Ids(Take(s, n)))
  {
    if n < |s| {
      var t := s[..n];
      forall i, j | 0 <= i < j < n ensures DescendsAt(t, i, j) { assert DescendsAt(s, i, j); }
      assert Ids(t) == Ids(s)[..n];
      NoDupPrefix(Ids(s), n);
    }
  }

  // ---------------------------------------------------------------- found by both

  predicate Both(vector: seq<nat>, keyword: seq<nat>, id: nat) {
    id in vector && id in keyword
  }

  /** A chunk found by both searches stands before that place. */
  predicate Before(best: seq<Entry>, id: nat, j: nat)
    requires j <= |best|
  {
    exists i | 0 <= i < j :: best[i].id == id
  }

  /** Every chunk found by both searches comes before every chunk found by only one. */
  ghost predicate BothFirst(share: nat -> real, vector: seq<nat>, keyword: seq<nat>, limit: nat) {
    var best := Best(share, vector, keyword, limit);
    forall id, j | Both(vector, keyword, id) && 0 <= j < |best| && !Both(vector, keyword, best[j].id) :: Before(best, id, j)
  }

  /** Each search returns at most twice the limit. */
  ghost predicate Searches(vector: seq<nat>, keyword: seq<nat>, limit: nat) {
    NoDup(vector) && NoDup(keyword) && |vector| <= 2 * limit && |keyword| <= 2 * limit
  }

  lemma ScoreOfBoth(vector: seq<nat>, keyword: seq<nat>, limit: nat, id: nat)
    requires Searches(vector, keyword, limit) && Both(vector, keyword, id)
    ensures limit > 0 && Score(Share, vector, keyword, id) >= 2.0 * Share(2 * limit - 1)
  {
    ShareFalls(Place(vector, id), 2 * limit - 1);
    ShareFalls(Place(keyword, id), 2 * limit - 1);
  }

  lemma ScoreOfOne(vector: seq<nat>, keyword: seq<nat>, id: nat)
    requires !Both(vector, keyword, id)
    ensures Score(Share, vector, keyword, id) <= Share(0)
  {
    ShareFalls(0, Place(vector, id));
    ShareFalls(0, Place(keyword, id));
  }

  /** 2 / (60 + 2 * limit) against 1 / 61. */
  lemma Compare(limit: nat)
    requires limit > 0
    ensures 2.0 * Share(2 * limit - 1) > Share(0) <==> limit <= 30
  {
    var d := (K + 2 * limit) as real;
    assert 1.0 / d * d == 1.0;
    Reciprocal(if limit <= 30 then d else 122.0, if limit <= 30 then 120.0 else d);
  }

  predicate BeatsAt(share: nat -> real, vector: seq<nat>, keyword: seq<nat>, id: nat, other: nat) {
    Both(vector, keyword, id) && !Both(vector, keyword, other) ==> Score(share, vector, keyword, id) > Score(share, vector, keyword, other)
  }

  /** If chunks found by both always score higher, they come first. */
  lemma HigherComesFirst(share: nat -> real, vector: seq<nat>, keyword: seq<nat>, limit: nat)
    requires NoDup(vector) && NoDup(keyword) && forall id, other :: BeatsAt(share, vector, keyword, id, other)
    ensures BothFirst(share, vector, keyword, limit)
  {
    var es, best := Entries(share, vector, keyword), Best(share, vector, keyword, limit);
    var all := Sorted(es);
    SortedIs(es);
    FreshIs(keyword, vector);
    forall id, j | Both(vector, keyword, id) && 0 <= j < |best| && !Both(vector, keyword, best[j].id) ensures Before(best, id, j) {
      var k := Place(vector, id);
      assert Union(vector, keyword)[k] == id;
      var e := es[k];
      assert e in es;
      var i :| 0 <= i < |all| && all[i] == e;
      assert best[j] == all[j] && all[j] in all && all[j] in es;
      assert BeatsAt(share, vector, keyword, id, best[j].id);
      EarlierIsHigher(all, i, j);
      assert best[i].id == id;
    }
  }

  lemma EarlierIsHigher(s: seq<Entry>, i: nat, j: nat)
    requires Descends(s) && i < |s| && j < |s| && s[i].score > s[j].score
    ensures i < j
  {
    assert j < i ==> DescendsAt(s, j, i);
  }

  /** Up to a limit of thirty, for all results of the two searches. */
  lemma BothComeFirst(vector: seq<nat>, keyword: seq<nat>, limit: nat)
    requires Searches(vector, keyword, limit) && limit <= 30
    ensures BothFirst(Share, vector, keyword, limit)
  {
    forall id, other ensures BeatsAt(Share, vector, keyword, id, other) {
      if Both(vector, keyword, id) && !Both(vector, keyword, other) {
        ScoreOfBoth(vector, keyword, limit, id);
        ScoreOfOne(vector, keyword, other);
        Compare(limit);
      }
    }
    HigherComesFirst(Share, vector, keyword, limit);
  }

  // ---------------------------------------------------------------- beyond thirty

  lemma {:induction false} InsertKeepsHead(e: Entry, s: seq<Entry>)
    requires s != [] && s[0].score >= e.score
    ensures Insert(e, s) != [] && Insert(e, s)[0] == s[0]
    decreases |s|
  {
    if s[|s| - 1].score < e.score { InsertKeepsHead(e, s[..|s| - 1]); }
  }

  /** An entry that nothing outscores stays first. */
  lemma {:induction false} HeadStays(es: seq<Entry>)
    requires es != [] && forall i | 0 <= i < |es| :: es[0].score >= es[i].score
    ensures Sorted(es) != [] && Sorted(es)[0] == es[0]
    decreases |es|
  {
    if |es| == 1 {
      assert es[..0] == [];
    } else {
      HeadStays(es[..|es| - 1]);
      InsertKeepsHead(es[|es| - 1], Sorted(es[..|es| - 1]));
    }
  }

  /** Two full lists that share only their last chunk. */
  function FullVector(limit: nat): seq<nat> {
    seq(2 * limit, i requires 0 <= i < 2 * limit => i)
  }

  function FullKeyword(limit: nat): seq<nat> {
    seq(2 * limit, i requires 0 <= i < 2 * limit => if i == 2 * limit - 1 then i else 2 * limit + i)
  }

  lemma FullLists(limit: nat)
    requires limit > 0
    ensures Searches(FullVector(limit), FullKeyword(limit), limit)
    ensures forall id :: Both(FullVector(limit), FullKeyword(limit), id) <==> id == 2 * limit - 1
  {
    var v, k, n := FullVector(limit), FullKeyword(limit), 2 * limit;
    forall i, j | 0 <= i < j < n ensures Differ(v, i, j) && Differ(k, i, j) {}
    assert v[n - 1] == n - 1 && k[n - 1] == n - 1;
  }

  /** The first chunk of the vector search, though found by one search only, beats the chunk found by both. */
  lemma LastByBothLoses(limit: nat)
    requires limit > 30
    ensures Searches(FullVector(limit), FullKeyword(limit), limit) && !BothFirst(Share, FullVector(limit), FullKeyword(limit), limit)
  {
    var v, k, b := FullVector(limit), FullKeyword(limit), 2 * limit - 1;
    FullLists(limit);
    var es := Entries(Share, v, k);
    assert v[0] == 0 && Union(v, k)[0] == 0;
    assert Place(v, 0) == 0 && 0 !in k && es[0] == Entry(0, Share(0));
    forall i | 0 <= i < |es| ensures es[0].score >= es[i].score {
      if Both(v, k, es[i].id) {
        PlaceIs(v, b);
        PlaceIs(k, b);
        Compare(limit);
      } else {
        ScoreOfOne(v, k, es[i].id);
      }
    }
    HeadStays(es);
    var best := Best(Share, v, k, limit);
    assert best[0] == es[0];
    assert Both(v, k, b) && !Both(v, k, best[0].id) && !Before(best, b, 0);
  }

  /** The ordering holds for all results of the searches exactly up to a limit of thirty. */
  lemma ExactLimit(limit: nat)
    ensures (forall v, k | Searches(v, k, limit) :: BothFirst(Share, v, k, limit)) <==> limit <= 30
  {
    if limit <= 30 {
      forall v, k | Searches(v, k, limit) ensures BothFirst(Share, v, k, limit) { BothComeFirst(v, k, limit); }
    } else {
      LastByBothLoses(limit);
    }
  }
}
