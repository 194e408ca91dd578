/** The in-memory manifest and its edits (redis-stable/src/aof.c:404-536, 682-706). */
module AofManifest {
  import opened Basics

  datatype Name = Base(n: nat) | Incr(n: nat) | TempBase

  /** BASE, INCR and HISTORY entries. A file's type is the list it is in, its name is its sequence number. */
  datatype Manifest = Manifest(base: Option<nat>, incr: seq<nat>, history: seq<Name>, baseSeq: nat, incrSeq: nat)

  /** `getNewIncrAofName`. */
  function NewIncr(m: Manifest): Manifest {
    m.(incr := m.incr + [m.incrSeq + 1], incrSeq := m.incrSeq + 1)
  }

  /** `getNewBaseFileNameAndMarkPreAsHistory`. */
  function NewBase(m: Manifest): Manifest {
    m.(history := (if m.base.Some? then [Base(m.base.value)] else []) + m.history,
       base := Some(m.baseSeq + 1), baseSeq := m.baseSeq + 1)
  }

  function IncrNames(fs: seq<nat>): seq<Name> {
    seq(|fs|, i requires 0 <= i < |fs| => Incr(fs[i]))
  }

  /** The INCR files, all but the one being written, become HISTORY files in the same order. */
  function MarkIncrAsHistory(m: Manifest): Manifest
    requires m.incr != []
  {
    var last := |m.incr| - 1;
    m.(history := IncrNames(m.incr[..last]) + m.history, incr := [m.incr[last]])
  }

  /** `markRewrittenIncrAofAsHistory` with an open `aof_fd`: walk from the tail, move each entry to the head of history. */
  method MarkRewrittenIncrAofAsHistory(m: Manifest) returns (r: Manifest)
    ensures m.incr == [] ==> r == m
    ensures m.incr != [] ==> r == MarkIncrAsHistory(m)
  {
    r := m;
    if |m.incr| == 0 { return; }
    var last := |m.incr| - 1;
    var i := last;
    while i > 0
      invariant 0 <= i <= last
      invariant r == m.(incr := m.incr[..i] + [m.incr[last]], history := IncrNames(m.incr[i..last]) + m.history)
    {
      i := i - 1;
      assert IncrNames(m.incr[i..last]) == [Incr(m.incr[i])] + IncrNames(m.incr[i + 1..last]);
      r := r.(history := [Incr(r.incr[i])] + r.history, incr := r.incr[..i] + r.incr[i + 1..]);
    }
    assert m.incr[0..last] == m.incr[..last];
  }

  /** The entries a load looks at. */
  predicate Live(m: Manifest, name: Name) {
    match name
    case Base(n) => m.base == Some(n)
    case Incr(n) => n in m.incr
    case TempBase => false
  }

  predicate Below(fs: seq<nat>, i: nat, j: nat)
    requires i < j < |fs|
  {
    fs[i] < fs[j]
  }

  /** What every manifest of a server with AOF on looks like. */
  predicate WellShaped(m: Manifest) {
    && m.incr != []
    && (forall i, j | 0 <= i < j < |m.incr| :: Below(m.incr, i, j))
    && m.incrSeq == m.incr[|m.incr| - 1]
    && (m.base.Some? ==> m.base.value == m.baseSeq)
    && (forall h <- m.history :: Retired(m, h))
  }

  /** A HISTORY entry is older than every live entry of its kind. */
  predicate Retired(m: Manifest, h: Name) {
    match h
    case Base(n) => n <= m.baseSeq && m.base != Some(n)
    case Incr(n) => m.incr != [] && n < m.incr[0]
    case TempBase => false
  }

  /** The current INCR file has the highest number. */
  lemma UpToLast(m: Manifest)
    requires WellShaped(m)
    ensures forall i | 0 <= i < |m.incr| - 1 :: m.incr[0] <= m.incr[i] < m.incrSeq
    ensures forall i | 0 <= i < |m.incr| :: m.incr[0] <= m.incr[i] <= m.incrSeq
  {
    forall i | 0 <= i < |m.incr| - 1 ensures m.incr[0] <= m.incr[i] < m.incrSeq {
      assert Below(m.incr, i, |m.incr| - 1);
      if i > 0 { assert Below(m.incr, 0, i); }
    }
    if |m.incr| > 1 { assert Below(m.incr, 0, |m.incr| - 1); }
  }

  /** Opening a new INCR keeps the shape, and its name is not in use. */
  lemma NewIncrShape(m: Manifest)
    requires WellShaped(m)
    ensures WellShaped(NewIncr(m)) && m.incrSeq + 1 !in m.incr
  {
    var r := NewIncr(m);
    UpToLast(m);
    forall i, j | 0 <= i < j < |r.incr| ensures Below(r.incr, i, j) {
      if j < |m.incr| { assert Below(m.incr, i, j); }
    }
    forall h <- r.history ensures Retired(r, h) { assert Retired(m, h); }
  }

  /** A finished rewrite keeps the shape; its BASE name is new; live and HISTORY files are disjoint. */
  lemma RewriteShape(m: Manifest)
    requires WellShaped(m)
    ensures var r := MarkIncrAsHistory(NewBase(m));
            WellShaped(r) && m.base != Some(m.baseSeq + 1) &&
            r.base == Some(m.baseSeq + 1) && r.incr == [m.incr[|m.incr| - 1]]
  {
    var r := MarkIncrAsHistory(NewBase(m));
    UpToLast(m);
    forall h <- r.history ensures Retired(r, h) {
      if h in m.history { assert Retired(m, h); }
    }
  }

  /** Deleting HISTORY files never touches a live one. */
  lemma HistoryIsNotLive(m: Manifest, h: Name)
    requires WellShaped(m) && h in m.history
    ensures !Live(m, h)
  {
    assert Retired(m, h);
    UpToLast(m);
  }
}
