/**
 * BITOP (redis-stable/src/bitops.c:1112-1159, 1189-1433): the word blocks and the byte loop with its early exits
 * against the meaning of each operation, bit by bit over sources padded with zeros. A byte is the set of the bits
 * set in it, so the bitwise operators are the set operators; a word is handled as its bytes.
 */
module BitOp {

  datatype Op = And | Or | Xor | Not | Diff | Diff1 | AndOr | One

  type Byte = set<nat>

  const ALL: Byte := {0, 1, 2, 3, 4, 5, 6, 7}

  function Exclusive(a: Byte, b: Byte): Byte {
    (a - b) + (b - a)
  }

  function Inverse(a: Byte): Byte {
    ALL - a
  }

  type Sources = seq<seq<Byte>>

  /** The byte of a source at `j`, zero past its end. */
  function ByteAt(s: seq<Byte>, j: nat): Byte {
    if j < |s| then s[j] else {}
  }

  // ---------------------------------------------------------------- meaning

  /** How many of the first `n` sources have bit `k` of byte `j` set. */
  function Count(srcs: Sources, j: nat, k: nat, n: nat): nat
    requires n <= |srcs|
  {
    if n == 0 then 0 else Count(srcs, j, k, n - 1) + (if k in ByteAt(srcs[n - 1], j) then 1 else 0)
  }

  /** Bit `k` of byte `j` of the result; `rest` counts the sources after the first. */
  predicate Meaning(op: Op, srcs: Sources, j: nat, k: nat)
    requires srcs != []
  {
    var first, count := k in ByteAt(srcs[0], j), Count(srcs, j, k, |srcs|);
    var rest := if first then count - 1 else count;
    match op
    case And => count == |srcs|
    case Or => count > 0
    case Xor => count % 2 == 1
    case Not => !first
    case Diff => first && rest == 0
    case Diff1 => !first && rest > 0
    case AndOr => first && rest > 0
    case One => count == 1
  }

  lemma {:induction false} CountBounds(srcs: Sources, j: nat, k: nat, n: nat)
    requires n <= |srcs|
    ensures Count(srcs, j, k, n) <= n
    ensures Count(srcs, j, k, n) == n <==> forall m | 0 <= m < n :: k in ByteAt(srcs[m], j)
    ensures Count(srcs, j, k, n) == 0 <==> forall m | 0 <= m < n :: k !in ByteAt(srcs[m], j)
  {
    if n > 0 { CountBounds(srcs, j, k, n - 1); }
  }

  /** The bit is set in that source and in no other of the first `n`. */
  predicate Only(srcs: Sources, j: nat, k: nat, n: nat, m: nat)
    requires m < n <= |srcs|
  {
    k in ByteAt(srcs[m], j) && forall i | 0 <= i < n && i != m :: k !in ByteAt(srcs[i], j)
  }

  /** A count of one is "set in exactly one source". */
  lemma {:induction false} CountOne(srcs: Sources, j: nat, k: nat, n: nat)
    requires n <= |srcs|
    ensures Count(srcs, j, k, n) == 1 <==> exists m | 0 <= m < n :: Only(srcs, j, k, n, m)
  {
    if n > 0 {
      CountOne(srcs, j, k, n - 1);
      CountBounds(srcs, j, k, n - 1);
      if Count(srcs, j, k, n) == 1 {
        if k in ByteAt(srcs[n - 1], j) {
          assert Only(srcs, j, k, n, n - 1);
        } else {
          var m :| 0 <= m < n - 1 && Only(srcs, j, k, n - 1, m);
          assert Only(srcs, j, k, n, m);
        }
      }
      if m :| 0 <= m < n && Only(srcs, j, k, n, m) {
        if m < n - 1 { assert Only(srcs, j, k, n - 1, m); }
      }
    }
  }

  /** AND, OR and ONE in the words of the documentation. */
  lemma MeaningInWords(srcs: Sources, j: nat, k: nat)
    requires srcs != []
    ensures Meaning(And, srcs, j, k) <==> forall m | 0 <= m < |srcs| :: k in ByteAt(srcs[m], j)
    ensures Meaning(Or, srcs, j, k) <==> exists m | 0 <= m < |srcs| :: k in ByteAt(srcs[m], j)
    ensures Meaning(One, srcs, j, k) <==> exists m | 0 <= m < |srcs| :: Only(srcs, j, k, |srcs|, m)
  {
    CountBounds(srcs, j, k, |srcs|);
    CountOne(srcs, j, k, |srcs|);
  }

  lemma {:induction false} FirstCounts(srcs: Sources, j: nat, k: nat, n: nat)
    requires 1 <= n <= |srcs|
    ensures k in ByteAt(srcs[0], j) ==> Count(srcs, j, k, n) >= 1
  {
    if n == 1 {
      assert Count(srcs, j, k, 0) == 0;
    } else {
      FirstCounts(srcs, j, k, n - 1);
    }
  }

  // ---------------------------------------------------------------- the byte loop

  /** The three bytes the loop keeps. */
  datatype Acc = Acc(output: Byte, disjunction: Byte, common: Byte)

  predicate Disjoins(op: Op) {
    op.Diff? || op.Diff1? || op.AndOr?
  }

  /** The case of the inner switch. */
  function Step(op: Op, a: Acc, byte: Byte): Acc {
    match op
    case And => a.(output := a.output * byte)
    case Or => a.(output := a.output + byte)
    case Xor => a.(output := Exclusive(a.output, byte))
    case Not => a
    case One =>
      var common := a.common + (a.output * byte);
      a.(common := common, output := Exclusive(a.output, byte) - common)
    case _ => a.(disjunction := a.disjunction + byte)
  }

  predicate Skip(op: Op, a: Acc) {
    match op
    case And => a.output == {}
    case Or => a.output == ALL
    case Xor => false
    case Not => false
    case One => a.common == ALL
    case _ => a.disjunction == ALL
  }

  /** The switch after the inner loop. */
  function Result(op: Op, a: Acc): Byte {
    match op
    case Diff => a.output - a.disjunction
    case Diff1 => Inverse(a.output) * a.disjunction
    case AndOr => a.output * a.disjunction
    case _ => a.output
  }

  /** What bit `k` of the three bytes says after the first `i` sources. */
  predicate AccAt(op: Op, srcs: Sources, j: nat, i: nat, a: Acc, k: nat)
    requires 1 <= i <= |srcs|
  {
    var first, count := k in ByteAt(srcs[0], j), Count(srcs, j, k, i);
    match op
    case And => k in a.output <==> count == i
    case Or => k in a.output <==> count > 0
    case Xor => k in a.output <==> count % 2 == 1
    case Not => k in a.output <==> !first
    case One => (k in a.output <==> count == 1) && (k in a.common <==> count >= 2)
    case _ => (k in a.output <==> first) && (k in a.disjunction <==> count > if first then 1 else 0)
  }

  ghost predicate AccOk(op: Op, srcs: Sources, j: nat, i: nat, a: Acc)
    requires 1 <= i <= |srcs|
  {
    forall k | 0 <= k < 8 :: AccAt(op, srcs, j, i, a, k)
  }

  lemma StartOk(op: Op, srcs: Sources, j: nat)
    requires srcs != []
    ensures var first := ByteAt(srcs[0], j); AccOk(op, srcs, j, 1, Acc(if op.Not? then Inverse(first) else first, {}, {}))
  {
    var a := Acc(if op.Not? then Inverse(ByteAt(srcs[0], j)) else ByteAt(srcs[0], j), {}, {});
    forall k | 0 <= k < 8 ensures AccAt(op, srcs, j, 1, a, k) {
      assert Count(srcs, j, k, 0) == 0;
    }
  }

  lemma StepOk(op: Op, srcs: Sources, j: nat, i: nat, a: Acc)
    requires 1 <= i < |srcs| && AccOk(op, srcs, j, i, a)
    ensures AccOk(op, srcs, j, i + 1, Step(op, a, ByteAt(srcs[i], j)))
  {
    var b := Step(op, a, ByteAt(srcs[i], j));
    var next := i + 1;
    forall k | 0 <= k < 8 ensures AccAt(op, srcs, j, next, b, k) {
      assert AccAt(op, srcs, j, i, a, k);
      CountBounds(srcs, j, k, i);
      FirstCounts(srcs, j, k, i);
    }
  }

  /** The byte holds the result at `j`. */
  ghost predicate Right(op: Op, srcs: Sources, j: nat, byte: Byte)
    requires srcs != []
  {
    forall k | 0 <= k < 8 :: RightAt(op, srcs, j, byte, k)
  }

  predicate RightAt(op: Op, srcs: Sources, j: nat, byte: Byte, k: nat)
    requires srcs != []
  {
    k in byte <==> Meaning(op, srcs, j, k)
  }

  lemma {:induction false} CountGrows(srcs: Sources, j: nat, k: nat, i: nat, n: nat)
    requires i <= n <= |srcs|
    ensures Count(srcs, j, k, i) <= Count(srcs, j, k, n) <= Count(srcs, j, k, i) + (n - i)
    decreases n
  {
    if i < n { CountGrows(srcs, j, k, i, n - 1); }
  }

  /** All sources seen, or an early exit: further sources could not change the result. */
  lemma FinishOk(op: Op, srcs: Sources, j: nat, i: nat, a: Acc)
    requires 1 <= i <= |srcs| && AccOk(op, srcs, j, i, a) && (i == |srcs| || Skip(op, a))
    requires op.Not? ==> |srcs| == 1
    ensures Right(op, srcs, j, Result(op, a))
  {
    var byte := Result(op, a);
    forall k | 0 <= k < 8 ensures RightAt(op, srcs, j, byte, k) {
      assert AccAt(op, srcs, j, i, a, k);
      CountGrows(srcs, j, k, i, |srcs|);
      CountBounds(srcs, j, k, i);
      FirstCounts(srcs, j, k, i);
      assert k in ALL;
    }
  }

  /** One turn of the byte loop. */
  method ComputeByte(op: Op, srcs: Sources, j: nat) returns (byte: Byte)
    requires srcs != [] && (op.Not? ==> |srcs| == 1)
    ensures Right(op, srcs, j, byte)
  {
    var output := ByteAt(srcs[0], j);
    if op.Not? { output := Inverse(output); }
    var a := Acc(output, {}, {});
    StartOk(op, srcs, j);
    var i := 1;
    while i < |srcs|
      invariant 1 <= i <= |srcs| && AccOk(op, srcs, j, i, a)
    {
      StepOk(op, srcs, j, i, a);
      a := Step(op, a, ByteAt(srcs[i], j));
      i := i + 1;
      if Skip(op, a) { break; }
    }
    FinishOk(op, srcs, j, i, a);
    byte := Result(op, a);
  }

  // ---------------------------------------------------------------- the word blocks

  const BLOCK: nat := 32  // four words of eight bytes

  /** What the result holds before a block is folded: the first source, or zeros for the disjunctions. */
  function Initial(op: Op, srcs: Sources, p: nat): Byte
    requires srcs != []
  {
    if Disjoins(op) then {} else ByteAt(srcs[0], p)
  }

  /** Bit `k` after the first `i` sources; ONE keeps the parity here and clears the common bits only at the end. */
  predicate WordAt(op: Op, srcs: Sources, p: nat, i: nat, o: Byte, c: Byte, k: nat)
    requires 1 <= i <= |srcs|
  {
    var first, count := k in ByteAt(srcs[0], p), Count(srcs, p, k, i);
    match op
    case And => k in o <==> count == i
    case Or => k in o <==> count > 0
    case Xor => k in o <==> count % 2 == 1
    case Not => k in o <==> first
    case One => (k in o <==> count % 2 == 1) && (k in c <==> count >= 2)
    case _ => k in o <==> count > if first then 1 else 0
  }

  ghost predicate WordOk(op: Op, srcs: Sources, p: nat, i: nat, o: Byte, c: Byte)
    requires 1 <= i <= |srcs|
  {
    forall k | 0 <= k < 8 :: WordAt(op, srcs, p, i, o, c, k)
  }

  function WordStep(op: Op, o: Byte, byte: Byte): Byte {
    match op
    case And => o * byte
    case Xor => Exclusive(o, byte)
    case One => Exclusive(o, byte)
    case Not => o
    case _ => o + byte
  }

  /** What the block leaves in the result; the disjunctions are combined with the first source later. */
  function Closed(op: Op, o: Byte, c: Byte): Byte {
    match op
    case Not => Inverse(o)
    case One => o - c
    case _ => o
  }

  lemma WordStart(op: Op, srcs: Sources, p: nat)
    requires srcs != []
    ensures WordOk(op, srcs, p, 1, Initial(op, srcs, p), {})
  {
    forall k | 0 <= k < 8 ensures WordAt(op, srcs, p, 1, Initial(op, srcs, p), {}, k) {
      assert Count(srcs, p, k, 0) == 0;
    }
  }

  lemma WordNext(op: Op, srcs: Sources, p: nat, i: nat, o: Byte, c: Byte)
    requires 1 <= i < |srcs| && WordOk(op, srcs, p, i, o, c)
    ensures var byte := ByteAt(srcs[i], p);
            WordOk(op, srcs, p, i + 1, WordStep(op, o, byte), if op.One? then c + (o * byte) else c)
  {
    var byte := ByteAt(srcs[i], p);
    var o', c' := WordStep(op, o, byte), if op.One? then c + (o * byte) else c;
    var next := i + 1;
    forall k | 0 <= k < 8 ensures WordAt(op, srcs, p, next, o', c', k) {
      assert WordAt(op, srcs, p, i, o, c, k);
      CountBounds(srcs, p, k, i);
      FirstCounts(srcs, p, k, i);
    }
  }

  /** The byte holds the disjunction of the sources after the first, or the result. */
  ghost predicate Folded(op: Op, srcs: Sources, p: nat, byte: Byte)
    requires srcs != []
  {
    if Disjoins(op) then WordOk(op, srcs, p, |srcs|, byte, {}) else Right(op, srcs, p, byte)
  }

  lemma WordClosed(op: Op, srcs: Sources, p: nat, o: Byte, c: Byte)
    requires srcs != [] && WordOk(op, srcs, p, |srcs|, o, c)
    ensures Folded(op, srcs, p, Closed(op, o, c))
  {
    var byte := Closed(op, o, c);
    if Disjoins(op) {
      forall k | 0 <= k < 8 ensures WordAt(op, srcs, p, |srcs|, byte, {}, k) {
        assert WordAt(op, srcs, p, |srcs|, o, c, k);
      }
    } else {
      forall k | 0 <= k < 8 ensures RightAt(op, srcs, p, byte, k) {
        assert WordAt(op, srcs, p, |srcs|, o, c, k) && k in ALL;
      }
    }
  }

  /** One source is folded into all the lanes of a block. */
  method FoldSource(op: Op, srcs: Sources, res: array<Byte>, at: nat, common: array<Byte>, i: nat)
    requires 1 <= i < |srcs| && at + BLOCK <= res.Length && common.Length == BLOCK && common != res
    requires forall p | at <= p < at + BLOCK :: WordOk(op, srcs, p, i, res[p], common[p - at])
    modifies res, common
    ensures forall p | at <= p < at + BLOCK :: WordOk(op, srcs, p, i + 1, res[p], common[p - at])
    ensures forall p | 0 <= p < res.Length && !(at <= p < at + BLOCK) :: res[p] == old(res[p])
  {
    var p, next := at, i + 1;
    while p < at + BLOCK
      invariant at <= p <= at + BLOCK
      invariant forall q | at <= q < p :: WordOk(op, srcs, q, next, res[q], common[q - at])
      invariant forall q | p <= q < at + BLOCK :: WordOk(op, srcs, q, i, res[q], common[q - at])
      invariant forall q | 0 <= q < res.Length && !(at <= q < at + BLOCK) :: res[q] == old(res[q])
    {
      WordNext(op, srcs, p, i, res[p], common[p - at]);
      var byte := ByteAt(srcs[i], p);
      if op.One? { common[p - at] := common[p - at] + (res[p] * byte); }
      res[p] := WordStep(op, res[p], byte);
      p := p + 1;
    }
  }

  /** One block: source by source, and the common bits are cleared at the end. */
  method FoldBlock(op: Op, srcs: Sources, res: array<Byte>, at: nat)
    requires srcs != [] && at + BLOCK <= res.Length
    requires forall p | at <= p < at + BLOCK :: res[p] == Initial(op, srcs, p)
    modifies res
    ensures forall p | at <= p < at + BLOCK :: Folded(op, srcs, p, res[p])
    ensures forall p | 0 <= p < res.Length && !(at <= p < at + BLOCK) :: res[p] == old(res[p])
  {
    var common := new Byte[BLOCK](_ => {});
    forall p | at <= p < at + BLOCK ensures WordOk(op, srcs, p, 1, res[p], common[p - at]) { WordStart(op, srcs, p); }
    var i := 1;
    while i < |srcs|
      invariant 1 <= i <= |srcs| && fresh(common)
      invariant forall p | at <= p < at + BLOCK :: WordOk(op, srcs, p, i, res[p], common[p - at])
      invariant forall p | 0 <= p < res.Length && !(at <= p < at + BLOCK) :: res[p] == old(res[p])
    {
      FoldSource(op, srcs, res, at, common, i);
      i := i + 1;
    }
    CloseBlock(op, srcs, res, at, common);
  }

  method CloseBlock(op: Op, srcs: Sources, res: array<Byte>, at: nat, common: array<Byte>)
    requires srcs != [] && at + BLOCK <= res.Length && common.Length == BLOCK && common != res
    requires forall p | at <= p < at + BLOCK :: WordOk(op, srcs, p, |srcs|, res[p], common[p - at])
    modifies res
    ensures forall p | at <= p < at + BLOCK :: Folded(op, srcs, p, res[p])
    ensures forall p | 0 <= p < res.Length && !(at <= p < at + BLOCK) :: res[p] == old(res[p])
  {
    var p := at;
    while p < at + BLOCK
      invariant at <= p <= at + BLOCK
      invariant forall q | at <= q < p :: Folded(op, srcs, q, res[q])
      invariant forall q | p <= q < at + BLOCK :: WordOk(op, srcs, q, |srcs|, res[q], common[q - at])
      invariant forall q | 0 <= q < res.Length && !(at <= q < at + BLOCK) :: res[q] == old(res[q])
    {
      WordClosed(op, srcs, p, res[p], common[p - at]);
      res[p] := Closed(op, res[p], common[p - at]);
      p := p + 1;
    }
  }

  /** The second pass of DIFF, DIFF1 and ANDOR. */
  method Combine(op: Op, srcs: Sources, res: array<Byte>, processed: nat)
    requires srcs != [] && Disjoins(op) && processed <= res.Length && processed <= |srcs[0]|
    requires forall p | 0 <= p < processed :: Folded(op, srcs, p, res[p])
    modifies res
    ensures forall p | 0 <= p < processed :: Right(op, srcs, p, res[p])
    ensures forall p | processed <= p < res.Length :: res[p] == old(res[p])
  {
    var i := 0;
    while i < processed
      invariant 0 <= i <= processed
      invariant forall p | 0 <= p < i :: Right(op, srcs, p, res[p])
      invariant forall p | i <= p < processed :: Folded(op, srcs, p, res[p])
      invariant forall p | processed <= p < res.Length :: res[p] == old(res[p])
    {
      Combined(op, srcs, i, res[i]);
      res[i] := Result(op, Acc(srcs[0][i], res[i], {}));
      i := i + 1;
    }
  }

  lemma Combined(op: Op, srcs: Sources, p: nat, d: Byte)
    requires srcs != [] && Disjoins(op) && Folded(op, srcs, p, d)
    ensures Right(op, srcs, p, Result(op, Acc(ByteAt(srcs[0], p), d, {})))
  {
    var byte := Result(op, Acc(ByteAt(srcs[0], p), d, {}));
    forall k | 0 <= k < 8 ensures RightAt(op, srcs, p, byte, k) {
      assert WordAt(op, srcs, p, |srcs|, d, {}, k) && k in ALL;
      FirstCounts(srcs, p, k, |srcs|);
    }
  }

  /** The fast path: as many whole blocks as every source has; `j` is the first byte not done. */
  method WordPass(op: Op, srcs: Sources, res: array<Byte>, minlen: nat) returns (j: nat)
    requires srcs != [] && minlen <= res.Length && minlen <= |srcs[0]|
    requires forall p | 0 <= p < res.Length :: res[p] == {}
    modifies res
    ensures j <= res.Length && forall p | 0 <= p < j :: Right(op, srcs, p, res[p])
  {
    j := 0;
    if minlen < BLOCK { return; }
    if !Disjoins(op) {
      forall p | 0 <= p < minlen { res[p] := srcs[0][p]; }
    }
    while minlen - j >= BLOCK
      invariant 0 <= j <= minlen
      invariant forall p | 0 <= p < j :: Folded(op, srcs, p, res[p])
      invariant forall p | j <= p < minlen :: res[p] == Initial(op, srcs, p)
    {
      FoldBlock(op, srcs, res, j);
      j := j + BLOCK;
    }
    if Disjoins(op) { Combine(op, srcs, res, j); }
  }

  // ---------------------------------------------------------------- the command

  /** An empty result deletes the destination key. */
  datatype Reply = WrongNumberOfKeys | Deleted | Stored(bytes: seq<Byte>)

  /** The longest source; missing keys are empty strings. */
  ghost predicate Longest(srcs: Sources, n: nat) {
    (forall s <- srcs :: |s| <= n) && exists s <- srcs :: |s| == n
  }

  method Lengths(srcs: Sources) returns (minlen: nat, maxlen: nat)
    requires srcs != []
    ensures Longest(srcs, maxlen) && forall s <- srcs :: minlen <= |s|
  {
    minlen, maxlen := |srcs[0]|, |srcs[0]|;
    var j := 1;
    while j < |srcs|
      invariant 1 <= j <= |srcs|
      invariant forall i | 0 <= i < j :: minlen <= |srcs[i]| <= maxlen
      invariant exists i | 0 <= i < j :: |srcs[i]| == maxlen
    {
      if |srcs[j]| > maxlen { maxlen := |srcs[j]|; }
      if |srcs[j]| < minlen { minlen := |srcs[j]|; }
      j := j + 1;
    }
  }

  /** `bitopCommand`, with or without the fast path: the result is as long as the longest source, bit by bit right. */
  method BitopCommand(op: Op, srcs: Sources, fast: bool) returns (reply: Reply)
    requires srcs != []
    ensures reply.WrongNumberOfKeys? <==> (op.Not? && |srcs| != 1) || (Disjoins(op) && |srcs| < 2)
    ensures reply.Deleted? ==> Longest(srcs, 0)
    ensures reply.Stored? ==> reply.bytes != [] && Longest(srcs, |reply.bytes|) && forall j | 0 <= j < |reply.bytes| :: Right(op, srcs, j, reply.bytes[j])
  {
    if op.Not? && |srcs| != 1 { return WrongNumberOfKeys; }
    if Disjoins(op) && |srcs| < 2 { return WrongNumberOfKeys; }
    var minlen, maxlen := Lengths(srcs);
    assert srcs[0] in srcs;
    var res := new Byte[maxlen](_ => {});
    var j := 0;
    if fast { j := WordPass(op, srcs, res, minlen); }
    while j < maxlen
      invariant 0 <= j <= maxlen && forall p | 0 <= p < j :: Right(op, srcs, p, res[p])
    {
      res[j] := ComputeByte(op, srcs, j);
      j := j + 1;
    }
    reply := if maxlen == 0 then Deleted else Stored(res[..]);
  }
}
