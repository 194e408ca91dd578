/**
 * The whole BITFIELD command after its arguments are parsed (redis-stable/src/bitops.c:782-807, 1777-1780, 1801-1959): the
 * string is grown once, then the operations run one after the other on it.
 */
module BitFieldCommand {
  import opened Basics
  import opened Bitmap
  import opened BitField
  import opened BitFieldOverflow

  datatype Opcode = Get | Set | IncrBy

  datatype FieldOp = FieldOp(opcode: Opcode, sign: bool, bits: nat, offset: nat, i64: int, ow: Overflow)

  predicate ValidOp(op: FieldOp) {
    WidthOk(op.sign, op.bits) && IsI64(op.i64)
  }

  function Content(o: Option<seq<bv8>>): seq<bv8> {
    if o.Some? then o.value else []
  }

  ghost predicate SameBits(s: seq<bv8>, t: seq<bv8>) {
    forall i: nat :: SameBit(s, 0, t, 0, i)
  }

  // ---------------------------------------------------------------- one operation

  /** The number in the field of an operation. */
  function Number(op: FieldOp, s: seq<bv8>): int
    requires ValidOp(op)
  {
    if op.sign then Signed(Field(s, op.offset, op.bits), op.bits) else Field(s, op.offset, op.bits)
  }

  /** The exact result of SET or INCRBY, before any overflow rule. */
  function Exact(op: FieldOp, s: seq<bv8>): int
    requires ValidOp(op)
  {
    if op.opcode.Set? then (if op.sign then op.i64 else U64(op.i64)) else Number(op, s) + op.i64
  }

  predicate Refused(op: FieldOp, s: seq<bv8>)
    requires ValidOp(op)
  {
    op.ow.Fail? && !Fits(op.sign, op.bits, Exact(op, s))
  }

  function Outcome(op: FieldOp, s: seq<bv8>): int
    requires ValidOp(op)
  {
    Stored(op.sign, op.bits, op.ow, op.opcode.Set?, Exact(op, s))
  }

  /** What an operation replies and does: only its field changes, to the outcome, and only if it is not refused. */
  ghost predicate Effect(op: FieldOp, s: seq<bv8>, t: seq<bv8>, reply: Option<int>)
    requires ValidOp(op)
  {
    if op.opcode.Get? then t == s && reply == Some(Number(op, s))
    else if Refused(op, s) then t == s && reply == None
    else
      var y := Outcome(op, s);
      && reply == Some(if op.opcode.Set? then Number(op, s) else y)
      && Number(op, t) == y
      && Written(s, t, op.offset, op.bits, if op.sign then U64(y) else y, op.bits)
  }

  /** What counts as a change: a write that was not refused, if the string grew or the number is another one. */
  predicate Changes(op: FieldOp, s: seq<bv8>, grew: bool)
    requires ValidOp(op)
  {
    !op.opcode.Get? && !Refused(op, s) && (grew || Number(op, s) != Outcome(op, s))
  }

  method Execute(op: FieldOp, p: array<bv8>, grew: bool) returns (reply: Option<int>, changed: bool)
    requires ValidOp(op) && (!op.opcode.Get? ==> op.offset + op.bits <= 8 * p.Length)
    modifies p
    ensures Effect(op, old(p[..]), p[..], reply) && changed == Changes(op, old(p[..]), grew)
  {
    if op.opcode.Get? {
      var value := GetBitfield(p[..], op.offset, op.bits, op.sign);
      return Some(value), false;
    }
    var oldval := GetBitfield(p[..], op.offset, op.bits, op.sign);
    if op.sign {
      reply := ExecSigned(p, op.offset, op.bits, op.opcode.Set?, op.i64, op.ow);
    } else {
      reply := ExecUnsigned(p, op.offset, op.bits, op.opcode.Set?, op.i64, op.ow);
    }
    var newval := GetBitfield(p[..], op.offset, op.bits, op.sign);
    changed := reply.Some? && (grew || oldval != newval);
  }

  // ---------------------------------------------------------------- the string

  predicate Writes(ops: seq<FieldOp>) {
    exists op <- ops :: !op.opcode.Get?
  }

  /** The highest bit that the operations write. */
  function HighestOf(ops: seq<FieldOp>): nat {
    if ops == [] then 0
    else
      var op, h := ops[|ops| - 1], HighestOf(ops[..|ops| - 1]);
      if !op.opcode.Get? && h < op.offset + op.bits - 1 then op.offset + op.bits - 1 else h
  }

  /** The length of the string while the operations run. */
  function Room(o: Option<seq<bv8>>, ops: seq<FieldOp>): nat {
    var n := |Content(o)|;
    if Writes(ops) && n <= HighestOf(ops) / 8 then HighestOf(ops) / 8 + 1 else n
  }

  /** `highest_write_offset`, and whether the command only reads. */
  method HighestWrite(ops: seq<FieldOp>) returns (readonly: bool, highest: nat)
    requires forall op <- ops :: ValidOp(op)
    ensures readonly == !Writes(ops) && highest == HighestOf(ops)
    ensures forall op <- ops :: !op.opcode.Get? ==> op.offset + op.bits <= highest + 1
  {
    readonly, highest := true, 0;
    var j := 0;
    while j < |ops|
      invariant 0 <= j <= |ops| && readonly == !Writes(ops[..j]) && highest == HighestOf(ops[..j])
      invariant forall i | 0 <= i < j :: !ops[i].opcode.Get? ==> ops[i].offset + ops[i].bits <= highest + 1
    {
      assert ops[j] in ops && ops[..j + 1] == ops[..j] + [ops[j]] && ops[..j + 1][..j] == ops[..j];
      if !ops[j].opcode.Get? {
        readonly := false;
        if highest < ops[j].offset + ops[j].bits - 1 { highest := ops[j].offset + ops[j].bits - 1; }
      }
      j := j + 1;
    }
    assert ops[..j] == ops;
  }

  /** `lookupStringForBitCommand`: room up to the farthest bit, and not a bit changed. */
  method LookupStringForBitCommand(o: Option<seq<bv8>>, maxbit: nat) returns (p: array<bv8>, grew: bool)
    ensures fresh(p) && maxbit < 8 * p.Length && SameBits(Content(o), p[..])
    ensures p.Length == (if |Content(o)| <= maxbit / 8 then maxbit / 8 + 1 else |Content(o)|) && grew == (p.Length > |Content(o)|)
  {
    var s := Content(o);
    var n := if |s| <= maxbit / 8 then maxbit / 8 + 1 else |s|;
    p := new bv8[n](i => if 0 <= i < |s| then s[i] else 0);
    grew := n > |s|;
    GrownBits(s, p[..]);
  }

  lemma GrownBits(s: seq<bv8>, t: seq<bv8>)
    requires |s| <= |t| && forall i | 0 <= i < |t| :: t[i] == if i < |s| then s[i] else 0
    ensures SameBits(s, t)
  {
    forall i: nat ensures SameBit(s, 0, t, 0, i) {
      if |s| <= i / 8 < |t| { ZeroByte(7 - i % 8); }
    }
  }

  // ---------------------------------------------------------------- the command

  /** The states a command goes through, with its replies. */
  ghost predicate EffectAt(ops: seq<FieldOp>, states: seq<seq<bv8>>, replies: seq<Option<int>>, j: nat)
    requires j < |replies| <= |ops| && |states| == |replies| + 1
  {
    ValidOp(ops[j]) && Effect(ops[j], states[j], states[j + 1], replies[j])
  }

  ghost predicate Ran(ops: seq<FieldOp>, states: seq<seq<bv8>>, replies: seq<Option<int>>) {
    |replies| <= |ops| && |states| == |replies| + 1 && forall j | 0 <= j < |replies| :: EffectAt(ops, states, replies, j)
  }

  ghost function ChangesIn(ops: seq<FieldOp>, states: seq<seq<bv8>>, grew: bool, n: nat): nat
    requires n <= |ops| && n <= |states| && forall op <- ops :: ValidOp(op)
  {
    if n == 0 then 0
    else ChangesIn(ops, states, grew, n - 1) + if Changes(ops[n - 1], states[n - 1], grew) then 1 else 0
  }

  /** The operation is a GET or is refused. */
  predicate IdleAt(ops: seq<FieldOp>, states: seq<seq<bv8>>, j: nat)
    requires j < |ops| && j < |states|
  {
    ValidOp(ops[j]) && (ops[j].opcode.Get? || Refused(ops[j], states[j]))
  }

  /** If the string grew, every write that is not refused counts. */
  lemma {:induction false} NothingCounted(ops: seq<FieldOp>, states: seq<seq<bv8>>, n: nat)
    requires n <= |ops| && n <= |states| && forall op <- ops :: ValidOp(op)
    ensures ChangesIn(ops, states, true, n) == 0 <==> forall j | 0 <= j < n :: IdleAt(ops, states, j)
  {
    if n > 0 {
      NothingCounted(ops, states, n - 1);
      assert IdleAt(ops, states, n - 1) <==> !Changes(ops[n - 1], states[n - 1], true);
    }
  }

  /** Every write is refused on that string. */
  predicate AllRefused(ops: seq<FieldOp>, s: seq<bv8>)
    requires forall op <- ops :: ValidOp(op)
  {
    forall op <- ops :: op.opcode.Get? || Refused(op, s)
  }

  /** Whether an operation is refused depends on the bits only. */
  lemma RefusedByBits(op: FieldOp, s: seq<bv8>, t: seq<bv8>)
    requires ValidOp(op) && SameBits(s, t)
    ensures Refused(op, s) == Refused(op, t)
  {
    forall i | 0 <= i < op.bits ensures SameBit(s, op.offset, t, op.offset, i) {
      var k := op.offset + i;
      assert SameBit(s, 0, t, 0, k);
    }
    FieldSame(s, op.offset, t, op.offset, op.bits);
  }

  lemma {:induction false} SameLength(ops: seq<FieldOp>, states: seq<seq<bv8>>, replies: seq<Option<int>>, n: nat)
    requires Ran(ops, states, replies) && n <= |replies|
    ensures |states[n]| == |states[0]|
  {
    if n > 0 {
      SameLength(ops, states, replies, n - 1);
      assert EffectAt(ops, states, replies, n - 1);
    }
  }

  /** While every operation is idle the string does not move. */
  lemma {:induction false} IdleStays(ops: seq<FieldOp>, states: seq<seq<bv8>>, replies: seq<Option<int>>, n: nat)
    requires Ran(ops, states, replies) && n <= |replies| && forall j | 0 <= j < n :: IdleAt(ops, states, j)
    ensures states[n] == states[0]
  {
    if n > 0 {
      IdleStays(ops, states, replies, n - 1);
      assert EffectAt(ops, states, replies, n - 1) && IdleAt(ops, states, n - 1);
    }
  }

  lemma {:induction false} RefusedIsIdle(ops: seq<FieldOp>, states: seq<seq<bv8>>, replies: seq<Option<int>>, s: seq<bv8>, n: nat)
    requires Ran(ops, states, replies) && n <= |replies| && SameBits(s, states[0])
    requires (forall op <- ops :: ValidOp(op)) && AllRefused(ops, s)
    ensures forall j | 0 <= j < n :: IdleAt(ops, states, j)
  {
    if n > 0 {
      RefusedIsIdle(ops, states, replies, s, n - 1);
      IdleStays(ops, states, replies, n - 1);
      assert ops[n - 1] in ops;
      RefusedByBits(ops[n - 1], s, states[0]);
      assert IdleAt(ops, states, n - 1);
    }
  }

  /** Every operation turns out idle exactly when every write is refused on the string the command started from. */
  lemma IdleFromInputs(ops: seq<FieldOp>, states: seq<seq<bv8>>, replies: seq<Option<int>>, s: seq<bv8>)
    requires Ran(ops, states, replies) && |replies| == |ops| && SameBits(s, states[0]) && forall op <- ops :: ValidOp(op)
    ensures (forall j | 0 <= j < |ops| :: IdleAt(ops, states, j)) <==> AllRefused(ops, s)
  {
    if AllRefused(ops, s) { RefusedIsIdle(ops, states, replies, s, |ops|); }
    if forall j | 0 <= j < |ops| :: IdleAt(ops, states, j) {
      forall op <- ops ensures op.opcode.Get? || Refused(op, s) {
        var j :| 0 <= j < |ops| && ops[j] == op;
        IdleStays(ops, states, replies, j);
        assert IdleAt(ops, states, j);
        RefusedByBits(op, s, states[0]);
      }
    }
  }

  lemma RanMore(ops: seq<FieldOp>, states: seq<seq<bv8>>, replies: seq<Option<int>>, t: seq<bv8>, reply: Option<int>)
    requires Ran(ops, states, replies) && |replies| < |ops|
    requires ValidOp(ops[|replies|]) && Effect(ops[|replies|], states[|replies|], t, reply)
    ensures Ran(ops, states + [t], replies + [reply])
  {
    forall j | 0 <= j < |replies + [reply]| ensures EffectAt(ops, states + [t], replies + [reply], j) {
      if j < |replies| { assert EffectAt(ops, states, replies, j); }
    }
  }

  lemma {:induction false} ChangesSame(ops: seq<FieldOp>, states: seq<seq<bv8>>, more: seq<seq<bv8>>, grew: bool, n: nat)
    requires n <= |ops| && n <= |states| && states <= more && forall op <- ops :: ValidOp(op)
    ensures ChangesIn(ops, more, grew, n) == ChangesIn(ops, states, grew, n)
  {
    if n > 0 { ChangesSame(ops, states, more, grew, n - 1); }
  }

  /**
   * `bitfieldGeneric`: every operation sees what those before it did. The states start from the bits of the key, or of
   * no key; a read-only command leaves the key alone, and any other stores the last state. A command that counts no
   * change has changed no bit; it has made the string longer exactly when room was needed and every write is refused
   * on the key as it was.
   */
  method BitfieldGeneric(o: Option<seq<bv8>>, ops: seq<FieldOp>)
    returns (replies: seq<Option<int>>, after: Option<seq<bv8>>, changes: nat, grew: bool, ghost states: seq<seq<bv8>>)
    requires forall op <- ops :: ValidOp(op)
    ensures |replies| == |ops| && Ran(ops, states, replies) && SameBits(Content(o), states[0])
    ensures after == if Writes(ops) then Some(states[|ops|]) else o
    ensures changes == ChangesIn(ops, states, grew, |ops|)
    ensures grew ==> (changes == 0 <==> forall j | 0 <= j < |ops| :: IdleAt(ops, states, j))
    ensures changes == 0 && |Content(after)| > |Content(o)| <==> Room(o, ops) > |Content(o)| && AllRefused(ops, Content(o))
    ensures |states[0]| == Room(o, ops) && grew == (|states[0]| > |Content(o)|) && (changes == 0 ==> SameBits(Content(o), Content(after)))
  {
    replies, changes := [], 0;
    var readonly, highest := HighestWrite(ops);
    var p;
    if readonly {
      p := new bv8[|Content(o)|](i requires 0 <= i < |Content(o)| => Content(o)[i]);
      grew := false;
      assert p[..] == Content(o);
    } else {
      p, grew := LookupStringForBitCommand(o, highest);
    }
    states := [p[..]];
    var j := 0;
    while j < |ops|
      invariant 0 <= j <= |ops| && |replies| == j && fresh(p) && (!readonly ==> highest < 8 * p.Length)
      invariant Ran(ops, states, replies) && states[j] == p[..] && changes == ChangesIn(ops, states, grew, j)
      invariant SameBits(Content(o), states[0]) && |states[0]| == Room(o, ops) && grew == (|states[0]| > |Content(o)|)
      invariant readonly ==> p[..] == Content(o)
    {
      assert ops[j] in ops;
      var reply, changed := Execute(ops[j], p, grew);
      RanMore(ops, states, replies, p[..], reply);
      ChangesSame(ops, states, states + [p[..]], grew, j);
      states, replies := states + [p[..]], replies + [reply];
      if changed { changes := changes + 1; }
      j := j + 1;
    }
    after := if readonly then o else Some(p[..]);
    if changes == 0 {
      Unchanged(ops, states, replies, grew, |ops|);
      SameBitsTrans(Content(o), states[0], states[|ops|]);
    }
    SameLength(ops, states, replies, |ops|);
    if grew {
      NothingCounted(ops, states, |ops|);
      IdleFromInputs(ops, states, replies, Content(o));
    }
  }

  /**
   * Where a change is not counted: SET with OVERFLOW FAIL of a number that does not fit, on a missing key. The key is
   * created, with a zero byte, and the command counts no change.
   */
  method CreatedUncounted() returns (after: Option<seq<bv8>>, changes: nat)
    ensures after.Some? && |after.value| == 1 && changes == 0
  {
    var op := FieldOp(Set, false, 8, 0, 256, Fail);
    assert Pow2(8) == 256 by { assert Pow2(4) == 16; Pow2Sum(4, 4); }
    var replies, grew;
    ghost var states;
    replies, after, changes, grew, states := BitfieldGeneric(None, [op]);
    assert op in [op] && [op][..0] == [] && HighestOf([]) == 0 && HighestOf([op]) == 7;
    assert EffectAt([op], states, replies, 0);
    assert IdleAt([op], states, 0);
  }

  // ---------------------------------------------------------------- no change counted, no bit changed

  lemma SameBitsTrans(a: seq<bv8>, b: seq<bv8>, c: seq<bv8>)
    requires SameBits(a, b) && SameBits(b, c)
    ensures SameBits(a, c)
  {
    forall i: nat ensures SameBit(a, 0, c, 0, i) { assert SameBit(a, 0, b, 0, i) && SameBit(b, 0, c, 0, i); }
  }

  /** The number in a field determines its bits. */
  lemma {:induction false} FieldDetermines(s: seq<bv8>, t: seq<bv8>, off: nat, n: nat, i: nat)
    requires Field(s, off, n) == Field(t, off, n) && i < n
    ensures SameBit(s, off, t, off, i)
  {
    if i < n - 1 { FieldDetermines(s, t, off, n - 1, i); }
  }

  lemma SignedDetermines(u: int, v: int, bits: nat)
    requires 1 <= bits && 0 <= u < Pow2(bits) && 0 <= v < Pow2(bits) && Signed(u, bits) == Signed(v, bits)
    ensures u == v
  {
    assert Pow2(bits) == 2 * Pow2(bits - 1);
  }

  lemma SameNumber(op: FieldOp, s: seq<bv8>, t: seq<bv8>, value: int)
    requires ValidOp(op) && Number(op, s) == Number(op, t) && Written(s, t, op.offset, op.bits, value, op.bits)
    ensures SameBits(s, t)
  {
    FieldBound(s, op.offset, op.bits);
    FieldBound(t, op.offset, op.bits);
    if op.sign { SignedDetermines(Field(s, op.offset, op.bits), Field(t, op.offset, op.bits), op.bits); }
    forall i: nat ensures SameBit(s, 0, t, 0, i) {
      assert WrittenAt(s, t, op.offset, op.bits, value, op.bits, i);
      if op.offset <= i < op.offset + op.bits { FieldDetermines(s, t, op.offset, op.bits, i - op.offset); }
    }
  }

  lemma Kept(op: FieldOp, s: seq<bv8>, t: seq<bv8>, reply: Option<int>, grew: bool)
    requires ValidOp(op) && Effect(op, s, t, reply) && !Changes(op, s, grew)
    ensures SameBits(s, t)
  {
    if !op.opcode.Get? && !Refused(op, s) {
      var y := Outcome(op, s);
      SameNumber(op, s, t, if op.sign then U64(y) else y);
    }
  }

  lemma {:induction false} Unchanged(ops: seq<FieldOp>, states: seq<seq<bv8>>, replies: seq<Option<int>>, grew: bool, n: nat)
    requires Ran(ops, states, replies) && n <= |replies| && (forall op <- ops :: ValidOp(op)) && ChangesIn(ops, states, grew, n) == 0
    ensures SameBits(states[0], states[n])
  {
    if n > 0 {
      Unchanged(ops, states, replies, grew, n - 1);
      assert EffectAt(ops, states, replies, n - 1);
      Kept(ops[n - 1], states[n - 1], states[n], replies[n - 1], grew);
      SameBitsTrans(states[0], states[n - 1], states[n]);
    }
  }
}
