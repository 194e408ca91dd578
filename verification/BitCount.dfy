/** Counting bits (redis-stable/src/bitops.c:50-150): the byte table and the 28-byte SWAR step against one bit at a time. */
module BitCount {
  import opened Bitmap

  // ---------------------------------------------------------------- one byte

  function One(b: bv8, k: nat): nat
    requires k < 8
  {
    if BitOf(b, k) then 1 else 0
  }

  /** The set bits of a byte. */
  function Ones(b: bv8): nat {
    One(b, 0) + One(b, 1) + One(b, 2) + One(b, 3) + One(b, 4) + One(b, 5) + One(b, 6) + One(b, 7)
  }

  /** Row `n` of the macro B2: two bits select n, n+1, n+1 or n+2. */
  function Pair(two: bv8): nat {
    if two == 0 then 0 else if two == 3 then 2 else 1
  }

  /** The entry of `bitsinbyte`, whose nested macros take two bits at a time. */
  function BitsInByte(b: bv8): nat {
    Pair(b >> 6) + Pair((b >> 4) & 3) + Pair((b >> 2) & 3) + Pair(b & 3)
  }

  lemma PairIs(two: bv8)
    requires two <= 3
    ensures Pair(two) == One(two, 0) + One(two, 1)
  {
    assert two == 0 || two == 1 || two == 2 || two == 3;
  }

  lemma TableIsOnes(b: bv8)
    ensures BitsInByte(b) == Ones(b)
  {
    PairIs(b >> 6);
    PairIs((b >> 4) & 3);
    PairIs((b >> 2) & 3);
    PairIs(b & 3);
    ShiftedBits(b);
  }

  lemma ShiftedBits(b: bv8)
    ensures BitOf(b >> 6, 0) == BitOf(b, 6) && BitOf(b >> 6, 1) == BitOf(b, 7)
    ensures BitOf((b >> 4) & 3, 0) == BitOf(b, 4) && BitOf((b >> 4) & 3, 1) == BitOf(b, 5)
    ensures BitOf((b >> 2) & 3, 0) == BitOf(b, 2) && BitOf((b >> 2) & 3, 1) == BitOf(b, 3)
    ensures BitOf(b & 3, 0) == BitOf(b, 0) && BitOf(b & 3, 1) == BitOf(b, 1)
  {
  }

  // ---------------------------------------------------------------- small bit vectors as numbers

  function Weight(v: bv32, m: bv32, w: nat): nat {
    if v & m != 0 then w else 0
  }

  /** The number in the low byte of a word. */
  function Value(v: bv32): nat {
    Weight(v, 1, 1) + Weight(v, 2, 2) + Weight(v, 4, 4) + Weight(v, 8, 8) +
    Weight(v, 16, 16) + Weight(v, 32, 32) + Weight(v, 64, 64) + Weight(v, 128, 128)
  }

  lemma Plus1(a: bv32)
    requires a <= 254
    ensures Value(a + 1) == Value(a) + 1
  {
  }

  lemma Plus2(a: bv32)
    requires a <= 253
    ensures Value(a + 2) == Value(a) + 2
  {
  }

  lemma Plus4(a: bv32)
    requires a <= 251
    ensures Value(a + 4) == Value(a) + 4
  {
  }

  lemma Plus8(a: bv32)
    requires a <= 247
    ensures Value(a + 8) == Value(a) + 8
  {
  }

  lemma Plus16(a: bv32)
    requires a <= 239
    ensures Value(a + 16) == Value(a) + 16
  {
  }

  lemma Plus32(a: bv32)
    requires a <= 223
    ensures Value(a + 32) == Value(a) + 32
  {
  }

  lemma Plus64(a: bv32)
    requires a <= 191
    ensures Value(a + 64) == Value(a) + 64
  {
  }

  lemma Plus128(a: bv32)
    requires a <= 127
    ensures Value(a + 128) == Value(a) + 128
  {
  }

  lemma Add1(a: bv32, b: bv32)
    requires b <= 1 && a <= 255 - b
    ensures Value(a + b) == Value(a) + Value(b)
  {
    if b == 1 { Plus1(a); } else { assert b == 0; }
  }

  lemma Add2(a: bv32, b: bv32)
    requires b <= 3 && a <= 255 - b
    ensures Value(a + b) == Value(a) + Value(b)
  {
    if b >= 2 {
      var lo := b - 2;
      Add1(a, lo);
      Plus2(a + lo);
      Plus2(lo);
      assert a + lo + 2 == a + b;
    } else {
      Add1(a, b);
    }
  }

  lemma Add4(a: bv32, b: bv32)
    requires b <= 7 && a <= 255 - b
    ensures Value(a + b) == Value(a) + Value(b)
  {
    if b >= 4 {
      var lo := b - 4;
      Add2(a, lo);
      Plus4(a + lo);
      Plus4(lo);
      assert a + lo + 4 == a + b;
    } else {
      Add2(a, b);
    }
  }

  lemma Add8(a: bv32, b: bv32)
    requires b <= 15 && a <= 255 - b
    ensures Value(a + b) == Value(a) + Value(b)
  {
    if b >= 8 {
      var lo := b - 8;
      Add4(a, lo);
      Plus8(a + lo);
      Plus8(lo);
      assert a + lo + 8 == a + b;
    } else {
      Add4(a, b);
    }
  }

  lemma Add16(a: bv32, b: bv32)
    requires b <= 31 && a <= 255 - b
    ensures Value(a + b) == Value(a) + Value(b)
  {
    if b >= 16 {
      var lo := b - 16;
      Add8(a, lo);
      Plus16(a + lo);
      Plus16(lo);
      assert a + lo + 16 == a + b;
    } else {
      Add8(a, b);
    }
  }

  lemma Add32(a: bv32, b: bv32)
    requires b <= 63 && a <= 255 - b
    ensures Value(a + b) == Value(a) + Value(b)
  {
    if b >= 32 {
      var lo := b - 32;
      Add16(a, lo);
      Plus32(a + lo);
      Plus32(lo);
      assert a + lo + 32 == a + b;
    } else {
      Add16(a, b);
    }
  }

  lemma Low64(a: bv32, b: bv32) returns (lo: bv32)
    requires 64 <= b <= 127 && a <= 255 - b
    ensures lo <= 63 && a <= 255 - lo && a + lo <= 191 && a + b == a + lo + 64 && b == lo + 64
  {
    lo := b - 64;
  }

  lemma Add64(a: bv32, b: bv32)
    requires b <= 127 && a <= 255 - b
    ensures Value(a + b) == Value(a) + Value(b)
  {
    if b >= 64 {
      var lo := Low64(a, b);
      Add32(a, lo);
      Plus64(a + lo);
      Plus64(lo);
    } else {
      Add32(a, b);
    }
  }

  /** Numbers add as bit vectors do, as long as they stay in a byte. */
  lemma ValueAdd(a: bv32, b: bv32)
    requires b <= 255 && a <= 255 - b
    ensures Value(a + b) == Value(a) + Value(b)
  {
    if b >= 128 {
      var lo := b - 128;
      Add64(a, lo);
      Plus128(a + lo);
      Plus128(lo);
      assert a + lo + 128 == a + b;
    } else {
      Add64(a, b);
    }
  }

  // ---------------------------------------------------------------- SWAR

  /** Four bytes read as a word, the first one lowest; the count does not depend on the order. */
  function Word(b0: bv8, b1: bv8, b2: bv8, b3: bv8): bv32 {
    (b0 as bv32) | ((b1 as bv32) << 8) | ((b2 as bv32) << 16) | ((b3 as bv32) << 24)
  }

  function Pairs(aux: bv32): bv32 {
    aux - ((aux >> 1) & 0x55555555)
  }

  function Nibbles(aux: bv32): bv32 {
    (aux & 0x33333333) + ((aux >> 2) & 0x33333333)
  }

  /** What one word contributes: each byte holds the number of bits set in that byte. */
  function ByteCounts(aux: bv32): bv32 {
    var n := Nibbles(Pairs(aux));
    (n + (n >> 4)) & 0x0F0F0F0F
  }

  function BitSum(b: bv32): bv32 {
    (b & 1) + ((b >> 1) & 1) + ((b >> 2) & 1) + ((b >> 3) & 1) + ((b >> 4) & 1) + ((b >> 5) & 1) + ((b >> 6) & 1) + ((b >> 7) & 1)
  }

  function Lane0(x: bv32): bv32 {
    x & 0xFF
  }

  function Lane1(x: bv32): bv32 {
    (x >> 8) & 0xFF
  }

  function Lane2(x: bv32): bv32 {
    (x >> 16) & 0xFF
  }

  function Lane3(x: bv32): bv32 {
    x >> 24
  }

  lemma LaneCount0(aux: bv32)
    ensures Lane0(ByteCounts(aux)) == BitSum(Lane0(aux)) <= 8
  {
  }

  lemma LaneCount1(aux: bv32)
    ensures Lane1(ByteCounts(aux)) == BitSum(Lane1(aux)) <= 8
  {
  }

  lemma LaneCount2(aux: bv32)
    ensures Lane2(ByteCounts(aux)) == BitSum(Lane2(aux)) <= 8
  {
  }

  lemma LaneCount3(aux: bv32)
    ensures Lane3(ByteCounts(aux)) == BitSum(Lane3(aux)) <= 8
  {
  }

  predicate LanesBelow(x: bv32, n: bv32) {
    Lane0(x) <= n && Lane1(x) <= n && Lane2(x) <= n && Lane3(x) <= n
  }

  ghost predicate AddsAt(val: bv32 -> nat, a: bv32, b: bv32) {
    b <= 255 && a <= 255 - b ==> val(a + b) == val(a) + val(b)
  }

  /** A reading of small words as numbers; what follows needs no more of it than this. */
  ghost predicate Reading(val: bv32 -> nat) {
    val(0) == 0 && val(1) == 1 && forall a: bv32, b: bv32 :: AddsAt(val, a, b)
  }

  lemma ValueReads()
    ensures Reading(Value)
  {
    forall a: bv32, b: bv32 ensures AddsAt(Value, a, b) {
      if b <= 255 && a <= 255 - b { ValueAdd(a, b); }
    }
  }

  /** The sum of the four lanes. */
  ghost function Lanes(val: bv32 -> nat, x: bv32): nat {
    val(Lane0(x)) + val(Lane1(x)) + val(Lane2(x)) + val(Lane3(x))
  }

  lemma LaneAdd0(x: bv32, y: bv32)
    requires LanesBelow(x, 48) && LanesBelow(y, 8)
    ensures Lane0(x + y) == Lane0(x) + Lane0(y)
  {
  }

  lemma LaneValue0(val: bv32 -> nat, x: bv32, y: bv32)
    requires Reading(val) && LanesBelow(x, 48) && LanesBelow(y, 8)
    ensures val(Lane0(x + y)) == val(Lane0(x)) + val(Lane0(y))
  {
    LaneAdd0(x, y);
    assert AddsAt(val, Lane0(x), Lane0(y));
  }

  lemma LaneAdd1(x: bv32, y: bv32)
    requires LanesBelow(x, 48) && LanesBelow(y, 8)
    ensures Lane1(x + y) == Lane1(x) + Lane1(y)
  {
  }

  lemma LaneValue1(val: bv32 -> nat, x: bv32, y: bv32)
    requires Reading(val) && LanesBelow(x, 48) && LanesBelow(y, 8)
    ensures val(Lane1(x + y)) == val(Lane1(x)) + val(Lane1(y))
  {
    LaneAdd1(x, y);
    assert AddsAt(val, Lane1(x), Lane1(y));
  }

  lemma LaneAdd2(x: bv32, y: bv32)
    requires LanesBelow(x, 48) && LanesBelow(y, 8)
    ensures Lane2(x + y) == Lane2(x) + Lane2(y)
  {
  }

  lemma LaneValue2(val: bv32 -> nat, x: bv32, y: bv32)
    requires Reading(val) && LanesBelow(x, 48) && LanesBelow(y, 8)
    ensures val(Lane2(x + y)) == val(Lane2(x)) + val(Lane2(y))
  {
    LaneAdd2(x, y);
    assert AddsAt(val, Lane2(x), Lane2(y));
  }

  lemma LaneAdd3(x: bv32, y: bv32)
    requires LanesBelow(x, 48) && LanesBelow(y, 8)
    ensures Lane3(x + y) == Lane3(x) + Lane3(y)
  {
  }

  lemma LaneValue3(val: bv32 -> nat, x: bv32, y: bv32)
    requires Reading(val) && LanesBelow(x, 48) && LanesBelow(y, 8)
    ensures val(Lane3(x + y)) == val(Lane3(x)) + val(Lane3(y))
  {
    LaneAdd3(x, y);
    assert AddsAt(val, Lane3(x), Lane3(y));
  }

  /** Lanes that stay small do not carry into each other. */
  lemma LanesAdd(val: bv32 -> nat, x: bv32, y: bv32)
    requires Reading(val) && LanesBelow(x, 48) && LanesBelow(y, 8)
    ensures Lanes(val, x + y) == Lanes(val, x) + Lanes(val, y)
  {
    LaneValue0(val, x, y);
    LaneValue1(val, x, y);
    LaneValue2(val, x, y);
    LaneValue3(val, x, y);
  }

  lemma BelowAdd(x: bv32, y: bv32, n: bv32)
    requires n <= 48 && LanesBelow(x, n) && LanesBelow(y, 8)
    ensures LanesBelow(x + y, n + 8)
  {
  }

  function Plus(a: bv32, b: bv32): bv32 {
    a + b
  }

  lemma MulSteps(x: bv32)
    ensures Plus(x, x * 0x100) == x * 0x101
    ensures Plus(x * 0x101, x * 0x10000) == x * 0x10101
    ensures Plus(x * 0x10101, x * 0x1000000) == x * 0x1010101
  {
  }

  lemma Shifts(x: bv32)
    ensures x << 8 == x * 0x100 && x << 16 == x * 0x10000 && x << 24 == x * 0x1000000
  {
  }

  lemma Gather1(x: bv32, s: bv32, a: bv32)
    requires LanesBelow(x, 56) && s == x << 8 && a == Plus(x, s)
    ensures LanesBelow(a, 112) && Lane3(a) == Lane3(x) + Lane2(x)
  {
  }

  lemma Gather2(a: bv32, x: bv32, s: bv32, b: bv32)
    requires LanesBelow(x, 56) && LanesBelow(a, 112) && s == x << 16 && b == Plus(a, s)
    ensures LanesBelow(b, 168) && Lane3(b) == Lane3(a) + Lane1(x)
  {
  }

  lemma Gather3(b: bv32, x: bv32, s: bv32, c: bv32)
    requires LanesBelow(x, 56) && LanesBelow(b, 168) && s == x << 24 && c == Plus(b, s)
    ensures Lane3(c) == Lane3(b) + Lane0(x)
  {
  }

  lemma Top1(val: bv32 -> nat, x: bv32, s: bv32, a: bv32)
    requires Reading(val) && LanesBelow(x, 56) && s == x << 8 && a == Plus(x, s)
    ensures LanesBelow(a, 112) && val(Lane3(a)) == val(Lane3(x)) + val(Lane2(x))
  {
    Gather1(x, s, a);
    assert AddsAt(val, Lane3(x), Lane2(x));
  }

  lemma Top2(val: bv32 -> nat, a: bv32, x: bv32, s: bv32, b: bv32)
    requires Reading(val) && LanesBelow(x, 56) && LanesBelow(a, 112) && s == x << 16 && b == Plus(a, s)
    ensures LanesBelow(b, 168) && val(Lane3(b)) == val(Lane3(a)) + val(Lane1(x))
  {
    Gather2(a, x, s, b);
    assert AddsAt(val, Lane3(a), Lane1(x));
  }

  lemma Top3(val: bv32 -> nat, b: bv32, x: bv32, s: bv32, c: bv32)
    requires Reading(val) && LanesBelow(x, 56) && LanesBelow(b, 168) && s == x << 24 && c == Plus(b, s)
    ensures val(Lane3(c)) == val(Lane3(b)) + val(Lane0(x))
  {
    Gather3(b, x, s, c);
    assert AddsAt(val, Lane3(b), Lane0(x));
  }

  lemma Chain(val: bv32 -> nat, x: bv32, s8: bv32, s16: bv32, s24: bv32, a: bv32, b: bv32, c: bv32)
    requires Reading(val) && LanesBelow(x, 56) && s8 == x << 8 && s16 == x << 16 && s24 == x << 24
    requires a == Plus(x, s8) && b == Plus(a, s16) && c == Plus(b, s24)
    ensures val(Lane3(c)) == Lanes(val, x)
  {
    Top1(val, x, s8, a);
    Top2(val, a, x, s16, b);
    Top3(val, b, x, s24, c);
  }

  lemma Product(x: bv32) returns (s8: bv32, s16: bv32, s24: bv32, a: bv32, b: bv32, c: bv32)
    ensures s8 == x << 8 && s16 == x << 16 && s24 == x << 24
    ensures a == Plus(x, s8) && b == Plus(a, s16) && c == Plus(b, s24)
    ensures c == x * 0x1010101
  {
    s8, s16, s24, a, b, c := x * 0x100, x * 0x10000, x * 0x1000000, x * 0x101, x * 0x10101, x * 0x1010101;
    MulSteps(x);
    Shifts(x);
  }

  /** The multiplication gathers the four lanes in the top byte; 7 * 32 = 224 fits. */
  lemma Gather(val: bv32 -> nat, x: bv32)
    requires Reading(val) && LanesBelow(x, 56)
    ensures val((x * 0x01010101) >> 24) == Lanes(val, x)
  {
    var s8, s16, s24, a, b, c := Product(x);
    Chain(val, x, s8, s16, s24, a, b, c);
  }

  // ---------------------------------------------------------------- twenty-eight bytes

  lemma SumOfBits(val: bv32 -> nat, t0: bv32, t1: bv32, t2: bv32, t3: bv32, t4: bv32, t5: bv32, t6: bv32, t7: bv32)
    requires Reading(val) && t0 <= 1 && t1 <= 1 && t2 <= 1 && t3 <= 1 && t4 <= 1 && t5 <= 1 && t6 <= 1 && t7 <= 1
    ensures val(t0 + t1 + t2 + t3 + t4 + t5 + t6 + t7) ==
            val(t0) + val(t1) + val(t2) + val(t3) + val(t4) + val(t5) + val(t6) + val(t7)
  {
    assert AddsAt(val, t0, t1);
    assert AddsAt(val, t0 + t1, t2);
    assert AddsAt(val, t0 + t1 + t2, t3);
    assert AddsAt(val, t0 + t1 + t2 + t3, t4);
    assert AddsAt(val, t0 + t1 + t2 + t3 + t4, t5);
    assert AddsAt(val, t0 + t1 + t2 + t3 + t4 + t5, t6);
    assert AddsAt(val, t0 + t1 + t2 + t3 + t4 + t5 + t6, t7);
  }

  lemma BitIs(val: bv32 -> nat, b: bv8, t0: bv32, t1: bv32, t2: bv32, t3: bv32, t4: bv32, t5: bv32, t6: bv32, t7: bv32)
    requires Reading(val)
    requires t0 == b as bv32 & 1 && t1 == (b as bv32 >> 1) & 1 && t2 == (b as bv32 >> 2) & 1 && t3 == (b as bv32 >> 3) & 1
    requires t4 == (b as bv32 >> 4) & 1 && t5 == (b as bv32 >> 5) & 1 && t6 == (b as bv32 >> 6) & 1 && t7 == (b as bv32 >> 7) & 1
    ensures val(t0) == One(b, 0) && val(t1) == One(b, 1) && val(t2) == One(b, 2) && val(t3) == One(b, 3)
    ensures val(t4) == One(b, 4) && val(t5) == One(b, 5) && val(t6) == One(b, 6) && val(t7) == One(b, 7)
  {
    assert t0 == (if BitOf(b, 0) then 1 else 0) && t1 == (if BitOf(b, 1) then 1 else 0);
    assert t2 == (if BitOf(b, 2) then 1 else 0) && t3 == (if BitOf(b, 3) then 1 else 0);
    assert t4 == (if BitOf(b, 4) then 1 else 0) && t5 == (if BitOf(b, 5) then 1 else 0);
    assert t6 == (if BitOf(b, 6) then 1 else 0) && t7 == (if BitOf(b, 7) then 1 else 0);
  }

  lemma ByteOnes(val: bv32 -> nat, b: bv8)
    requires Reading(val)
    ensures val(BitSum(b as bv32)) == Ones(b)
  {
    var w := b as bv32;
    SumOfBits(val, w & 1, (w >> 1) & 1, (w >> 2) & 1, (w >> 3) & 1, (w >> 4) & 1, (w >> 5) & 1, (w >> 6) & 1, (w >> 7) & 1);
    BitIs(val, b, w & 1, (w >> 1) & 1, (w >> 2) & 1, (w >> 3) & 1, (w >> 4) & 1, (w >> 5) & 1, (w >> 6) & 1, (w >> 7) & 1);
  }

  lemma WordLanes(b0: bv8, b1: bv8, b2: bv8, b3: bv8)
    ensures var w := Word(b0, b1, b2, b3);
            Lane0(w) == b0 as bv32 && Lane1(w) == b1 as bv32 && Lane2(w) == b2 as bv32 && Lane3(w) == b3 as bv32
  {
  }

  lemma CountsAre(aux: bv32)
    ensures LanesBelow(ByteCounts(aux), 8)
    ensures Lane0(ByteCounts(aux)) == BitSum(Lane0(aux)) && Lane1(ByteCounts(aux)) == BitSum(Lane1(aux))
    ensures Lane2(ByteCounts(aux)) == BitSum(Lane2(aux)) && Lane3(ByteCounts(aux)) == BitSum(Lane3(aux))
  {
    LaneCount0(aux);
    LaneCount1(aux);
    LaneCount2(aux);
    LaneCount3(aux);
  }

  /** One word contributes the set bits of its four bytes. */
  lemma WordOnes(val: bv32 -> nat, b0: bv8, b1: bv8, b2: bv8, b3: bv8)
    requires Reading(val)
    ensures var f := ByteCounts(Word(b0, b1, b2, b3));
            LanesBelow(f, 8) && Lanes(val, f) == Ones(b0) + Ones(b1) + Ones(b2) + Ones(b3)
  {
    CountsAre(Word(b0, b1, b2, b3));
    WordLanes(b0, b1, b2, b3);
    ByteOnes(val, b0);
    ByteOnes(val, b1);
    ByteOnes(val, b2);
    ByteOnes(val, b3);
  }

  /** After `k` words each lane holds at most 8 * k. */
  function Bound(k: nat): bv32 {
    match k
    case 0 => 0
    case 1 => 8
    case 2 => 16
    case 3 => 24
    case 4 => 32
    case 5 => 40
    case 6 => 48
    case _ => 56
  }

  lemma BoundNext(k: nat)
    requires k < 7
    ensures Bound(k) <= 48 && Bound(k) + 8 == Bound(k + 1)
  {
  }

  lemma WordStep(val: bv32 -> nat, sum: bv32, n: bv32, b0: bv8, b1: bv8, b2: bv8, b3: bv8, f: bv32, y: bv32)
    requires Reading(val) && n <= 48 && LanesBelow(sum, n) && f == ByteCounts(Word(b0, b1, b2, b3)) && y == sum + f
    ensures LanesBelow(y, n + 8)
    ensures Lanes(val, y) == Lanes(val, sum) + Ones(b0) + Ones(b1) + Ones(b2) + Ones(b3)
  {
    WordOnes(val, b0, b1, b2, b3);
    BelowMore(sum, n);
    BelowAdd(sum, f, n);
    LanesAdd(val, sum, f);
  }

  lemma BelowMore(x: bv32, n: bv32)
    requires n <= 48 && LanesBelow(x, n)
    ensures LanesBelow(x, 48)
  {
  }

  lemma NoLanes(val: bv32 -> nat)
    requires Reading(val)
    ensures LanesBelow(0, Bound(0)) && Lanes(val, 0) == 0
  {
  }

  /** One of the seven words of a block, added to the running sum. */
  method AddWord(sum: bv32, b0: bv8, b1: bv8, b2: bv8, b3: bv8, ghost k: nat, ghost val: bv32 -> nat) returns (y: bv32)
    requires k < 7 && LanesBelow(sum, Bound(k)) && Reading(val)
    ensures LanesBelow(y, Bound(k + 1))
    ensures Lanes(val, y) == Lanes(val, sum) + Ones(b0) + Ones(b1) + Ones(b2) + Ones(b3)
  {
    var f := ByteCounts(Word(b0, b1, b2, b3));
    y := sum + f;
    BoundNext(k);
    WordStep(val, sum, Bound(k), b0, b1, b2, b3, f, y);
  }

  lemma TheReading() returns (val: bv32 -> nat)
    ensures Reading(val) && val == Value
  {
    ValueReads();
    val := Value;
  }

  /** The set bits of a byte string. */
  function OnesOf(s: seq<bv8>): nat {
    if s == [] then 0 else OnesOf(s[..|s| - 1]) + Ones(s[|s| - 1])
  }

  lemma OnesNext(s: seq<bv8>, i: nat)
    requires i < |s|
    ensures OnesOf(s[..i + 1]) == OnesOf(s[..i]) + Ones(s[i])
  {
    assert s[..i + 1][..i] == s[..i];
  }

  lemma OnesNextFour(s: seq<bv8>, i: nat)
    requires i + 4 <= |s|
    ensures OnesOf(s[..i + 4]) == OnesOf(s[..i]) + Ones(s[i]) + Ones(s[i + 1]) + Ones(s[i + 2]) + Ones(s[i + 3])
  {
    OnesNext(s, i);
    OnesNext(s, i + 1);
    OnesNext(s, i + 2);
    OnesNext(s, i + 3);
  }

  /** Twenty-eight bytes at once. */
  method CountBlock(s: seq<bv8>, at: nat) returns (bits: nat)
    requires at + 28 <= |s|
    ensures OnesOf(s[..at + 28]) == OnesOf(s[..at]) + bits
  {
    var sum: bv32, k, i := 0, 0, at;
    ghost var val := TheReading();
    ghost var before := OnesOf(s[..at]);
    NoLanes(val);
    while k < 7
      invariant 0 <= k <= 7 && i == at + 4 * k && LanesBelow(sum, Bound(k)) && OnesOf(s[..i]) == before + Lanes(val, sum)
    {
      sum := AddWordAt(s, i, sum, k, val);
      i := i + 4;
      k := k + 1;
    }
    bits := GatherLanes(sum, val);
  }

  method AddWordAt(s: seq<bv8>, i: nat, sum: bv32, ghost k: nat, ghost val: bv32 -> nat) returns (y: bv32)
    requires i + 4 <= |s| && k < 7 && LanesBelow(sum, Bound(k)) && Reading(val)
    ensures LanesBelow(y, Bound(k + 1)) && OnesOf(s[..i + 4]) - OnesOf(s[..i]) == Lanes(val, y) - Lanes(val, sum)
  {
    OnesNextFour(s, i);
    y := AddWord(sum, s[i], s[i + 1], s[i + 2], s[i + 3], k, val);
  }

  /** The multiplication that ends a block. */
  method GatherLanes(sum: bv32, ghost val: bv32 -> nat) returns (bits: nat)
    requires LanesBelow(sum, 56) && Reading(val) && val == Value
    ensures bits == Lanes(val, sum)
  {
    bits := Value((sum * 0x01010101) >> 24);
    Gather(val, sum);
  }

  /** The table, byte by byte. */
  method CountBytes(s: seq<bv8>, from: nat, to: nat) returns (bits: nat)
    requires from <= to <= |s|
    ensures OnesOf(s[..to]) == OnesOf(s[..from]) + bits
  {
    bits := 0;
    var i := from;
    while i < to
      invariant from <= i <= to && OnesOf(s[..i]) == OnesOf(s[..from]) + bits
    {
      TableIsOnes(s[i]);
      OnesNext(s, i);
      bits := bits + BitsInByte(s[i]);
      i := i + 1;
    }
  }

  /** Thirty-two bytes at once in four counters; POPCNT counts the set bits of eight bytes. */
  method CountPopcnt(s: seq<bv8>, at: nat) returns (bits: nat)
    requires at + 32 <= |s|
    ensures OnesOf(s[..at + 32]) == OnesOf(s[..at]) + bits
  {
    var cnt0, cnt1 := OnesOf(s[at..at + 8]), OnesOf(s[at + 8..at + 16]);
    var cnt2, cnt3 := OnesOf(s[at + 16..at + 24]), OnesOf(s[at + 24..at + 32]);
    OnesAppend(s, at, 8);
    OnesAppend(s, at + 8, 8);
    OnesAppend(s, at + 16, 8);
    OnesAppend(s, at + 24, 8);
    bits := cnt0 + cnt1 + cnt2 + cnt3;
  }

  /** `redisPopcount`, for any address and with or without the POPCNT instruction. */
  method Popcount(s: seq<bv8>, address: nat, usePopcnt: bool) returns (bits: nat)
    ensures bits == OnesOf(s)
  {
    var i, mod := 0, if usePopcnt then 8 else 4;
    while (address + i) % mod != 0 && i < |s|
      invariant 0 <= i <= |s|
      decreases |s| - i
    {
      i := i + 1;
    }
    bits := CountBytes(s, 0, i);
    assert s[..0] == [];
    var step := if usePopcnt then 32 else 28;
    while |s| - i >= step
      invariant 0 <= i <= |s| && bits == OnesOf(s[..i])
    {
      var block;
      if usePopcnt { block := CountPopcnt(s, i); } else { block := CountBlock(s, i); }
      bits := bits + block;
      i := i + step;
    }
    var rest := CountBytes(s, i, |s|);
    bits := bits + rest;
    assert s[..|s|] == s;
  }

  lemma {:induction false} OnesAppend(s: seq<bv8>, i: nat, n: nat)
    requires i + n <= |s|
    ensures OnesOf(s[..i + n]) == OnesOf(s[..i]) + OnesOf(s[i..i + n])
    decreases n
  {
    if n > 0 {
      OnesAppend(s, i, n - 1);
      OnesNext(s, i + n - 1);
      assert s[i..i + n][..n - 1] == s[i..i + n - 1];
    }
  }
}
