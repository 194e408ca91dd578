/** BITPOS (redis-stable/src/bitops.c:1554-1692): ranges in bytes or bits, with masked edges, over `redisBitpos`. */
module BitSearch {
  import opened Basics
  import opened Bitmap
  import opened BitRange
  import opened BitPos

  /**
   * The answer for the bits from `lo` up to `hi`: the least match; if there is none, one past the end when clear
   * bits are sought without an explicit end, else -1.
   */
  ghost predicate Answer(p: seq<bv8>, bit: bool, lo: nat, hi: nat, endGiven: bool, res: int) {
    || (lo <= res < hi && FirstFrom(p, bit, lo, res))
    || (NoneIn(p, bit, lo, hi) && res == if !bit && !endGiven then hi else -1)
  }

  /** What BITPOS means, for a key that may be missing and a range that may be absent. */
  ghost predicate Bitpos(o: Option<seq<bv8>>, bit: bool, start: int, end: Option<int>, isbit: bool, res: int) {
    match o
    case None => res == if bit then -1 else 0
    case Some(p) =>
      var total := if isbit then 8 * |p| else |p|;
      var lo, hi := Lo(start, total), if end.Some? then Hi(end.value, total) else total - 1;
      if lo > hi then res == -1
      else if isbit then Answer(p, bit, lo, hi + 1, end.Some?, res)
      else Answer(p, bit, 8 * lo, 8 * (hi + 1), end.Some?, res)
  }

  // ---------------------------------------------------------------- parts of the range

  lemma SliceBit(p: seq<bv8>, a: nat, z: nat, i: nat)
    requires a <= z <= |p| && i < 8 * (z - a)
    ensures Bit(p[a..z], i) == Bit(p, 8 * a + i)
  {
    assert (8 * a + i) / 8 == a + i / 8 && (8 * a + i) % 8 == i % 8;
  }

  lemma SliceNone(p: seq<bv8>, a: nat, z: nat, bit: bool, n: nat)
    requires a <= z <= |p| && n <= 8 * (z - a) && NoneIn(p[a..z], bit, 0, n)
    ensures NoneIn(p, bit, 8 * a, 8 * a + n)
  {
    forall i | 8 * a <= i < 8 * a + n ensures Miss(p, bit, i) {
      SliceBit(p, a, z, i - 8 * a);
      assert Miss(p[a..z], bit, i - 8 * a);
    }
  }

  /** The byte with every bit outside the range turned into a miss. */
  function Edged(b: bv8, r: nat, q: nat, bit: bool): bv8
    requires r < 8 && q < 8
  {
    if bit then (b & !HighMask(r)) & !LowMask(q) else (b | HighMask(r)) | LowMask(q)
  }

  lemma EdgedSet(b: bv8, r: nat, q: nat, t: bv8, i: nat)
    requires r < 8 && q < 8 && i < 8 && t == Edged(b, r, q, true)
    ensures BitOf(t, 7 - i) == (r <= i < 8 - q && BitOf(b, 7 - i))
  {
    HighClear(b, r, 7 - i);
    LowClear(b & !HighMask(r), q, 7 - i);
  }

  lemma EdgedClear(b: bv8, r: nat, q: nat, t: bv8, i: nat)
    requires r < 8 && q < 8 && i < 8 && t == Edged(b, r, q, false)
    ensures BitOf(t, 7 - i) == (r <= i < 8 - q ==> BitOf(b, 7 - i))
  {
    HighSet(b, r, 7 - i);
    LowSet(b | HighMask(r), q, 7 - i);
  }

  lemma ByteBit(p: seq<bv8>, j: nat, i: nat)
    requires j < |p| && i < 8
    ensures Bit(p, 8 * j + i) == BitOf(p[j], 7 - i)
  {
    assert (8 * j + i) / 8 == j && (8 * j + i) % 8 == i;
  }

  lemma EdgedMiss(p: seq<bv8>, j: nat, r: nat, q: nat, bit: bool, t: bv8, i: nat)
    requires j < |p| && r < 8 && q < 8 && i < 8 && t == Edged(p[j], r, q, bit)
    ensures Bit([t], i) == if r <= i < 8 - q then Bit(p, 8 * j + i) else !bit
  {
    if bit { EdgedSet(p[j], r, q, t, i); } else { EdgedClear(p[j], r, q, t, i); }
    ByteBit(p, j, i);
    ByteBit([t], 0, i);
  }

  /** Searching the edged byte is searching its part of the range. */
  lemma EdgedNone(p: seq<bv8>, j: nat, r: nat, q: nat, bit: bool, t: bv8, n: nat)
    requires j < |p| && r < 8 && q < 8 && t == Edged(p[j], r, q, bit) && n <= 8 && NoneIn([t], bit, 0, n)
    ensures NoneIn(p, bit, 8 * j + r, if n <= 8 - q then 8 * j + n else 8 * j + 8 - q)
  {
    forall i | 8 * j + r <= i < (if n <= 8 - q then 8 * j + n else 8 * j + 8 - q) ensures Miss(p, bit, i) {
      EdgedMiss(p, j, r, q, bit, t, i - 8 * j);
      assert Miss([t], bit, i - 8 * j);
    }
  }

  /** The masking statements; the second pair is skipped when its mask is empty. */
  method MaskByte(b: bv8, r: nat, q: nat, bit: bool) returns (t: bv8)
    requires r < 8 && q < 8
    ensures t == Edged(b, r, q, bit)
  {
    t := if bit then b & !HighMask(r) else b | HighMask(r);
    NoLowMask(t, q);
    if LowMask(q) != 0 {
      if bit { t := t & !LowMask(q); } else { t := t | LowMask(q); }
    }
  }

  /** `redisBitpos` on the edged byte; -1 and 8 both say there is no match in its part of the range. */
  method SearchByte(p: seq<bv8>, j: nat, r: nat, q: nat, bit: bool, address: nat) returns (pos: int)
    requires j < |p| && r < 8 && q < 8
    ensures pos == -1 ==> bit
    ensures pos == 8 ==> !bit
    ensures if pos == -1 || pos == 8 then NoneIn(p, bit, 8 * j + r, 8 * j + 8 - q)
            else r <= pos < 8 - q && FirstFrom(p, bit, 8 * j + r, 8 * j + pos)
  {
    var t := MaskByte(p[j], r, q, bit);
    pos := RedisBitpos([t], address, bit);
    if pos == -1 || pos == 8 {
      EdgedNone(p, j, r, q, bit, t, 8);
    } else {
      EdgedMiss(p, j, r, q, bit, t, pos);
      EdgedNone(p, j, r, q, bit, t, pos);
    }
  }

  lemma NoLowMask(t: bv8, q: nat)
    requires q < 8
    ensures LowMask(q) == 0 ==> t & !LowMask(q) == t && t | LowMask(q) == t
  {
  }

  /** `redisBitpos` on whole bytes of the string. */
  method SearchBytes(p: seq<bv8>, a: nat, z: nat, bit: bool, address: nat) returns (pos: int)
    requires a < z <= |p|
    ensures pos == -1 ==> bit
    ensures pos == 8 * (z - a) ==> !bit
    ensures if pos == -1 || pos == 8 * (z - a) then NoneIn(p, bit, 8 * a, 8 * z)
            else 0 <= pos < 8 * (z - a) && FirstFrom(p, bit, 8 * a, 8 * a + pos)
  {
    pos := RedisBitpos(p[a..z], address + a, bit);
    if pos == -1 || pos == 8 * (z - a) {
      SliceNone(p, a, z, bit, 8 * (z - a));
    } else {
      SliceBit(p, a, z, pos);
      SliceNone(p, a, z, bit, pos);
    }
  }

  lemma NoneJoin(p: seq<bv8>, bit: bool, a: nat, b: nat, c: nat)
    requires NoneIn(p, bit, a, b) && NoneIn(p, bit, b, c)
    ensures NoneIn(p, bit, a, c)
  {
    forall i | a <= i < c ensures Miss(p, bit, i) {}
  }

  /** The tail of the command: a match past the range of an explicit end is none; add the bytes skipped. */
  method Finish(pos: int, start: nat, bytes: nat, bit: bool, endGiven: bool) returns (res: int)
    ensures res == if pos == -1 || (endGiven && !bit && pos == 8 * bytes) then -1 else pos + 8 * start
  {
    if endGiven && !bit && pos == 8 * bytes { return -1; }
    res := pos;
    if pos != -1 { res := pos + 8 * start; }
  }

  /** The search over a non-empty range: first byte, whole bytes, last byte. */
  method Search(p: seq<bv8>, start0: nat, r: nat, end: nat, q: nat, bit: bool, endGiven: bool, address: nat) returns (res: int)
    requires start0 <= end < |p| && r < 8 && q < 8 && 8 * start0 + r < 8 * end + 8 - q
    requires r != 0 || q != 0 ==> endGiven
    ensures Answer(p, bit, 8 * start0 + r, 8 * end + 8 - q, endGiven, res)
  {
    var start, bytes := start0, end - start0 + 1;
    if HighMask(r) != 0 {
      var pos := SearchByte(p, start, r, if bytes == 1 then q else 0, bit, address);
      if bytes == 1 || (pos != -1 && pos != 8) {
        res := Finish(pos, start, bytes, bit, endGiven);
        return;
      }
      start := start + 1;
    }
    NoMask(r);
    res := SearchRest(p, 8 * start0 + r, start, end, q, bit, endGiven, address);
  }

  /** The search after the first byte: whole bytes, then the last one. */
  method SearchRest(p: seq<bv8>, ghost lo: nat, start0: nat, end: nat, q: nat, bit: bool, endGiven: bool, address: nat) returns (res: int)
    requires start0 <= end < |p| && q < 8 && lo < 8 * end + 8 - q && lo <= 8 * start0 && NoneIn(p, bit, lo, 8 * start0)
    requires lo != 8 * start0 || q != 0 ==> endGiven
    ensures Answer(p, bit, lo, 8 * end + 8 - q, endGiven, res)
  {
    var start, bytes := start0, end - start0 + 1;
    ghost var hi := 8 * end + 8 - q;
    var pos;
    NoMask(q);
    var curbytes := bytes - (if LowMask(q) != 0 then 1 else 0);
    if curbytes > 0 {
      pos := SearchBytes(p, start, start + curbytes, bit, address);
      if pos == -1 || pos == 8 * curbytes {
        NoneJoin(p, bit, lo, 8 * start, 8 * (start + curbytes));
      } else {
        NoneJoin(p, bit, lo, 8 * start, 8 * start + pos);
      }
      if bytes == curbytes || (pos != -1 && pos != 8 * curbytes) {
        res := Finish(pos, start, bytes, bit, endGiven);
        return;
      }
      start := start + curbytes;
      bytes := bytes - curbytes;
    }
    pos := SearchByte(p, end, 0, q, bit, address);
    if pos == -1 || pos == 8 {
      NoneJoin(p, bit, lo, 8 * start, hi);
    } else {
      NoneJoin(p, bit, lo, 8 * start, 8 * end + pos);
    }
    res := Finish(pos, start, bytes, bit, endGiven);
  }

  /** `bitposCommand` after its arguments are parsed; without an explicit end the unit is the byte. */
  method BitposCommand(o: Option<seq<bv8>>, bit: bool, start0: int, end0: Option<int>, isbit: bool, address: nat) returns (res: int)
    requires isbit ==> end0.Some?
    ensures Bitpos(o, bit, start0, end0, isbit, res)
  {
    if o.None? { return if bit then -1 else 0; }
    var p := o.value;
    var totlen := if isbit then 8 * |p| else |p|;
    var start, end := Normalise(start0, if end0.Some? then end0.value else totlen - 1, totlen);
    if start > end { return -1; }
    if isbit {
      res := Search(p, start / 8, start % 8, end / 8, 7 - end % 8, bit, end0.Some?, address);
    } else {
      res := Search(p, start, 0, end, 0, bit, end0.Some?, address);
    }
  }
}
