/** Ranges of bits and BITCOUNT (redis-stable/src/bitops.c:1457-1551). */
module BitRange {
  import opened Basics
  import opened Bitmap
  import opened BitCount

  // ---------------------------------------------------------------- counting in a range, one bit at a time

  function OneAt(s: seq<bv8>, i: nat): nat {
    if Bit(s, i) then 1 else 0
  }

  /** The set bits at positions `lo` up to, not including, `hi`. */
  function CountRange(s: seq<bv8>, lo: nat, hi: nat): nat {
    if hi <= lo then 0 else CountRange(s, lo, hi - 1) + OneAt(s, hi - 1)
  }

  lemma {:induction false} CountSplit(s: seq<bv8>, lo: nat, mid: nat, hi: nat)
    requires lo <= mid <= hi
    ensures CountRange(s, lo, hi) == CountRange(s, lo, mid) + CountRange(s, mid, hi)
    decreases hi
  {
    if mid < hi { CountSplit(s, lo, mid, hi - 1); }
  }

  /** Within a byte: from the `a`-th to the `b`-th bit from the top. */
  function CountIn(b: bv8, lo: nat, hi: nat): nat
    requires hi <= 8
  {
    if hi <= lo then 0 else CountIn(b, lo, hi - 1) + One(b, 8 - hi)
  }

  lemma {:induction false} CountByte(s: seq<bv8>, i: nat, lo: nat, hi: nat)
    requires i < |s| && lo <= hi <= 8
    ensures CountRange(s, 8 * i + lo, 8 * i + hi) == CountIn(s[i], lo, hi)
    decreases hi
  {
    if lo < hi {
      CountByte(s, i, lo, hi - 1);
      assert (8 * i + hi - 1) / 8 == i && (8 * i + hi - 1) % 8 == hi - 1;
    }
  }

  lemma WholeByte(b: bv8)
    ensures CountIn(b, 0, 8) == Ones(b)
  {
    assert CountIn(b, 0, 1) == One(b, 7);
    assert CountIn(b, 0, 2) == CountIn(b, 0, 1) + One(b, 6);
    assert CountIn(b, 0, 3) == CountIn(b, 0, 2) + One(b, 5);
    assert CountIn(b, 0, 4) == CountIn(b, 0, 3) + One(b, 4);
    assert CountIn(b, 0, 5) == CountIn(b, 0, 4) + One(b, 3);
    assert CountIn(b, 0, 6) == CountIn(b, 0, 5) + One(b, 2);
    assert CountIn(b, 0, 7) == CountIn(b, 0, 6) + One(b, 1);
  }

  /** Counting whole bytes is counting their bits. */
  lemma {:induction false} BytesRange(s: seq<bv8>, lo: nat, hi: nat, a: nat, b: nat)
    requires lo <= hi <= |s| && a == 8 * lo && b == 8 * hi
    ensures OnesOf(s[lo..hi]) == CountRange(s, a, b)
    decreases hi
  {
    if lo < hi {
      BytesRange(s, lo, hi - 1, a, b - 8);
      assert s[lo..hi][..hi - lo - 1] == s[lo..hi - 1];
      OneMoreByte(s, a, hi - 1, b - 8);
    }
  }

  lemma OneMoreByte(s: seq<bv8>, a: nat, i: nat, b: nat)
    requires i < |s| && a <= b == 8 * i
    ensures CountRange(s, a, b + 8) == CountRange(s, a, b) + Ones(s[i])
  {
    CountByte(s, i, 0, 8);
    WholeByte(s[i]);
    CountSplit(s, a, b, b + 8);
  }

  // ---------------------------------------------------------------- masks for the edges

  /** `~((1 << (8 - r)) - 1) & 0xFF`: the top `r` bits. */
  function HighMask(r: nat): bv8
    requires r < 8
  {
    match r
    case 0 => 0x00
    case 1 => 0x80
    case 2 => 0xC0
    case 3 => 0xE0
    case 4 => 0xF0
    case 5 => 0xF8
    case 6 => 0xFC
    case _ => 0xFE
  }

  /** `(1 << r) - 1`: the low `r` bits. */
  function LowMask(r: nat): bv8
    requires r < 8
  {
    match r
    case 0 => 0x00
    case 1 => 0x01
    case 2 => 0x03
    case 3 => 0x07
    case 4 => 0x0F
    case 5 => 0x1F
    case 6 => 0x3F
    case _ => 0x7F
  }

  lemma HighAnd(b: bv8, r: nat, k: nat)
    requires r < 8 && k < 8
    ensures BitOf(b & HighMask(r), k) == (BitOf(b, k) && k >= 8 - r)
  {
  }

  lemma HighClear(b: bv8, r: nat, k: nat)
    requires r < 8 && k < 8
    ensures BitOf(b & !HighMask(r), k) == (BitOf(b, k) && k < 8 - r)
  {
  }

  lemma HighSet(b: bv8, r: nat, k: nat)
    requires r < 8 && k < 8
    ensures BitOf(b | HighMask(r), k) == (BitOf(b, k) || k >= 8 - r)
  {
  }

  lemma LowAnd(b: bv8, r: nat, k: nat)
    requires r < 8 && k < 8
    ensures BitOf(b & LowMask(r), k) == (BitOf(b, k) && k < r)
  {
  }

  lemma LowClear(b: bv8, r: nat, k: nat)
    requires r < 8 && k < 8
    ensures BitOf(b & !LowMask(r), k) == (BitOf(b, k) && k >= r)
  {
  }

  lemma LowSet(b: bv8, r: nat, k: nat)
    requires r < 8 && k < 8
    ensures BitOf(b | LowMask(r), k) == (BitOf(b, k) || k < r)
  {
  }

  /** The bits of a byte under the first mask are those before the range starts. */
  lemma {:induction false} HighOnes(b: bv8, r: nat, m: bv8, n: nat)
    requires r < 8 && n <= 8 && m == b & HighMask(r)
    ensures CountIn(m, 0, n) == CountIn(b, 0, if n <= r then n else r)
  {
    if n > 0 {
      HighOnes(b, r, m, n - 1);
      HighAnd(b, r, 8 - n);
    }
  }

  /** The bits of a byte under the last mask are those after the range ends. */
  lemma {:induction false} LowOnes(b: bv8, r: nat, m: bv8, n: nat)
    requires r < 8 && n <= 8 && m == b & LowMask(r)
    ensures CountIn(m, 0, n) == CountIn(b, 8 - r, n)
  {
    if n > 0 {
      LowOnes(b, r, m, n - 1);
      LowAnd(b, r, 8 - n);
    }
  }

  // ---------------------------------------------------------------- BITCOUNT

  /** Negative indices count from the end; the start stops at the beginning. */
  function Lo(start: int, total: nat): nat {
    if start >= 0 then start else if total + start < 0 then 0 else total + start
  }

  /** The end also stops at the last unit; it is -1 for an empty string. */
  function Hi(end: int, total: nat): int {
    var e := Lo(end, total);
    if e >= total then total - 1 else e
  }

  /** What BITCOUNT means: the set bits of the range, in bytes or in bits. */
  function Bitcount(o: Option<seq<bv8>>, range: Option<(int, int)>, isbit: bool): nat {
    match o
    case None => 0
    case Some(p) =>
      match range
      case None => CountRange(p, 0, 8 * |p|)
      case Some((start, end)) =>
        var total := if isbit then 8 * |p| else |p|;
        if start < 0 && end < 0 && start > end then 0
        else if Lo(start, total) > Hi(end, total) then 0
        else if isbit then CountRange(p, Lo(start, total), Hi(end, total) + 1)
        else CountRange(p, 8 * Lo(start, total), 8 * (Hi(end, total) + 1))
  }

  /** What is subtracted for the first byte: its top `r` bits. */
  lemma FirstEdge(p: seq<bv8>, i: nat, r: nat, b: bv8)
    requires i < |p| && r < 8 && b == p[i] & HighMask(r)
    ensures Ones(b) == CountRange(p, 8 * i, 8 * i + r)
  {
    HighOnes(p[i], r, b, 8);
    WholeByte(b);
    CountByte(p, i, 0, r);
  }

  /** What is subtracted for the last byte: its low `r` bits. */
  lemma LastEdge(p: seq<bv8>, i: nat, r: nat, b: bv8)
    requires i < |p| && r < 8 && b == p[i] & LowMask(r)
    ensures Ones(b) == CountRange(p, 8 * i + 8 - r, 8 * i + 8)
  {
    LowOnes(p[i], r, b, 8);
    WholeByte(b);
    CountByte(p, i, 8 - r, 8);
  }

  lemma OnesOfTwo(a: bv8, b: bv8)
    ensures OnesOf([a, b]) == Ones(a) + Ones(b)
  {
    var s := [a, b];
    OnesNext(s, 0);
    OnesNext(s, 1);
    assert s[..0] == [] && s[..2] == s;
  }

  /** The bits of the bytes, less those at the edges, are the bits of the range. */
  lemma EdgesOff(p: seq<bv8>, i: nat, j: nat, a: nat, b: nat, c: nat, d: nat)
    requires i <= j < |p| && a == 8 * i && d == 8 * j + 8 && a <= b <= c <= d
    ensures OnesOf(p[i..j + 1]) == CountRange(p, a, b) + CountRange(p, b, c) + CountRange(p, c, d)
  {
    BytesRange(p, i, j + 1, a, d);
    ThreeParts(p, a, b, c, d);
  }

  lemma ThreeParts(p: seq<bv8>, a: nat, b: nat, c: nat, d: nat)
    requires a <= b <= c <= d
    ensures CountRange(p, a, d) == CountRange(p, a, b) + CountRange(p, b, c) + CountRange(p, c, d)
  {
    CountSplit(p, a, b, d);
    CountSplit(p, b, c, d);
  }

  lemma NoMask(r: nat)
    requires r < 8
    ensures HighMask(r) == 0 <==> r == 0
    ensures LowMask(r) == 0 <==> r == 0
  {
  }

  /** The bits counted with the whole bytes that lie outside the range. */
  method CountOutside(p: seq<bv8>, i: nat, r: nat, j: nat, q: nat, address: nat, usePopcnt: bool) returns (outside: nat)
    requires i < |p| && j < |p| && r < 8 && q < 8
    ensures outside == CountRange(p, 8 * i, 8 * i + r) + CountRange(p, 8 * j + 8 - q, 8 * j + 8)
  {
    var firstMask, lastMask := HighMask(r), LowMask(q);
    NoMask(r);
    NoMask(q);
    outside := 0;
    if firstMask != 0 || lastMask != 0 {
      var b0: bv8, b1: bv8 := 0, 0;
      if firstMask != 0 { b0 := p[i] & firstMask; }
      if lastMask != 0 { b1 := p[j] & lastMask; }
      AndZero(p[i]);
      AndZero(p[j]);
      FirstEdge(p, i, r, b0);
      LastEdge(p, j, q, b1);
      OnesOfTwo(b0, b1);
      outside := Popcount([b0, b1], address, usePopcnt);
    }
  }

  lemma AndZero(b: bv8)
    ensures b & 0 == 0
  {
  }

  /** Converting negative indices, shared by both commands. */
  method Normalise(start0: int, end0: int, totlen: nat) returns (start: nat, end: int)
    ensures start == Lo(start0, totlen) && end == Hi(end0, totlen)
  {
    var s, e := start0, end0;
    if s < 0 { s := totlen + s; }
    if e < 0 { e := totlen + e; }
    if s < 0 { s := 0; }
    if e < 0 { e := 0; }
    if e >= totlen { e := totlen - 1; }
    start, end := s, e;
  }

  /** All the bits of the bytes, less those outside the range. */
  method CountInside(p: seq<bv8>, i: nat, r: nat, j: nat, q: nat, address: nat, usePopcnt: bool) returns (count: int)
    requires i <= j < |p| && r < 8 && q < 8 && 8 * i + r <= 8 * j + 8 - q
    ensures count == CountRange(p, 8 * i + r, 8 * j + 8 - q)
  {
    count := Popcount(p[i..j + 1], address + i, usePopcnt);
    EdgesOff(p, i, j, 8 * i, 8 * i + r, 8 * j + 8 - q, 8 * j + 8);
    var outside := CountOutside(p, i, r, j, q, address, usePopcnt);
    count := count - outside;
  }

  /** `bitcountCommand` after its arguments are parsed, for any address and processor. */
  method BitcountCommand(o: Option<seq<bv8>>, range: Option<(int, int)>, isbit: bool, address: nat, usePopcnt: bool)
    returns (count: int)
    requires range.None? ==> !isbit
    ensures count == Bitcount(o, range, isbit)
  {
    if o.None? { return 0; }
    var p := o.value;
    var start, end := 0, |p| - 1;
    if range.Some? {
      if range.value.0 < 0 && range.value.1 < 0 && range.value.0 > range.value.1 { return 0; }
      start, end := Normalise(range.value.0, range.value.1, if isbit then 8 * |p| else |p|);
    }
    if start > end { return 0; }
    if isbit {
      count := CountInside(p, start / 8, start % 8, end / 8, 7 - end % 8, address, usePopcnt);
    } else {
      count := CountInside(p, start, 0, end, 0, address, usePopcnt);
    }
  }
}
