/** `redisBitpos` (redis-stable/src/bitops.c:390-475): bytes, words, then one word bit by bit. */
module BitPos {
  import opened Bitmap

  // ---------------------------------------------------------------- words

  /** The mask of bit `r` of the `k`-th byte of a word, the first byte being the most significant. */
  function WMask(k: nat, r: nat): bv64
    requires k < 8 && r < 8
  {
    var m := Mask(r) as bv64;
    match k
    case 0 => m << 56
    case 1 => m << 48
    case 2 => m << 40
    case 3 => m << 32
    case 4 => m << 24
    case 5 => m << 16
    case 6 => m << 8
    case _ => m
  }

  predicate WBit(w: bv64, k: nat, r: nat) {
    k < 8 && r < 8 && WMask(k, r) & w != 0
  }

  lemma ShiftInLast(w: bv64, b: bv8, w': bv64, r: nat)
    requires r < 8 && w' == (w << 8) | (b as bv64)
    ensures WBit(w', 7, r) == BitOf(b, r)
  {
  }

  lemma ShiftIn(w: bv64, b: bv8, w': bv64, k: nat, r: nat)
    requires k < 7 && r < 8 && w' == (w << 8) | (b as bv64)
    ensures WBit(w', k, r) == WBit(w, k + 1, r)
  {
  }

  lemma NextInByte(k: nat, r: nat)
    requires k < 8 && 0 < r < 8
    ensures WMask(k, r) >> 1 == WMask(k, r - 1)
  {
  }

  lemma NextByte(k: nat)
    requires k < 7
    ensures WMask(k, 0) >> 1 == WMask(k + 1, 7)
  {
  }

  lemma MaskNotZero(k: nat, r: nat)
    requires k < 8 && r < 8
    ensures WMask(k, r) != 0
  {
  }

  lemma SomeBit(b: bv8)
    ensures b == 0 || BitOf(b, 0) || BitOf(b, 1) || BitOf(b, 2) || BitOf(b, 3) || BitOf(b, 4) || BitOf(b, 5) || BitOf(b, 6) || BitOf(b, 7)
  {
  }

  lemma SomeClearBit(b: bv8)
    requires b != 0xFF
    ensures !BitOf(b, 0) || !BitOf(b, 1) || !BitOf(b, 2) || !BitOf(b, 3) || !BitOf(b, 4) || !BitOf(b, 5) || !BitOf(b, 6) || !BitOf(b, 7)
  {
  }

  // ---------------------------------------------------------------- first matches

  predicate Miss(s: seq<bv8>, bit: bool, i: nat) {
    Bit(s, i) != bit
  }

  ghost predicate NoneIn(s: seq<bv8>, bit: bool, lo: nat, hi: nat) {
    forall i | lo <= i < hi :: Miss(s, bit, i)
  }

  /** `r` is the least position from `lo` on whose bit is `bit`; past the end all bits are clear. */
  ghost predicate FirstFrom(s: seq<bv8>, bit: bool, lo: nat, r: nat) {
    lo <= r && Bit(s, r) == bit && NoneIn(s, bit, lo, r)
  }

  // ---------------------------------------------------------------- the last word

  /** Byte `j` after position `c`, or zero past the end. */
  function ByteFrom(s: seq<bv8>, c: nat, j: nat): bv8 {
    if c + j < |s| then s[c + j] else 0
  }

  predicate ShiftsAt(test: (bv64, nat, nat) -> bool, w: bv64, b: bv8, w': bv64, k: nat, r: nat) {
    w' == (w << 8) | (b as bv64) && k < 8 && r < 8 ==> test(w', k, r) == if k == 7 then BitOf(b, r) else test(w, k + 1, r)
  }

  /** A way to read the bits of a word that follows shifting a byte in; no more is needed below. */
  ghost predicate Shifts(test: (bv64, nat, nat) -> bool) {
    forall w: bv64, b: bv8, w': bv64, k: nat, r: nat :: ShiftsAt(test, w, b, w', k, r)
  }

  lemma WBitShifts() returns (test: (bv64, nat, nat) -> bool)
    ensures Shifts(test) && test == WBit
  {
    test := WBit;
    forall w: bv64, b: bv8, w': bv64, k: nat, r: nat ensures ShiftsAt(WBit, w, b, w', k, r) {
      if w' == (w << 8) | (b as bv64) && k < 8 && r < 8 {
        if k == 7 { ShiftInLast(w, b, w', r); } else { ShiftIn(w, b, w', k, r); }
      }
    }
  }

  predicate LoadedAt(test: (bv64, nat, nat) -> bool, w: bv64, s: seq<bv8>, c: nat, n: nat, k: nat, r: nat)
    requires k < n <= 8 && r < 8
  {
    test(w, 8 - n + k, r) == BitOf(ByteFrom(s, c, k), r)
  }

  /** The last `n` bytes of the word are the next `n` bytes of the string. */
  ghost predicate Loaded(test: (bv64, nat, nat) -> bool, w: bv64, s: seq<bv8>, c: nat, n: nat) {
    n <= 8 && forall k, r | 0 <= k < n && 0 <= r < 8 :: LoadedAt(test, w, s, c, n, k, r)
  }

  lemma LoadNext(test: (bv64, nat, nat) -> bool, w: bv64, s: seq<bv8>, c: nat, n: nat, b: bv8, w': bv64)
    requires Shifts(test) && n < 8 && Loaded(test, w, s, c, n) && b == ByteFrom(s, c, n) && w' == (w << 8) | (b as bv64)
    ensures Loaded(test, w', s, c, n + 1)
  {
    var m := n + 1;
    forall k, r | 0 <= k < m && 0 <= r < 8 ensures LoadedAt(test, w', s, c, m, k, r) {
      assert ShiftsAt(test, w, b, w', 7 - n + k, r);
      if k < n { assert LoadedAt(test, w, s, c, n, k, r); }
    }
  }

  /** One turn of the loading loop. */
  method ShiftByte(word: bv64, s: seq<bv8>, c: nat, j: nat) returns (w: bv64)
    ensures w == (word << 8) | (ByteFrom(s, c, j) as bv64)
    ensures w != 0 ==> word != 0 || ByteFrom(s, c, j) != 0
  {
    w := word << 8;
    if c + j < |s| { w := w | (s[c + j] as bv64); }
  }

  /** Loads up to eight bytes, the first one most significant, padded with zeros on the right. */
  method LoadWord(s: seq<bv8>, c: nat) returns (word: bv64)
    requires c <= |s|
    ensures Loaded(WBit, word, s, c, 8)
    ensures word != 0 ==> exists k | 0 <= k < 8 :: ByteFrom(s, c, k) != 0
  {
    word := 0;
    var j := 0;
    ghost var test := WBitShifts();
    while j < 8
      invariant 0 <= j <= 8 && Loaded(test, word, s, c, j)
      invariant word != 0 ==> exists k | 0 <= k < j :: ByteFrom(s, c, k) != 0
    {
      var next := ShiftByte(word, s, c, j);
      LoadNext(test, word, s, c, j, ByteFrom(s, c, j), next);
      word := next;
      j := j + 1;
    }
  }

  /** The bit at position `j` of the word is the bit of the string `j` places on. */
  lemma WordBit(w: bv64, s: seq<bv8>, c: nat, j: nat)
    requires j < 64 && Loaded(WBit, w, s, c, 8)
    ensures WBit(w, j / 8, 7 - j % 8) == Bit(s, 8 * c + j)
  {
    assert LoadedAt(WBit, w, s, c, 8, j / 8, 7 - j % 8);
    assert (8 * c + j) / 8 == c + j / 8 && (8 * c + j) % 8 == j % 8;
    ZeroByte(7 - j % 8);
  }

  /** The byte that is not all ones, or not all zeros, holds a match. */
  lemma Witness(s: seq<bv8>, c: nat, k: nat, bit: bool) returns (j: nat)
    requires k < 8 && ByteFrom(s, c, k) != (if bit then 0 else 0xFF)
    ensures 8 * k <= j < 8 * k + 8 && Bit(s, 8 * c + j) == bit
  {
    var b := ByteFrom(s, c, k);
    var r := MatchIn(b, bit);
    j := 8 * k + 7 - r;
    assert (8 * c + j) / 8 == c + k && (8 * c + j) % 8 == 7 - r;
    ZeroByte(r);
  }

  lemma MatchIn(b: bv8, bit: bool) returns (r: nat)
    requires b != (if bit then 0 else 0xFF)
    ensures r < 8 && BitOf(b, r) == bit
  {
    if bit { SomeBit(b); } else { SomeClearBit(b); }
    if BitOf(b, 0) == bit { r := 0; }
    else if BitOf(b, 1) == bit { r := 1; }
    else if BitOf(b, 2) == bit { r := 2; }
    else if BitOf(b, 3) == bit { r := 3; }
    else if BitOf(b, 4) == bit { r := 4; }
    else if BitOf(b, 5) == bit { r := 5; }
    else if BitOf(b, 6) == bit { r := 6; }
    else { r := 7; }
  }

  predicate MaskAt(ms: seq<bv64>, j: nat)
    requires j < |ms| == 64
  {
    ms[j] == WMask(j / 8, 7 - j % 8)
  }

  /** The values `one` takes, from the top bit down. */
  ghost predicate AllMasks(ms: seq<bv64>) {
    |ms| == 64 && forall j | 0 <= j < 64 :: MaskAt(ms, j)
  }

  lemma Masks() returns (ms: seq<bv64>)
    ensures AllMasks(ms) && ms[0] == 0x8000_0000_0000_0000
  {
    ms := seq(64, j requires 0 <= j < 64 => WMask(j / 8, 7 - j % 8));
    assert MaskAt(ms, 0);
  }

  lemma TestAt(ms: seq<bv64>, j: nat, word: bv64, s: seq<bv8>, c: nat)
    requires AllMasks(ms) && j < 64 && Loaded(WBit, word, s, c, 8)
    ensures (ms[j] & word != 0) == Bit(s, 8 * c + j)
  {
    assert MaskAt(ms, j);
    WordBit(word, s, c, j);
  }

  lemma NonZeroAt(ms: seq<bv64>, j: nat)
    requires AllMasks(ms) && j < 64
    ensures ms[j] != 0
  {
    assert MaskAt(ms, j);
    MaskNotZero(j / 8, 7 - j % 8);
  }

  lemma NextAt(ms: seq<bv64>, j: nat)
    requires AllMasks(ms) && j < 63
    ensures ms[j] >> 1 == ms[j + 1]
  {
    var k, i := j / 8, j % 8;
    assert MaskAt(ms, j) && MaskAt(ms, j + 1);
    if i < 7 {
      NextInByte(k, 7 - i);
      assert (j + 1) / 8 == k && (j + 1) % 8 == i + 1;
    } else {
      NextByte(k);
      assert (j + 1) / 8 == k + 1 && (j + 1) % 8 == 0;
    }
  }

  /** Scans the word from its top bit; a match exists, so the panic after the loop is not reached. */
  method ScanWord(word: bv64, s: seq<bv8>, c: nat, bit: bool, ghost w: nat) returns (pos: nat)
    requires Loaded(WBit, word, s, c, 8) && w < 64 && Bit(s, 8 * c + w) == bit
    ensures FirstFrom(s, bit, 8 * c, pos) && pos <= 8 * c + w
  {
    pos := 8 * c;
    ghost var ms := Masks();
    var one: bv64 := 0x8000_0000_0000_0000;
    ghost var j := 0;
    while one != 0
      invariant 0 <= j <= w && pos == 8 * c + j && one == ms[j] && one != 0 && NoneIn(s, bit, 8 * c, pos)
      decreases w - j
    {
      TestAt(ms, j, word, s, c);
      if (one & word != 0) == bit { return; }
      assert Miss(s, bit, 8 * c + j);
      NextAt(ms, j);
      pos := pos + 1;
      one := one >> 1;
      j := j + 1;
      NonZeroAt(ms, j);
    }
    assert false;
  }

  // ---------------------------------------------------------------- the whole search

  predicate AllSkip(s: seq<bv8>, c: nat, n: nat, skip: bv8) {
    c + n <= |s| && forall k | 0 <= k < n :: ByteFrom(s, c, k) == skip
  }

  lemma SkipByte(s: seq<bv8>, bit: bool, c: nat)
    requires c < |s| && s[c] == (if bit then 0 else 0xFF) && NoneIn(s, bit, 0, 8 * c)
    ensures NoneIn(s, bit, 0, 8 * (c + 1))
  {
    forall i | 0 <= i < 8 * (c + 1) ensures Miss(s, bit, i) {
      if i >= 8 * c {
        assert i / 8 == c;
        ZeroByte(7 - i % 8);
        OnesByte(7 - i % 8);
      }
    }
  }

  lemma OnesByte(k: nat)
    requires k < 8
    ensures BitOf(0xFF, k)
  {
  }

  lemma {:induction false} SkipBytes(s: seq<bv8>, bit: bool, c: nat, n: nat)
    requires AllSkip(s, c, n, if bit then 0 else 0xFF) && NoneIn(s, bit, 0, 8 * c)
    ensures NoneIn(s, bit, 0, 8 * (c + n))
  {
    if n > 0 {
      SkipBytes(s, bit, c, n - 1);
      assert ByteFrom(s, c, n - 1) == if bit then 0 else 0xFF;
      SkipByte(s, bit, c + n - 1);
    }
  }

  /**
   * `redisBitpos` for any address: the first matching bit; for clear bits the string goes on with zeros, for set
   * bits -1 says there is none.
   */
  method RedisBitpos(s: seq<bv8>, address: nat, bit: bool) returns (pos: int)
    ensures if pos == -1 then bit && NoneIn(s, bit, 0, 8 * |s|)
            else 0 <= pos <= 8 * |s| && (bit ==> pos < 8 * |s|) && FirstFrom(s, bit, 0, pos)
  {
    var skip: bv8 := if bit then 0 else 0xFF;
    var c, found := 0, false;
    while (address + c) % 8 != 0 && c < |s|
      invariant 0 <= c <= |s| && !found && NoneIn(s, bit, 0, 8 * c)
      decreases |s| - c
    {
      if s[c] != skip {
        found := true;
        break;
      }
      SkipByte(s, bit, c);
      c := c + 1;
    }
    if !found {
      while |s| - c >= 8
        invariant 0 <= c <= |s| && NoneIn(s, bit, 0, 8 * c)
      {
        if !AllSkip(s, c, 8, skip) { break; }
        SkipBytes(s, bit, c, 8);
        c := c + 8;
      }
    }
    var word := LoadWord(s, c);
    if bit && word == 0 {
      ZeroWord(s, c, skip, found);
      NothingLeft(s, c);
      return -1;
    }
    ghost var w := MatchNear(word, s, c, bit, found);
    pos := ScanWord(word, s, c, bit, w);
    Join(s, bit, c, pos);
  }

  /** A word of zeros means the string ends within it. */
  lemma ZeroWord(s: seq<bv8>, c: nat, skip: bv8, found: bool)
    requires c <= |s| && Loaded(WBit, 0, s, c, 8) && skip == 0
    requires if found then ByteFrom(s, c, 0) != skip else |s| - c < 8 || !AllSkip(s, c, 8, skip)
    ensures |s| - c < 8
  {
    forall k | 0 <= k < 8 ensures ByteFrom(s, c, k) == 0 { ZeroLoaded(s, c, k); }
  }

  lemma ZeroLoaded(s: seq<bv8>, c: nat, k: nat)
    requires k < 8 && Loaded(WBit, 0, s, c, 8)
    ensures ByteFrom(s, c, k) == 0
  {
    var b := ByteFrom(s, c, k);
    forall r | 0 <= r < 8 ensures !BitOf(b, r) {
      assert LoadedAt(WBit, 0, s, c, 8, k, r);
      NoBits(k, r);
    }
    SomeBit(b);
  }

  lemma NoBits(k: nat, r: nat)
    requires k < 8 && r < 8
    ensures !WBit(0, k, r)
  {
  }

  lemma NothingLeft(s: seq<bv8>, c: nat)
    requires c <= |s| && |s| - c < 8 && Loaded(WBit, 0, s, c, 8) && NoneIn(s, true, 0, 8 * c)
    ensures NoneIn(s, true, 0, 8 * |s|)
  {
    forall i | 0 <= i < 8 * |s| ensures Miss(s, true, i) {
      if i >= 8 * c {
        var j := i - 8 * c;
        WordBit(0, s, c, j);
        NoBits(j / 8, 7 - j % 8);
        assert 8 * c + j == i;
      }
    }
  }

  /** There is a match within the word, and not past the first bit after the string. */
  lemma MatchNear(word: bv64, s: seq<bv8>, c: nat, bit: bool, found: bool) returns (w: nat)
    requires c <= |s| && Loaded(WBit, word, s, c, 8) && (bit ==> word != 0)
    requires word != 0 ==> exists k | 0 <= k < 8 :: ByteFrom(s, c, k) != 0
    requires var skip := if bit then 0 else 0xFF;
             if found then c < |s| && s[c] != skip else |s| - c < 8 || !AllSkip(s, c, 8, skip)
    ensures w < 64 && Bit(s, 8 * c + w) == bit && 8 * c + w <= 8 * |s|
  {
    if bit {
      var k :| 0 <= k < 8 && ByteFrom(s, c, k) != 0;
      w := Witness(s, c, k, bit);
    } else if found {
      w := Witness(s, c, 0, bit);
    } else if |s| - c < 8 {
      w := 8 * (|s| - c);
      assert (8 * |s|) / 8 == |s|;
    } else {
      var k :| 0 <= k < 8 && ByteFrom(s, c, k) != 0xFF;
      w := Witness(s, c, k, bit);
    }
  }

  lemma Join(s: seq<bv8>, bit: bool, c: nat, pos: nat)
    requires NoneIn(s, bit, 0, 8 * c) && FirstFrom(s, bit, 8 * c, pos)
    ensures FirstFrom(s, bit, 0, pos)
  {
    forall i | 0 <= i < pos ensures Miss(s, bit, i) {}
  }
}
