/**
 * BITFIELD (redis-stable/src/bitops.c:498-667, 1842-1941): reading and writing integers of any width at any bit
 * offset, and the overflow checks in 64-bit arithmetic. Masks of low bits are written as the arithmetic they do.
 */
module BitField {
  import opened Bitmap

  // ---------------------------------------------------------------- 64-bit arithmetic

  const TWO64: int := 0x1_0000_0000_0000_0000
  const TWO63: int := 0x8000_0000_0000_0000

  function Pow2(n: nat): (p: int)
    ensures p > 0
  {
    if n == 0 then 1 else 2 * Pow2(n - 1)
  }

  /** Conversion to `uint64_t`. */
  function U64(x: int): int {
    x % TWO64
  }

  /** A `uint64_t` read as `int64_t`. */
  function I64(x: int): int {
    if U64(x) >= TWO63 then U64(x) - TWO64 else U64(x)
  }

  predicate IsI64(x: int) {
    -TWO63 <= x < TWO63
  }

  lemma AtLeast(d: int, m: int)
    requires m > 0
    ensures d >= 1 ==> d * m >= m
    ensures d <= -1 ==> d * m <= -m
  {
    if d >= 1 { assert (d - 1) * m >= 0; }
    if d <= -1 { assert (-1 - d) * m >= 0; }
  }

  lemma DivModOf(x: int, m: int, q: int, r: int)
    requires m > 0 && x == q * m + r && 0 <= r < m
    ensures x / m == q && x % m == r
  {
    var q', r' := x / m, x % m;
    assert x == q' * m + r';
    assert (q' - q) * m == q' * m - q * m;
    AtLeast(q' - q, m);
  }

  lemma {:induction false} Pow2Sum(a: nat, b: nat)
    ensures Pow2(a) * Pow2(b) == Pow2(a + b)
  {
    if a > 0 { Pow2Sum(a - 1, b); }
  }

  lemma Pow64()
    ensures Pow2(63) == TWO63 && Pow2(64) == TWO64
  {
    assert Pow2(8) == 256;
    Pow2Sum(8, 8);
    Pow2Sum(16, 16);
    Pow2Sum(32, 32);
    assert Pow2(64) == 2 * Pow2(63);
  }

  lemma {:induction false} Pow2Monotone(a: nat, b: nat)
    requires a <= b
    ensures Pow2(a) <= Pow2(b) && (a < b ==> 2 * Pow2(a) <= Pow2(b))
    decreases b
  {
    if a < b { Pow2Monotone(a, b - 1); }
  }

  /** Reducing modulo 2^64 first does not matter for narrower fields. */
  lemma ModMod(x: int, bits: nat)
    requires bits <= 64
    ensures U64(x) % Pow2(bits) == x % Pow2(bits)
  {
    var m, k, q := Pow2(bits), Pow2(64 - bits), x / TWO64;
    Pow64();
    Pow2Sum(64 - bits, bits);
    var r := U64(x);
    var q1, r1 := r / m, r % m;
    assert x == q * (k * m) + (q1 * m + r1);
    Distribute(q, k, q1, m);
    DivModOf(x, m, q * k + q1, r1);
  }

  lemma Distribute(q: int, k: int, q1: int, m: int)
    ensures q * (k * m) + q1 * m == (q * k + q1) * m
  {
  }

  // ---------------------------------------------------------------- fields

  /** The unsigned number in `n` bits at `off`, most significant first. */
  function Field(s: seq<bv8>, off: nat, n: nat): nat {
    if n == 0 then 0 else 2 * Field(s, off, n - 1) + (if Bit(s, off + n - 1) then 1 else 0)
  }

  /** Two's complement reading. */
  function Signed(u: int, bits: nat): int
    requires bits > 0
  {
    if u >= Pow2(bits - 1) then u - Pow2(bits) else u
  }

  predicate NumBit(value: int, k: nat) {
    (value / Pow2(k)) % 2 == 1
  }

  lemma {:induction false} FieldBound(s: seq<bv8>, off: nat, n: nat)
    ensures Field(s, off, n) < Pow2(n)
  {
    if n > 0 { FieldBound(s, off, n - 1); }
  }

  predicate SameBit(s: seq<bv8>, off: nat, t: seq<bv8>, off': nat, i: nat) {
    Bit(s, off + i) == Bit(t, off' + i)
  }

  lemma {:induction false} FieldSame(s: seq<bv8>, off: nat, t: seq<bv8>, off': nat, n: nat)
    requires forall i | 0 <= i < n :: SameBit(s, off, t, off', i)
    ensures Field(s, off, n) == Field(t, off', n)
  {
    if n > 0 {
      FieldSame(s, off, t, off', n - 1);
      assert SameBit(s, off, t, off', n - 1);
    }
  }

  /** Bit `i` of the field is the one of weight 2^(bits - 1 - i) in the number. */
  predicate HoldsBit(s: seq<bv8>, off: nat, bits: nat, value: int, i: nat)
    requires i < bits
  {
    Bit(s, off + i) == NumBit(value, bits - 1 - i)
  }

  /** A field whose bits are those of a number holds that number modulo its width. */
  lemma {:induction false} FieldOfBits(s: seq<bv8>, off: nat, bits: nat, value: int, n: nat)
    requires n <= bits && forall i | 0 <= i < bits :: HoldsBit(s, off, bits, value, i)
    ensures Field(s, off, n) == (value / Pow2(bits - n)) % Pow2(n)
  {
    if n > 0 {
      FieldOfBits(s, off, bits, value, n - 1);
      HalfStep(value, bits - n, n - 1);
      assert HoldsBit(s, off, bits, value, n - 1);
    }
  }

  /** One more bit at the bottom. */
  lemma HalfStep(value: int, k: nat, n: nat)
    ensures (value / Pow2(k)) % Pow2(n + 1) == 2 * ((value / Pow2(k + 1)) % Pow2(n)) + (value / Pow2(k)) % 2
  {
    var x, m := value / Pow2(k), Pow2(n);
    Halve(value, Pow2(k));
    assert value / Pow2(k + 1) == x / 2;
    var h := x / 2;
    var q, r := h / m, h % m;
    assert x == 2 * h + x % 2;
    assert h == q * m + r;
    assert x == q * (2 * m) + (2 * r + x % 2);
    DivModOf(x, 2 * m, q, 2 * r + x % 2);
  }

  lemma Halve(value: int, m: int)
    requires m > 0
    ensures value / (2 * m) == (value / m) / 2
  {
    var x := value / m;
    var r := value % m;
    assert value == x * m + r && x == 2 * (x / 2) + x % 2;
    assert value == (2 * (x / 2) + x % 2) * m + r;
    Spread(x / 2, x % 2, m);
    DivModOf(value, 2 * m, x / 2, (x % 2) * m + r);
  }

  lemma Spread(h: int, b: int, m: int)
    requires 0 <= b < 2 && m > 0
    ensures (2 * h + b) * m == h * (2 * m) + b * m && 0 <= b * m <= m
  {
  }

  // ---------------------------------------------------------------- reading and writing

  /** After `n` bits of the field are written: those hold the number's bits, all others are as before. */
  predicate WrittenAt(was: seq<bv8>, s: seq<bv8>, off: nat, bits: nat, value: int, n: nat, i: nat)
    requires n <= bits
  {
    Bit(s, i) == if off <= i < off + n then NumBit(value, bits - 1 - (i - off)) else Bit(was, i)
  }

  /** The field holds the low bits of the number and no other bit has changed. */
  ghost predicate Written(was: seq<bv8>, s: seq<bv8>, off: nat, bits: nat, value: int, n: nat)
    requires n <= bits
  {
    |s| == |was| && forall i: nat :: WrittenAt(was, s, off, bits, value, n, i)
  }

  lemma WriteNext(was: seq<bv8>, s: seq<bv8>, off: nat, bits: nat, value: int, n: nat)
    requires n < bits && Written(was, s, off, bits, value, n) && (off + n) / 8 < |s|
    ensures var k := off + n;
            Written(was, s[k / 8 := WithBit(s[k / 8], 7 - k % 8, NumBit(value, bits - 1 - n))], off, bits, value, n + 1)
  {
    var k := off + n;
    var t := s[k / 8 := WithBit(s[k / 8], 7 - k % 8, NumBit(value, bits - 1 - n))];
    var m := n + 1;
    forall i: nat ensures WrittenAt(was, t, off, bits, value, m, i) {
      assert WrittenAt(was, s, off, bits, value, n, i);
      BitUpdate(s, k, NumBit(value, bits - 1 - n), i);
    }
  }

  /** Writing then reading gives the number modulo the width. */
  lemma ReadBack(was: seq<bv8>, s: seq<bv8>, off: nat, bits: nat, value: int)
    requires Written(was, s, off, bits, value, bits)
    ensures Field(s, off, bits) == value % Pow2(bits)
  {
    forall i | 0 <= i < bits ensures HoldsBit(s, off, bits, value, i) {
      assert WrittenAt(was, s, off, bits, value, bits, off + i);
    }
    FieldOfBits(s, off, bits, value, bits);
    assert Pow2(0) == 1;
  }

  method SetUnsignedBitfield(p: array<bv8>, offset: nat, bits: nat, value: int)
    requires bits <= 64 && offset + bits <= 8 * p.Length
    modifies p
    ensures Written(old(p[..]), p[..], offset, bits, value, bits)
    ensures Field(p[..], offset, bits) == value % Pow2(bits)
  {
    var off, j := offset, 0;
    ghost var was := p[..];
    while j < bits
      invariant 0 <= j <= bits && off == offset + j && Written(was, p[..], offset, bits, value, j)
    {
      var bitval := NumBit(value, bits - 1 - j);
      var byte, bit := off / 8, 7 - off % 8;
      WriteNext(was, p[..], offset, bits, value, j);
      ghost var s := p[..];
      p[byte] := WithBit(p[byte], bit, bitval);
      assert p[..] == s[byte := p[byte]];
      off := off + 1;
      j := j + 1;
    }
    ReadBack(was, p[..], offset, bits, value);
  }

  method GetUnsignedBitfield(p: seq<bv8>, offset: nat, bits: nat) returns (value: int)
    requires bits <= 64 && offset + bits <= 8 * |p|
    ensures value == Field(p, offset, bits) && 0 <= value < Pow2(bits)
  {
    value := 0;
    var off, j := offset, 0;
    while j < bits
      invariant 0 <= j <= bits && off == offset + j && value == Field(p, offset, j)
    {
      var byte, bit := off / 8, 7 - off % 8;
      NoWrap(p, offset, j);
      value := U64(2 * value) + (if BitOf(p[byte], bit) then 1 else 0);
      off := off + 1;
      j := j + 1;
    }
    FieldBound(p, offset, bits);
  }

  /** The shift left never loses a bit. */
  lemma NoWrap(s: seq<bv8>, off: nat, j: nat)
    requires j < 64
    ensures U64(2 * Field(s, off, j)) == 2 * Field(s, off, j)
  {
    FieldBound(s, off, j);
    Pow64();
    Pow2Monotone(j, 63);
  }

  lemma TopBit(u: int, bits: nat)
    requires bits > 0 && 0 <= u < Pow2(bits)
    ensures NumBit(u, bits - 1) <==> u >= Pow2(bits - 1)
  {
    var h := Pow2(bits - 1);
    if u >= h { DivModOf(u, h, 1, u - h); } else { DivModOf(u, h, 0, u); }
  }

  /** `getSignedBitfield`: propagating the top bit is reading two's complement. */
  method GetSignedBitfield(p: seq<bv8>, offset: nat, bits: nat) returns (value: int)
    requires 1 <= bits <= 64 && offset + bits <= 8 * |p|
    ensures value == Signed(Field(p, offset, bits), bits)
    ensures -Pow2(bits - 1) <= value < Pow2(bits - 1)
  {
    var u := GetUnsignedBitfield(p, offset, bits);
    value := I64(u);
    if bits < 64 && NumBit(u, bits - 1) { value := I64(u + (TWO64 - Pow2(bits))); }
    SignExtended(u, bits);
  }

  lemma SignExtended(u: int, bits: nat)
    requires 1 <= bits <= 64 && 0 <= u < Pow2(bits)
    ensures (if bits < 64 && NumBit(u, bits - 1) then I64(u + (TWO64 - Pow2(bits))) else I64(u)) == Signed(u, bits)
    ensures -Pow2(bits - 1) <= Signed(u, bits) < Pow2(bits - 1)
  {
    Pow64();
    TopBit(u, bits);
    assert Pow2(bits) == 2 * Pow2(bits - 1);
    if bits < 64 { Pow2Monotone(bits, 63); }
  }

  /** Any signed number comes back as itself if it fits, and wrapped to the width if it does not. */
  lemma SignedBack(value: int, bits: nat)
    requires 1 <= bits <= 64
    ensures U64(value) % Pow2(bits) == value % Pow2(bits)
    ensures -Pow2(bits - 1) <= value < Pow2(bits - 1) ==> Signed(value % Pow2(bits), bits) == value
  {
    ModMod(value, bits);
    assert Pow2(bits) == 2 * Pow2(bits - 1);
    if 0 <= value < Pow2(bits - 1) { DivModOf(value, Pow2(bits), 0, value); }
    if -Pow2(bits - 1) <= value < 0 { DivModOf(value, Pow2(bits), -1, value + Pow2(bits)); }
  }

  /** The nine bytes that GET copies. */
  function Copied(src: seq<bv8>, byte: nat): seq<bv8> {
    seq(9, i requires 0 <= i < 9 => if byte + i < |src| then src[byte + i] else 0)
  }

  /** The copy reads as the string padded with zeros without end. */
  lemma CopyReads(src: seq<bv8>, offset: nat, bits: nat)
    requires bits <= 64
    ensures Field(Copied(src, offset / 8), offset % 8, bits) == Field(src, offset, bits)
  {
    var buf, byte := Copied(src, offset / 8), offset / 8;
    forall i | 0 <= i < bits ensures SameBit(buf, offset % 8, src, offset, i) {
      var k := offset % 8 + i;
      assert (offset + i) / 8 == byte + k / 8 && (offset + i) % 8 == k % 8;
      assert k / 8 < 9;
      ZeroByte(7 - k % 8);
    }
    FieldSame(buf, offset % 8, src, offset, bits);
  }

  /** GET on a string of any length, or none. */
  method GetBitfield(src: seq<bv8>, offset: nat, bits: nat, sign: bool) returns (value: int)
    requires 1 <= bits <= 64
    ensures value == if sign then Signed(Field(src, offset, bits), bits) else Field(src, offset, bits)
  {
    var byte := offset / 8;
    var buf: seq<bv8> := seq(9, _ => 0);
    var i := 0;
    while i < 9
      invariant 0 <= i <= 9 && |buf| == 9
      invariant forall k | 0 <= k < 9 :: buf[k] == if k < i && byte + k < |src| then src[byte + k] else 0
    {
      if i + byte >= |src| { break; }
      buf := buf[i := src[i + byte]];
      i := i + 1;
    }
    assert buf == Copied(src, byte);
    CopyReads(src, offset, bits);
    if sign {
      value := GetSignedBitfield(buf, offset - byte * 8, bits);
    } else {
      value := GetUnsignedBitfield(buf, offset - byte * 8, bits);
    }
  }
}
