/** Strings of bytes as bitmaps: bit 0 is the top bit of the first byte. */
module Bitmap {

  /** The mask of the bit with weight 2^k in a byte. */
  function Mask(k: nat): bv8
    requires k < 8
  {
    match k
    case 0 => 1
    case 1 => 2
    case 2 => 4
    case 3 => 8
    case 4 => 16
    case 5 => 32
    case 6 => 64
    case _ => 128
  }

  predicate BitOf(b: bv8, k: nat)
    requires k < 8
  {
    b & Mask(k) != 0
  }

  /** `byteval &= ~(1 << bit); byteval |= bitval << bit`. */
  function WithBit(b: bv8, k: nat, v: bool): bv8
    requires k < 8
  {
    (b & !Mask(k)) | (if v then Mask(k) else 0)
  }

  lemma WithBitOf(b: bv8, k: nat, v: bool, j: nat)
    requires k < 8 && j < 8
    ensures BitOf(WithBit(b, k, v), j) == if j == k then v else BitOf(b, j)
  {
    var m, n := Mask(k), Mask(j);
    if j == k {
      MaskHere(b, m);
      assert m != 0;
    } else {
      assert m & n == 0;
      assert ((b & !m) | m) & n == b & n by { MaskApart(b, m, n); }
      assert ((b & !m) | 0) & n == b & n by { MaskApart(b, m, n); }
    }
  }

  lemma MaskHere(b: bv8, m: bv8)
    ensures ((b & !m) | m) & m == m && ((b & !m) | 0) & m == 0
  {
  }

  lemma MaskApart(b: bv8, m: bv8, n: bv8)
    requires m & n == 0
    ensures ((b & !m) | m) & n == b & n && ((b & !m) | 0) & n == b & n
  {
  }

  /** Bit `i` of a string, bit 0 being the top of the first byte; past the end it is clear. */
  predicate Bit(s: seq<bv8>, i: nat) {
    i / 8 < |s| && BitOf(s[i / 8], 7 - i % 8)
  }

  lemma BitUpdate(s: seq<bv8>, k: nat, v: bool, i: nat)
    requires k / 8 < |s|
    ensures Bit(s[k / 8 := WithBit(s[k / 8], 7 - k % 8, v)], i) == if i == k then v else Bit(s, i)
  {
    if i / 8 == k / 8 {
      WithBitOf(s[k / 8], 7 - k % 8, v, 7 - i % 8);
    }
  }

  lemma ZeroByte(k: nat)
    requires k < 8
    ensures !BitOf(0, k)
  {
  }
}
