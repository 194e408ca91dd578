/**
 * The overflow rules of BITFIELD (redis-stable/src/bitops.c:576-667, 1842-1904): the 64-bit checks against exact
 * arithmetic, and SET and INCRBY put together from reading, checking and writing.
 */
module BitFieldOverflow {
  import opened Basics
  import opened BitField

  datatype Overflow = Wrap | Sat | Fail

  /** The return code, and what `*limit` is set to, if it is. */
  datatype Check = Check(code: int, limit: Option<int>)

  // ---------------------------------------------------------------- exact meaning

  function Low(sign: bool, bits: nat): int
    requires bits > 0
  {
    if sign then -Pow2(bits - 1) else 0
  }

  function High(sign: bool, bits: nat): int
    requires bits > 0
  {
    if sign then Pow2(bits - 1) - 1 else Pow2(bits) - 1
  }

  predicate Fits(sign: bool, bits: nat, x: int)
    requires bits > 0
  {
    Low(sign, bits) <= x <= High(sign, bits)
  }

  /** The number modulo 2^bits, in the range of the type. */
  function Reduced(sign: bool, bits: nat, x: int): int
    requires bits > 0
  {
    if sign then Signed(x % Pow2(bits), bits) else x % Pow2(bits)
  }

  function Clamped(sign: bool, bits: nat, x: int): int
    requires bits > 0
  {
    if x < Low(sign, bits) then Low(sign, bits) else if x > High(sign, bits) then High(sign, bits) else x
  }

  predicate WidthOk(sign: bool, bits: nat) {
    1 <= bits <= (if sign then 64 else 63)
  }

  // ---------------------------------------------------------------- the checks as written

  function CheckUnsigned(value: int, incr: int, bits: nat, ow: Overflow): Check
    requires WidthOk(false, bits)
  {
    DecideUnsigned(value, incr, Pow2(bits) - 1, ow, U64(value + incr) % Pow2(bits))
  }

  function DecideUnsigned(value: int, incr: int, max: int, ow: Overflow, wrapped: int): Check {
    var maxincr, minincr := I64(max - value), I64(-value);
    if value > max || (incr > 0 && incr > maxincr) then
      match ow
      case Wrap => Check(1, Some(wrapped))
      case Sat => Check(1, Some(max))
      case Fail => Check(1, None)
    else if incr < 0 && incr < minincr then
      match ow
      case Wrap => Check(1, Some(wrapped))
      case Sat => Check(-1, Some(0))
      case Fail => Check(-1, None)
    else Check(0, None)
  }

  /** The tail of the signed check: fill or clear the bits above the width. */
  function SignFilled(c: int, bits: nat): int
    requires 1 <= bits <= 64
  {
    if bits == 64 then I64(c)
    else if NumBit(c, bits - 1) then I64(c % Pow2(bits) + (TWO64 - Pow2(bits)))
    else I64(c % Pow2(bits))
  }

  function CheckSigned(value: int, incr: int, bits: nat, ow: Overflow): Check
    requires WidthOk(true, bits)
  {
    Decide(value, incr, Pow2(bits - 1) - 1, bits == 64, ow, SignFilled(U64(value + incr), bits))
  }

  function Decide(value: int, incr: int, max: int, full: bool, ow: Overflow, wrapped: int): Check {
    var min := -max - 1;
    var maxincr, minincr := I64(max - value), I64(min - value);
    if value > max || (!full && incr > maxincr) || (value >= 0 && incr > 0 && incr > maxincr) then
      match ow
      case Wrap => Check(1, Some(wrapped))
      case Sat => Check(1, Some(max))
      case Fail => Check(1, None)
    else if value < min || (!full && incr < minincr) || (value < 0 && incr < 0 && incr < minincr) then
      match ow
      case Wrap => Check(1, Some(wrapped))
      case Sat => Check(-1, Some(min))
      case Fail => Check(-1, None)
    else Check(0, None)
  }

  // ---------------------------------------------------------------- what they decide

  lemma I64Same(x: int)
    requires IsI64(x)
    ensures I64(x) == x
  {
  }

  lemma I64Over(x: int)
    requires TWO63 <= x < TWO64
    ensures I64(x) == x - TWO64
  {
  }

  /** Overflow is reported exactly when the true sum does not fit; WRAP reduces it, SAT clamps it. */
  lemma UnsignedExact(value: int, incr: int, bits: nat, ow: Overflow)
    requires WidthOk(false, bits) && Fits(false, bits, value) && IsI64(incr)
    ensures var r, sum := CheckUnsigned(value, incr, bits, ow), value + incr;
            && (r.code != 0 <==> !Fits(false, bits, sum))
            && (r.code != 0 && ow.Wrap? ==> r.limit == Some(Reduced(false, bits, sum)))
            && (r.code != 0 && ow.Sat? ==> r.limit == Some(Clamped(false, bits, sum)))
  {
    ModMod(value + incr, bits);
    UnsignedRange(bits);
    DecideUnsignedExact(value, incr, Pow2(bits), ow, Reduced(false, bits, value + incr));
  }

  lemma UnsignedRange(bits: nat)
    requires bits <= 63
    ensures Pow2(bits) <= TWO63
  {
    Pow64();
    Pow2Monotone(bits, 63);
  }

  lemma DecideUnsignedExact(value: int, incr: int, p: int, ow: Overflow, wrapped: int)
    requires p <= TWO63 && 0 <= value < p && IsI64(incr)
    ensures var r, sum := DecideUnsigned(value, incr, p - 1, ow, wrapped), value + incr;
            && (r.code != 0 <==> !(0 <= sum < p))
            && (r.code != 0 && ow.Wrap? ==> r.limit == Some(wrapped))
            && (r.code != 0 && ow.Sat? ==> r.limit == Some(if sum < 0 then 0 else p - 1))
  {
    I64Same(p - 1 - value);
    I64Same(-value);
  }

  /** SET converts its argument to unsigned first; then the same holds for every argument. */
  lemma UnsignedSetExact(value: int, bits: nat, ow: Overflow)
    requires WidthOk(false, bits) && 0 <= value < TWO64
    ensures var r := CheckUnsigned(value, 0, bits, ow);
            && (r.code != 0 <==> !Fits(false, bits, value))
            && (r.code != 0 && ow.Wrap? ==> r.limit == Some(Reduced(false, bits, value)))
            && (r.code != 0 && ow.Sat? ==> r.limit == Some(Clamped(false, bits, value)))
  {
    ModMod(value, bits);
  }

  /** Filling the sign is reading the low bits in two's complement. */
  lemma SignFilledIs(x: int, bits: nat)
    requires 1 <= bits <= 64
    ensures SignFilled(U64(x), bits) == Reduced(true, bits, x)
  {
    var c, u := U64(x), x % Pow2(bits);
    Pow64();
    ModMod(x, bits);
    assert Pow2(bits) == 2 * Pow2(bits - 1);
    if bits < 64 {
      Pow2Monotone(bits, 63);
      LowBit(c, bits);
      TopBit(u, bits);
    }
  }

  /** A bit below the width is the same bit of the number modulo the width. */
  lemma LowBit(c: int, bits: nat)
    requires bits > 0
    ensures NumBit(c, bits - 1) == NumBit(c % Pow2(bits), bits - 1)
  {
    BitBelow(c, Pow2(bits - 1));
  }

  lemma BitBelow(c: int, h: int)
    requires h > 0
    ensures (c / h) % 2 == ((c % (2 * h)) / h) % 2
  {
    var m := 2 * h;
    BitOfRest(c, h, m, c / m, c % m);
  }

  lemma BitOfRest(c: int, h: int, m: int, q: int, u: int)
    requires h > 0 && m == 2 * h && c == q * m + u && 0 <= u < m
    ensures (c / h) % 2 == (u / h) % 2
  {
    var a := if u < h then 0 else 1;
    var b := u - a * h;
    DivModOf(u, h, a, b);
    Distribute(q, 2, a, h);
    DivModOf(c, h, q * 2 + a, b);
  }

  lemma SignedExact(value: int, incr: int, bits: nat, ow: Overflow)
    requires WidthOk(true, bits) && Fits(true, bits, value) && IsI64(incr)
    ensures var r, sum := CheckSigned(value, incr, bits, ow), value + incr;
            && (r.code != 0 <==> !Fits(true, bits, sum))
            && (r.code != 0 && ow.Wrap? ==> r.limit == Some(Reduced(true, bits, sum)))
            && (r.code != 0 && ow.Sat? ==> r.limit == Some(Clamped(true, bits, sum)))
  {
    SignFilledIs(value + incr, bits);
    HalfRange(bits);
    DecideExact(value, incr, Pow2(bits - 1), bits == 64, ow, Reduced(true, bits, value + incr));
  }

  /** Half the range of a signed field: 2^63, or small enough to leave room in 64 bits. */
  lemma HalfRange(bits: nat)
    requires 1 <= bits <= 64
    ensures if bits == 64 then Pow2(bits - 1) == TWO63 else 2 * Pow2(bits - 1) <= TWO63
  {
    Pow64();
    if bits < 64 { Pow2Monotone(bits, 63); }
  }

  lemma DecideExact(value: int, incr: int, h: int, full: bool, ow: Overflow, wrapped: int)
    requires 0 < h && (if full then h == TWO63 else 2 * h <= TWO63) && -h <= value < h && IsI64(incr)
    ensures var r, sum := Decide(value, incr, h - 1, full, ow, wrapped), value + incr;
            && (r.code != 0 <==> !(-h <= sum < h))
            && (r.code != 0 && ow.Wrap? ==> r.limit == Some(wrapped))
            && (r.code != 0 && ow.Sat? ==> r.limit == Some(if sum < -h then -h else h - 1))
  {
    if !full || value >= 0 { I64Same(h - 1 - value); }
    if !full || value < 0 { I64Same(-h - value); }
  }

  /** The lowest argument for which `maxincr` does not wrap. */
  function SetLimit(bits: nat): int
    requires bits > 0
  {
    Pow2(bits - 1) - TWO63
  }

  /**
   * SET of any 64-bit number: overflow is reported exactly when it does not fit and WRAP reduces it. SAT clamps
   * exactly down to `SetLimit`; below, it stores the maximum.
   */
  lemma SignedSetExact(value: int, bits: nat, ow: Overflow)
    requires WidthOk(true, bits) && IsI64(value)
    ensures var r := CheckSigned(value, 0, bits, ow);
            && (r.code != 0 <==> !Fits(true, bits, value))
            && (r.code != 0 && ow.Wrap? ==> r.limit == Some(Reduced(true, bits, value)))
            && (r.code != 0 && ow.Sat? ==> (r.limit == Some(Clamped(true, bits, value)) <==> value >= SetLimit(bits)))
            && (r.code != 0 && ow.Sat? && value < SetLimit(bits) ==> r.limit == Some(High(true, bits)))
  {
    SignFilledIs(value, bits);
    HalfRange(bits);
    DecideSet(value, Pow2(bits - 1), bits == 64, ow, Reduced(true, bits, value));
  }

  lemma DecideSet(value: int, h: int, full: bool, ow: Overflow, wrapped: int)
    requires 0 < h && (if full then h == TWO63 else 2 * h <= TWO63) && IsI64(value)
    ensures var r := Decide(value, 0, h - 1, full, ow, wrapped);
            && (r.code != 0 <==> !(-h <= value < h))
            && (r.code != 0 && ow.Wrap? ==> r.limit == Some(wrapped))
            && (r.code != 0 && ow.Sat? ==> r.limit == Some(if h - TWO63 <= value < -h then -h else h - 1))
  {
    if !full {
      if value >= h - TWO63 { I64Same(h - 1 - value); } else { I64Over(h - 1 - value); }
      if value <= TWO63 - h { I64Same(-h - value); }
    }
  }

  /** The smallest number, saturated into a signed byte, becomes the largest byte. */
  lemma SatSetsMaximum()
    ensures CheckSigned(-TWO63, 0, 8, Sat) == Check(1, Some(127))
  {
    assert Pow2(7) == 128;
  }

  // ---------------------------------------------------------------- SET and INCRBY

  /** What is stored for the exact result `x` under WRAP or SAT. */
  function Stored(sign: bool, bits: nat, ow: Overflow, isSet: bool, x: int): int
    requires bits > 0
  {
    if Fits(sign, bits, x) then x
    else if ow.Wrap? then Reduced(sign, bits, x)
    else if isSet && sign && x < SetLimit(bits) then High(sign, bits)
    else Clamped(sign, bits, x)
  }

  lemma StoredFits(sign: bool, bits: nat, ow: Overflow, isSet: bool, x: int)
    requires WidthOk(sign, bits)
    ensures Fits(sign, bits, Stored(sign, bits, ow, isSet, x))
  {
    assert Pow2(bits) == 2 * Pow2(bits - 1);
  }

  /** The signed path: the reply, the new number in the field, and nothing else changed. */
  method ExecSigned(p: array<bv8>, offset: nat, bits: nat, isSet: bool, i64: int, ow: Overflow) returns (reply: Option<int>)
    requires WidthOk(true, bits) && IsI64(i64) && offset + bits <= 8 * p.Length
    modifies p
    ensures var was := old(p[..]);
            var before := Signed(Field(was, offset, bits), bits);
            var x := if isSet then i64 else before + i64;
            if ow.Fail? && !Fits(true, bits, x) then reply == None && p[..] == was
            else
              var y := Stored(true, bits, ow, isSet, x);
              && reply == Some(if isSet then before else y)
              && Signed(Field(p[..], offset, bits), bits) == y
              && Written(was, p[..], offset, bits, U64(y), bits)
  {
    var oldval := GetSignedBitfield(p[..], offset, bits);
    var value, incr := if isSet then i64 else oldval, if isSet then 0 else i64;
    if isSet { SignedSetExact(i64, bits, ow); } else { SignedExact(oldval, i64, bits, ow); }
    var check := CheckSigned(value, incr, bits, ow);
    if check.code != 0 && ow.Fail? { return None; }
    var newval := if check.code != 0 then check.limit.value else value + incr;
    assert newval == Stored(true, bits, ow, isSet, value + incr);
    StoredFits(true, bits, ow, isSet, value + incr);
    SignedBack(newval, bits);
    SetUnsignedBitfield(p, offset, bits, U64(newval));
    reply := Some(if isSet then oldval else newval);
  }

  lemma UnsignedResult(value: int, incr: int, bits: nat, ow: Overflow, isSet: bool)
    requires WidthOk(false, bits) && (if isSet then 0 <= value < TWO64 && incr == 0 else Fits(false, bits, value) && IsI64(incr))
    ensures var check, x := CheckUnsigned(value, incr, bits, ow), value + incr;
            && (check.code != 0 <==> !Fits(false, bits, x)) && (check.code != 0 && !ow.Fail? ==> check.limit.Some?)
            && (check.code == 0 || !ow.Fail? ==>
                  var newval := if check.code != 0 then check.limit.value else U64(x);
                  newval == Stored(false, bits, ow, isSet, x) && newval % Pow2(bits) == newval)
  {
    if isSet { UnsignedSetExact(value, bits, ow); } else { UnsignedExact(value, incr, bits, ow); }
    UnsignedRange(bits);
    StoredRests(bits, ow, isSet, value + incr);
    if Fits(false, bits, value + incr) { DivModOf(value + incr, TWO64, 0, value + incr); }
  }

  lemma StoredRests(bits: nat, ow: Overflow, isSet: bool, x: int)
    requires WidthOk(false, bits)
    ensures var y := Stored(false, bits, ow, isSet, x); y % Pow2(bits) == y
  {
    var y := Stored(false, bits, ow, isSet, x);
    StoredFits(false, bits, ow, isSet, x);
    DivModOf(y, Pow2(bits), 0, y);
  }

  /** The unsigned path; SET first converts its argument to unsigned. */
  method ExecUnsigned(p: array<bv8>, offset: nat, bits: nat, isSet: bool, i64: int, ow: Overflow) returns (reply: Option<int>)
    requires WidthOk(false, bits) && IsI64(i64) && offset + bits <= 8 * p.Length
    modifies p
    ensures var was := old(p[..]);
            var before := Field(was, offset, bits);
            var x := if isSet then U64(i64) else before + i64;
            if ow.Fail? && !Fits(false, bits, x) then reply == None && p[..] == was
            else
              var y := Stored(false, bits, ow, isSet, x);
              && reply == Some(if isSet then before else y)
              && Field(p[..], offset, bits) == y
              && Written(was, p[..], offset, bits, y, bits)
  {
    var oldval := GetUnsignedBitfield(p[..], offset, bits);
    var value, incr := if isSet then U64(i64) else oldval, if isSet then 0 else i64;
    UnsignedResult(value, incr, bits, ow, isSet);
    var check := CheckUnsigned(value, incr, bits, ow);
    if check.code != 0 && ow.Fail? { return None; }
    var newval := if check.code != 0 then check.limit.value else U64(value + incr);
    SetUnsignedBitfield(p, offset, bits, newval);
    reply := Some(if isSet then oldval else newval);
  }
}
