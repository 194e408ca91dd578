/**
 * JSON strings between Python and JavaScript (section 7 of RFC 8259; backend/conversations/services.py:189,214,
 * frontend/public/widget.js:355-358): `json.dumps` writes code points in pure ASCII, `JSON.parse` reads UTF-16 units.
 */
module Json {
  import opened Basics

  /** A Python string: code points, lone surrogates included. */
  type Points = seq<nat>

  /** A JavaScript string: UTF-16 code units. */
  type Units = seq<nat>

  predicate IsText(t: Points) {
    forall i | 0 <= i < |t| :: t[i] <= 0x10FFFF
  }

  // ---------------------------------------------------------------- UTF-16

  function UnitsOf(p: nat): Units {
    if p < 0x10000 then [p] else [0xD800 + (p - 0x10000) / 0x400, 0xDC00 + (p - 0x10000) % 0x400]
  }

  function Utf16(t: Points): Units {
    if t == [] then [] else UnitsOf(t[0]) + Utf16(t[1..])
  }

  lemma {:induction false} Utf16Append(a: Points, b: Points)
    ensures Utf16(a + b) == Utf16(a) + Utf16(b)
  {
    if a == [] {
      assert a + b == b;
    } else {
      assert (a + b)[1..] == a[1..] + b;
      Utf16Append(a[1..], b);
    }
  }

  // ---------------------------------------------------------------- writing

  function HexDigit(d: nat): char
    requires d < 16
  {
    if d < 10 then ('0' as int + d) as char else ('a' as int + (d - 10)) as char
  }

  function Hex4(u: nat): string
    requires u < 0x10000
  {
    ['\\', 'u', HexDigit(u / 4096), HexDigit(u / 256 % 16), HexDigit(u / 16 % 16), HexDigit(u % 16)]
  }

  /** `ensure_ascii`: everything outside the printable ASCII range is escaped, as one or two units. */
  function Escape(p: nat): string
    requires p <= 0x10FFFF
  {
    if p == 0x22 then ['\\', '"']
    else if p == 0x5C then ['\\', '\\']
    else if p == 0x0A then ['\\', 'n']
    else if p == 0x0D then ['\\', 'r']
    else if p == 0x09 then ['\\', 't']
    else if p == 0x0C then ['\\', 'f']
    else if p == 0x08 then ['\\', 'b']
    else if 0x20 <= p <= 0x7E then [p as char]
    else if p < 0x10000 then Hex4(p)
    else Hex4(0xD800 + (p - 0x10000) / 0x400) + Hex4(0xDC00 + (p - 0x10000) % 0x400)
  }

  function EscapeAll(t: Points): string
    requires IsText(t)
  {
    if t == [] then "" else Escape(t[0]) + EscapeAll(t[1..])
  }

  predicate Plain(s: string) {
    forall c <- s :: ' ' <= c <= '~'
  }

  lemma HexPlain(d: nat)
    requires d < 16
    ensures ' ' <= HexDigit(d) <= '~'
  {
  }

  lemma Hex4Plain(u: nat)
    requires u < 0x10000
    ensures Plain(Hex4(u))
  {
    HexPlain(u / 4096);
    HexPlain(u / 256 % 16);
    HexPlain(u / 16 % 16);
    HexPlain(u % 16);
  }

  /** The text never holds a raw control character, so never a line break. */
  lemma {:induction false} EscapedIsPlain(t: Points)
    requires IsText(t)
    ensures Plain(EscapeAll(t))
  {
    if t != [] {
      EscapedIsPlain(t[1..]);
      var p := t[0];
      if p < 0x20 || 0x7E < p < 0x10000 {
        Hex4Plain(p);
      } else if p >= 0x10000 {
        Hex4Plain(0xD800 + (p - 0x10000) / 0x400);
        Hex4Plain(0xDC00 + (p - 0x10000) % 0x400);
      }
    }
  }

  // ---------------------------------------------------------------- reading

  function HexValue(c: char): Option<nat> {
    if '0' <= c <= '9' then Some(c as int - '0' as int)
    else if 'a' <= c <= 'f' then Some(c as int - 'a' as int + 10)
    else if 'A' <= c <= 'F' then Some(c as int - 'A' as int + 10)
    else None
  }

  function ReadHex(s: string): Option<nat> {
    if |s| < 4 then None
    else
      match (HexValue(s[0]), HexValue(s[1]), HexValue(s[2]), HexValue(s[3]))
      case (Some(a), Some(b), Some(c), Some(d)) => Some(4096 * a + 256 * b + 16 * c + d)
      case _ => None
  }

  /** One character or escape: its unit and how many characters it took. */
  function ReadUnit(s: string): Option<(nat, nat)>
    requires s != ""
  {
    if s[0] != '\\' then if s[0] < ' ' then None else Some((s[0] as int, 1))
    else if |s| < 2 then None
    else if s[1] == '"' then Some((0x22, 2))
    else if s[1] == '\\' then Some((0x5C, 2))
    else if s[1] == '/' then Some((0x2F, 2))
    else if s[1] == 'n' then Some((0x0A, 2))
    else if s[1] == 'r' then Some((0x0D, 2))
    else if s[1] == 't' then Some((0x09, 2))
    else if s[1] == 'f' then Some((0x0C, 2))
    else if s[1] == 'b' then Some((0x08, 2))
    else if s[1] == 'u' then
      match ReadHex(s[2..]) case Some(u) => Some((u, 6)) case None => None
    else None
  }

  lemma ReadUnitTakes(s: string)
    requires s != "" && ReadUnit(s).Some?
    ensures 1 <= ReadUnit(s).value.1 <= |s|
  {
  }

  /** The characters of a string up to its closing quote, and what follows it. */
  function ReadString(s: string): Option<(Units, string)>
    decreases |s|
  {
    if s == "" then None
    else if s[0] == '"' then Some(([], s[1..]))
    else
      match ReadUnit(s)
      case None => None
      case Some((u, n)) =>
        ReadUnitTakes(s);
        match ReadString(s[n..])
        case None => None
        case Some((us, rest)) => Some(([u] + us, rest))
  }

  // ---------------------------------------------------------------- round trip

  lemma HexBack(d: nat)
    requires d < 16
    ensures HexValue(HexDigit(d)) == Some(d)
  {
  }

  lemma UnitBack(u: nat, tail: string)
    requires u < 0x10000
    ensures ReadUnit(Hex4(u) + tail) == Some((u, 6)) && (Hex4(u) + tail)[6..] == tail
  {
    var s := Hex4(u) + tail;
    HexBack(u / 4096);
    HexBack(u / 256 % 16);
    HexBack(u / 16 % 16);
    HexBack(u % 16);
    var h := s[2..];
    assert h[0] == HexDigit(u / 4096) && h[1] == HexDigit(u / 256 % 16) && h[2] == HexDigit(u / 16 % 16) && h[3] == HexDigit(u % 16);
    Positional(u);
  }

  lemma Positional(u: nat)
    ensures u == 4096 * (u / 4096) + 256 * (u / 256 % 16) + 16 * (u / 16 % 16) + u % 16
  {
    var a := u / 16;
    var b := a / 16;
    var c := b / 16;
    assert u == 256 * b + (16 * (a % 16) + u % 16);
    assert b == u / 256;
    assert u == 4096 * c + (256 * (b % 16) + 16 * (a % 16) + u % 16);
    assert c == u / 4096;
  }

  lemma ReadNext(s: string, u: nat, n: nat, tail: string, us: Units, rest: string)
    requires s != "" && s[0] != '"' && ReadUnit(s) == Some((u, n)) && 1 <= n <= |s| && s[n..] == tail
    requires ReadString(tail) == Some((us, rest))
    ensures ReadString(s) == Some(([u] + us, rest))
  {
  }

  lemma PairBack(hi: nat, lo: nat, tail: string, us: Units, rest: string)
    requires hi < 0x10000 && lo < 0x10000 && ReadString(tail) == Some((us, rest))
    ensures ReadString(Hex4(hi) + Hex4(lo) + tail) == Some(([hi, lo] + us, rest))
  {
    var t := Hex4(lo) + tail;
    SeqAssoc(Hex4(hi), Hex4(lo), tail);
    UnitBack(lo, tail);
    ReadNext(t, lo, 6, tail, us, rest);
    UnitBack(hi, t);
    ReadNext(Hex4(hi) + t, hi, 6, t, [lo] + us, rest);
    assert [hi] + ([lo] + us) == [hi, lo] + us;
  }

  /** Reading one escaped code point gives its units. */
  lemma PointBack(p: nat, tail: string, us: Units, rest: string)
    requires p <= 0x10FFFF && ReadString(tail) == Some((us, rest))
    ensures ReadString(Escape(p) + tail) == Some((UnitsOf(p) + us, rest))
  {
    if p >= 0x10000 {
      PairBack(0xD800 + (p - 0x10000) / 0x400, 0xDC00 + (p - 0x10000) % 0x400, tail, us, rest);
    } else {
      EscapeRead(p, tail);
      ReadNext(Escape(p) + tail, p, |Escape(p)|, tail, us, rest);
    }
  }

  /** Below the supplementary planes an escape is one unit. */
  lemma EscapeRead(p: nat, tail: string)
    requires p < 0x10000
    ensures var s := Escape(p) + tail;
            Escape(p) != "" && s[0] != '"' && ReadUnit(s) == Some((p, |Escape(p)|)) && s[|Escape(p)|..] == tail
  {
    if |Escape(p)| == 6 { UnitBack(p, tail); }
  }

  /** What Python wrote, JavaScript reads as the UTF-16 form of the same text. */
  lemma {:induction false} StringBack(t: Points, tail: string)
    requires IsText(t) && tail != "" && tail[0] == '"'
    ensures ReadString(EscapeAll(t) + tail) == Some((Utf16(t), tail[1..]))
  {
    if t == [] {
      assert "" + tail == tail;
    } else {
      StringBack(t[1..], tail);
      SeqAssoc(Escape(t[0]), EscapeAll(t[1..]), tail);
      PointBack(t[0], EscapeAll(t[1..]) + tail, Utf16(t[1..]), tail[1..]);
    }
  }

  // ---------------------------------------------------------------- one-member objects

  /** What stands before the text in `json.dumps({key: text})`. */
  function Opening(key: string): string {
    "{\"" + key + "\": \""
  }

  const CLOSING: string := "\"}"

  function Dump(key: string, t: Points): string
    requires IsText(t)
  {
    Opening(key) + (EscapeAll(t) + CLOSING)
  }

  predicate StartsWith(s: string, prefix: string) {
    |prefix| <= |s| && s[..|prefix|] == prefix
  }

  /** The string member of a one-member object with that key, in the layout `json.dumps` uses. */
  function Member(s: string, key: string): Option<Units> {
    if !StartsWith(s, Opening(key)) then None
    else
      match ReadString(s[|Opening(key)|..])
      case Some((us, rest)) => if rest == "}" then Some(us) else None
      case None => None
  }

  lemma DumpBack(key: string, t: Points)
    requires IsText(t)
    ensures Member(Dump(key, t), key) == Some(Utf16(t))
  {
    var o, tail := Opening(key), EscapeAll(t) + CLOSING;
    assert (o + tail)[..|o|] == o && (o + tail)[|o|..] == tail;
    StringBack(t, CLOSING);
  }
}
