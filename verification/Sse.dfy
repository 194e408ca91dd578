/**
 * Streaming a reply as server-sent events (section 9.2 of the WHATWG HTML Living Standard): the printer of
 * backend/conversations/services.py:164-243 and the incremental parser of frontend/public/widget.js:324-410.
 */
module Sse {
  import opened Basics
  import opened Json

  // ---------------------------------------------------------------- splitting

  /** Where the first blank line, two line breaks, begins; the length if there is none. */
  function Blank(s: string): (i: nat)
    ensures i <= |s| && (i < |s| ==> i + 2 <= |s|)
  {
    if |s| < 2 then |s|
    else if s[0] == '\n' && s[1] == '\n' then 0
    else 1 + Blank(s[1..])
  }

  /** `s.split('\n\n')`. */
  function SplitBlank(s: string): (parts: seq<string>)
    ensures parts != []
    decreases |s|
  {
    var i := Blank(s);
    if i == |s| then [s] else [s[..i]] + SplitBlank(s[i + 2..])
  }

  function Last<T>(xs: seq<T>): T
    requires xs != []
  {
    xs[|xs| - 1]
  }

  function Front<T>(xs: seq<T>): seq<T>
    requires xs != []
  {
    xs[..|xs| - 1]
  }

  /** A blank line that is complete stays the first one when more text arrives. */
  lemma {:induction false} BlankStays(a: string, b: string)
    requires Blank(a) < |a|
    ensures Blank(a + b) == Blank(a)
  {
    if !(a[0] == '\n' && a[1] == '\n') {
      assert (a + b)[1..] == a[1..] + b;
      BlankStays(a[1..], b);
    }
  }

  lemma FrontCons<T>(x: T, ps: seq<T>)
    requires ps != []
    ensures Front([x] + ps) == [x] + Front(ps) && Last([x] + ps) == Last(ps)
  {
  }

  lemma FrontSnoc<T>(ps: seq<T>, x: T)
    ensures Front(ps + [x]) == ps && Last(ps + [x]) == x
  {
  }

  lemma Cut(a: string, b: string, i: nat)
    requires i + 2 <= |a|
    ensures (a + b)[..i] == a[..i] && (a + b)[i + 2..] == a[i + 2..] + b
  {
  }

  lemma SplitFirst(a: string, i: nat)
    requires Blank(a) == i < |a|
    ensures SplitBlank(a) == [a[..i]] + SplitBlank(a[i + 2..])
  {
  }

  /** Text that arrives later only goes on the last part. */
  lemma {:induction false} SplitMore(a: string, b: string)
    ensures SplitBlank(a + b) == Front(SplitBlank(a)) + SplitBlank(Last(SplitBlank(a)) + b)
    decreases |a|
  {
    var i := Blank(a);
    if i == |a| {
      assert Front([a]) == [];
    } else {
      var head, rest := a[..i], a[i + 2..];
      BlankStays(a, b);
      Cut(a, b, i);
      SplitFirst(a, i);
      SplitFirst(a + b, i);
      SplitMore(rest, b);
      var ps := SplitBlank(rest);
      FrontCons(head, ps);
      SeqAssoc([head], Front(ps), SplitBlank(Last(ps) + b));
    }
  }

  function Joined(chunks: seq<string>): string {
    if chunks == [] then "" else Joined(Front(chunks)) + Last(chunks)
  }

  // ---------------------------------------------------------------- the widget

  datatype Data = Nothing | Content(text: Units) | Message(text: Units)

  /** `JSON.parse` on the two layouts the server sends; anything else is rejected. */
  function ParseData(s: string): Data {
    match Member(s, "content")
    case Some(us) => Content(us)
    case None => match Member(s, "message") case Some(us) => Message(us) case None => Nothing
  }

  /** What the widget has: whether a message is on screen, its text, and the reply so far. */
  datatype View = View(started: bool, shown: Units, current: Units)

  const NO_VIEW: View := View(false, [], [])

  const EVENT: string := "event: "
  const DATA: string := "data: "

  /** The lines of one event: an error flag and the last data that parsed. */
  function ReadLines(lines: seq<string>): (bool, Data) {
    if lines == [] then (false, Nothing)
    else
      var (error, data) := ReadLines(Front(lines));
      var line := Last(lines);
      if StartsWith(line, EVENT) then (Trim(line[7..]) == "error", data)
      else if StartsWith(line, DATA) then
        (error, match ParseData(line[6..]) case Nothing => data case d => d)
      else (error, data)
  }

  function Trim(s: string): string {
    if s != "" && s[0] == ' ' then Trim(s[1..])
    else if s != "" && Last(s) == ' ' then Trim(Front(s))
    else s
  }

  function SplitLines(s: string): (lines: seq<string>)
    ensures lines != []
  {
    if s == "" then [""]
    else
      var ls := SplitLines(s[1..]);
      if s[0] == '\n' then [""] + ls else [[s[0]] + ls[0]] + ls[1..]
  }

  function Ascii(s: string): Units {
    seq(|s|, i requires 0 <= i < |s| => s[i] as int)
  }

  /** An error is added to the text on screen, or becomes it; a reply chunk replaces it with the reply so far. */
  function Show(v: View, error: bool, data: Data): View {
    if data.Nothing? then v
    else if error then
      var message := if data.Message? then data.text else Ascii("undefined");
      v.(started := true,
         shown := if v.started then v.shown + Ascii("\n[Error: ") + message + Ascii("]") else Ascii("Error: ") + message)
    else if data.Content? && data.text != [] then View(true, v.current + data.text, v.current + data.text)
    else v.(started := true)
  }

  function OnPart(v: View, part: string): View {
    var (error, data) := ReadLines(SplitLines(part));
    Show(v, error, data)
  }

  function OnParts(v: View, parts: seq<string>): View {
    if parts == [] then v else OnPart(OnParts(v, Front(parts)), Last(parts))
  }

  lemma {:induction false} OnPartsAppend(v: View, a: seq<string>, b: seq<string>)
    ensures OnParts(v, a + b) == OnParts(OnParts(v, a), b)
    decreases |b|
  {
    if b == [] {
      assert a + b == a;
    } else {
      assert Front(a + b) == a + Front(b);
      OnPartsAppend(v, a, Front(b));
    }
  }

  /** `handleResponse`: what the widget ends with depends only on the text received, not on how it was cut. */
  method HandleResponse(chunks: seq<string>) returns (v: View, buffer: string)
    ensures Received(v, buffer, Joined(chunks))
  {
    v, buffer := NO_VIEW, "";
    var i := 0;
    NothingYet(chunks);
    while i < |chunks|
      invariant 0 <= i <= |chunks| && Received(v, buffer, Joined(chunks[..i]))
    {
      ghost var got := Joined(chunks[..i]);
      JoinedNext(chunks, i);
      ReceivedMore(v, buffer, got, chunks[i]);
      buffer := buffer + chunks[i];
      var parts := SplitBlank(buffer);
      buffer := parts[|parts| - 1];
      v := ShowParts(v, parts[..|parts| - 1]);
      i := i + 1;
    }
    assert chunks[..i] == chunks;
  }

  /** The inner loop, over the complete events. */
  method ShowParts(v0: View, parts: seq<string>) returns (v: View)
    ensures v == OnParts(v0, parts)
  {
    v := v0;
    var k := 0;
    assert parts[..0] == [];
    while k < |parts|
      invariant 0 <= k <= |parts| && v == OnParts(v0, parts[..k])
    {
      v := OnPart(v, parts[k]);
      assert Front(parts[..k + 1]) == parts[..k];
      k := k + 1;
    }
    assert parts[..k] == parts;
  }

  /** The widget after the text `got`: all complete events shown, the rest kept. */
  predicate Received(v: View, buffer: string, got: string) {
    v == OnParts(NO_VIEW, Front(SplitBlank(got))) && buffer == Last(SplitBlank(got))
  }

  lemma NothingYet(chunks: seq<string>)
    ensures Received(NO_VIEW, "", Joined(chunks[..0]))
  {
    assert SplitBlank("") == [""];
  }

  lemma JoinedNext(chunks: seq<string>, i: nat)
    requires i < |chunks|
    ensures Joined(chunks[..i + 1]) == Joined(chunks[..i]) + chunks[i]
  {
    assert Front(chunks[..i + 1]) == chunks[..i];
  }

  lemma ReceivedMore(v: View, buffer: string, got: string, more: string)
    requires Received(v, buffer, got)
    ensures var parts := SplitBlank(buffer + more);
            Received(OnParts(v, parts[..|parts| - 1]), parts[|parts| - 1], got + more)
  {
    var before, parts := Front(SplitBlank(got)), SplitBlank(buffer + more);
    SplitMore(got, more);
    OnPartsAppend(NO_VIEW, before, Front(parts));
    assert Front(before + parts) == before + Front(parts);
  }

  // ---------------------------------------------------------------- the server

  const BREAK: string := "\n\n"

  function Body(t: Points): string
    requires IsText(t)
  {
    DATA + Dump("content", t)
  }

  ghost predicate AllText(ts: seq<Points>) {
    forall i | 0 <= i < |ts| :: IsText(ts[i])
  }

  function Bodies(ts: seq<Points>): seq<string>
    requires forall i | 0 <= i < |ts| :: IsText(ts[i])
  {
    seq(|ts|, i requires 0 <= i < |ts| => Body(ts[i]))
  }

  function Events(ts: seq<Points>): seq<string>
    requires forall i | 0 <= i < |ts| :: IsText(ts[i])
  {
    seq(|ts|, i requires 0 <= i < |ts| => Body(ts[i]) + BREAK)
  }

  function Concat(ts: seq<Points>): Points {
    if ts == [] then [] else Concat(Front(ts)) + Last(ts)
  }

  /** The chunks that carry content; a chunk of the other service may have none. */
  function Given(chunks: seq<Option<Points>>): (ts: seq<Points>)
    ensures (forall i | 0 <= i < |chunks| :: chunks[i].Some? ==> IsText(chunks[i].value)) ==> AllText(ts)
  {
    if chunks == [] then []
    else match Last(chunks) case None => Given(Front(chunks)) case Some(t) => Given(Front(chunks)) + [t]
  }

  const ERROR: string := "event: error"

  /** The event for a failure, on two lines. */
  function ErrorBody(m: Points): string
    requires IsText(m)
  {
    ERROR + ['\n'] + (DATA + Dump("message", m))
  }

  predicate TextIfAny(failed: Option<Points>) {
    failed.Some? ==> IsText(failed.value)
  }

  /** All events of a reply, and its text as saved: the message of a failure is the last of both. */
  function Stream(ts: seq<Points>, failed: Option<Points>): seq<string>
    requires (forall i | 0 <= i < |ts| :: IsText(ts[i])) && TextIfAny(failed)
  {
    Events(ts) + if failed.Some? then [ErrorBody(failed.value) + BREAK] else []
  }

  function Saved(ts: seq<Points>, failed: Option<Points>): Points {
    if failed.Some? then Concat(ts) + failed.value else Concat(ts)
  }

  /**
   * The loop of `stream_response_generator`: one event per chunk with content, and the text saved. `failed` is the
   * message of the exception that ends the loop, or of the failure before it.
   */
  method StreamResponse(chunks: seq<Option<Points>>, failed: Option<Points>) returns (events: seq<string>, full: Points)
    requires (forall i | 0 <= i < |chunks| :: chunks[i].Some? ==> IsText(chunks[i].value)) && TextIfAny(failed)
    ensures AllText(Given(chunks)) && events == Stream(Given(chunks), failed) && full == Saved(Given(chunks), failed)
  {
    events, full := [], [];
    var i := 0;
    assert chunks[..0] == [];
    while i < |chunks|
      invariant 0 <= i <= |chunks| && AllText(Given(chunks[..i]))
      invariant events == Events(Given(chunks[..i])) && full == Concat(Given(chunks[..i]))
    {
      assert Front(chunks[..i + 1]) == chunks[..i];
      if chunks[i].Some? {
        ghost var ts := Given(chunks[..i]);
        assert Front(ts + [chunks[i].value]) == ts;
        full := full + chunks[i].value;
        events := events + [Body(chunks[i].value) + BREAK];
      }
      i := i + 1;
    }
    assert chunks[..i] == chunks;
    assert events + [] == events;
    if failed.Some? {
      events := events + [ErrorBody(failed.value) + BREAK];
      full := full + failed.value;
    }
  }

  // ---------------------------------------------------------------- end to end

  predicate OneLine(s: string) {
    forall i | 0 <= i < |s| :: s[i] != '\n'
  }

  lemma BodyIsOneLine(t: Points)
    requires IsText(t)
    ensures OneLine(Body(t))
  {
    DataIsOneLine("content", t);
  }

  lemma DataIsOneLine(key: string, t: Points)
    requires IsText(t) && OneLine(key)
    ensures OneLine(DATA + Dump(key, t))
  {
    var e, b := EscapeAll(t), DATA + Dump(key, t);
    EscapedIsPlain(t);
    var head := DATA + Opening(key);
    assert b == head + (e + CLOSING);
    assert OneLine(head) && OneLine(CLOSING);
    forall i | 0 <= i < |b| ensures b[i] != '\n' {
      if |head| <= i < |head| + |e| { assert b[i] == e[i - |head|] && e[i - |head|] in e; }
    }
  }

  lemma {:induction false} BlankAfter(s: string)
    requires OneLine(s)
    ensures Unbroken(s)
  {
    if s == "" {
      assert s + BREAK == BREAK;
    } else {
      assert (s + BREAK)[1..] == s[1..] + BREAK;
      BlankAfter(s[1..]);
    }
  }

  /** A line break inside does no harm as long as the next line is not empty. */
  lemma {:induction false} BlankAfterTwo(a: string, b: string)
    requires OneLine(a) && OneLine(b) && b != ""
    ensures Unbroken(a + ['\n'] + b)
  {
    var s := a + ['\n'] + b;
    if a == "" {
      assert (s + BREAK)[1..] == b + BREAK && (s + BREAK)[1] == b[0];
      BlankAfter(b);
    } else {
      assert (s + BREAK)[1..] == a[1..] + ['\n'] + b + BREAK && (s + BREAK)[0] == a[0];
      BlankAfterTwo(a[1..], b);
    }
  }

  /** The first blank line is the one put after the event. */
  predicate Unbroken(s: string) {
    Blank(s + BREAK) == |s|
  }

  lemma SplitOne(s: string)
    requires Unbroken(s)
    ensures SplitBlank(s + BREAK) == [s, ""]
  {
    var t := s + BREAK;
    assert t[..|s|] == s && t[|s| + 2..] == "";
    assert SplitBlank("") == [""];
    assert [s] + [""] == [s, ""];
  }

  function WithBreaks(bs: seq<string>): seq<string> {
    seq(|bs|, i requires 0 <= i < |bs| => bs[i] + BREAK)
  }

  lemma SplitNext(all: string, done: seq<string>, b: string)
    requires SplitBlank(all) == done + [""] && Unbroken(b)
    ensures SplitBlank(all + (b + BREAK)) == done + [b] + [""]
  {
    SplitMore(all, b + BREAK);
    FrontSnoc(done, "");
    assert "" + (b + BREAK) == b + BREAK;
    SplitOne(b);
    SeqAssoc(done, [b], [""]);
    assert [b] + [""] == [b, ""];
  }

  /** Events with a blank line after each come apart again. */
  lemma {:induction false} SplitBodies(bs: seq<string>)
    requires forall i | 0 <= i < |bs| :: Unbroken(bs[i])
    ensures SplitBlank(Joined(WithBreaks(bs))) == bs + [""]
    decreases |bs|
  {
    if bs == [] {
      assert WithBreaks(bs) == [] && SplitBlank("") == [""];
    } else {
      var front, b := Front(bs), Last(bs);
      SplitBodies(front);
      assert Front(WithBreaks(bs)) == WithBreaks(front);
      SplitNext(Joined(WithBreaks(front)), front, b);
      assert front + [b] == bs;
    }
  }

  function AllBodies(ts: seq<Points>, failed: Option<Points>): seq<string>
    requires (forall i | 0 <= i < |ts| :: IsText(ts[i])) && TextIfAny(failed)
  {
    Bodies(ts) + if failed.Some? then [ErrorBody(failed.value)] else []
  }

  lemma SplitEvents(ts: seq<Points>, failed: Option<Points>)
    requires AllText(ts) && TextIfAny(failed)
    ensures SplitBlank(Joined(Stream(ts, failed))) == AllBodies(ts, failed) + [""]
  {
    var bs := AllBodies(ts, failed);
    forall i | 0 <= i < |bs| ensures Unbroken(bs[i]) {
      if i < |ts| {
        BodyIsOneLine(ts[i]);
        BlankAfter(bs[i]);
      } else {
        DataIsOneLine("message", failed.value);
        BlankAfterTwo(ERROR, DATA + Dump("message", failed.value));
      }
    }
    SplitBodies(bs);
    assert Stream(ts, failed) == WithBreaks(bs);
  }

  lemma {:induction false} LinesOfOne(s: string)
    requires OneLine(s)
    ensures SplitLines(s) == [s]
  {
    if s != "" {
      LinesOfOne(s[1..]);
      assert [s[0]] + s[1..] == s;
    }
  }

  /** One reply event adds its text. */
  lemma OnBody(v: View, t: Points)
    requires IsText(t) && v.shown == v.current
    ensures OnPart(v, Body(t)) == View(true, v.current + Utf16(t), v.current + Utf16(t))
  {
    var b := Body(t);
    BodyIsOneLine(t);
    LinesOfOne(b);
    assert !StartsWith(b, EVENT) by {
      assert b[..7][0] == 'd' && EVENT[0] == 'e';
    }
    assert b[..6] == DATA && b[6..] == Dump("content", t);
    DumpBack("content", t);
    assert Front([b]) == [] && Last([b]) == b;
    assert ReadLines([b]) == (false, Content(Utf16(t)));
    assert v.current + [] == v.current;
  }

  lemma {:induction false} LinesOfTwo(a: string, b: string)
    requires OneLine(a) && OneLine(b)
    ensures SplitLines(a + ['\n'] + b) == [a, b]
  {
    var s := a + ['\n'] + b;
    if a == "" {
      assert s[1..] == b;
      LinesOfOne(b);
    } else {
      assert s[1..] == a[1..] + ['\n'] + b && s[0] == a[0];
      LinesOfTwo(a[1..], b);
      assert [a[0]] + a[1..] == a;
    }
  }

  lemma ParsedMessage(m: Points)
    requires IsText(m)
    ensures ParseData(Dump("message", m)) == Message(Utf16(m))
  {
    var s := Dump("message", m);
    assert !StartsWith(s, Opening("content")) by {
      assert s[..|Opening("content")|][2] == 'm' && Opening("content")[2] == 'c';
    }
    DumpBack("message", m);
  }

  lemma ErrorLines(m: Points)
    requires IsText(m)
    ensures ReadLines(SplitLines(ErrorBody(m))) == (true, Message(Utf16(m)))
  {
    var a, b := ERROR, DATA + Dump("message", m);
    DataIsOneLine("message", m);
    LinesOfTwo(a, b);
    ParsedMessage(m);
    assert Front([a, b]) == [a] && Front([a]) == [];
    assert a[..7] == EVENT && a[7..] == "error" && Trim("error") == "error";
    assert ReadLines([a]) == (true, Nothing);
    assert !StartsWith(b, EVENT) by { assert b[..7][0] == 'd' && EVENT[0] == 'e'; }
    assert b[..6] == DATA && b[6..] == Dump("message", m);
  }

  /** A failure is shown in words of the widget's own, which the text saved does not have. */
  lemma ErrorIsShown(v: View, m: Points)
    requires IsText(m)
    ensures OnPart(v, ErrorBody(m)).current == v.current && OnPart(v, ErrorBody(m)).started
    ensures |OnPart(v, ErrorBody(m)).shown| == if v.started then |v.shown| + |Utf16(m)| + 10 else |Utf16(m)| + 7
  {
    ErrorLines(m);
  }

  lemma {:induction false} OnBodies(ts: seq<Points>)
    requires AllText(ts)
    ensures OnParts(NO_VIEW, Bodies(ts)) == View(ts != [], Utf16(Concat(ts)), Utf16(Concat(ts)))
    decreases |ts|
  {
    if ts == [] {
      assert Bodies(ts) == [];
    } else {
      OnBodies(Front(ts));
      assert Front(Bodies(ts)) == Bodies(Front(ts)) && Last(Bodies(ts)) == Body(Last(ts));
      OnBody(OnParts(NO_VIEW, Bodies(Front(ts))), Last(ts));
      Utf16Append(Concat(Front(ts)), Last(ts));
    }
  }

  /**
   * For every reply and every way the network cuts the stream, the widget keeps the UTF-16 form of the reply, with
   * nothing left in its buffer. What it shows is the text the server saved exactly when the reply did not fail.
   */
  method EndToEnd(chunks: seq<Option<Points>>, failed: Option<Points>, cut: seq<string>) returns (v: View, full: Points)
    requires (forall i | 0 <= i < |chunks| :: chunks[i].Some? ==> IsText(chunks[i].value)) && TextIfAny(failed)
    requires Joined(cut) == Joined(Stream(Given(chunks), failed))
    ensures full == Saved(Given(chunks), failed) && v.current == Utf16(Concat(Given(chunks)))
    ensures v.shown == Utf16(full) <==> failed.None?
    ensures v.started <==> Given(chunks) != [] || failed.Some?
  {
    var events;
    events, full := StreamResponse(chunks, failed);
    var buffer;
    v, buffer := HandleResponse(cut);
    ghost var ts := Given(chunks);
    SplitEvents(ts, failed);
    FrontSnoc(AllBodies(ts, failed), "");
    assert buffer == "";
    OnAll(ts, failed);
  }

  lemma OnAll(ts: seq<Points>, failed: Option<Points>)
    requires AllText(ts) && TextIfAny(failed)
    ensures var v := OnParts(NO_VIEW, AllBodies(ts, failed));
            v.current == Utf16(Concat(ts)) && (v.shown == Utf16(Saved(ts, failed)) <==> failed.None?) &&
            (v.started <==> ts != [] || failed.Some?)
  {
    OnBodies(ts);
    if failed.Some? {
      FrontSnoc(Bodies(ts), ErrorBody(failed.value));
      ErrorIsShown(OnParts(NO_VIEW, Bodies(ts)), failed.value);
      Utf16Append(Concat(ts), failed.value);
    } else {
      assert Bodies(ts) + [] == Bodies(ts);
    }
  }
}
