/**
 * Rewriting the dataset as commands (redis-stable/src/aof.c:1920-1991, 1995-2072, 2104-2130, 2389-2507).
 * Collections are held in iteration order, so that what is shown for every object is shown for every
 * order in which its dictionary may be walked.
 */
module AofRewrite {
  import opened Basics
  import opened Bytes
  import opened Resp

  const ITEMS_PER_CMD: nat := 64

  /** Scores are printed by `fpconv_dtoa` and read back by ZADD. */
  datatype Scores<!S(!new)> = Scores(show: S -> Text, parse: Text -> Option<S>)
  {
    ghost predicate Valid() {
      forall x :: parse(show(x)) == Some(x) && |show(x)| <= LLONG_MAX
    }
  }

  datatype Obj<S> =
    | StringObj(text: Text)
    | ListObj(items: seq<Text>)
    | SetObj(members: seq<Text>)
    | ZSetObj(scored: seq<(S, Text)>)
    | HashObj(fields: seq<(Text, Text)>)

  datatype Value<S> =
    | StringValue(text: Text)
    | ListValue(items: seq<Text>)
    | SetValue(members: set<Text>)
    | ZSetValue(scores: map<Text, S>)
    | HashValue(fields: map<Text, Text>)

  // ---------------------------------------------------------------- the commands emitted

  function Flatten(gs: seq<seq<Text>>): seq<Text> {
    if gs == [] then [] else gs[0] + Flatten(gs[1..])
  }

  /** At most 64 items per command. */
  function Chunked(name: Text, key: Text, gs: seq<seq<Text>>): seq<Command>
    decreases |gs|
  {
    if gs == [] then []
    else
      var n := Min(ITEMS_PER_CMD, |gs|);
      [[name, key] + Flatten(gs[..n])] + Chunked(name, key, gs[n..])
  }

  /** The command name, the arguments per item, and how many there are per item. */
  function NameOf<S>(o: Obj<S>): Text {
    match o
    case StringObj(_) => "SET"
    case ListObj(_) => "RPUSH"
    case SetObj(_) => "SADD"
    case ZSetObj(_) => "ZADD"
    case HashObj(_) => "HMSET"
  }

  function Width<S>(o: Obj<S>): nat {
    if o.ZSetObj? || o.HashObj? then 2 else 1
  }

  function Items<S(!new)>(sc: Scores<S>, o: Obj<S>): (gs: seq<seq<Text>>)
    ensures forall g <- gs :: |g| == Width(o)
  {
    match o
    case StringObj(t) => [[t]]
    case ListObj(xs) => seq(|xs|, i requires 0 <= i < |xs| => [xs[i]])
    case SetObj(xs) => seq(|xs|, i requires 0 <= i < |xs| => [xs[i]])
    case ZSetObj(xs) => seq(|xs|, i requires 0 <= i < |xs| => [sc.show(xs[i].0), xs[i].1])
    case HashObj(xs) => seq(|xs|, i requires 0 <= i < |xs| => [xs[i].0, xs[i].1])
  }

  // ---------------------------------------------------------------- the emitting loop

  /** Items written by `item` in commands of at most 64, each started by `start(number of items)`. */
  function Emitted<T>(start: nat -> Text, item: T -> Text, gs: seq<T>): Text
    decreases |gs|
  {
    if gs == [] then ""
    else
      var n := Min(ITEMS_PER_CMD, |gs|);
      start(n) + (Concat(item, gs[..n]) + Emitted(start, item, gs[n..]))
  }

  /** What is still to be written: `left` items of the command under way, then whole commands. */
  ghost function Remaining<T>(start: nat -> Text, item: T -> Text, gs: seq<T>, left: nat): Text
    requires left <= |gs|
  {
    Concat(item, gs[..left]) + Emitted(start, item, gs[left..])
  }

  /**
   * The loop shared by `rewriteListObject`, `rewriteSetObject`, `rewriteSortedSetObject` and
   * `rewriteHashObject`: a command is started every 64 items, for as many items as are left.
   */
  method EmitItems<T>(out0: Text, start: nat -> Text, item: T -> Text, gs: seq<T>) returns (out: Text)
    ensures out == out0 + Emitted(start, item, gs)
  {
    out := out0;
    var count, items, i := 0, |gs|, 0;
    ghost var left, all := 0, out0 + Emitted(start, item, gs);
    assert gs[0..] == gs && gs[..0] == [];
    assert "" + Emitted(start, item, gs) == Emitted(start, item, gs);
    while i < |gs|
      invariant 0 <= i <= |gs| && items == |gs| - i && 0 <= count < ITEMS_PER_CMD
      invariant left == if count == 0 then 0 else Min(ITEMS_PER_CMD - count, items)
      invariant out + Remaining(start, item, gs[i..], left) == all
    {
      if count == 0 {
        var cmdItems := if items > ITEMS_PER_CMD then ITEMS_PER_CMD else items;
        StartCommand(out, start, item, gs[i..]);
        out := out + start(cmdItems);
        left := cmdItems;
      }
      WriteItem(out, start, item, gs[i..], left);
      assert gs[i..][1..] == gs[i + 1..] && gs[i..][0] == gs[i];
      out := out + item(gs[i]);
      left := left - 1;
      count := count + 1;
      if count == ITEMS_PER_CMD { count := 0; }
      items := items - 1;
      i := i + 1;
    }
    assert gs[i..] == [];
    assert out + "" == out;
  }

  lemma StartCommand<T>(out: Text, start: nat -> Text, item: T -> Text, gs: seq<T>)
    requires gs != []
    ensures var n := Min(ITEMS_PER_CMD, |gs|);
            out + Remaining(start, item, gs, 0) == out + start(n) + Remaining(start, item, gs, n)
  {
    var n := Min(ITEMS_PER_CMD, |gs|);
    assert gs[..0] == [] && gs[0..] == gs;
    assert "" + Emitted(start, item, gs) == Emitted(start, item, gs);
    SeqAssoc(out, start(n), Concat(item, gs[..n]) + Emitted(start, item, gs[n..]));
  }

  lemma WriteItem<T>(out: Text, start: nat -> Text, item: T -> Text, gs: seq<T>, left: nat)
    requires 0 < left <= |gs|
    ensures out + Remaining(start, item, gs, left) == out + item(gs[0]) + Remaining(start, item, gs[1..], left - 1)
  {
    var t := gs[1..];
    assert gs[..left][1..] == t[..left - 1] && gs[left..] == t[left - 1..];
    var b, c := Concat(item, t[..left - 1]), Emitted(start, item, gs[left..]);
    SeqAssoc(item(gs[0]), b, c);
    SeqAssoc(out, item(gs[0]), b + c);
  }

  // ---------------------------------------------------------------- the text emitted is a log

  /** `*<2 + nargs>`, the command name and the key. */
  function CommandStart(name: Text, key: Text, nargs: nat): Text {
    Header('*', 2 + nargs) + (Bulk(name) + Bulk(key))
  }

  function StartOf(name: Text, key: Text, width: nat): nat -> Text {
    (n: nat) => CommandStart(name, key, n * width)
  }

  function ItemText(g: seq<Text>): Text {
    Concat(Bulk, g)
  }

  lemma EncodeStart(name: Text, key: Text, args: seq<Text>)
    ensures Encode([name, key] + args) == CommandStart(name, key, |args|) + Concat(Bulk, args)
  {
    ConcatAppend(Bulk, [name, key], args);
    assert [name, key] == [name] + [key];
    ConcatAppend(Bulk, [name], [key]);
    ConcatOne(Bulk, name);
    ConcatOne(Bulk, key);
    SeqAssoc(Header('*', 2 + |args|), Bulk(name) + Bulk(key), Concat(Bulk, args));
  }

  lemma {:induction false} FlattenLength(gs: seq<seq<Text>>, width: nat)
    requires forall g <- gs :: |g| == width
    ensures |Flatten(gs)| == |gs| * width
  {
    if gs != [] {
      assert gs[0] in gs;
      FlattenLength(gs[1..], width);
      OneMore(|gs|, width);
    }
  }

  lemma OneMore(n: nat, width: nat)
    requires n > 0
    ensures n * width == width + (n - 1) * width
  {
  }

  lemma {:induction false} ItemsText(gs: seq<seq<Text>>)
    ensures Concat(ItemText, gs) == Concat(Bulk, Flatten(gs))
  {
    if gs != [] {
      ItemsText(gs[1..]);
      ConcatAppend(Bulk, gs[0], Flatten(gs[1..]));
    }
  }

  /** The header of every emitted command counts exactly the arguments that follow: the text is a log. */
  lemma {:induction false} EmittedIsLog(name: Text, key: Text, gs: seq<seq<Text>>, width: nat)
    requires forall g <- gs :: |g| == width
    ensures Emitted(StartOf(name, key, width), ItemText, gs) ==
            EncodeAll(Chunked(name, key, gs))
    decreases |gs|
  {
    if gs != [] {
      var n := Min(ITEMS_PER_CMD, |gs|);
      var start := StartOf(name, key, width);
      var front, rest := gs[..n], gs[n..];
      assert forall g <- front :: g in gs;
      assert forall g <- rest :: g in gs;
      FlattenLength(front, width);
      ItemsText(front);
      EncodeStart(name, key, Flatten(front));
      EmittedIsLog(name, key, rest, width);
      var c := [name, key] + Flatten(front);
      OneMoreCommand(c, Chunked(name, key, rest));
      SeqAssoc(CommandStart(name, key, n * width), Concat(Bulk, Flatten(front)), EncodeAll(Chunked(name, key, rest)));
      assert start(n) == CommandStart(name, key, n * width);
    }
  }

  lemma OneMoreCommand(c: Command, cs: seq<Command>)
    ensures EncodeAll([c] + cs) == Encode(c) + EncodeAll(cs)
  {
    ConcatAppend(Encode, [c], cs);
    ConcatOne(Encode, c);
  }

  // ---------------------------------------------------------------- what the commands do

  /** One item arrives at a key: pushed, added, scored or set. Anything else is an error and changes nothing. */
  function Insert<S(!new)>(sc: Scores<S>, v: Option<Value<S>>, name: Text, g: seq<Text>): Option<Value<S>> {
    if name == "RPUSH" && |g| == 1 then
      match v
      case None => Some(ListValue([g[0]]))
      case Some(ListValue(xs)) => Some(ListValue(xs + [g[0]]))
      case Some(_) => v
    else if name == "SADD" && |g| == 1 then
      match v
      case None => Some(SetValue({g[0]}))
      case Some(SetValue(xs)) => Some(SetValue(xs + {g[0]}))
      case Some(_) => v
    else if name == "ZADD" && |g| == 2 && sc.parse(g[0]).Some? then
      match v
      case None => Some(ZSetValue(map[g[1] := sc.parse(g[0]).value]))
      case Some(ZSetValue(m)) => Some(ZSetValue(m[g[1] := sc.parse(g[0]).value]))
      case Some(_) => v
    else if name == "HMSET" && |g| == 2 then
      match v
      case None => Some(HashValue(map[g[0] := g[1]]))
      case Some(HashValue(m)) => Some(HashValue(m[g[0] := g[1]]))
      case Some(_) => v
    else v
  }

  function InsertAll<S(!new)>(sc: Scores<S>, v: Option<Value<S>>, name: Text, gs: seq<seq<Text>>): Option<Value<S>>
    decreases |gs|
  {
    if gs == [] then v else InsertAll(sc, Insert(sc, v, name, gs[0]), name, gs[1..])
  }

  /** Arguments taken `width` at a time. */
  function Grouped(args: seq<Text>, width: nat): seq<seq<Text>>
    requires width > 0
    decreases |args|
  {
    if |args| < width then [] else [args[..width]] + Grouped(args[width..], width)
  }

  function ArgWidth(name: Text): nat {
    if name == "ZADD" || name == "HMSET" then 2 else 1
  }

  /** A write command on a key. */
  function ExecWrite<S(!new)>(sc: Scores<S>, v: Option<Value<S>>, c: Command): Option<Value<S>>
    requires |c| >= 2
  {
    if c[0] == "SET" then if |c| == 3 then Some(StringValue(c[2])) else v
    else InsertAll(sc, v, c[0], Grouped(c[2..], ArgWidth(c[0])))
  }

  lemma {:induction false} GroupedFlatten(gs: seq<seq<Text>>, width: nat)
    requires width > 0 && forall g <- gs :: |g| == width
    ensures Grouped(Flatten(gs), width) == gs
  {
    if gs != [] {
      var all := Flatten(gs);
      assert gs[0] in gs;
      assert all[..width] == gs[0] && all[width..] == Flatten(gs[1..]);
      GroupedFlatten(gs[1..], width);
    }
  }

  lemma {:induction false} InsertAppend<S(!new)>(sc: Scores<S>, v: Option<Value<S>>, name: Text, xs: seq<seq<Text>>, ys: seq<seq<Text>>)
    ensures InsertAll(sc, v, name, xs + ys) == InsertAll(sc, InsertAll(sc, v, name, xs), name, ys)
    decreases |xs|
  {
    if xs == [] {
      assert xs + ys == ys;
    } else {
      assert (xs + ys)[1..] == xs[1..] + ys;
      InsertAppend(sc, Insert(sc, v, name, xs[0]), name, xs[1..], ys);
    }
  }

  /** All the commands of one key, one after the other. */
  function ExecAll<S(!new)>(sc: Scores<S>, v: Option<Value<S>>, cs: seq<Command>): Option<Value<S>>
    requires forall c <- cs :: |c| >= 2
    decreases |cs|
  {
    if cs == [] then v else ExecAll(sc, ExecWrite(sc, v, cs[0]), cs[1..])
  }

  /** One chunk inserts its items. */
  lemma WriteInserts<S(!new)>(sc: Scores<S>, v: Option<Value<S>>, name: Text, key: Text, gs: seq<seq<Text>>)
    requires name != "SET" && forall g <- gs :: |g| == ArgWidth(name)
    ensures ExecWrite(sc, v, [name, key] + Flatten(gs)) == InsertAll(sc, v, name, gs)
  {
    var c := [name, key] + Flatten(gs);
    assert c[2..] == Flatten(gs);
    GroupedFlatten(gs, ArgWidth(name));
  }

  /** Chunking does not matter: the commands insert the items one by one, in order. */
  lemma {:induction false} ChunkedInserts<S(!new)>(sc: Scores<S>, v: Option<Value<S>>, name: Text, key: Text, gs: seq<seq<Text>>)
    requires name != "SET" && forall g <- gs :: |g| == ArgWidth(name)
    ensures forall c <- Chunked(name, key, gs) :: |c| >= 2
    ensures ExecAll(sc, v, Chunked(name, key, gs)) == InsertAll(sc, v, name, gs)
    decreases |gs|
  {
    if gs != [] {
      var n := Min(ITEMS_PER_CMD, |gs|);
      var front, rest := gs[..n], gs[n..];
      assert forall g <- front :: g in gs;
      assert forall g <- rest :: g in gs;
      var c, v' := [name, key] + Flatten(front), InsertAll(sc, v, name, front);
      WriteInserts(sc, v, name, key, front);
      ChunkedInserts(sc, v', name, key, rest);
      assert gs == front + rest;
      InsertAppend(sc, v, name, front, rest);
      ExecCons(sc, v, c, Chunked(name, key, rest));
    }
  }

  lemma ExecCons<S(!new)>(sc: Scores<S>, v: Option<Value<S>>, c: Command, cs: seq<Command>)
    requires |c| >= 2 && forall d <- cs :: |d| >= 2
    ensures ExecAll(sc, v, [c] + cs) == ExecAll(sc, ExecWrite(sc, v, c), cs)
  {
    assert ([c] + cs)[1..] == cs;
  }
}
