/** The doubly linked list (redis-stable/src/adlist.c:25-395): heap nodes behind an abstract sequence. */
module AdList {
  import opened Basics
  import opened Distinct

  class Node<T> {
    var prev: Node?<T>
    var next: Node?<T>
    var value: T

    /** `listInitNode`: not a member of any list. */
    constructor (v: T)
      ensures prev == null && next == null && value == v
    {
      prev, next, value := null, null, v;
    }
  }

  function NodeAt<T>(ns: seq<Node<T>>, i: int): Node?<T> {
    if 0 <= i < |ns| then ns[i] else null
  }

  ghost predicate LinkOk<T>(ns: seq<Node<T>>, i: nat)
    requires i < |ns|
    reads ns
  {
    ns[i].prev == NodeAt(ns, i - 1) && ns[i].next == NodeAt(ns, i + 1)
  }

  ghost predicate Chain<T>(ns: seq<Node<T>>)
    reads ns
  {
    NoDup(ns) && forall i | 0 <= i < |ns| :: LinkOk(ns, i)
  }

  ghost function ValuesOf<T>(ns: seq<Node<T>>): seq<T>
    reads ns
  {
    seq(|ns|, i requires 0 <= i < |ns| reads ns => ns[i].value)
  }

  ghost predicate FirstMatch<T>(ns: seq<Node<T>>, matches: T -> bool, k: nat)
    requires k < |ns|
    reads ns
  {
    matches(ns[k].value) && forall i | 0 <= i < k :: !matches(ns[i].value)
  }

  class List<T> {
    var head: Node?<T>
    var tail: Node?<T>
    var len: nat
    ghost var nodes: seq<Node<T>>

    ghost predicate Valid()
      reads this, nodes
    {
      Chain(nodes) && head == NodeAt(nodes, 0) && tail == NodeAt(nodes, |nodes| - 1) && len == |nodes|
    }

    /** `listCreate`. */
    constructor ()
      ensures Valid() && nodes == []
    {
      head, tail, len, nodes := null, null, 0, [];
    }

    /** `listEmpty`: walks exactly `len` nodes. */
    method Empty()
      requires Valid()
      modifies this
      ensures Valid() && nodes == []
    {
      var current, n := head, len;
      while n > 0
        invariant 0 <= n <= |nodes| && current == NodeAt(nodes, |nodes| - n)
      {
        assert LinkOk(nodes, |nodes| - n);
        current := current.next;
        n := n - 1;
      }
      head, tail, len, nodes := null, null, 0, [];
    }

    /** `listLinkNodeHead`. */
    method LinkNodeHead(node: Node<T>)
      requires Valid() && node !in nodes
      modifies this, nodes`prev, nodes`next, node`prev, node`next
      ensures Valid() && nodes == [node] + old(nodes) && ValuesOf(nodes) == [node.value] + old(ValuesOf(nodes))
    {
      ghost var was := nodes;
      if len == 0 {
        head, tail := node, node;
        node.prev, node.next := null, null;
      } else {
        node.prev := null;
        node.next := head;
        head.prev := node;
        head := node;
      }
      len := len + 1;
      nodes := [node] + nodes;
      NoDupCons(node, was);
      forall i | 0 <= i < |nodes| ensures LinkOk(nodes, i) {
        if i > 0 {
          assert old(LinkOk(was, i - 1)) && nodes[i] == was[i - 1];
          if i > 1 { assert Differ(was, 0, i - 1); }
        }
      }
    }

    /** `listLinkNodeTail`. */
    method LinkNodeTail(node: Node<T>)
      requires Valid() && node !in nodes
      modifies this, nodes`prev, nodes`next, node`prev, node`next
      ensures Valid() && nodes == old(nodes) + [node] && ValuesOf(nodes) == old(ValuesOf(nodes)) + [node.value]
    {
      ghost var was := nodes;
      if len == 0 {
        head, tail := node, node;
        node.prev, node.next := null, null;
      } else {
        node.prev := tail;
        node.next := null;
        tail.next := node;
        tail := node;
      }
      len := len + 1;
      nodes := nodes + [node];
      NoDupSnoc(was, node);
      forall i | 0 <= i < |nodes| ensures LinkOk(nodes, i) {
        if i < |was| {
          assert old(LinkOk(was, i)) && nodes[i] == was[i];
          if i + 1 < |was| { assert Differ(was, i, |was| - 1); }
        }
      }
    }

    /** `listAddNodeHead`. */
    method AddNodeHead(value: T)
      requires Valid()
      modifies this, nodes`prev, nodes`next
      ensures Valid() && ValuesOf(nodes) == [value] + old(ValuesOf(nodes))
      ensures |nodes| == |old(nodes)| + 1 && nodes[1..] == old(nodes) && fresh(nodes[0])
    {
      var node := new Node(value);
      LinkNodeHead(node);
    }

    /** `listAddNodeTail`. */
    method AddNodeTail(value: T)
      requires Valid()
      modifies this, nodes`prev, nodes`next
      ensures Valid() && ValuesOf(nodes) == old(ValuesOf(nodes)) + [value]
      ensures |nodes| == |old(nodes)| + 1 && nodes[..|nodes| - 1] == old(nodes) && fresh(nodes[|nodes| - 1])
    {
      var node := new Node(value);
      LinkNodeTail(node);
    }

    /** `listInsertNode`: before or after the `k`-th node. */
    method InsertNode(oldNode: Node<T>, value: T, after: bool, ghost k: nat) returns (node: Node<T>)
      requires Valid() && k < |nodes| && nodes[k] == oldNode
      modifies this, nodes`prev, nodes`next
      ensures Valid() && fresh(node) && node.value == value
      ensures nodes == var p := if after then k + 1 else k; old(nodes)[..p] + [node] + old(nodes)[p..]
    {
      ghost var was, p := nodes, if after then k + 1 else k;
      assert LinkOk(was, k);
      node := new Node(value);
      if after {
        node.prev := oldNode;
        node.next := oldNode.next;
        LastOnly(was, k);
        if tail == oldNode { tail := node; }
      } else {
        node.next := oldNode;
        node.prev := oldNode.prev;
        FirstOnly(was, k);
        if head == oldNode { head := node; }
      }
      Splice(node, was, p);
      len := len + 1;
      nodes := was[..p] + [node] + was[p..];
      InsertedAt(was, p, node, 0);
      InsertedAt(was, p, node, |was|);
    }

    /** `listUnlinkNode`: the node keeps its value and loses its links. */
    method UnlinkNode(node: Node<T>, ghost k: nat)
      requires Valid() && k < |nodes| && nodes[k] == node
      modifies this, nodes`prev, nodes`next
      ensures Valid() && nodes == old(nodes)[..k] + old(nodes)[k + 1..] && node.prev == null && node.next == null
    {
      ghost var was := nodes;
      assert LinkOk(was, k);
      if node.prev != null { node.prev.next := node.next; } else { head := node.next; }
      if node.next != null { node.next.prev := node.prev; } else { tail := node.prev; }
      node.next := null;
      node.prev := null;
      len := len - 1;
      nodes := was[..k] + was[k + 1..];
      NoDupRemove(was, k);
      Once(was, k - 1);
      Once(was, k);
      Once(was, k + 1);
      forall i | 0 <= i < |nodes| ensures LinkOk(nodes, i) {
        RemovedAt(was, k, i - 1);
        RemovedAt(was, k, i);
        RemovedAt(was, k, i + 1);
        assert old(LinkOk(was, if i < k then i else i + 1));
      }
    }

    /** `listRotateTailToHead`. */
    method RotateTailToHead()
      requires Valid()
      modifies this, nodes`prev, nodes`next
      ensures Valid() && nodes == if |old(nodes)| <= 1 then old(nodes) else [old(nodes)[|old(nodes)| - 1]] + old(nodes)[..|old(nodes)| - 1]
    {
      if len <= 1 { return; }
      ghost var was, m := nodes, |nodes| - 1;
      assert LinkOk(was, m) && LinkOk(was, m - 1);
      var last := tail;
      tail := last.prev;
      tail.next := null;
      head.prev := last;
      last.prev := null;
      last.next := head;
      head := last;
      nodes := [was[m]] + was[..m];
      NoDupPrefix(was, m);
      NoDupBefore(was, m);
      NoDupCons(was[m], was[..m]);
      forall i | 0 <= i < |nodes| ensures LinkOk(nodes, i) {
        if i > 0 {
          assert old(LinkOk(was, i - 1)) && nodes[i] == was[i - 1];
          assert Differ(was, i - 1, m);
          if i > 1 { assert Differ(was, 0, i - 1); }
          if i < m { assert Differ(was, i - 1, m - 1); }
        }
      }
    }

    /** `listRotateHeadToTail`. */
    method RotateHeadToTail()
      requires Valid()
      modifies this, nodes`prev, nodes`next
      ensures Valid() && nodes == if |old(nodes)| <= 1 then old(nodes) else old(nodes)[1..] + [old(nodes)[0]]
    {
      if len <= 1 { return; }
      ghost var was, m := nodes, |nodes| - 1;
      assert LinkOk(was, 0) && LinkOk(was, 1);
      var first := head;
      head := first.next;
      head.prev := null;
      tail.next := first;
      first.next := null;
      first.prev := tail;
      tail := first;
      nodes := was[1..] + [was[0]];
      NoDupTail(was);
      NoDupSnoc(was[1..], was[0]);
      forall i | 0 <= i < |nodes| ensures LinkOk(nodes, i) {
        if i < m {
          assert old(LinkOk(was, i + 1)) && nodes[i] == was[i + 1];
          assert Differ(was, 0, i + 1);
          if i > 0 { assert Differ(was, 1, i + 1); }
          if i + 1 < m { assert Differ(was, i + 1, m); }
        }
      }
    }

    /** `listJoin`: the other list's nodes move to the end; it is left empty and valid. */
    method Join(o: List<T>)
      requires Valid() && o.Valid() && o != this && forall n <- o.nodes :: n !in nodes
      modifies this, nodes`next, o, o.nodes`prev
      ensures Valid() && o.Valid() && nodes == old(nodes) + old(o.nodes) && o.nodes == []
    {
      if o.len == 0 { return; }
      ghost var a, b := nodes, o.nodes;
      assert b[0] in b;
      o.head.prev := tail;
      if tail != null { tail.next := o.head; } else { head := o.head; }
      tail := o.tail;
      len := len + o.len;
      nodes := a + b;
      o.head, o.tail, o.len, o.nodes := null, null, 0, [];
      NoDupAppend(a, b);
      forall i | 0 <= i < |nodes| ensures LinkOk(nodes, i) {
        if i < |a| {
          assert old(LinkOk(a, i)) && nodes[i] == a[i] != b[0];
          if i + 1 < |a| { assert Differ(a, i, |a| - 1); }
        } else {
          assert old(LinkOk(b, i - |a|)) && nodes[i] == b[i - |a|] && b[i - |a|] in b;
          if i > |a| { assert Differ(b, 0, i - |a|); }
        }
      }
    }

    /** `listIndex`: from the head, or from the tail for a negative index; null when out of range. */
    method Index(index: int) returns (n: Node?<T>)
      requires Valid()
      ensures n == NodeAt(nodes, if index < 0 then |nodes| + index else index)
    {
      if index < 0 {
        var i := (-index) - 1;
        n := tail;
        while i != 0 && n != null
          invariant 0 <= i <= -index - 1 && n == NodeAt(nodes, |nodes| - 1 - ((-index - 1) - i))
          decreases i
        {
          assert LinkOk(nodes, |nodes| - 1 - ((-index - 1) - i));
          n := n.prev;
          i := i - 1;
        }
      } else {
        var i := index;
        n := head;
        while i != 0 && n != null
          invariant 0 <= i <= index && n == NodeAt(nodes, index - i)
          decreases i
        {
          assert LinkOk(nodes, index - i);
          n := n.next;
          i := i - 1;
        }
      }
    }

    /** `listSearchKey`: the first node whose value matches. */
    method SearchKey(matches: T -> bool) returns (node: Node?<T>)
      requires Valid()
      ensures node != null ==> exists k | 0 <= k < |nodes| :: FirstMatch(nodes, matches, k) && node == nodes[k]
      ensures node == null ==> forall n <- nodes :: !matches(n.value)
    {
      var iter := new Iter(head, true);
      ghost var k := 0;
      if |nodes| > 0 { assert LinkOk(nodes, 0); }
      node := iter.Next();
      while node != null
        invariant 0 <= k <= |nodes| && node == NodeAt(nodes, k) && iter.forward && iter.next == NodeAt(nodes, if k < |nodes| then k + 1 else k)
        invariant forall i | 0 <= i < k :: !matches(nodes[i].value)
        decreases |nodes| - k
      {
        if matches(node.value) {
          assert FirstMatch(nodes, matches, k);
          return;
        }
        k := k + 1;
        if k < |nodes| { assert LinkOk(nodes, k); }
        node := iter.Next();
      }
    }
  }

  /** What `listDup` makes of the values: null as soon as one copy fails. */
  function CopyAll<T>(dup: T -> Option<T>, vs: seq<T>): Option<seq<T>> {
    if vs == [] then Some([])
    else
      match CopyAll(dup, vs[..|vs| - 1])
      case None => None
      case Some(front) => (match dup(vs[|vs| - 1]) case None => None case Some(v) => Some(front + [v]))
  }

  lemma {:induction false} CopyPrefixFails<T>(dup: T -> Option<T>, vs: seq<T>, i: nat)
    requires i <= |vs| && CopyAll(dup, vs[..i]).None?
    ensures CopyAll(dup, vs).None?
    decreases |vs|
  {
    if i == |vs| {
      assert vs[..i] == vs;
    } else {
      assert vs[..|vs| - 1][..i] == vs[..i];
      CopyPrefixFails(dup, vs[..|vs| - 1], i);
    }
  }

  lemma CopyNext<T>(dup: T -> Option<T>, vs: seq<T>, i: nat)
    requires i < |vs|
    ensures var c, v := CopyAll(dup, vs[..i]), dup(vs[i]);
            CopyAll(dup, vs[..i + 1]) == if c.None? || v.None? then None else Some(c.value + [v.value])
  {
    assert vs[..i + 1][..i] == vs[..i];
  }

  /**
   * `listDup`: a fresh list of the copied values, or null if a copy fails; the original is not touched. The iterator
   * is on the stack: `next` is fetched before the node is copied.
   */
  method Dup<T>(orig: List<T>, dup: T -> Option<T>) returns (copy: List?<T>)
    requires orig.Valid()
    ensures copy == null <==> CopyAll(dup, ValuesOf(orig.nodes)).None?
    ensures copy != null ==> fresh(copy) && fresh(copy.nodes) && copy.Valid() && CopyAll(dup, ValuesOf(orig.nodes)) == Some(ValuesOf(copy.nodes))
  {
    var list := new List<T>();
    ghost var vs, i := ValuesOf(orig.nodes), 0;
    ghost var got: seq<T> := [];
    var node := orig.head;
    assert vs[..0] == [] && ValuesOf(list.nodes) == [];
    while node != null
      invariant i <= |vs| && node == NodeAt(orig.nodes, i)
      invariant fresh(list) && list.Valid() && fresh(list.nodes)
      invariant ValuesOf(list.nodes) == got && CopyAll(dup, vs[..i]) == Some(got)
      decreases |vs| - i
    {
      assert old(LinkOk(orig.nodes, i));
      var next := node.next;
      var v := dup(node.value);
      CopyNext(dup, vs, i);
      if v.None? {
        CopyPrefixFails(dup, vs, i + 1);
        return null;
      }
      ghost var was := list.nodes;
      list.AddNodeTail(v.value);
      assert list.nodes == was + [list.nodes[|was|]];
      got := got + [v.value];
      i := i + 1;
      node := next;
    }
    assert vs[..i] == vs;
    copy := list;
  }

  /** The first `i` nodes that a traversal keeps. */
  ghost function KeptNodes<T>(ns: seq<Node<T>>, vs: seq<T>, doomed: T -> bool, i: nat): seq<Node<T>>
    requires i <= |ns| == |vs|
  {
    if i == 0 then []
    else if doomed(vs[i - 1]) then KeptNodes(ns, vs, doomed, i - 1)
    else KeptNodes(ns, vs, doomed, i - 1) + [ns[i - 1]]
  }

  /**
   * A traversal from head to tail that deletes any of the nodes it is handed visits every element once, in order,
   * and leaves the others in place.
   */
  method TraverseDeleting<T>(list: List<T>, doomed: T -> bool) returns (visited: seq<T>)
    requires list.Valid()
    modifies list, list.nodes`prev, list.nodes`next
    ensures list.Valid() && visited == old(ValuesOf(list.nodes))
    ensures list.nodes == KeptNodes(old(list.nodes), visited, doomed, |visited|)
  {
    ghost var init, vs := list.nodes, ValuesOf(list.nodes);
    ghost var shapes := Plan(init, vs, doomed);
    visited := [];
    var iter := new Iter(list.head, true);
    while iter.next != null
      invariant fresh(iter) && iter.forward && list.Valid() && |visited| <= |init| && visited == vs[..|visited|]
      invariant list.nodes == shapes[|visited|] && iter.next == NodeAt(init, |visited|)
      decreases |init| - |visited|
    {
      ghost var k := HandOut(list.nodes, init, vs, doomed, shapes, |visited|);
      var node := iter.Next();
      visited := visited + [node.value];
      if doomed(node.value) {
        assert forall j | 0 <= j < |list.nodes| :: list.nodes[j] in init;
        list.UnlinkNode(node, k);
      }
    }
    assert visited == vs;
  }

  ghost predicate PlannedAt<T>(ns: seq<Node<T>>, vs: seq<T>, doomed: T -> bool, shapes: seq<seq<Node<T>>>, i: nat)
    requires |ns| == |vs| && i < |shapes| == |ns| + 1
  {
    shapes[i] == KeptNodes(ns, vs, doomed, i) + ns[i..]
  }

  /** The nodes in the list after each turn of the traversal. */
  ghost predicate Planned<T>(ns: seq<Node<T>>, vs: seq<T>, doomed: T -> bool, shapes: seq<seq<Node<T>>>) {
    |ns| == |vs| && |shapes| == |ns| + 1 && forall i | 0 <= i < |shapes| :: PlannedAt(ns, vs, doomed, shapes, i)
  }

  lemma Plan<T>(ns: seq<Node<T>>, vs: seq<T>, doomed: T -> bool) returns (shapes: seq<seq<Node<T>>>)
    requires |ns| == |vs|
    ensures Planned(ns, vs, doomed, shapes) && shapes[0] == ns && shapes[|ns|] == KeptNodes(ns, vs, doomed, |ns|)
  {
    shapes := seq(|ns| + 1, i requires 0 <= i <= |ns| => KeptNodes(ns, vs, doomed, i) + ns[i..]);
  }

  lemma {:induction false} KeptMembers<T>(ns: seq<Node<T>>, vs: seq<T>, doomed: T -> bool, i: nat)
    requires i <= |ns| == |vs|
    ensures forall n <- KeptNodes(ns, vs, doomed, i) :: n in ns
  {
    if i > 0 { KeptMembers(ns, vs, doomed, i - 1); }
  }

  /** The node handed out next, its successor, and the list afterwards. */
  lemma HandOut<T>(ns: seq<Node<T>>, init: seq<Node<T>>, vs: seq<T>, doomed: T -> bool, shapes: seq<seq<Node<T>>>, i: nat) returns (k: nat)
    requires i < |init| && Planned(init, vs, doomed, shapes) && ns == shapes[i] && Chain(ns)
    ensures k < |ns| && ns[k] == init[i] && init[i].next == NodeAt(init, i + 1) && forall n <- ns :: n in init
    ensures shapes[i + 1] == if doomed(vs[i]) then ns[..k] + ns[k + 1..] else ns
  {
    var kept := KeptNodes(init, vs, doomed, i);
    k := |kept|;
    assert PlannedAt(init, vs, doomed, shapes, i) && PlannedAt(init, vs, doomed, shapes, i + 1);
    KeptMembers(init, vs, doomed, i);
    assert LinkOk(ns, k);
    assert NodeAt(ns, k + 1) == NodeAt(init, i + 1);
    assert init[i..] == [init[i]] + init[i + 1..];
    assert kept + ([init[i]] + init[i + 1..]) == kept + [init[i]] + init[i + 1..];
  }

  /** The end of `listInsertNode`: the neighbours of the new node are pointed at it. */
  method Splice<T>(node: Node<T>, ghost was: seq<Node<T>>, ghost p: nat)
    requires Chain(was) && p <= |was| && node !in was && node.prev == NodeAt(was, p - 1) && node.next == NodeAt(was, p)
    modifies was`prev, was`next
    ensures Chain(was[..p] + [node] + was[p..])
  {
    if node.prev != null { node.prev.next := node; }
    if node.next != null { node.next.prev := node; }
    ghost var nodes := was[..p] + [node] + was[p..];
    NoDupInsert(was, p, node);
    Once(was, p - 1);
    Once(was, p);
    forall i | 0 <= i < |nodes| ensures LinkOk(nodes, i) {
      InsertedAt(was, p, node, i - 1);
      InsertedAt(was, p, node, i);
      InsertedAt(was, p, node, i + 1);
      if i != p { assert old(LinkOk(was, if i < p then i else i - 1)); }
    }
  }

  /** `listIter`. */
  class Iter<T> {
    var next: Node?<T>
    const forward: bool

    constructor (start: Node?<T>, fwd: bool)
      ensures next == start && forward == fwd
    {
      next, forward := start, fwd;
    }

    /** `listNext`: the successor is fetched before the node is handed out. */
    method Next() returns (current: Node?<T>)
      modifies this
      ensures current == old(next) && next == if current == null then null else if forward then current.next else current.prev
    {
      current := next;
      if current != null {
        if forward { next := current.next; } else { next := current.prev; }
      }
    }
  }

  lemma FirstOnly<T>(ns: seq<Node<T>>, k: nat)
    requires NoDup(ns) && k < |ns|
    ensures ns[0] == ns[k] <==> k == 0
  {
    if k > 0 { assert Differ(ns, 0, k); }
  }

  lemma LastOnly<T>(ns: seq<Node<T>>, k: nat)
    requires NoDup(ns) && k < |ns|
    ensures ns[|ns| - 1] == ns[k] <==> k == |ns| - 1
  {
    if k < |ns| - 1 { assert Differ(ns, k, |ns| - 1); }
  }

  lemma RemovedAt<T>(ns: seq<Node<T>>, k: nat, i: int)
    requires k < |ns|
    ensures NodeAt(ns[..k] + ns[k + 1..], i) == NodeAt(ns, if i < k then i else i + 1)
  {
  }

  lemma InsertedAt<T>(ns: seq<Node<T>>, p: nat, node: Node<T>, i: int)
    requires p <= |ns|
    ensures NodeAt(ns[..p] + [node] + ns[p..], i) == if i == p then node else NodeAt(ns, if i < p then i else i - 1)
  {
  }

  lemma NoDupInsert<T>(xs: seq<T>, p: nat, x: T)
    requires NoDup(xs) && p <= |xs| && x !in xs
    ensures NoDup(xs[..p] + [x] + xs[p..])
  {
    var m := xs[..p] + [x] + xs[p..];
    forall i, j | 0 <= i < j < |m| ensures Differ(m, i, j) {
      var i', j' := if i < p then i else i - 1, if j < p then j else j - 1;
      if i != p && j != p { assert Differ(xs, i', j') && m[i] == xs[i'] && m[j] == xs[j']; }
      else if i == p { assert m[j] == xs[j']; } else { assert m[i] == xs[i']; }
    }
  }

  /** A node stands at one place only. */
  lemma Once<T>(xs: seq<T>, k: int)
    requires NoDup(xs)
    ensures 0 <= k < |xs| ==> forall j | 0 <= j < |xs| && j != k :: xs[j] != xs[k]
  {
    if 0 <= k < |xs| {
      forall j | 0 <= j < |xs| && j != k ensures xs[j] != xs[k] {
        assert if j < k then Differ(xs, j, k) else Differ(xs, k, j);
      }
    }
  }

  lemma NoDupRemove<T>(xs: seq<T>, k: nat)
    requires NoDup(xs) && k < |xs|
    ensures NoDup(xs[..k] + xs[k + 1..])
  {
    var m := xs[..k] + xs[k + 1..];
    forall i, j | 0 <= i < j < |m| ensures Differ(m, i, j) {
      assert Differ(xs, if i < k then i else i + 1, if j < k then j else j + 1);
    }
  }

  lemma NoDupAppend<T>(a: seq<T>, b: seq<T>)
    requires NoDup(a) && NoDup(b) && forall x <- b :: x !in a
    ensures NoDup(a + b)
  {
    var m := a + b;
    forall i, j | 0 <= i < j < |m| ensures Differ(m, i, j) {
      if j < |a| { assert Differ(a, i, j); }
      else if i >= |a| { assert Differ(b, i - |a|, j - |a|); }
      else { assert m[j] in b && m[i] in a; }
    }
  }

  lemma NoDupCons<T>(x: T, xs: seq<T>)
    requires NoDup(xs) && x !in xs
    ensures NoDup([x] + xs)
  {
    var ys := [x] + xs;
    forall i, j | 0 <= i < j < |ys| ensures Differ(ys, i, j) {
      if i > 0 { assert Differ(xs, i - 1, j - 1); } else { assert ys[j] == xs[j - 1]; }
    }
  }
}
