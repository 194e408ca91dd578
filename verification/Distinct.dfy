/** Lists without repetition. */
module Distinct {

  predicate Differ<T(==)>(xs: seq<T>, i: nat, j: nat)
    requires i < j < |xs|
  {
    xs[i] != xs[j]
  }

  predicate NoDup<T(==)>(xs: seq<T>) {
    forall i, j | 0 <= i < j < |xs| :: Differ(xs, i, j)
  }

  lemma NoDupBefore<T>(xs: seq<T>, j: nat)
    requires NoDup(xs) && j < |xs|
    ensures xs[j] !in xs[..j]
  {
    forall i | 0 <= i < j ensures xs[..j][i] != xs[j] { assert Differ(xs, i, j); }
  }

  lemma NoDupPrefix<T>(xs: seq<T>, n: nat)
    requires NoDup(xs) && n <= |xs|
    ensures NoDup(xs[..n])
  {
    forall i, j | 0 <= i < j < n ensures Differ(xs[..n], i, j) { assert Differ(xs, i, j); }
  }

  lemma NoDupSnoc<T>(xs: seq<T>, x: T)
    requires NoDup(xs) && x !in xs
    ensures NoDup(xs + [x])
  {
    var ys := xs + [x];
    forall i, j | 0 <= i < j < |ys| ensures Differ(ys, i, j) {
      if j < |xs| { assert Differ(xs, i, j); } else { assert ys[i] in xs; }
    }
  }

  /** An element stands once. */
  lemma NoDupSplit<T>(a: seq<T>, x: T, b: seq<T>)
    requires NoDup(a + [x] + b)
    ensures x !in a && x !in b
  {
    var l := a + [x] + b;
    forall i | 0 <= i < |a| ensures a[i] != x {
      assert Differ(l, i, |a|);
      assert l[i] == a[i];
    }
    forall i | 0 <= i < |b| ensures b[i] != x {
      assert Differ(l, |a|, |a| + 1 + i);
      assert l[|a| + 1 + i] == b[i];
    }
  }

  lemma NoDupTail<T>(xs: seq<T>)
    requires xs != [] && NoDup(xs)
    ensures xs[0] !in xs[1..] && NoDup(xs[1..])
  {
    forall i | 0 <= i < |xs| - 1 ensures xs[1..][i] != xs[0] { assert Differ(xs, 0, i + 1); }
    forall i, j | 0 <= i < j < |xs| - 1 ensures Differ(xs[1..], i, j) { assert Differ(xs, i + 1, j + 1); }
  }
}
