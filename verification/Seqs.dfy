/** Sequences of distinct identifiers: selection by a set, and removal of one element. */
module Seqs {

  ghost predicate NoDup(xs: seq<nat>) {
    forall i, j :: 0 <= i < j < |xs| ==> xs[i] != xs[j]
  }

  function Elems(xs: seq<nat>): (r: set<nat>)
    ensures forall x :: x in r <==> x in xs
  {
    set x | x in xs
  }

  /** The elements of `xs` that lie in `keep`, in order. */
  function Sel(xs: seq<nat>, keep: set<nat>): (r: seq<nat>)
    ensures forall x :: x in r <==> x in xs && x in keep
    ensures |r| <= |xs|
  {
    if xs == [] then []
    else
      var x := xs[|xs| - 1];
      var rest := Sel(xs[..|xs| - 1], keep);
      assert xs == xs[..|xs| - 1] + [x];
      if x in keep then rest + [x] else rest
  }

  /** `erase` of the first match, as in a search loop that stops when it finds one. */
  function EraseFirst(xs: seq<nat>, c: nat): seq<nat> {
    if xs == [] then []
    else if xs[0] == c then xs[1..]
    else [xs[0]] + EraseFirst(xs[1..], c)
  }

  lemma SelSnoc(xs: seq<nat>, x: nat, keep: set<nat>)
    ensures Sel(xs + [x], keep) == Sel(xs, keep) + (if x in keep then [x] else [])
  {
    assert (xs + [x])[..|xs|] == xs;
  }

  lemma {:induction false} SelAgree(xs: seq<nat>, a: set<nat>, b: set<nat>)
    requires forall x :: x in xs ==> (x in a <==> x in b)
    ensures Sel(xs, a) == Sel(xs, b)
  {
    if xs != [] {
      assert xs[|xs| - 1] in xs;
      assert forall x :: x in xs[..|xs| - 1] ==> x in xs;
      SelAgree(xs[..|xs| - 1], a, b);
    }
  }

  lemma {:induction false} SelAll(xs: seq<nat>, keep: set<nat>)
    requires forall x :: x in xs ==> x in keep
    ensures Sel(xs, keep) == xs
  {
    if xs != [] {
      assert xs == xs[..|xs| - 1] + [xs[|xs| - 1]];
      SelAll(xs[..|xs| - 1], keep);
    }
  }

  lemma {:induction false} SelTwice(xs: seq<nat>, a: set<nat>, b: set<nat>)
    ensures Sel(Sel(xs, a), b) == Sel(xs, a * b)
  {
    if xs != [] {
      var x := xs[|xs| - 1];
      SelTwice(xs[..|xs| - 1], a, b);
      SelSnoc(Sel(xs[..|xs| - 1], a), x, b);
    }
  }

  lemma {:induction false} SelNoDup(xs: seq<nat>, keep: set<nat>)
    requires NoDup(xs)
    ensures NoDup(Sel(xs, keep))
  {
    if xs != [] {
      SelNoDup(xs[..|xs| - 1], keep);
      assert xs[|xs| - 1] !in xs[..|xs| - 1];
    }
  }

  /** Dropping the elements of a prefix of distinct elements leaves the suffix. */
  lemma {:induction false} SelSuffix(xs: seq<nat>, n: nat, keep: set<nat>)
    requires NoDup(xs) && n <= |xs|
    requires forall i :: 0 <= i < |xs| ==> (xs[i] in keep <==> n <= i)
    ensures Sel(xs, keep) == xs[n..]
  {
    if xs == [] {
    } else if n == |xs| {
      SelSuffix(xs[..n - 1], n - 1, keep);
    } else {
      SelSuffix(xs[..|xs| - 1], n, keep);
      assert xs[n..] == xs[..|xs| - 1][n..] + [xs[|xs| - 1]];
    }
  }

  lemma {:induction false} EraseAbsent(xs: seq<nat>, c: nat)
    requires c !in xs
    ensures EraseFirst(xs, c) == xs
  {
    if xs != [] {
      assert forall x :: x in xs[1..] ==> x in xs;
      EraseAbsent(xs[1..], c);
    }
  }

  lemma {:induction false} EraseSnoc(xs: seq<nat>, x: nat, c: nat)
    requires NoDup(xs + [x])
    ensures EraseFirst(xs + [x], c) == if x == c then xs else EraseFirst(xs, c) + [x]
  {
    if xs == [] {
      assert ([] + [x])[1..] == [];
    } else {
      assert (xs + [x])[1..] == xs[1..] + [x];
      assert (xs + [x])[0] == xs[0];
      if xs[0] == c {
        assert (xs + [x])[|xs|] == x;
      } else {
        assert NoDup(xs[1..] + [x]) by { assert forall i :: 0 <= i < |xs| ==> (xs[1..] + [x])[i] == (xs + [x])[i + 1]; }
        EraseSnoc(xs[1..], x, c);
        if x == c { assert [xs[0]] + xs[1..] == xs; }
      }
    }
  }

  /** Erasing one of a list of distinct elements is selecting the others. */
  lemma {:induction false} EraseIsSel(xs: seq<nat>, c: nat, keep: set<nat>)
    requires NoDup(xs)
    requires forall x :: x in xs ==> (x in keep <==> x != c)
    ensures EraseFirst(xs, c) == Sel(xs, keep)
  {
    if xs != [] {
      var init, x := xs[..|xs| - 1], xs[|xs| - 1];
      assert xs == init + [x];
      EraseSnoc(init, x, c);
      assert forall y :: y in init ==> y in xs;
      EraseIsSel(init, c, keep);
      if x == c {
        assert c !in init;
        EraseAbsent(init, c);
      }
    }
  }

  /** Appending `c` to a selection and cutting off its first `n` elements is the selection
      that no longer admits them. */
  lemma EvictOldest(order: seq<nat>, c: nat, a: set<nat>, n: nat)
    requires NoDup(Sel(order, a) + [c]) && c in a && n <= |Sel(order, a)| + 1
    ensures Sel(order + [c], a - Elems((Sel(order, a) + [c])[..n])) == (Sel(order, a) + [c])[n..]
  {
    var dq := Sel(order, a) + [c];
    var b := a - Elems(dq[..n]);
    SelSnoc(order, c, a);
    SelTwice(order + [c], a, b);
    assert a * b == b;
    forall i | 0 <= i < |dq| ensures dq[i] in b <==> n <= i {
      assert dq[i] in dq;
      if i < n {
        assert dq[i] == dq[..n][i];
      } else {
        assert forall j :: 0 <= j < n ==> dq[..n][j] == dq[j] != dq[i];
      }
    }
    SelSuffix(dq, n, b);
  }

  lemma EraseOne(order: seq<nat>, c: nat, a: set<nat>)
    requires NoDup(order)
    ensures EraseFirst(Sel(order, a), c) == Sel(order, a - {c})
  {
    SelNoDup(order, a);
    EraseIsSel(Sel(order, a), c, a - {c});
    SelTwice(order, a, a - {c});
    assert a * (a - {c}) == a - {c};
  }
}
