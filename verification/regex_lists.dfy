// Laws of FlatMap: enough to regroup "match this, then that" however the program walks it.
module RegexLists {
  import opened RegexSemantics

  lemma {:induction false} FlatMapSame(xs: seq<nat>, f: nat -> seq<nat>, g: nat -> seq<nat>)
    requires forall x | x in xs :: f(x) == g(x)
    ensures FlatMap(xs, f) == FlatMap(xs, g)
  {
    if xs != [] {
      FlatMapSame(xs[1..], f, g);
    }
  }

  lemma {:induction false} FlatMapAppend(xs: seq<nat>, ys: seq<nat>, f: nat -> seq<nat>)
    ensures FlatMap(xs + ys, f) == FlatMap(xs, f) + FlatMap(ys, f)
  {
    if xs == [] {
      assert xs + ys == ys;
    } else {
      assert (xs + ys)[1..] == xs[1..] + ys;
      FlatMapAppend(xs[1..], ys, f);
    }
  }

  lemma FlatMapOne(x: nat, f: nat -> seq<nat>)
    ensures FlatMap([x], f) == f(x)
  {
    assert FlatMap([x][1..], f) == [];
  }

  lemma {:induction false} FlatMapUnit(xs: seq<nat>)
    ensures FlatMap(xs, e => [e]) == xs
  {
    if xs != [] {
      FlatMapUnit(xs[1..]);
      assert xs == [xs[0]] + xs[1..];
    }
  }

  /** Two nested passes are one pass over the inner results. */
  lemma {:induction false} FlatMapAssoc(xs: seq<nat>, f: nat -> seq<nat>, g: nat -> seq<nat>)
    ensures FlatMap(FlatMap(xs, f), g) == FlatMap(xs, e => FlatMap(f(e), g))
  {
    if xs != [] {
      FlatMapAppend(f(xs[0]), FlatMap(xs[1..], f), g);
      FlatMapAssoc(xs[1..], f, g);
    }
  }

  lemma {:induction false} InFlatMap(xs: seq<nat>, f: nat -> seq<nat>, y: nat)
    ensures y in FlatMap(xs, f) <==> exists x :: x in xs && y in f(x)
  {
    if xs != [] {
      InFlatMap(xs[1..], f, y);
      assert forall x :: x in xs <==> x == xs[0] || x in xs[1..];
    }
  }
}
