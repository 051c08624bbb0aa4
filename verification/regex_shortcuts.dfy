// The three hints jim_regcomp extracts from a program with one top-level alternative, and why
// acting on them never changes the outcome of a search.
module RegexShortcuts {
  import opened RegexSyntax
  import opened RegexSemantics

  /** The character every match starts with; 0 when none is known. */
  function StartChar(alts: Alts): int {
    if alts.Last? && alts.b.Cons? && alts.b.p.Once? && alts.b.p.a.Lit? && |alts.b.p.a.cs| > 0
    then alts.b.p.a.cs[0]
    else 0
  }

  /** Does the expression start with ^ ? */
  predicate Anchored(alts: Alts) {
    alts.Last? && alts.b.Cons? && alts.b.p == Once(Zero(BOL))
  }

  /** Is cs one of the literals on the top level of b? */
  ghost predicate TopLiteral(b: Pieces, cs: seq<int>) {
    b.Cons? && (b.p == Once(Lit(cs)) || TopLiteral(b.ps, cs))
  }

  lemma StartSound(alts: Alts, s: string, i: nat)
    requires StartChar(alts) != 0
    requires i >= |s| || CodeAt(s, i) != StartChar(alts)
    ensures EndsAlts(alts, s, i) == []
  {
    assert EndsPiece(alts.b.p, s, i) == [];
  }

  lemma AnchorSound(alts: Alts, s: string, i: nat)
    requires Anchored(alts) && i > 0
    ensures EndsAlts(alts, s, i) == []
  {
    assert EndsPiece(alts.b.p, s, i) == [];
  }

  lemma FlatMapEmpty(xs: seq<nat>, f: nat -> seq<nat>)
    requires FlatMap(xs, f) != []
    ensures exists x :: x in xs && f(x) != []
  {
    if xs != [] && f(xs[0]) == [] {
      FlatMapEmpty(xs[1..], f);
    }
  }

  lemma LiteralHere(cs: seq<int>, s: string, i: nat)
    requires EndsPiece(Once(Lit(cs)), s, i) != [] && cs != []
    ensures i < |s| && LitHere(cs, s, i)
  {
    assert EndsPiece(Once(Lit(cs)), s, i) == EndsAtom(Lit(cs), s, i);
    assert LitHere(cs, s, i);
  }

  /** Every match runs through each top-level literal. */
  lemma {:induction false} LiteralOnPath(b: Pieces, cs: seq<int>, s: string, i: nat)
    requires TopLiteral(b, cs) && cs != []
    requires EndsPieces(b, s, i) != []
    ensures exists j: nat :: j < |s| && LitHere(cs, s, j)
    decreases b
  {
    var f := (e: nat) => EndsPieces(b.ps, s, e);
    assert EndsPieces(b, s, i) == FlatMap(EndsPiece(b.p, s, i), f);
    FlatMapEmpty(EndsPiece(b.p, s, i), f);
    if b.p == Once(Lit(cs)) {
      LiteralHere(cs, s, i);
    } else {
      var x: nat :| x in EndsPiece(b.p, s, i) && f(x) != [];
      LiteralOnPath(b.ps, cs, s, x);
    }
  }
}
