// The language reading of the same expressions: the set of ends j for which s[i..j] is a string
// the expression denotes. It has no order; repetition is the union of the powers min to max.
module RegexLanguage {
  import opened RegexSyntax
  import opened RegexSemantics
  import opened RegexLists

  /** All ends reached by going from some m in `ms` to an element of f(m). */
  ghost function Via(ms: set<nat>, f: nat -> set<nat>): set<nat> {
    set m, j | m in ms && j in f(m) :: j
  }

  ghost function Elems(xs: seq<nat>): set<nat> {
    set x | x in xs
  }

  ghost function LangAtom(a: Atom, s: string, i: nat): set<nat>
    decreases a, 0, 0
  {
    match a
    case Lit(cs) => if LitHere(cs, s, i) then {i + |cs|} else {}
    case Dot => if OneChar(a, s, i) then {i + 1} else {}
    case Class(_, _) => if OneChar(a, s, i) then {i + 1} else {}
    case Zero(op) => if ZeroHolds(op, s, i) then {i} else {}
    case Group(_, alts) => LangAlts(alts, s, i)
  }

  /** Exactly n matches of a in a row. */
  ghost function LangPower(a: Atom, n: nat, s: string, i: nat): set<nat>
    decreases a, 1, n
  {
    if n == 0 then {i}
    else Via(LangAtom(a, s, i), e => LangPower(a, n - 1, s, e))
  }

  ghost function LangPiece(p: Piece, s: string, i: nat): set<nat>
    decreases p, 0, 0
  {
    match p
    case Once(a) => LangAtom(a, s, i)
    case Repeat(a, min, max, _) => LangPowers(a, min, max, s, i)
  }

  /** Any number of matches of a in a row between min and max; where max is negative none, of a
      one-character atom only. */
  ghost function LangPowers(a: Atom, min: int, max: int, s: string, i: nat): set<nat>
    decreases a, 2
  {
    var most := if max < 0 && SimpleAtom(a) then 0 else max;
    set n, j | 0 <= n <= most && min <= n && j in LangPower(a, n, s, i) :: j
  }

  ghost function LangPieces(b: Pieces, s: string, i: nat): set<nat>
    decreases b, 0, 0
  {
    match b
    case Nil => {i}
    case Cons(p, ps) => Via(LangPiece(p, s, i), e => LangPieces(ps, s, e))
  }

  ghost function LangAlts(alts: Alts, s: string, i: nat): set<nat>
    decreases alts, 0, 0
  {
    match alts
    case Last(b) => LangPieces(b, s, i)
    case Or(b, more) => LangPieces(b, s, i) + LangAlts(more, s, i)
  }

  lemma {:induction false} FlatMapVia(xs: seq<nat>, f: nat -> seq<nat>, g: nat -> set<nat>)
    requires forall x: nat :: Elems(f(x)) == g(x)
    ensures Elems(FlatMap(xs, f)) == Via(Elems(xs), g)
  {
    forall y
      ensures y in Elems(FlatMap(xs, f)) <==> y in Via(Elems(xs), g)
    {
      InFlatMap(xs, f, y);
      if x :| x in xs && y in f(x) {
        assert x in Elems(xs) && y in Elems(f(x));
      }
      if m :| m in Elems(xs) && y in g(m) {
        assert m in xs && y in Elems(f(m));
      }
    }
  }

  lemma {:induction false} AtomLanguage(a: Atom, s: string, i: nat)
    ensures Elems(EndsAtom(a, s, i)) == LangAtom(a, s, i)
    decreases a, 0, 0
  {
    if a.Group? {
      AltsLanguage(a.alts, s, i);
    }
  }

  /** A power is peeled from the front. */
  lemma PowerStep(a: Atom, n: nat, s: string, i: nat)
    ensures LangPower(a, n + 1, s, i) == Via(LangAtom(a, s, i), (e: nat) => LangPower(a, n, s, e))
  {
    var f := (e: nat) => LangPower(a, n + 1 - 1, s, e);
    assert LangPower(a, n + 1, s, i) == Via(LangAtom(a, s, i), f);
    ViaSame(LangAtom(a, s, i), f, (e: nat) => LangPower(a, n, s, e));
  }

  lemma ViaSame(ms: set<nat>, f: nat -> set<nat>, g: nat -> set<nat>)
    requires forall m | m in ms :: f(m) == g(m)
    ensures Via(ms, f) == Via(ms, g)
  {
  }

  lemma PowersUp(a: Atom, min: int, max: nat, s: string, i: nat, m: nat, j: nat)
    requires max > 0 && m in LangAtom(a, s, i) && j in LangPowers(a, min - 1, max - 1, s, m)
    ensures j in LangPowers(a, min, max, s, i)
  {
    hide LangAtom, LangPower;
    var n: nat :| n <= max - 1 && min - 1 <= n && j in LangPower(a, n, s, m);
    PowerStep(a, n, s, i);
    var f := (e: nat) => LangPower(a, n, s, e);
    assert j in f(m);
    assert j in LangPower(a, n + 1, s, i);
  }

  lemma PowersDown(a: Atom, min: int, max: nat, s: string, i: nat, j: nat) returns (m: nat)
    requires max > 0 && j in LangPowers(a, min, max, s, i) && !(min <= 0 && j == i)
    ensures m in LangAtom(a, s, i) && j in LangPowers(a, min - 1, max - 1, s, m)
  {
    assert LangPower(a, 0, s, i) == {i};
    hide LangAtom, LangPower;
    var n: nat :| n <= max && min <= n && j in LangPower(a, n, s, i);
    PowerStep(a, n - 1, s, i);
    var f := (e: nat) => LangPower(a, n - 1, s, e);
    m :| m in LangAtom(a, s, i) && j in f(m);
  }

  /** Between min and max repetitions: none if allowed, or one and then one fewer. */
  lemma PowersStep(a: Atom, min: int, max: nat, s: string, i: nat)
    requires max > 0
    ensures LangPowers(a, min, max, s, i)
         == (if min <= 0 then {i} else {})
            + Via(LangAtom(a, s, i), (e: nat) => LangPowers(a, min - 1, max - 1, s, e))
  {
    assert min <= 0 ==> i in LangPowers(a, min, max, s, i) by {
      assert i in LangPower(a, 0, s, i);
    }
    hide LangAtom, LangPower, LangPowers;
    var f := (e: nat) => LangPowers(a, min - 1, max - 1, s, e);
    forall j
      ensures j in LangPowers(a, min, max, s, i)
              <==> (min <= 0 && j == i) || j in Via(LangAtom(a, s, i), f)
    {
      if j in LangPowers(a, min, max, s, i) && !(min <= 0 && j == i) {
        var m := PowersDown(a, min, max, s, i, j);
        assert j in f(m);
      }
      if j in Via(LangAtom(a, s, i), f) {
        var m :| m in LangAtom(a, s, i) && j in f(m);
        PowersUp(a, min, max, s, i, m, j);
      }
    }
  }

  lemma {:induction false} RepeatLanguage(a: Atom, min: int, max: int, lazy: bool, s: string, i: nat)
    ensures Elems(EndsRepeat(a, min, max, lazy, s, i)) == LangPowers(a, min, max, s, i)
    decreases a, 1, if max < 0 then 0 else max
  {
    if max <= 0 {
      NoPower(a, min, max, s, i);
    } else {
      AtomLanguage(a, s, i);
      PowersStep(a, min, max, s, i);
      hide LangAtom, LangPowers, EndsAtom;
      var f := (e: nat) => EndsRepeat(a, min - 1, max - 1, lazy, s, e);
      var g := (e: nat) => LangPowers(a, min - 1, max - 1, s, e);
      forall e: nat
        ensures Elems(f(e)) == g(e)
      {
        RepeatLanguage(a, min - 1, max - 1, lazy, s, e);
      }
      FlatMapVia(EndsAtom(a, s, i), f, g);
      ElemsOrder(FlatMap(EndsAtom(a, s, i), f), i);
    }
  }

  lemma NoPower(a: Atom, min: int, max: int, s: string, i: nat)
    requires max <= 0
    ensures LangPowers(a, min, max, s, i) == if min <= 0 && (max == 0 || SimpleAtom(a)) then {i} else {}
  {
    assert LangPower(a, 0, s, i) == {i};
  }

  lemma ElemsOrder(xs: seq<nat>, i: nat)
    ensures Elems(xs + [i]) == Elems([i] + xs) == {i} + Elems(xs)
  {
  }

  lemma {:induction false} PieceLanguage(p: Piece, s: string, i: nat)
    ensures Elems(EndsPiece(p, s, i)) == LangPiece(p, s, i)
    decreases p, 0, 0
  {
    hide EndsAtom, EndsRepeat, LangAtom, LangPowers;
    match p
    case Once(a) => AtomLanguage(a, s, i);
    case Repeat(a, min, max, lazy) => RepeatLanguage(a, min, max, lazy, s, i);
  }

  lemma {:induction false} PiecesLanguage(b: Pieces, s: string, i: nat)
    ensures Elems(EndsPieces(b, s, i)) == LangPieces(b, s, i)
    decreases b, 0, 0
  {
    if b.Cons? {
      PieceLanguage(b.p, s, i);
      forall e: nat
        ensures Elems(EndsPieces(b.ps, s, e)) == LangPieces(b.ps, s, e)
      {
        PiecesLanguage(b.ps, s, e);
      }
      FlatMapVia(EndsPiece(b.p, s, i), e => EndsPieces(b.ps, s, e), e => LangPieces(b.ps, s, e));
    }
  }

  /** Main result: for every expression the ordered list holds exactly the ends the language allows. */
  lemma {:induction false} AltsLanguage(alts: Alts, s: string, i: nat)
    ensures Elems(EndsAlts(alts, s, i)) == LangAlts(alts, s, i)
    decreases alts, 0, 0
  {
    PiecesLanguage(alts.b, s, i);
    if alts.Or? {
      AltsLanguage(alts.more, s, i);
    }
  }
}
