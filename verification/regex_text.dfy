// Patterns that are plain text: every character stands for itself, and a search finds the text where it
// stands in the subject.
module RegexText {
  import opened RegexSyntax
  import opened RegexSemantics
  import opened RegexLists
  import opened RegexParse
  import opened RegexSearch

  /** Text without a character that has a meaning in a pattern. */
  predicate PlainText(t: string) {
    t != "" && forall i | 0 <= i < |t| :: t[i] !in "^$.[()|?{+*\\\0"
  }

  function Codes(t: string): (cs: seq<int>)
    ensures |cs| == |t| && forall i | 0 <= i < |t| :: cs[i] == t[i] as int
  {
    if t == "" then [] else [t[0] as int] + Codes(t[1..])
  }

  /** The expression that is just the text. */
  function TextAlts(t: string): Alts {
    Last(Cons(Once(Lit(Codes(t))), Nil))
  }

  // ---- what it is read as

  lemma {:induction false} RunRead(pat: string, i: nat, added: bool)
    requires i <= |pat| && forall j | i <= j < |pat| :: pat[j] !in "^$.[()|?{+*\\\0"
    ensures LitRun(pat, i, added) == Good(Codes(pat[i..]), |pat|, 0)
    decreases |pat| - i
  {
    if i < |pat| {
      RunRead(pat, i + 1, true);
      assert pat[i..][1..] == pat[i + 1..];
      assert LitChar(pat, i) == (1, pat[i] as int);
      assert !IsMult(Peek(pat, i + 1));
    }
  }

  /** Plain text is read as one literal: the code at each place is that of the character there. */
  lemma TextRead(t: string)
    requires PlainText(t)
    ensures ParseRegex(t) == Good(TextAlts(t), |t|, 0)
  {
    TextLeaf(t);
    LeafRead(t);
    SingleRead(t, Lit(Codes(t)));
  }

  /** A pattern that is one atom. */
  lemma SingleRead(pat: string, a: Atom)
    requires !EndsBranch(pat, 0) && ParseAtom(pat, 0, 0) == Good(a, |pat|, 0)
    ensures ParseRegex(pat) == Good(Last(Cons(Once(a), Nil)), |pat|, 0)
  {
    hide ParseAtom;
    assert ParsePiece(pat, 0, 0) == Good(Once(a), |pat|, 0);
    hide ParsePiece;
    assert ParsePieces(pat, |pat|, 0) == Good(Nil, |pat|, 0);
    assert ParsePieces(pat, 0, 0) == Good(Cons(Once(a), Nil), |pat|, 0);
  }

  /** No other construct starts with such a character. */
  lemma LeafRead(t: string)
    requires t != "" && !IsMeta(t[0]) && t[0] != '\0'
    ensures ParseAtom(t, 0, 0) == ParseLeaf(t, 0, 0) && !EndsBranch(t, 0)
  {
    hide ParseLeaf, ParseSet, ParseGroup;
  }

  lemma TextLeaf(t: string)
    requires PlainText(t)
    ensures !IsMeta(t[0]) && t[0] != '\0' && ParseLeaf(t, 0, 0) == Good(Lit(Codes(t)), |t|, 0)
  {
    RunRead(t, 0, false);
    assert t[0..] == t;
    hide LitRun;
    assert t[0] != '\\';
  }

  // ---- where it matches

  ghost predicate Occurs(t: string, s: string, i: nat) {
    i + |t| <= |s| && s[i..i + |t|] == t
  }

  lemma {:induction false} LitOccurs(t: string, s: string, i: nat)
    requires t != ""
    ensures LitHere(Codes(t), s, i) <==> Occurs(t, s, i)
    decreases |t|
  {
    assert Codes(t)[1..] == Codes(t[1..]);
    if i < |s| {
      OccursSplit(t, s, i);
      if |t| > 1 {
        LitOccurs(t[1..], s, i + 1);
      }
    }
  }

  lemma OccursSplit(t: string, s: string, i: nat)
    requires t != "" && i < |s|
    ensures Occurs(t, s, i) <==> s[i] == t[0] && Occurs(t[1..], s, i + 1)
  {
    if i + |t| <= |s| {
      assert s[i..i + |t|] == [s[i]] + s[i + 1..i + |t|];
      assert t == [t[0]] + t[1..];
    }
  }

  lemma TextEnds(t: string, s: string, i: nat)
    requires t != ""
    ensures EndsAlts(TextAlts(t), s, i) == if Occurs(t, s, i) then [i + |t|] else []
  {
    LitOccurs(t, s, i);
    AtomAlone(Lit(Codes(t)), s, i);
  }

  /** An expression that is one atom ends where the atom does. */
  lemma AtomAlone(a: Atom, s: string, i: nat)
    ensures EndsAlts(Last(Cons(Once(a), Nil)), s, i) == EndsAtom(a, s, i)
  {
    var xs := EndsAtom(a, s, i);
    var b := Cons(Once(a), Nil);
    assert EndsPiece(Once(a), s, i) == xs;
    assert EndsPieces(b, s, i) == FlatMap(xs, e => EndsPieces(Nil, s, e));
    FlatMapUnit(xs);
    FlatMapSame(xs, e => EndsPieces(Nil, s, e), e => [e]);
  }

  lemma TextPlain(t: string)
    requires PlainText(t)
    ensures PlainAlts(TextAlts(t))
  {
    AtomPlain(Lit(Codes(t)));
  }

  lemma AtomPlain(a: Atom)
    requires PlainAtom(a)
    ensures PlainAlts(Last(Cons(Once(a), Nil)))
  {
    assert PlainPieces(Nil) && PlainPiece(Once(a));
  }

  /** Compiled and run, plain text is found exactly where it stands in the subject, the leftmost place. */
  method SearchText(t: string, s: string) returns (found: bool, so: nat, eo: nat)
    requires PlainText(t)
    ensures found <==> exists i: nat :: Occurs(t, s, i)
    ensures found ==> Occurs(t, s, so) && eo == so + |t| && forall i: nat | Occurs(t, s, i) :: so <= i
  {
    TextRead(t);
    TextPlain(t);
    assert t != "";
    hide ParseRegex, PlainText, PlainAlts, TextAlts, Occurs, EndsAlts;
    found, so, eo := SearchPlain(t, TextAlts(t), s);
    forall i: nat
      ensures EndsAlts(TextAlts(t), s, i) == if Occurs(t, s, i) then [i + |t|] else []
    {
      TextEnds(t, s, i);
    }
    OccursIn(t, s);
  }

  lemma OccursIn(t: string, s: string)
    ensures forall i: nat | Occurs(t, s, i) :: i <= |s|
  {
  }
}
