// Every tree the parser yields meets what HASWIDTH enforces, so that no pattern repeats an atom
// that could be empty without limit.
module RegexSized {
  import opened RegexSyntax
  import opened RegexSemantics
  import opened RegexParse
  import opened RegexLists
  import opened RegexWidth

  lemma LeafSized(pat: string, i: nat, nsub: nat)
    requires i < |pat| && !IsMeta(pat[i]) && pat[i] != '\0' && ParseLeaf(pat, i, nsub).Good?
    ensures SizedAtom(ParseLeaf(pat, i, nsub).v)
  {
    hide LitRun, ClassWords;
  }

  lemma {:induction false} AtomSized(pat: string, i: nat, nsub: nat)
    requires i <= |pat| && ParseAtom(pat, i, nsub).Good?
    ensures SizedAtom(ParseAtom(pat, i, nsub).v)
    decreases |pat| - i, 1
  {
    hide ParseLeaf, ParseAlts, SetItems;
    var c := Peek(pat, i);
    if c == '(' {
      var plain := Peek(pat, i + 1) == '?' && Peek(pat, i + 2) == ':';
      AltsSized(pat, if plain then i + 3 else i + 1, if plain then nsub else nsub + 1);
    } else if i < |pat| && !IsMeta(c) && c != '\0' {
      LeafSized(pat, i, nsub);
    }
  }

  lemma {:induction false} PieceSized(pat: string, i: nat, nsub: nat)
    requires i <= |pat| && ParsePiece(pat, i, nsub).Good?
    ensures SizedPiece(ParsePiece(pat, i, nsub).v)
    decreases |pat| - i, 2
  {
    hide ParseAtom, SizedAtom, WidthAtom, StrToUl, CheckCount;
    AtomSized(pat, i, nsub);
  }

  lemma {:induction false} PiecesSized(pat: string, i: nat, nsub: nat)
    requires i <= |pat| && ParsePieces(pat, i, nsub).Good?
    ensures SizedPieces(ParsePieces(pat, i, nsub).v)
    decreases |pat| - i, 3
  {
    hide ParsePiece, SizedPiece, EndsBranch;
    if !EndsBranch(pat, i) {
      PieceSized(pat, i, nsub);
      var p := ParsePiece(pat, i, nsub);
      PiecesSized(pat, p.at, p.nsub);
    }
  }

  lemma {:induction false} AltsSized(pat: string, i: nat, nsub: nat)
    requires i <= |pat| && ParseAlts(pat, i, nsub).Good?
    ensures SizedAlts(ParseAlts(pat, i, nsub).v)
    decreases |pat| - i, 4
  {
    hide ParsePieces, SizedPieces;
    PiecesSized(pat, i, nsub);
    var b := ParsePieces(pat, i, nsub);
    if Peek(pat, b.at) == '|' {
      AltsSized(pat, b.at + 1, b.nsub);
    }
  }

  /** In a pattern that compiles, only ? follows what the compiler does not call wide. Where no repeat
      has a negative minimum, what it calls wide never matches the empty string: each of its ends lies
      beyond where it began. */
  lemma CompiledWidth(pat: string, s: string, i: nat)
    requires ParseRegex(pat).Good? && i <= |s|
    ensures var alts := ParseRegex(pat).v;
            SizedAlts(alts) && (CountedAlts(alts) ==> Within(EndsAlts(alts, s, i), i + Step(WidthAlts(alts)), s))
  {
    hide ParseAlts, SizedAlts, CountedAlts, WidthAlts, EndsAlts, Within;
    AltsSized(pat, 0, 0);
    if CountedAlts(ParseRegex(pat).v) {
      AltsWidth(ParseRegex(pat).v, s, i);
    }
  }

  // ---- a negative minimum

  const A_MINUS := Repeat(Lit(['a' as int]), -1, -1, false)
  const A_GROUP := Group(1, Last(Cons(A_MINUS, Nil)))

  lemma CountRead(pat: string, i: nat)
    requires i + 3 < |pat| && pat[i..i + 4] == "{-1}"
    ensures ParseCount(pat, i) == Good(Bounds(-1, -1), i + 3, 0)
  {
    assert pat[i] == '{' && pat[i + 1] == '-' && pat[i + 2] == '1' && pat[i + 3] == '}';
    assert SkipSpace(pat, i + 1) == i + 1;
    assert DigitsEnd(pat, i + 3) == i + 3;
    assert DigitsEnd(pat, i + 2) == i + 3;
    assert pat[i + 2..i + 3] == "1" && "1"[..0] == "";
    assert Decimal("1") == 1;
    assert StrToUl(pat, i + 1) == (-1, i + 3);
  }

  lemma LetterRead(pat: string, i: nat, nsub: nat)
    requires i + 1 < |pat| && pat[i] == 'a' && pat[i + 1] == '{'
    ensures ParseAtom(pat, i, nsub) == Good(Lit(['a' as int]), i + 1, nsub)
  {
    hide ParseSet, ParseGroup, DecodeEscape;
    assert LitRun(pat, i, false) == Good(['a' as int], i + 1, 0);
  }

  lemma PieceRead(pat: string, i: nat, nsub: nat)
    requires i + 4 < |pat| && pat[i..i + 5] == "a{-1}" && EndsBranch(pat, i + 5)
    ensures ParsePieces(pat, i, nsub) == Good(Cons(A_MINUS, Nil), i + 5, nsub)
  {
    assert pat[i] == 'a' && pat[i + 1] == '{';
    assert pat[i + 1..i + 5] == pat[i..i + 5][1..] == "{-1}";
    CountRead(pat, i + 1);
    LetterRead(pat, i, nsub);
    hide ParseCount, ParseAtom;
    assert ParsePiece(pat, i, nsub) == Good(A_MINUS, i + 5, nsub);
    hide ParsePiece;
    assert ParsePieces(pat, i + 5, nsub) == Good(Nil, i + 5, nsub);
  }

  /** `a{-1}` compiles, is called wide and matches the empty string. */
  lemma MinusWide()
    ensures var alts := Last(Cons(A_MINUS, Nil));
            && ParseRegex("a{-1}") == Good(alts, 5, 0)
            && WidthAlts(alts) && !CountedAlts(alts) && EndsAlts(alts, "", 0) == [0]
  {
    var pat := "a{-1}";
    var alts := Last(Cons(A_MINUS, Nil));
    assert pat[0..5] == pat;
    PieceRead(pat, 0, 0);
    hide ParsePieces;
    assert ParseAlts(pat, 0, 0) == Good(alts, 5, 0);
    MinusEnds("", 0);
  }

  lemma MinusEnds(s: string, i: nat)
    ensures EndsAlts(Last(Cons(A_MINUS, Nil)), s, i) == [i]
  {
    var b := Cons(A_MINUS, Nil);
    assert EndsPiece(A_MINUS, s, i) == [i];
    FlatMapOne(i, e => EndsPieces(Nil, s, e));
    assert EndsPieces(b, s, i) == FlatMap([i], e => EndsPieces(Nil, s, e));
  }

  lemma {:induction false} RoundsListed(min: int, max: nat)
    requires min <= 0
    ensures |EndsRepeat(A_GROUP, min, max, false, "", 0)| == max + 1
    decreases max
  {
    if max > 0 {
      MinusEnds("", 0);
      var f := (e: nat) => EndsRepeat(A_GROUP, min - 1, max - 1, false, "", e);
      assert EndsAtom(A_GROUP, "", 0) == [0];
      assert EndsRepeat(A_GROUP, min, max, false, "", 0) == FlatMap([0], f) + [0];
      FlatMapOne(0, f);
      RoundsListed(min - 1, max - 1);
    }
  }

  lemma GroupRead()
    ensures ParseRegex("(a{-1})*") == Good(Last(Cons(Repeat(A_GROUP, 0, MAX_REP_COUNT, false), Nil)), 8, 1)
  {
    var pat := "(a{-1})*";
    assert pat[1..6] == "a{-1}";
    PieceRead(pat, 1, 1);
    hide ParsePieces;
    assert ParseAlts(pat, 1, 1) == Good(Last(Cons(A_MINUS, Nil)), 6, 1);
    assert ParseAtom(pat, 0, 0) == Good(A_GROUP, 7, 1);
    GroupStar(pat);
  }

  lemma GroupStar(pat: string)
    requires pat == "(a{-1})*" && ParseAtom(pat, 0, 0) == Good(A_GROUP, 7, 1)
    ensures ParseRegex(pat) == Good(Last(Cons(Repeat(A_GROUP, 0, MAX_REP_COUNT, false), Nil)), 8, 1)
  {
    hide ParseAtom;
    assert WidthPiece(A_MINUS) && WidthPieces(Cons(A_MINUS, Nil)) && WidthAtom(A_GROUP);
    assert ParseCount(pat, 7) == Good(Bounds(0, MAX_REP_COUNT), 7, 0);
    hide ParseCount;
    var piece := Repeat(A_GROUP, 0, MAX_REP_COUNT, false);
    assert ParsePiece(pat, 0, 0) == Good(piece, 8, 1);
    hide ParsePiece;
    assert ParsePieces(pat, 8, 1) == Good(Nil, 8, 1);
    assert ParsePieces(pat, 0, 0) == Good(Cons(piece, Nil), 8, 1);
  }

  lemma {:induction false} Digits(pat: string, i: nat, e: nat)
    requires i <= e <= |pat| && !IsDigit(Peek(pat, e)) && forall j | i <= j < e :: IsDigit(pat[j])
    ensures DigitsEnd(pat, i) == e
    decreases e - i
  {
    if i < e {
      Digits(pat, i + 1, e);
    }
  }

  lemma DecimalMore(str: string, d: char, t: string)
    requires IsDigit(d) && t == str + [d]
    ensures Decimal(t) == Decimal(str) * 10 + (d as int - '0' as int)
  {
    assert t[..|str|] == str;
  }

  lemma FiveDigits()
    ensures Decimal("42949") == 42949
  {
    assert Decimal("") == 0;
    hide Decimal;
    DecimalMore("", '4', "4");
    DecimalMore("4", '2', "42");
    DecimalMore("42", '9', "429");
    DecimalMore("429", '4', "4294");
    DecimalMore("4294", '9', "42949");
  }

  lemma TenDigits(ds: string)
    requires ds == "4294967295"
    ensures Decimal(ds) == 4294967295
  {
    FiveDigits();
    hide Decimal;
    DecimalMore("42949", '6', "429496");
    DecimalMore("429496", '7', "4294967");
    DecimalMore("4294967", '2', "42949672");
    DecimalMore("42949672", '9', "429496729");
    DecimalMore("429496729", '5', "4294967295");
  }

  /** `(a{-1})*` compiles, so that a group which matches the empty string is repeated without limit: each
      further round allowed lists one more end, at the same place. */
  lemma MinusLoops(max: nat)
    ensures var alts := Last(Cons(Repeat(A_GROUP, 0, MAX_REP_COUNT, false), Nil));
            ParseRegex("(a{-1})*") == Good(alts, 8, 1)
    ensures WidthAtom(A_GROUP) && EndsAtom(A_GROUP, "", 0) == [0]
    ensures |EndsRepeat(A_GROUP, 0, max, false, "", 0)| == max + 1
  {
    GroupRead();
    MinusEnds("", 0);
    RoundsListed(0, max);
  }

  /** Without a minus sign: the count is converted to 32 bits. */
  lemma WideCount()
    ensures ParseCount("{4294967295}", 0) == Good(Bounds(-1, -1), 11, 0)
  {
    var pat := "{4294967295}";
    var ds := "4294967295";
    assert pat[1..11] == ds;
    Digits(pat, 1, 11);
    TenDigits(ds);
    assert StrToUl(pat, 1) == (-1, 11);
  }
}
