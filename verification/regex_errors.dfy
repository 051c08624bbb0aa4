// What the compiler makes of a count, and which patterns it refuses with which error.
module RegexErrors {
  import opened RegexSyntax
  import opened RegexParse
  import opened RegexPrint
  import opened RegexPrintBack
  import opened RegexSized
  import D = Decimals

  // ---- counts

  const LIMIT := 0x8000_0000

  lemma LastDigit(n: nat)
    ensures var d := (n % 10 + 48) as char; IsDigit(d) && d as int - '0' as int == n % 10
  {
  }

  lemma {:induction false} DecDigits(n: nat)
    ensures forall j | 0 <= j < |D.Dec(n)| :: IsDigit(D.Dec(n)[j])
    ensures Decimal(D.Dec(n)) == n
    decreases n
  {
    var up := if n < 10 then "" else D.Dec(n / 10);
    var d := (n % 10 + 48) as char;
    LastDigit(n);
    DecimalMore(up, d, D.Dec(n));
    assert Decimal("") == 0;
    hide Decimal, IsDigit;
    if n >= 10 {
      DecDigits(n / 10);
    }
  }

  /** A number, with a minus sign or without one, is read as itself where it fits in 32 bits. */
  lemma NumberBack(pat: string, i: nat, n: nat, minus: bool)
    requires n < LIMIT && Stands(pat, i, (if minus then "-" else "") + D.Dec(n))
    requires !IsDigit(Peek(pat, i + (if minus then 1 else 0) + |D.Dec(n)|))
    ensures i <= |pat|
    ensures StrToUl(pat, i).0 == (if minus then -1 else 1) * n
    ensures StrToUl(pat, i).1 == i + (if minus then 1 else 0) + |D.Dec(n)|
  {
    hide Stands, D.Dec, StrToUl;
    var b := if minus then i + 1 else i;
    StandsSplit(pat, i, if minus then "-" else "", D.Dec(n));
    if minus {
      StandsSplit(pat, i, "-", D.Dec(n));
      StandsAt(pat, i, "-", 0);
    }
    DecDigits(n);
    DigitsHere(pat, b, D.Dec(n));
    NumberRead(pat, i, minus, b, b + |D.Dec(n)|);
  }

  lemma DigitsHere(pat: string, b: nat, t: string)
    requires Stands(pat, b, t) && forall j | 0 <= j < |t| :: IsDigit(t[j])
    ensures b + |t| <= |pat| && pat[b..b + |t|] == t && forall j | b <= j < b + |t| :: IsDigit(pat[j])
  {
    assert forall j | b <= j < b + |t| :: pat[j] == pat[b..b + |t|][j - b];
  }

  lemma NumberRead(pat: string, i: nat, minus: bool, b: nat, e: nat)
    requires i <= b < e <= |pat| && b == (if minus then i + 1 else i) && (minus ==> pat[i] == '-')
    requires !IsDigit(Peek(pat, e)) && (forall j | b <= j < e :: IsDigit(pat[j])) && Decimal(pat[b..e]) < LIMIT
    ensures StrToUl(pat, i) == ((if minus then -1 else 1) * Decimal(pat[b..e]), e)
  {
    Digits(pat, b, e);
    hide DigitsEnd, Decimal;
    assert SkipSpace(pat, i) == i;
  }

  /** `{n}` */
  lemma ExactRead(pat: string, i: nat, n: nat)
    requires n < LIMIT && Stands(pat, i, "{" + D.Dec(n) + "}")
    ensures i < |pat| && pat[i] == '{'
    ensures ParseCount(pat, i) == if n < 100 then Good(Bounds(n, n), i + |D.Dec(n)| + 1, 0) else Bad(REG_ERR_BAD_COUNT)
  {
    hide Stands, StrToUl, D.Dec;
    StandsSplit(pat, i, "{" + D.Dec(n), "}");
    StandsSplit(pat, i, "{", D.Dec(n));
    StandsAt(pat, i, "{", 0);
    StandsAt(pat, i + 1 + |D.Dec(n)|, "}", 0);
    assert "" + D.Dec(n) == D.Dec(n);
    NumberBack(pat, i + 1, n, false);
  }

  /** `{n,}` */
  lemma FromRead(pat: string, i: nat, n: nat)
    requires n < LIMIT && Stands(pat, i, "{" + D.Dec(n) + ",}")
    ensures i < |pat| && pat[i] == '{'
    ensures ParseCount(pat, i) ==
            if n < 100 then Good(Bounds(n, MAX_REP_COUNT), i + |D.Dec(n)| + 2, 0) else Bad(REG_ERR_BAD_COUNT)
  {
    hide Stands, StrToUl, D.Dec;
    StandsSplit(pat, i, "{" + D.Dec(n), ",}");
    StandsSplit(pat, i, "{", D.Dec(n));
    StandsAt(pat, i, "{", 0);
    var j := i + 1 + |D.Dec(n)|;
    StandsAt(pat, j, ",}", 0);
    StandsAt(pat, j, ",}", 1);
    assert "" + D.Dec(n) == D.Dec(n);
    NumberBack(pat, i + 1, n, false);
    NoNumber(pat, j + 1);
  }

  /** `{m,n}` */
  lemma BetweenRead(pat: string, i: nat, m: nat, n: nat)
    requires m < LIMIT && n < LIMIT && Stands(pat, i, "{" + D.Dec(m) + "," + D.Dec(n) + "}")
    ensures i < |pat| && pat[i] == '{'
    ensures ParseCount(pat, i) ==
            if m <= n < 100 then Good(Bounds(m, n), i + |D.Dec(m)| + |D.Dec(n)| + 2, 0) else Bad(REG_ERR_BAD_COUNT)
  {
    hide Stands, StrToUl, D.Dec;
    StandsSplit(pat, i, "{" + D.Dec(m) + "," + D.Dec(n), "}");
    StandsSplit(pat, i, "{" + D.Dec(m) + ",", D.Dec(n));
    StandsSplit(pat, i, "{" + D.Dec(m), ",");
    StandsSplit(pat, i, "{", D.Dec(m));
    StandsAt(pat, i, "{", 0);
    var j := i + 1 + |D.Dec(m)|;
    StandsAt(pat, j, ",", 0);
    StandsAt(pat, j + 1 + |D.Dec(n)|, "}", 0);
    assert "" + D.Dec(m) == D.Dec(m) && "" + D.Dec(n) == D.Dec(n);
    NumberBack(pat, i + 1, m, false);
    NumberBack(pat, j + 1, n, false);
  }

  // ---- errors

  /** An error in the first piece is the error of the pattern. */
  lemma FirstPieceBad(pat: string, e: int)
    requires !EndsBranch(pat, 0) && ParsePiece(pat, 0, 0) == Bad(e)
    ensures ParseRegex(pat) == Bad(e)
  {
    hide ParsePiece, EndsBranch;
    assert ParsePieces(pat, 0, 0) == Bad(e);
  }

  lemma FirstAtomBad(pat: string, e: int)
    requires !EndsBranch(pat, 0) && ParseAtom(pat, 0, 0) == Bad(e)
    ensures ParseRegex(pat) == Bad(e)
  {
    hide ParseAtom, EndsBranch;
    assert ParsePiece(pat, 0, 0) == Bad(e);
    hide ParsePiece;
    FirstPieceBad(pat, e);
  }

  /** A repeat with nothing in front. */
  lemma NothingRepeated(pat: string)
    requires pat != "" && pat[0] in "*+?{"
    ensures ParseRegex(pat) == Bad(REG_ERR_COUNT_FOLLOWS_NOTHING)
  {
    hide ParseLeaf, ParseSet, ParseGroup;
    FirstAtomBad(pat, REG_ERR_COUNT_FOLLOWS_NOTHING);
  }

  /** A backslash with nothing behind. */
  lemma NothingEscaped()
    ensures ParseRegex("\\") == Bad(REG_ERR_INVALID_ESCAPE)
  {
    hide LitRun, ParseSet, ParseGroup;
    var pat := "\\";
    assert ParseLeaf(pat, 0, 0) == Bad(REG_ERR_INVALID_ESCAPE);
    FirstAtomBad(pat, REG_ERR_INVALID_ESCAPE);
  }

  /** A set that is not closed. */
  lemma SetOpen(c: char)
    requires c !in "[]-^\\\0"
    ensures ParseRegex("[" + [c]) == Bad(REG_ERR_UNMATCHED_BRACKET)
  {
    var pat := "[" + [c];
    hide RangeWords, DecodeEscape, ParseGroup, ParseLeaf;
    assert SetItem(pat, 1).Good? && SetItem(pat, 1).at == 2;
    assert SetItems(pat, 2) == Bad(REG_ERR_UNMATCHED_BRACKET);
    assert SetItems(pat, 1) == Bad(REG_ERR_UNMATCHED_BRACKET);
    assert ParseSet(pat, 1, 0) == Bad(REG_ERR_UNMATCHED_BRACKET);
    hide ParseSet;
    FirstAtomBad(pat, REG_ERR_UNMATCHED_BRACKET);
  }

  lemma AtomStarts(a: Atom, st: Style, r: string)
    requires OkAtom(a)
    ensures var pat := ShowAtom(a, st) + r; pat != "" && !EndsBranch(pat, 0)
  {
    hide ShowAtom;
  }

  /** What could be empty is repeated by "?" only. */
  lemma EmptyRepeated(a: Atom, st: Style, m: char, r: string)
    requires OkAtom(a) && NumberedAtom(a, 0) && !WidthAtom(a) && m in "*+{"
    ensures ParseRegex(ShowAtom(a, st) + [m] + r) == Bad(REG_ERR_OPERAND_COULD_BE_EMPTY)
  {
    var t := ShowAtom(a, st);
    var pat := t + [m] + r;
    assert pat == t + ([m] + r);
    AtomStarts(a, st, [m] + r);
    assert pat[0..0 + |t|] == t && pat[|t|] == m;
    hide OkAtom, NumberedAtom, ShowAtom, ParseAtom, EndsBranch, RunStops, LitRun, GroupsAtom;
    assert a.Lit? ==> WidthAtom(a);
    AtomBack(pat, 0, 0, a, st);
    hide WidthAtom;
    assert ParsePiece(pat, 0, 0) == Bad(REG_ERR_OPERAND_COULD_BE_EMPTY);
    FirstPieceBad(pat, REG_ERR_OPERAND_COULD_BE_EMPTY);
  }

  /** A repeat of a repeat. */
  lemma RepeatRepeated(pat: string, p: Piece, st: Style)
    requires p.Repeat? && OkPiece(p) && NumberedAtom(p.a, 0) && Stands(pat, 0, ShowPiece(p, st))
    requires var m := Peek(pat, |ShowPiece(p, st)|); m in "*+?{" && (m == '?' ==> p.lazy)
    ensures ParseRegex(pat) == Bad(REG_ERR_NESTED_COUNT)
  {
    hide Stands, OkAtom, NumberedAtom, GroupsAtom, ParseAtom, RunStops, ShowAtom, ParseCount, WidthAtom, ShowBounds;
    var t := ShowAtom(p.a, st);
    var c := ShowBounds(p.min, p.max);
    StandsSplit(pat, 0, t + c, if p.lazy then "?" else "");
    StandsSplit(pat, 0, t, c);
    StandsAt(pat, 0, t, 0);
    StandsAt(pat, |t|, c, 0);
    if p.lazy {
      StandsAt(pat, |t| + |c|, "?", 0);
    }
    AtomBack(pat, 0, 0, p.a, st);
    BoundsBack(pat, |t|, p.min, p.max);
    QuestionOnly(p.min, p.max, p.a);
    PieceNested(pat, p, |t|, |t| + |c|, Peek(pat, |t| + |c| + if p.lazy then 1 else 0), GroupsAtom(p.a));
    hide ParsePiece;
    FirstPieceBad(pat, REG_ERR_NESTED_COUNT);
  }

  lemma PieceNested(pat: string, p: Piece, i: nat, j: nat, m: char, g: nat)
    requires p.Repeat? && 0 < i < j && j + 1 < |pat| + (if p.lazy then 0 else 1) && m in "*+?{" && (m == '?' ==> p.lazy)
    requires IsMult(pat[i]) && ParseAtom(pat, 0, 0) == Good(p.a, i, g)
    requires ParseCount(pat, i) == Good(Bounds(p.min, p.max), j - 1, 0) && (WidthAtom(p.a) || pat[i] == '?')
    requires if p.lazy then pat[j] == '?' && pat[j + 1] == m else pat[j] == m
    ensures ParsePiece(pat, 0, 0) == Bad(REG_ERR_NESTED_COUNT)
  {
    hide ParseAtom, ParseCount, WidthAtom;
  }

  /** A parenthesis that closes nothing. */
  lemma ClosesNothing(alts: Alts, st: Style, r: string)
    requires OkAlts(alts) && NumberedAlts(alts, 0)
    ensures ParseRegex(ShowAlts(alts, st) + ")" + r) == Bad(REG_ERR_UNMATCHED_PAREN)
  {
    hide OkAlts, NumberedAlts, GroupsAlts, ShowAlts, ParseAlts;
    var t := ShowAlts(alts, st);
    var pat := t + ")" + r;
    assert pat[0..0 + |t|] == t && pat[|t|] == ')';
    AltsBack(pat, 0, 0, alts, st);
  }

  /** A group that is not closed. */
  lemma NeverClosed(alts: Alts, st: Style)
    requires OkAlts(alts) && NumberedAlts(alts, 1)
    ensures ParseRegex("(" + ShowAlts(alts, st)) == Bad(REG_ERR_UNMATCHED_PAREN)
  {
    var t := ShowAlts(alts, st);
    var pat := "(" + t;
    BodyStart(alts, st);
    assert (t + ")")[0] != '?' && pat[1..1 + |t|] == t;
    assert Peek(pat, 1) != '?' by {
      assert t != "" ==> pat[1] == (t + ")")[0];
    }
    hide OkAlts, NumberedAlts, GroupsAlts, ShowAlts, ParseAlts, ParseSet, ParseLeaf;
    AltsBack(pat, 1, 1, alts, st);
    assert ParseGroup(pat, 1, 0) == Bad(REG_ERR_UNMATCHED_PAREN);
    hide ParseGroup;
    FirstAtomBad(pat, REG_ERR_UNMATCHED_PAREN);
  }

  /** A hundred groups are too many. */
  lemma TooManyGroups(alts: Alts, st: Style)
    requires OkAlts(alts) && NumberedAlts(alts, 0) && GroupsAlts(alts) >= 100
    ensures ParseRegex(ShowAlts(alts, st)) == Bad(REG_ERR_TOO_BIG)
  {
    hide OkAlts, NumberedAlts, GroupsAlts, ShowAlts, ParseAlts;
    var t := ShowAlts(alts, st);
    assert t[0..0 + |t|] == t;
    AltsBack(t, 0, 0, alts, st);
  }
}
