// The regular expressions that jimregexp.c compiles, as a syntax tree, together with the
// facts its compiler computes bottom-up while it parses.
module RegexSyntax {

  // Node opcodes of a compiled program (jimregexp.c:137-165).
  const END := 0
  const BOL := 1
  const EOL := 2
  const ANY := 3
  const ANYOF := 4
  const ANYBUT := 5
  const BRANCH := 6
  const BACK := 7
  const EXACTLY := 8
  const NOTHING := 9
  const REP := 10
  const REPMIN := 11
  const REPX := 12
  const REPXMIN := 13
  const BOLX := 14
  const EOLX := 15
  const WORDA := 16
  const WORDZ := 17
  const OPEN := 1001
  const CLOSE := 2001
  const REG_MAX_PAREN := 100
  const CLOSE_END := CLOSE + REG_MAX_PAREN
  const MAX_REP_COUNT := 1000000

  predicate ZeroWidthOp(op: int) {
    op == BOL || op == EOL || op == BOLX || op == EOLX || op == WORDA || op == WORDZ
  }

  type ZeroOp = op: int | ZeroWidthOp(op) witness BOL

  /** A capturing group counts from 1; -1 stands for a non-capturing one. */
  type ParenNo = no: int | no >= -1

  /** Alternatives in order; a group body or the whole expression. */
  datatype Alts = Last(b: Pieces) | Or(b: Pieces, more: Alts)

  /** One alternative: a concatenation of pieces, possibly empty. */
  datatype Pieces = Nil | Cons(p: Piece, ps: Pieces)

  datatype Piece = Once(a: Atom) | Repeat(a: Atom, min: int, max: int, lazy: bool)

  /** `words` is the operand of a set: pairs (length, first character). */
  datatype Atom =
    | Lit(cs: seq<int>)
    | Dot
    | Class(neg: bool, words: seq<int>)
    | Zero(op: ZeroOp)
    | Group(no: ParenNo, alts: Alts)

  // ---- flags passed up by the compiler (HASWIDTH, SIMPLE, SPSTART)

  predicate SimpleAtom(a: Atom) {
    match a
    case Lit(cs) => |cs| == 1
    case Dot => true
    case Class(_, _) => true
    case Zero(_) => false
    case Group(_, _) => false
  }

  predicate WidthAtom(a: Atom) {
    match a
    case Lit(_) => true
    case Dot => true
    case Class(_, _) => true
    case Zero(_) => false
    case Group(_, alts) => WidthAlts(alts)
  }

  predicate WidthPiece(p: Piece) {
    match p
    case Once(a) => WidthAtom(a)
    case Repeat(_, min, _, _) => min != 0
  }

  predicate WidthPieces(b: Pieces) {
    b.Cons? && (WidthPiece(b.p) || WidthPieces(b.ps))
  }

  predicate WidthAlts(alts: Alts) {
    WidthPieces(alts.b) && (alts.Or? ==> WidthAlts(alts.more))
  }

  predicate StarStartAtom(a: Atom) {
    a.Group? && StarStartAlts(a.alts)
  }

  predicate StarStartPiece(p: Piece) {
    match p
    case Once(a) => StarStartAtom(a)
    case Repeat(_, min, _, _) => min == 0
  }

  predicate StarStartAlts(alts: Alts) {
    || (alts.b.Cons? && StarStartPiece(alts.b.p))
    || (alts.Or? && StarStartAlts(alts.more))
  }

  // ---- the expressions for which the compiled program means what the expression says

  /** No repeated group anywhere inside. */
  predicate LoopFreeAtom(a: Atom) {
    a.Group? ==> LoopFreeAlts(a.alts)
  }

  predicate LoopFreePiece(p: Piece) {
    match p
    case Once(a) => LoopFreeAtom(a)
    case Repeat(a, _, _, _) => SimpleAtom(a)
  }

  predicate LoopFreePieces(b: Pieces) {
    b.Cons? ==> LoopFreePiece(b.p) && LoopFreePieces(b.ps)
  }

  predicate LoopFreeAlts(alts: Alts) {
    LoopFreePieces(alts.b) && (alts.Or? ==> LoopFreeAlts(alts.more))
  }

  /** No zero word in any operand: a zero word would end it, and the node, too early. */
  predicate SolidAtom(a: Atom) {
    match a
    case Lit(cs) => forall i | 0 <= i < |cs| :: cs[i] != 0
    case Dot => true
    case Class(_, ws) => forall i | 0 <= i < |ws| :: ws[i] != 0
    case Zero(_) => true
    case Group(_, alts) => SolidAlts(alts)
  }

  predicate SolidPieces(b: Pieces) {
    b.Cons? ==> SolidAtom(b.p.a) && SolidPieces(b.ps)
  }

  predicate SolidAlts(alts: Alts) {
    SolidPieces(alts.b) && (alts.Or? ==> SolidAlts(alts.more))
  }

  /** What every operand of a program node must look like: literals and sets hold no zero word
      (a zero word ends an operand), sets hold whole pairs, group numbers fit their opcode range. */
  predicate PlainAtom(a: Atom) {
    match a
    case Lit(cs) => |cs| > 0 && forall i | 0 <= i < |cs| :: cs[i] != 0
    case Dot => true
    case Class(_, ws) => |ws| % 2 == 0 && forall i | 0 <= i < |ws| :: ws[i] != 0
    case Zero(_) => true
    case Group(no, alts) => (no == -1 || 1 <= no < REG_MAX_PAREN) && PlainAlts(alts)
  }

  /** What a compiled expression without negative counts is made of: literals that hold a character and
      no zero word, sets of whole pairs, group numbers that fit their opcode range, counts in order. */
  predicate SafeAtom(a: Atom) {
    match a
    case Lit(cs) => |cs| > 0 && forall i | 0 <= i < |cs| :: cs[i] != 0
    case Dot => true
    case Class(_, ws) => |ws| % 2 == 0
    case Zero(_) => true
    case Group(no, alts) => (no == -1 || 1 <= no < REG_MAX_PAREN) && SafeAlts(alts)
  }

  predicate SafePiece(p: Piece) {
    SafeAtom(p.a) && (p.Repeat? ==> 0 <= p.min <= p.max)
  }

  predicate SafePieces(b: Pieces) {
    b.Cons? ==> SafePiece(b.p) && SafePieces(b.ps)
  }

  predicate SafeAlts(alts: Alts) {
    SafePieces(alts.b) && (alts.Or? ==> SafeAlts(alts.more))
  }

  /** Repeats in scope: a one-character atom, greedy or lazy, or a greedily repeated capturing
      group that itself repeats no group. */
  predicate PlainPiece(p: Piece) {
    match p
    case Once(a) => PlainAtom(a)
    case Repeat(a, min, max, lazy) =>
      && PlainAtom(a) && 0 <= min <= max
      && (SimpleAtom(a) || (a.Group? && a.no >= 1 && !lazy && LoopFreeAtom(a)))
  }

  predicate PlainPieces(b: Pieces) {
    b.Cons? ==> PlainPiece(b.p) && PlainPieces(b.ps)
  }

  predicate PlainAlts(alts: Alts) {
    PlainPieces(alts.b) && (alts.Or? ==> PlainAlts(alts.more))
  }

  /** No repeat has a negative minimum. */
  predicate CountedAtom(a: Atom) {
    a.Group? ==> CountedAlts(a.alts)
  }

  predicate CountedPiece(p: Piece) {
    CountedAtom(p.a) && (p.Repeat? ==> p.min >= 0)
  }

  predicate CountedPieces(b: Pieces) {
    b.Cons? ==> CountedPiece(b.p) && CountedPieces(b.ps)
  }

  predicate CountedAlts(alts: Alts) {
    CountedPieces(alts.b) && (alts.Or? ==> CountedAlts(alts.more))
  }

  lemma {:induction false} PlainIsSolid(alts: Alts)
    requires PlainAlts(alts)
    ensures SolidAlts(alts)
    decreases alts
  {
    hide PlainPieces, SolidPieces;
    PlainPiecesSolid(alts.b);
    if alts.Or? {
      PlainIsSolid(alts.more);
    }
  }

  lemma {:induction false} PlainPiecesSolid(b: Pieces)
    requires PlainPieces(b)
    ensures SolidPieces(b)
    decreases b
  {
    if b.Cons? {
      PlainPiecesSolid(b.ps);
      hide PlainPieces;
      PlainAtomSolid(b.p.a);
    }
  }

  lemma {:induction false} PlainAtomSolid(a: Atom)
    requires PlainAtom(a)
    ensures SolidAtom(a)
    decreases a
  {
    if a.Group? {
      PlainIsSolid(a.alts);
    }
  }

  lemma {:induction false} PlainIsSafe(alts: Alts)
    requires PlainAlts(alts)
    ensures SafeAlts(alts)
    decreases alts
  {
    hide PlainPieces, SafePieces;
    PlainPiecesSafe(alts.b);
    if alts.Or? {
      PlainIsSafe(alts.more);
    }
  }

  lemma {:induction false} PlainPiecesSafe(b: Pieces)
    requires PlainPieces(b)
    ensures SafePieces(b)
    decreases b
  {
    if b.Cons? {
      PlainPiecesSafe(b.ps);
      hide PlainPieces;
      PlainAtomSafe(b.p.a);
    }
  }

  lemma {:induction false} PlainAtomSafe(a: Atom)
    requires PlainAtom(a)
    ensures SafeAtom(a)
    decreases a
  {
    if a.Group? {
      PlainIsSafe(a.alts);
    }
  }
}
