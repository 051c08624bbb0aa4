// The matcher's position in a compiled program, read back as "what is still to be matched". Every
// lemma below says how one kind of node moves that reading forward.
module RegexKont {
  import opened RegexSyntax
  import opened RegexSemantics
  import opened RegexLists
  import opened RegexCode

  /** What the program at some node still has to match. nx is where the frame leads.
      KRep stands at a complex repeat entered c times so far, KBack at the BACK node of one
      (r is the address of its header). */
  datatype Kont =
    | KEnd
    | KSeq(b: Pieces, nx: nat, k: Kont)
    | KNop(nx: nat, k: Kont)
    | KAlts(alts: Alts, nx: nat, k: Kont)
    | KClose(no: ParenNo, nx: nat, k: Kont)
    | KRep(a: Atom, min: int, max: int, c: int, nx: nat, k: Kont)
    | KBack(r: nat, a: Atom, min: int, max: int, c: int, nx: nat, k: Kont)

  /** Every final position, best first. */
  ghost function EndsK(k: Kont, s: string, i: nat): seq<nat>
    decreases k
  {
    match k
    case KEnd => [i]
    case KSeq(b, _, kk) => FlatMap(EndsPieces(b, s, i), e => EndsK(kk, s, e))
    case KNop(_, kk) => EndsK(kk, s, i)
    case KAlts(alts, _, kk) => FlatMap(EndsAlts(alts, s, i), e => EndsK(kk, s, e))
    case KClose(_, _, kk) => EndsK(kk, s, i)
    case KRep(a, min, max, c, _, kk) =>
      FlatMap(EndsRepeat(a, min - c, max - c, false, s, i), e => EndsK(kk, s, e))
    case KBack(_, a, min, max, c, _, kk) =>
      FlatMap(EndsRepeat(a, min - c, max - c, false, s, i), e => EndsK(kk, s, e))
  }

  /** From each of the positions xs in turn, on with k. */
  ghost function Through(xs: seq<nat>, k: Kont, s: string): seq<nat> {
    FlatMap(xs, (e: nat) => EndsK(k, s, e))
  }

  lemma ThroughCons(x: nat, xs: seq<nat>, k: Kont, s: string)
    ensures Through([x] + xs, k, s) == EndsK(k, s, x) + Through(xs, k, s)
  {
    assert ([x] + xs)[1..] == xs;
  }

  lemma ThroughNone(k: Kont, s: string)
    ensures Through([], k, s) == []
  {
  }

  lemma ThroughOne(x: nat, k: Kont, s: string)
    ensures Through([x], k, s) == EndsK(k, s, x)
  {
    FlatMapOne(x, (e: nat) => EndsK(k, s, e));
  }

  ghost predicate NoLoop(k: Kont) {
    match k
    case KEnd => true
    case KRep(_, _, _, _, _, _) => false
    case KBack(_, _, _, _, _, _, _) => false
    case _ => NoLoop(k.k)
  }

  /** Frames hold plain syntax; a frame inside a loop body repeats no group; an alternation is
      closed by a parenthesis or the end. */
  ghost predicate KOk(k: Kont) {
    match k
    case KEnd => true
    case KSeq(b, _, kk) =>
      b.Cons? && PlainPieces(b) && (NoLoop(kk) || LoopFreePieces(b)) && KOk(kk)
    case KNop(_, kk) => KOk(kk)
    case KAlts(alts, _, kk) =>
      PlainAlts(alts) && (NoLoop(kk) || LoopFreeAlts(alts)) && (kk.KEnd? || kk.KClose?) && KOk(kk)
    case KClose(no, _, kk) => (no == -1 || 1 <= no < REG_MAX_PAREN) && KOk(kk)
    case KRep(a, min, max, c, _, kk) => LoopOk(a, min, max, c) && NoLoop(kk) && KOk(kk)
    case KBack(_, a, min, max, c, _, kk) => LoopOk(a, min, max, c) && NoLoop(kk) && KOk(kk)
  }

  ghost predicate LoopOk(a: Atom, min: int, max: int, c: int) {
    a.Group? && a.no >= 1 && PlainAtom(a) && LoopFreeAtom(a) && 0 <= min <= max && 0 <= c <= max
  }

  /** Program p, at node `scan`, holds exactly what k says. */
  ghost predicate At(p: seq<int>, cs: set<nat>, scan: nat, k: Kont)
    decreases k
  {
    && 0 < scan && scan + 1 < |p|
    && match k
       case KEnd => p[scan] == END
       case KSeq(b, nx, kk) =>
         scan < nx && b.Cons? && CodePieces(p, cs, b, scan, nx) && At(p, cs, nx, kk)
       case KNop(nx, kk) => Node(p, scan, NOTHING, nx) && At(p, cs, nx, kk)
       case KAlts(alts, nx, kk) => scan < nx && CodeAlts(p, cs, alts, scan, nx) && At(p, cs, nx, kk)
       case KClose(no, nx, kk) => Node(p, scan, CLOSE + no, nx) && At(p, cs, nx, kk)
       case KRep(a, min, max, c, nx, kk) =>
         CodeLoop(p, cs, a, min, max, false, scan, c, nx) && At(p, cs, nx, kk)
       case KBack(r, a, min, max, c, nx, kk) =>
         && 0 < r && scan == r + 5 + LenAtom(a)
         && CodeLoop(p, cs, a, min, max, false, r, c, nx) && At(p, cs, nx, kk)
  }

  // ---- which node a frame stands at

  ghost function OpAtom(a: Atom): int {
    match a
    case Lit(_) => EXACTLY
    case Dot => ANY
    case Class(neg, _) => if neg then ANYBUT else ANYOF
    case Zero(op) => op
    case Group(no, _) => OPEN + no
  }

  ghost function OpPiece(p: Piece): int {
    match p
    case Once(a) => OpAtom(a)
    case Repeat(a, _, _, lazy) => RepeatOp(a, lazy)
  }

  ghost function OpK(k: Kont): int {
    match k
    case KEnd => END
    case KSeq(b, _, _) => if b.Cons? then OpPiece(b.p) else NOTHING
    case KNop(_, _) => NOTHING
    case KAlts(_, _, _) => BRANCH
    case KClose(no, _, _) => CLOSE + no
    case KRep(_, _, _, _, _, _) => REPX
    case KBack(_, _, _, _, _, _, _) => BACK
  }

  lemma OpAt(p: seq<int>, cs: set<nat>, scan: nat, k: Kont)
    requires At(p, cs, scan, k)
    requires KOk(k)
    ensures p[scan] == OpK(k)
  {
    hide CodeBranch, LenAlts, PlainAlts, CodeAtom;
    match k
    case KSeq(b, nx, kk) =>
      OpOfPiece(p, cs, b.p, scan, if b.ps.Nil? then nx else scan + LenPiece(b.p));
    case _ =>
  }

  lemma OpOfPiece(p: seq<int>, cs: set<nat>, piece: Piece, scan: nat, nx: nat)
    requires CodePiece(p, cs, piece, scan, nx)
    ensures scan < |p| && p[scan] == OpPiece(piece)
  {
    hide CodeAlts, LenAlts;
  }

  /** The opcode tells which frame it is. */
  lemma ShapeOf(k: Kont)
    requires KOk(k)
    ensures OpK(k) == END ==> k.KEnd?
    ensures OpK(k) == BRANCH ==> k.KAlts?
    ensures OpK(k) == NOTHING ==> k.KNop?
    ensures OpK(k) == BACK ==> k.KBack?
    ensures OpK(k) == REP || OpK(k) == REPMIN ==>
              k.KSeq? && k.b.p.Repeat? && SimpleAtom(k.b.p.a) && k.b.p.lazy == (OpK(k) == REPMIN)
    ensures OpK(k) == REPX ==> AtLoop(k)
    ensures OpK(k) >= OPEN - 1 ==>
              && (OpK(k) == OPEN - 1 || OPEN + 1 <= OpK(k) < CLOSE_END)
              && (k.KClose? || (k.KSeq? && k.b.p.Once? && k.b.p.a.Group?))
    ensures OpK(k) !in {END, BRANCH, NOTHING, BACK, REP, REPMIN, REPX} && OpK(k) < OPEN - 1 ==>
              OpK(k) <= WORDZ && k.KSeq? && k.b.p.Once? && !k.b.p.a.Group? && PlainAtom(k.b.p.a)
  {
    hide PlainAlts, LoopFreePieces, LoopFreeAlts, NoLoop;
    match k
    case KSeq(b, nx, kk) =>
      assert PlainPiece(b.p);
      assert PlainAtom(b.p.a);
    case _ =>
  }

  lemma EndEnds(k: Kont, s: string, i: nat)
    requires KOk(k) && OpK(k) == END
    ensures EndsK(k, s, i) == [i]
  {
    ShapeOf(k);
  }

  // ---- moving past one piece

  /** What remains after the first piece. */
  ghost function After(k: Kont): Kont
    requires k.KSeq? && k.b.Cons?
  {
    if k.b.ps.Nil? then k.k else KSeq(k.b.ps, k.nx, k.k)
  }

  ghost function AfterAt(k: Kont, scan: nat): nat
    requires k.KSeq? && k.b.Cons?
  {
    if k.b.ps.Nil? then k.nx else scan + LenPiece(k.b.p)
  }

  lemma CodePieceForward(p: seq<int>, cs: set<nat>, piece: Piece, scan: nat, nx: nat)
    requires CodePiece(p, cs, piece, scan, nx)
    ensures scan < nx
  {
    hide CodeAlts, LenAlts;
  }

  lemma {:induction false} CodePiecesForward(p: seq<int>, cs: set<nat>, b: Pieces, scan: nat, nx: nat)
    requires b.Cons? && CodePieces(p, cs, b, scan, nx)
    ensures scan < nx && scan + 1 < |p|
  {
    hide CodePiece;
    if b.ps.Cons? {
      CodePiecesForward(p, cs, b.ps, scan + LenPiece(b.p), nx);
    } else {
      CodePieceForward(p, cs, b.p, scan, nx);
      OpOfPiece(p, cs, b.p, scan, nx);
      PieceRoom(p, cs, b.p, scan, nx);
    }
  }

  lemma PieceRoom(p: seq<int>, cs: set<nat>, piece: Piece, scan: nat, nx: nat)
    requires CodePiece(p, cs, piece, scan, nx)
    ensures scan + 1 < |p|
  {
    hide CodeAlts, LenAlts;
  }

  lemma AfterHeld(p: seq<int>, cs: set<nat>, scan: nat, k: Kont)
    requires At(p, cs, scan, k) && KOk(k) && k.KSeq?
    ensures CodePiece(p, cs, k.b.p, scan, AfterAt(k, scan))
    ensures At(p, cs, AfterAt(k, scan), After(k))
    ensures scan < AfterAt(k, scan)
  {
    hide CodePiece, PlainPieces, LoopFreePieces;
    if k.b.ps.Cons? {
      CodePiecesForward(p, cs, k.b.ps, scan + LenPiece(k.b.p), k.nx);
    }
  }

  lemma AfterOk(k: Kont)
    requires KOk(k) && k.KSeq?
    ensures KOk(After(k)) && PlainPiece(k.b.p)
    ensures NoLoop(k.k) || LoopFreePiece(k.b.p)
    ensures NoLoop(After(k)) == NoLoop(k.k) == NoLoop(k)
  {
    hide PlainPiece, LoopFreePiece;
  }

  /** Matching a frame is matching its first piece, then the rest. */
  lemma AfterEnds(k: Kont, s: string, i: nat)
    requires KOk(k) && k.KSeq?
    ensures EndsK(k, s, i) == Through(EndsPiece(k.b.p, s, i), After(k), s)
  {
    hide EndsPiece, PlainPieces, LoopFreePieces;
    var f := (e: nat) => EndsPieces(k.b.ps, s, e);
    var g := (e: nat) => EndsK(k.k, s, e);
    FlatMapAssoc(EndsPiece(k.b.p, s, i), f, g);
    assert EndsPieces(k.b, s, i) == FlatMap(EndsPiece(k.b.p, s, i), f);
    forall e: nat
      ensures FlatMap(f(e), g) == EndsK(After(k), s, e)
    {
      if k.b.ps.Nil? {
        assert f(e) == [e];
        FlatMapOne(e, g);
      }
    }
    FlatMapSame(EndsPiece(k.b.p, s, i), e => FlatMap(f(e), g), e => EndsK(After(k), s, e));
  }

  // ---- moving into an alternation

  /** The frame for one whole alternative. */
  ghost function BranchK(b: Pieces, nx: nat, k: Kont): Kont {
    if b.Nil? then KNop(nx, k) else KSeq(b, nx, k)
  }

  lemma BranchEnds(b: Pieces, nx: nat, k: Kont, s: string, i: nat)
    ensures EndsK(BranchK(b, nx, k), s, i) == FlatMap(EndsPieces(b, s, i), e => EndsK(k, s, e))
  {
    if b.Nil? {
      FlatMapOne(i, e => EndsK(k, s, e));
    }
  }

  lemma BranchAt(p: seq<int>, cs: set<nat>, b: Pieces, scan: nat, nx: nat, k: Kont)
    requires 0 < scan
    requires CodeBranch(p, cs, b, scan, nx) && At(p, cs, nx, k)
    ensures At(p, cs, scan, BranchK(b, nx, k))
  {
    if b.Cons? {
      CodePiecesForward(p, cs, b, scan, nx);
    }
  }

  /** First alternative, then the others in the same place. */
  lemma AltsEnter(p: seq<int>, cs: set<nat>, scan: nat, k: Kont, s: string, i: nat)
    requires At(p, cs, scan, k) && KOk(k) && k.KAlts?
    ensures var kb := BranchK(k.alts.b, k.nx, k.k);
            && At(p, cs, scan + 2, kb) && KOk(kb)
            && EndsK(k, s, i) == EndsK(kb, s, i) + if k.alts.Or? then EndsK(k.(alts := k.alts.more), s, i) else []
  {
    hide CodeBranch, PlainPieces, LoopFreePieces, EndsPieces, CodePieces;
    var f := (e: nat) => EndsK(k.k, s, e);
    BranchAt(p, cs, k.alts.b, scan + 2, k.nx, k.k);
    BranchEnds(k.alts.b, k.nx, k.k, s, i);
    if k.alts.Or? {
      FlatMapAppend(EndsPieces(k.alts.b, s, i), EndsAlts(k.alts.more, s, i), f);
    }
  }

  /** The link of a BRANCH: to the next alternative when there is one, else out of the block. */
  lemma AltsNext(p: seq<int>, cs: set<nat>, scan: nat, k: Kont)
    requires At(p, cs, scan, k) && KOk(k) && k.KAlts?
    ensures p[scan] == BRANCH && p[scan + 1] > 0 && scan + p[scan + 1] + 1 < |p|
    ensures var next := scan + p[scan + 1];
            && (k.alts.Or? <==> p[next] == BRANCH)
            && (k.alts.Last? ==> next == k.nx)
            && (k.alts.Or? ==> next == scan + 2 + LenBranch(k.alts.b))
            && (k.alts.Or? ==> At(p, cs, next, k.(alts := k.alts.more))
                               && KOk(k.(alts := k.alts.more)))
  {
    hide CodeBranch, PlainPieces, LoopFreePieces, CodePieces;
    match k.alts
    case Last(_) => OpAt(p, cs, k.nx, k.k);
    case Or(_, more) =>
      AltsForward(p, cs, more, scan + 2 + LenBranch(k.alts.b), k.nx);
      OpAt(p, cs, scan + p[scan + 1], k.(alts := more));
  }

  lemma AltsForward(p: seq<int>, cs: set<nat>, alts: Alts, scan: nat, nx: nat)
    requires CodeAlts(p, cs, alts, scan, nx)
    ensures scan + 1 < |p|
    ensures scan < nx
    decreases alts
  {
    hide CodeBranch;
    if alts.Or? {
      AltsForward(p, cs, alts.more, scan + 2 + LenBranch(alts.b), nx);
    }
  }

  // ---- moving into a group

  ghost function GroupK(k: Kont, scan: nat): Kont
    requires k.KSeq? && k.b.Cons? && k.b.p.Once? && k.b.p.a.Group?
  {
    var g := k.b.p.a;
    KAlts(g.alts, scan + 2 + LenAlts(g.alts), KClose(g.no, AfterAt(k, scan), After(k)))
  }

  lemma GroupEnter(p: seq<int>, cs: set<nat>, scan: nat, k: Kont)
    requires At(p, cs, scan, k) && KOk(k)
    requires k.KSeq? && k.b.p.Once? && k.b.p.a.Group?
    ensures p[scan] == OPEN + k.b.p.a.no && p[scan + 1] == 2
    ensures At(p, cs, scan + 2, GroupK(k, scan)) && KOk(GroupK(k, scan))
  {
    hide CodeAlts, PlainAlts, LoopFreeAlts, LenAlts, CodePieces, PlainPieces, LoopFreePieces;
    AfterHeld(p, cs, scan, k);
    AfterOk(k);
    GroupParts(p, cs, k.b.p.a.no, k.b.p.a.alts, scan, AfterAt(k, scan));
    hide CodePiece;
  }

  lemma GroupParts(p: seq<int>, cs: set<nat>, no: ParenNo, alts: Alts, scan: nat, nx: nat)
    requires CodePiece(p, cs, Once(Group(no, alts)), scan, nx)
    ensures var e := scan + 2 + LenAlts(alts);
            && scan + 1 < |p| && p[scan] == OPEN + no && p[scan + 1] == 2
            && CodeAlts(p, cs, alts, scan + 2, e) && Node(p, e, CLOSE + no, nx)
            && scan + 3 < |p| && scan + 2 < e
  {
    hide CodeAlts, LenAlts;
    AltsForward(p, cs, alts, scan + 2, scan + 2 + LenAlts(alts));
  }

  lemma GroupSame(k: Kont, scan: nat, s: string, i: nat)
    requires KOk(k)
    requires k.KSeq? && k.b.p.Once? && k.b.p.a.Group?
    ensures EndsK(k, s, i) == EndsK(GroupK(k, scan), s, i)
  {
    AfterOk(k);
    AfterEnds(k, s, i);
    hide KOk, EndsAlts, EndsPieces;
    FlatMapSame(EndsAlts(k.b.p.a.alts, s, i), (e: nat) => EndsK(After(k), s, e),
                (e: nat) => EndsK(KClose(k.b.p.a.no, AfterAt(k, scan), After(k)), s, e));
  }

  // ---- repeated groups

  /** A repeated group met for the first time: its counter is zero. */
  ghost function LoopK(k: Kont, scan: nat): Kont
    requires k.KSeq? && k.b.Cons? && k.b.p.Repeat?
  {
    KRep(k.b.p.a, k.b.p.min, k.b.p.max, 0, AfterAt(k, scan), After(k))
  }

  lemma LoopEnter(p: seq<int>, cs: set<nat>, scan: nat, k: Kont, s: string, i: nat)
    requires At(p, cs, scan, k) && KOk(k)
    requires k.KSeq? && k.b.p.Repeat? && !SimpleAtom(k.b.p.a)
    ensures At(p, cs, scan, LoopK(k, scan)) && KOk(LoopK(k, scan))
    ensures EndsK(k, s, i) == EndsK(LoopK(k, scan), s, i)
  {
    AfterHeld(p, cs, scan, k);
    AfterOk(k);
    AfterEnds(k, s, i);
    hide CodeLoop, PlainAtom, LoopFreeAtom, CodePieces, PlainPieces;
    hide EndsRepeat, LoopFreePieces, EndsPieces;
    var a := k.b.p.a;
    var f := (e: nat) => EndsK(After(k), s, e);
    FlatMapSame(EndsRepeat(a, k.b.p.min, k.b.p.max, false, s, i), f, e => EndsK(After(k), s, e));
  }

  lemma LoopBack(p: seq<int>, cs: set<nat>, a: Atom, min: int, max: int, r: nat, c: int, nx: nat)
    requires CodeLoop(p, cs, a, min, max, false, r, c, nx)
    ensures r + 5 < |p| && p[r + 2] == max && p[r + 3] == min && p[r + 4] == c && r + 4 in cs
    ensures p[r + 1] == nx - r && r < nx
    ensures var b := r + 5 + LenAtom(a); b + 1 < |p| && p[b + 1] == b - r
  {
    hide CodeAtom, LenAtom;
  }

  lemma LoopFacts(p: seq<int>, cs: set<nat>, scan: nat, k: Kont)
    requires At(p, cs, scan, k) && KOk(k) && k.KRep?
    ensures scan + 4 < |p| && p[scan] == REPX && p[scan + 1] == k.nx - scan && scan < k.nx
    ensures p[scan + 2] == k.max && p[scan + 3] == k.min && p[scan + 4] == k.c && scan + 4 in cs
    ensures k.min <= k.max && k.c <= k.max
    ensures At(p, cs, k.nx, k.k) && KOk(k.k)
  {
    OpAt(p, cs, scan, k);
    LoopBack(p, cs, k.a, k.min, k.max, scan, k.c, k.nx);
    hide CodeLoop, LenAtom;
  }

  /** At the header of the loop whose BACK node was reached, with the same count. */
  ghost function HeaderK(k: Kont): Kont
    requires k.KBack?
  {
    KRep(k.a, k.min, k.max, k.c, k.nx, k.k)
  }

  lemma BackStep(p: seq<int>, cs: set<nat>, scan: nat, k: Kont)
    requires At(p, cs, scan, k) && KOk(k) && k.KBack?
    ensures scan - p[scan + 1] == k.r && p[scan + 1] != 0
    ensures At(p, cs, k.r, HeaderK(k)) && KOk(HeaderK(k))
  {
    LoopBack(p, cs, k.a, k.min, k.max, k.r, k.c, k.nx);
    hide CodeLoop, LoopOk, LenAtom;
  }

  lemma BackSame(k: Kont, s: string, i: nat)
    requires k.KBack?
    ensures EndsK(k, s, i) == EndsK(HeaderK(k), s, i)
  {
    hide EndsRepeat;
    FlatMapSame(EndsRepeat(k.a, k.min - k.c, k.max - k.c, false, s, i),
                (e: nat) => EndsK(k.k, s, e), (e: nat) => EndsK(k.k, s, e));
  }

  /** The end of a round: the BACK node, with the round counted. */
  ghost function BackK(k: Kont, r: nat): Kont
    requires k.KRep?
  {
    KBack(r, k.a, k.min, k.max, k.c + 1, k.nx, k.k)
  }

  /** One more round of the loop at r. */
  ghost function RoundK(k: Kont, r: nat): Kont
    requires k.KRep?
  {
    KSeq(Cons(Once(k.a), Nil), r + 5 + LenAtom(k.a), BackK(k, r))
  }

  lemma RoundOk(k: Kont, r: nat)
    requires KOk(k) && k.KRep? && k.c < k.max
    ensures KOk(RoundK(k, r))
    ensures k.a.Group? && k.a.no >= 1
  {
    hide PlainAtom;
    var one := Cons(Once(k.a), Nil);
    hide LoopFreeAtom;
    assert LoopFreePieces(one) == LoopFreePiece(Once(k.a)) && PlainPieces(one) == PlainPiece(Once(k.a)) by {
      assert LoopFreePieces(Nil) && PlainPieces(Nil);
    }
  }

  lemma RoundEnds(k: Kont, r: nat, s: string, i: nat)
    requires KOk(k) && k.KRep? && k.c < k.max
    ensures EndsK(k, s, i) == EndsK(RoundK(k, r), s, i) + if k.c < k.min then [] else EndsK(k.k, s, i)
  {
    RoundEndsOnce(k, r, s, i);
    hide EndsAtom, KOk, RoundK;
    var f := (e: nat) => EndsRepeat(k.a, k.min - k.c - 1, k.max - k.c - 1, false, s, e);
    var more := FlatMap(EndsAtom(k.a, s, i), f);
    assert EndsRepeat(k.a, k.min - k.c, k.max - k.c, false, s, i) == if k.min > k.c then more else more + [i];
    hide EndsRepeat;
    RoundLast(k, more, s, i);
  }

  lemma RoundLast(k: Kont, more: seq<nat>, s: string, i: nat)
    requires k.KRep?
    requires EndsRepeat(k.a, k.min - k.c, k.max - k.c, false, s, i) == if k.min > k.c then more else more + [i]
    ensures EndsK(k, s, i)
         == FlatMap(more, (e: nat) => EndsK(k.k, s, e)) + if k.c < k.min then [] else EndsK(k.k, s, i)
  {
    hide EndsRepeat;
    var g := (e: nat) => EndsK(k.k, s, e);
    FlatMapAppend(more, [i], g);
    FlatMapOne(i, g);
  }

  lemma RoundEndsOnce(k: Kont, r: nat, s: string, i: nat)
    requires KOk(k) && k.KRep? && k.c < k.max
    ensures EndsK(RoundK(k, r), s, i)
         == FlatMap(FlatMap(EndsAtom(k.a, s, i),
                            (e: nat) => EndsRepeat(k.a, k.min - k.c - 1, k.max - k.c - 1, false, s, e)),
                    (e: nat) => EndsK(k.k, s, e))
  {
    RoundFirst(k, r, s, i);
    hide EndsAtom, EndsRepeat, EndsPieces, KOk, RoundK, EndsPiece, After;
    var xs := EndsAtom(k.a, s, i);
    var f := (e: nat) => EndsRepeat(k.a, k.min - k.c - 1, k.max - k.c - 1, false, s, e);
    var g := (e: nat) => EndsK(k.k, s, e);
    var back := BackK(k, r);
    FlatMapAssoc(xs, f, g);
    FlatMapSame(xs, e => FlatMap(f(e), g), e => EndsK(back, s, e));
  }

  lemma RoundFirst(k: Kont, r: nat, s: string, i: nat)
    requires KOk(k) && k.KRep? && k.c < k.max
    ensures EndsK(RoundK(k, r), s, i) == FlatMap(EndsAtom(k.a, s, i), (e: nat) => EndsK(BackK(k, r), s, e))
  {
    RoundOk(k, r);
    hide EndsAtom, KOk, EndsPieces;
    AfterEnds(RoundK(k, r), s, i);
    FlatMapSame(EndsAtom(k.a, s, i), e => EndsK(After(RoundK(k, r)), s, e), e => EndsK(BackK(k, r), s, e));
  }

  lemma LoopDone(k: Kont, s: string, i: nat)
    requires KOk(k) && k.KRep? && k.c == k.max
    ensures EndsK(k, s, i) == EndsK(k.k, s, i)
  {
    hide PlainAtom;
    FlatMapOne(i, e => EndsK(k.k, s, e));
  }

  // ---- a repeated group, met for the first time or again

  ghost predicate AtLoop(k: Kont) {
    k.KRep? || (k.KSeq? && k.b.Cons? && k.b.p.Repeat? && !SimpleAtom(k.b.p.a))
  }

  ghost function LoopOf(k: Kont, scan: nat): Kont
    requires AtLoop(k)
  {
    if k.KRep? then k else LoopK(k, scan)
  }

  lemma RepeatSetup(p: seq<int>, cs: set<nat>, scan: nat, k: Kont)
    requires At(p, cs, scan, k) && KOk(k)
    requires AtLoop(k)
    ensures LoopOf(k, scan).KRep? && At(p, cs, scan, LoopOf(k, scan)) && KOk(LoopOf(k, scan))
    ensures var l := LoopOf(k, scan);
            && scan + 4 < |p| && p[scan] == REPX && p[scan + 1] == l.nx - scan && scan < l.nx
            && p[scan + 2] == l.max && p[scan + 3] == l.min && p[scan + 4] == l.c
            && l.min <= l.max && l.c <= l.max
            && At(p, cs, l.nx, l.k) && KOk(l.k)
  {
    hide At, KOk;
    if k.KSeq? {
      LoopEnter(p, cs, scan, k, "", 0);
    }
    LoopFacts(p, cs, scan, LoopOf(k, scan));
  }

  /** A loop entered c times: another round if there must be one, a round or out if there may be
      one, out if there may be none. */
  lemma RepeatSplit(k: Kont, scan: nat, p: seq<int>, cs: set<nat>, s: string, i: nat)
    requires At(p, cs, scan, k) && KOk(k)
    requires AtLoop(k)
    ensures var l := LoopOf(k, scan);
            && l.KRep? && l.c <= l.max
            && EndsK(k, s, i) ==
               (if l.c < l.max then EndsK(RoundK(l, scan), s, i) else [])
               + if l.c < l.min then [] else EndsK(l.k, s, i)
  {
    hide At, KOk, EndsK, RoundK;
    var l := LoopOf(k, scan);
    RepeatSetup(p, cs, scan, k);
    if k.KSeq? {
      LoopEnter(p, cs, scan, k, s, i);
    }
    if l.c < l.max {
      RoundEnds(l, scan, s, i);
    } else {
      LoopDone(l, s, i);
    }
  }

  // ---- what follows does not look at words before it

  ghost predicate SameFrom(p: seq<int>, q: seq<int>, lo: nat) {
    |p| == |q| && forall i | lo <= i < |p| :: p[i] == q[i]
  }

  lemma {:induction false} AtomSame(p: seq<int>, q: seq<int>, cs: set<nat>, a: Atom, lo: nat, nx: nat)
    requires SameFrom(p, q, lo) && CodeAtom(p, cs, a, lo, nx)
    ensures CodeAtom(q, cs, a, lo, nx)
    decreases a, 0
  {
    hide LenAlts, CodeAlts;
    if a.Group? {
      AltsSame(p, q, cs, a.alts, lo + 2, lo + 2 + LenAlts(a.alts));
    }
  }

  lemma {:induction false} PieceSame(p: seq<int>, q: seq<int>, cs: set<nat>, piece: Piece, lo: nat, nx: nat)
    requires SameFrom(p, q, lo) && CodePiece(p, cs, piece, lo, nx)
    ensures CodePiece(q, cs, piece, lo, nx)
    decreases piece
  {
    hide LenAtom, CodeAtom;
    match piece
    case Once(a) => AtomSame(p, q, cs, a, lo, nx);
    case Repeat(a, _, _, _) =>
      if !SimpleAtom(a) {
        AtomSame(p, q, cs, a, lo + 5, lo + 5 + LenAtom(a));
      }
  }

  lemma {:induction false} PiecesSame(p: seq<int>, q: seq<int>, cs: set<nat>, b: Pieces, lo: nat, nx: nat)
    requires b.Cons?
    requires SameFrom(p, q, lo) && CodePieces(p, cs, b, lo, nx)
    ensures CodePieces(q, cs, b, lo, nx)
    decreases b
  {
    hide CodePiece;
    if b.ps.Nil? {
      PieceSame(p, q, cs, b.p, lo, nx);
    } else {
      PieceSame(p, q, cs, b.p, lo, lo + LenPiece(b.p));
      PiecesSame(p, q, cs, b.ps, lo + LenPiece(b.p), nx);
    }
  }

  lemma {:induction false} AltsSame(p: seq<int>, q: seq<int>, cs: set<nat>, alts: Alts, lo: nat, e: nat)
    requires SameFrom(p, q, lo) && CodeAlts(p, cs, alts, lo, e)
    ensures CodeAlts(q, cs, alts, lo, e)
    decreases alts
  {
    hide CodePieces, LenPieces;
    if alts.b.Cons? {
      PiecesSame(p, q, cs, alts.b, lo + 2, e);
    }
    if alts.Or? {
      AltsSame(p, q, cs, alts.more, lo + 2 + LenBranch(alts.b), e);
    }
  }

  lemma {:induction false} AtSame(p: seq<int>, q: seq<int>, cs: set<nat>, scan: nat, k: Kont)
    requires SameFrom(p, q, scan) && At(p, cs, scan, k) && NoLoop(k)
    ensures At(q, cs, scan, k)
    decreases k
  {
    hide CodePieces, CodeAlts;
    match k
    case KEnd =>
    case KSeq(b, nx, kk) =>
      PiecesSame(p, q, cs, b, scan, nx);
      AtSame(p, q, cs, nx, kk);
    case KAlts(alts, nx, kk) =>
      AltsSame(p, q, cs, alts, scan, nx);
      AtSame(p, q, cs, nx, kk);
    case KNop(nx, kk) => AtSame(p, q, cs, nx, kk);
    case KClose(_, nx, kk) => AtSame(p, q, cs, nx, kk);
    case KRep(_, _, _, _, _, _) =>
    case KBack(_, _, _, _, _, _, _) =>
  }

  /** Raising the counter of the loop at r makes the program hold one more round. */
  lemma RoundAt(p: seq<int>, cs: set<nat>, r: nat, k: Kont)
    requires At(p, cs, r, k) && KOk(k) && k.KRep? && k.c < k.max
    ensures r + 4 < |p|
    ensures At(p[r + 4 := k.c + 1], cs, r + 5, RoundK(k, r))
  {
    hide CodeAtom, LenAtom, PlainAtom, LoopFreeAtom;
    var q := p[r + 4 := k.c + 1];
    AtomSame(p, q, cs, k.a, r + 5, r + 5 + LenAtom(k.a));
    AtSame(p, q, cs, k.nx, k.k);
    assert CodeLoop(q, cs, k.a, k.min, k.max, false, r, k.c + 1, k.nx);
    CodePiecesOne(q, cs, k.a, r + 5, r + 5 + LenAtom(k.a));
  }

  lemma CodePiecesOne(p: seq<int>, cs: set<nat>, a: Atom, lo: nat, nx: nat)
    requires CodeAtom(p, cs, a, lo, nx)
    ensures CodePieces(p, cs, Cons(Once(a), Nil), lo, nx)
  {
    hide CodeAtom;
  }
}
