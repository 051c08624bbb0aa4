// In a compiled program every link leads from the start of a node to the start of a node, forward
// but for the BACK nodes that close loops.
module RegexLinks {
  import opened RegexSyntax
  import opened RegexCode
  import opened RegexNodes
  import opened RegexWellLinked

  lemma {:induction false} StartsJoin(p: seq<int>, cs: set<nat>, lo: nat, m: nat, hi: nat)
    requires Tiled(p, cs, lo, m) && m <= hi
    ensures Starts(p, lo, hi) == Starts(p, lo, m) + Starts(p, m, hi)
    decreases m - lo
  {
    hide OpSize;
    if lo < m {
      StartsJoin(p, cs, lo + OpSize(p, lo), m, hi);
    }
  }

  lemma OneNode(p: seq<int>, cs: set<nat>, lo: nat, n: nat, s: set<nat>)
    requires NodeAt(p, cs, lo, n) && LinkOk(p, lo, s)
    ensures Tiled(p, cs, lo, lo + n) && LinksOk(p, lo, lo + n, s)
  {
    hide OpSize, LinkOk;
    TiledOne(p, cs, lo, n);
    assert Starts(p, lo + n, lo + n) == {};
    assert Starts(p, lo, lo + n) == {lo};
  }

  /** Two blocks end to end. */
  lemma LinksJoin(p: seq<int>, cs: set<nat>, lo: nat, m: nat, hi: nat, s: set<nat>)
    requires Tiled(p, cs, lo, m) && m <= hi && LinksOk(p, lo, m, s) && LinksOk(p, m, hi, s)
    ensures LinksOk(p, lo, hi, s)
  {
    hide Starts, LinkOk;
    StartsJoin(p, cs, lo, m, hi);
  }

  lemma StartsIn(p: seq<int>, cs: set<nat>, lo: nat, m: nat, hi: nat, s: set<nat>)
    requires Tiled(p, cs, lo, m) && m <= hi && Starts(p, lo, hi) <= s
    ensures Starts(p, lo, m) <= s && Starts(p, m, hi) <= s
    ensures m < hi && m < |p| ==> m in s
  {
    StartsJoin(p, cs, lo, m, hi);
    if m < hi && m < |p| {
      FirstStart(p, m, hi);
    }
  }

  lemma NodeLinks(p: seq<int>, cs: set<nat>, lo: nat, op: int, nx: nat, s: set<nat>)
    requires Node(p, lo, op, nx) && nx in s && (op == BRANCH || op == NOTHING || op >= OPEN - 1)
    requires CountersAre(cs, {}, lo, 2)
    ensures Tiled(p, cs, lo, lo + 2) && LinksOk(p, lo, lo + 2, s)
  {
    hide Tiled, LinksOk;
    assert NodeAt(p, cs, lo, 2);
    OneNode(p, cs, lo, 2, s);
  }

  lemma LeafLinks(p: seq<int>, cs: set<nat>, a: Atom, lo: nat, nx: nat, s: set<nat>)
    requires !a.Group? && SolidAtom(a) && CodeAtom(p, cs, a, lo, nx) && nx in s
    requires CountersAre(cs, {}, lo, LenAtom(a))
    ensures LinksOk(p, lo, lo + LenAtom(a), s)
  {
    hide Tiled, LinksOk;
    LeafNode(p, cs, a, lo);
    OneNode(p, cs, lo, LenAtom(a), s);
  }

  lemma LeafNode(p: seq<int>, cs: set<nat>, a: Atom, lo: nat)
    requires !a.Group? && SolidAtom(a) && LeafWords(p, a, lo)
    requires CountersAre(cs, {}, lo, LenAtom(a))
    ensures NodeAt(p, cs, lo, LenAtom(a))
  {
    match a {
      case Lit(ws) => ZeroAtOperand(p, lo + 2, ws);
      case Class(_, ws) => ZeroAtOperand(p, lo + 2, ws);
      case _ =>
    }
  }

  // ---- construct by construct

  lemma {:induction false} AtomLinks(p: seq<int>, cs: set<nat>, a: Atom, lo: nat, nx: nat, s: set<nat>)
    requires CodeAtom(p, cs, a, lo, nx) && SolidAtom(a) && CountersAre(cs, CtrsAtom(a, lo), lo, LenAtom(a))
    requires Starts(p, lo, lo + LenAtom(a)) <= s && nx in s
    ensures LinksOk(p, lo, lo + LenAtom(a), s)
    decreases a, 0
  {
    hide CodeAlts, SolidAlts, LenAlts, CtrsAlts, Tiled, LinksOk, Starts;
    if a.Group? {
      var n := LenAlts(a.alts);
      var e := lo + 2 + n;
      CountersSplit(cs, CtrsAlts(a.alts, lo + 2), {}, lo, 2 + n, 2);
      CountersSplit(cs, {}, CtrsAlts(a.alts, lo + 2), lo, 2, n);
      NodeOne(p, cs, lo, OPEN + a.no, lo + 2);
      AltsTiled(p, cs, a.alts, lo + 2, e);
      StartsIn(p, cs, lo, lo + 2, e + 2, s);
      StartsIn(p, cs, lo + 2, e, e + 2, s);
      NodeLinks(p, cs, lo, OPEN + a.no, lo + 2, s);
      AltsLinks(p, cs, a.alts, lo + 2, e, s);
      NodeLinks(p, cs, e, CLOSE + a.no, nx, s);
      LinksJoin(p, cs, lo + 2, e, e + 2, s);
      LinksJoin(p, cs, lo, lo + 2, e + 2, s);
    } else {
      LeafLinks(p, cs, a, lo, nx, s);
    }
  }

  lemma {:induction false} LoopLinks(p: seq<int>, cs: set<nat>, a: Atom, min: int, max: int, lazy: bool, r: nat,
                                     nx: nat,
                                     s: set<nat>)
    requires CodeLoop(p, cs, a, min, max, lazy, r, 0, nx) && SolidAtom(a) && !SimpleAtom(a)
    requires CountersAre(cs, {r + 4} + CtrsAtom(a, r + 5), r, LenAtom(a) + 7)
    requires Starts(p, r, r + LenAtom(a) + 7) <= s && nx in s
    ensures LinksOk(p, r, r + LenAtom(a) + 7, s)
    decreases a, 1
  {
    hide CodeAtom, LenAtom, SolidAtom, CtrsAtom, Tiled, LinksOk, Starts;
    var n := LenAtom(a);
    var b := r + 5 + n;
    var own := CtrsAtom(a, r + 5);
    CountersSplit(cs, {r + 4}, own, r, 5, n + 2);
    CountersSplit(cs, own, {}, r + 5, n, 2);
    assert NodeAt(p, cs, r, 5) && NodeAt(p, cs, b, 2);
    TiledOne(p, cs, r, 5);
    FirstStart(p, r, b + 2);
    AtomTiled(p, cs, a, r + 5, b);
    StartsIn(p, cs, r, r + 5, b + 2, s);
    StartsIn(p, cs, r + 5, b, b + 2, s);
    OneNode(p, cs, r, 5, s);
    AtomLinks(p, cs, a, r + 5, b, s);
    OneNode(p, cs, b, 2, s);
    LinksJoin(p, cs, r + 5, b, b + 2, s);
    LinksJoin(p, cs, r, r + 5, b + 2, s);
  }

  lemma SimpleLinks(p: seq<int>, cs: set<nat>, a: Atom, lo: nat, op: int, nx: nat, s: set<nat>)
    requires Node(p, lo, op, nx) && lo + 4 < |p| && (op == REP || op == REPMIN) && nx in s
    requires Operand(p, a, lo + 5) && SolidAtom(a)
    requires CountersAre(cs, {}, lo, LenAtom(a) + 5)
    ensures LinksOk(p, lo, lo + LenAtom(a) + 5, s)
  {
    hide Tiled, LinksOk, LenAtom, SolidAtom;
    var n := LenAtom(a);
    assert NodeAt(p, cs, lo, 5);
    OneNode(p, cs, lo, 5, s);
    OperandLeaf(p, a, lo + 5);
    OperandOpen(p, a, lo + 5);
    LeafNode(p, cs, a, lo + 5);
    OneNode(p, cs, lo + 5, n, s);
    LinksJoin(p, cs, lo, lo + 5, lo + 5 + n, s);
  }

  lemma OperandOpen(p: seq<int>, a: Atom, lo: nat)
    requires Operand(p, a, lo)
    ensures lo + 1 < |p| && p[lo + 1] == 0 && !a.Group?
  {
  }

  lemma {:induction false} PieceLinks(p: seq<int>, cs: set<nat>, piece: Piece, lo: nat, nx: nat, s: set<nat>)
    requires CodePiece(p, cs, piece, lo, nx) && SolidAtom(piece.a)
    requires CountersAre(cs, CtrsPiece(piece, lo), lo, LenPiece(piece))
    requires Starts(p, lo, lo + LenPiece(piece)) <= s && nx in s
    ensures LinksOk(p, lo, lo + LenPiece(piece), s)
    decreases piece
  {
    hide CodeAtom, LenAtom, SolidAtom, CtrsAtom, LinksOk, Starts;
    match piece
    case Once(a) => AtomLinks(p, cs, a, lo, nx, s);
    case Repeat(a, min, max, lazy) =>
      if SimpleAtom(a) {
        SimpleLinks(p, cs, a, lo, RepeatOp(a, lazy), nx, s);
      } else {
        LoopLinks(p, cs, a, min, max, lazy, lo, nx, s);
      }
  }

  lemma {:induction false} PiecesLinks(p: seq<int>, cs: set<nat>, b: Pieces, lo: nat, nx: nat, s: set<nat>)
    requires b.Cons?
    requires CodePieces(p, cs, b, lo, nx) && SolidPieces(b)
    requires CountersAre(cs, CtrsPieces(b, lo), lo, LenPieces(b))
    requires Starts(p, lo, lo + LenPieces(b)) <= s && nx in s
    ensures LinksOk(p, lo, lo + LenPieces(b), s)
    decreases b, 0
  {
    hide CodePiece, LenPiece, SolidAtom, CtrsPiece, LinksOk, Starts, Tiled;
    var n := LenPiece(b.p);
    CountersSplit(cs, CtrsPiece(b.p, lo), CtrsPieces(b.ps, lo + n), lo, n, LenPieces(b.ps));
    if b.ps.Nil? {
      PieceLinks(p, cs, b.p, lo, nx, s);
    } else {
      var m := lo + n;
      var hi := m + LenPieces(b.ps);
      PieceTiled(p, cs, b.p, lo, m);
      PiecesTiled(p, cs, b.ps, m, nx);
      TiledEnd(p, cs, m, hi);
      LenSome(b.ps);
      StartsIn(p, cs, lo, m, hi, s);
      PieceLinks(p, cs, b.p, lo, m, s);
      PiecesLinks(p, cs, b.ps, m, nx, s);
      LinksJoin(p, cs, lo, m, hi, s);
    }
  }

  lemma TiledEnd(p: seq<int>, cs: set<nat>, lo: nat, hi: nat)
    requires Tiled(p, cs, lo, hi)
    ensures lo <= hi <= |p|
  {
  }

  lemma LenSome(b: Pieces)
    ensures b.Cons? ==> LenPieces(b) > 0
    ensures LenBranch(b) > 0
  {
  }

  lemma {:induction false} BranchLinks(p: seq<int>, cs: set<nat>, b: Pieces, lo: nat, nx: nat, s: set<nat>)
    requires CodeBranch(p, cs, b, lo, nx) && SolidPieces(b)
    requires CountersAre(cs, CtrsPieces(b, lo), lo, LenBranch(b))
    requires Starts(p, lo, lo + LenBranch(b)) <= s && nx in s
    ensures LinksOk(p, lo, lo + LenBranch(b), s)
    decreases b, 1
  {
    hide LinksOk, Starts, Tiled;
    if b.Nil? {
      NodeLinks(p, cs, lo, NOTHING, nx, s);
    } else {
      PiecesLinks(p, cs, b, lo, nx, s);
    }
  }

  lemma {:induction false} AltsLinks(p: seq<int>, cs: set<nat>, alts: Alts, lo: nat, e: nat, s: set<nat>)
    requires CodeAlts(p, cs, alts, lo, e) && SolidAlts(alts)
    requires CountersAre(cs, CtrsAlts(alts, lo), lo, LenAlts(alts))
    requires Starts(p, lo, lo + LenAlts(alts)) <= s && e in s
    ensures LinksOk(p, lo, lo + LenAlts(alts), s)
    decreases alts
  {
    hide CodeBranch, LenBranch, SolidPieces, CtrsPieces, Tiled, LenPieces, LinksOk, Starts;
    var n := LenBranch(alts.b);
    var m := lo + 2 + n;
    var own := CtrsPieces(alts.b, lo + 2);
    BranchLens(alts.b);
    match alts
    case Last(b) =>
      CountersSplit(cs, {}, own, lo, 2, n);
      NodeLinks(p, cs, lo, BRANCH, e, s);
      StartsIn(p, cs, lo, lo + 2, m, s);
      BranchLinks(p, cs, b, lo + 2, e, s);
      LinksJoin(p, cs, lo, lo + 2, m, s);
    case Or(b, more) =>
      var hi := lo + LenAlts(alts);
      CountersSplit(cs, own, CtrsAlts(more, m), lo, 2 + n, LenAlts(more));
      CountersSplit(cs, {}, own, lo, 2, n);
      NodeOne(p, cs, lo, BRANCH, m);
      BranchTiled(p, cs, b, lo + 2, e);
      AltsTiled(p, cs, more, m, e);
      TiledEnd(p, cs, m, hi);
      StartsIn(p, cs, lo, lo + 2, hi, s);
      StartsIn(p, cs, lo + 2, m, hi, s);
      NodeLinks(p, cs, lo, BRANCH, m, s);
      BranchLinks(p, cs, b, lo + 2, e, s);
      AltsLinks(p, cs, more, m, e, s);
      LinksJoin(p, cs, lo + 2, m, hi, s);
      LinksJoin(p, cs, lo, lo + 2, hi, s);
  }

  // ---- what is compiled

  lemma ProgramCode(magic: int, alts: Alts)
    requires SolidAlts(alts)
    ensures var p := GenProgram(magic, alts); var cs := CtrsAlts(alts, 1); var e := 1 + LenAlts(alts);
            && CodeAlts(p, cs, alts, 1, e) && CountersAre(cs, cs, 1, LenAlts(alts))
            && Tiled(p, cs, 1, e) && e + 2 == |p| && p[e] == END
  {
    hide GenAlts, SolidAlts, CtrsAlts, CodeAlts, LenAlts, Tiled;
    var p := GenProgram(magic, alts);
    var cs := CtrsAlts(alts, 1);
    var e := 1 + LenAlts(alts);
    assert Words(p, 1, GenAlts(alts));
    AltsHeld(p, cs, alts, 1, e);
    AltsTiled(p, cs, alts, 1, e);
  }

  /** The compiled program is nodes end to end, then END; every link that is set leads from a node to a
      node or to END, and forward unless the node is BACK. */
  lemma ProgramLinks(magic: int, alts: Alts)
    requires SolidAlts(alts)
    ensures var p := GenProgram(magic, alts); var e := 1 + LenAlts(alts);
            && Tiled(p, CtrsAlts(alts, 1), 1, e) && e < |p| && p[e] == END
            && LinksOk(p, 1, e, Starts(p, 1, e) + {e})
  {
    hide CodeAlts, SolidAlts, LenAlts, CtrsAlts, Tiled, LinksOk, Starts, GenProgram;
    var p := GenProgram(magic, alts);
    var e := 1 + LenAlts(alts);
    ProgramCode(magic, alts);
    AltsLinks(p, CtrsAlts(alts, 1), alts, 1, e, Starts(p, 1, e) + {e});
  }

  // ---- an emitted atom may be moved

  /** Inside an emitted group, between its parentheses, all links stay inside. */
  lemma GroupInside(p: seq<int>, no: ParenNo, alts: Alts)
    requires SolidAlts(alts)
    ensures var q := p + GenAtom(Group(no, alts)); var lo := |p| + 2; var e := lo + LenAlts(alts);
            && |q| == e + 2 && Split(q, |p|, |q|) && Starts(q, |p|, |q|) == {|p|} + Starts(q, lo, e) + {e}
            && LinksOk(q, lo, e, Starts(q, lo, e) + {e})
            && q[|p| + 1] == 2 && q[|p|] != BACK && q[e + 1] == 0
  {
    hide GenAlts, LenAlts, CtrsAlts, CodeAlts, Tiled, LinksOk, Starts, Split, OpSize;
    var q := p + GenAtom(Group(no, alts));
    var lo := |p| + 2;
    var e := lo + LenAlts(alts);
    var cs := CtrsAlts(alts, lo);
    GroupAt(p, no, alts);
    AltsHeld(q, cs, alts, lo, e);
    AltsTiled(q, cs, alts, lo, e);
    AltsLinks(q, cs, alts, lo, e, Starts(q, lo, e) + {e});
    TiledSplit(q, cs, lo, e);
    ShortNode(q, |p|);
    ShortNode(q, e);
    SplitJoin(q, lo, e, |q|);
    SplitJoin(q, |p|, lo, |q|);
  }

  lemma GroupAt(p: seq<int>, no: ParenNo, alts: Alts)
    ensures var q := p + GenAtom(Group(no, alts)); var e := |p| + 2 + LenAlts(alts);
            && |q| == e + 2 && Words(q, |p| + 2, GenAlts(alts))
            && q[|p|] == OPEN + no && q[|p| + 1] == 2 && q[e] == CLOSE + no && q[e + 1] == 0
  {
    hide GenAlts, LenAlts;
  }

  lemma ShortNode(q: seq<int>, x: nat)
    requires x + 2 <= |q| && TwoWords(q[x])
    ensures Split(q, x, x + 2) && Starts(q, x, x + 2) == {x}
  {
    assert Split(q, x + 2, x + 2) && Starts(q, x + 2, x + 2) == {};
  }

  lemma AtomUp(p: seq<int>, a: Atom)
    requires SolidAtom(a)
    ensures var q := p + GenAtom(a); Split(q, |p|, |q|) && LeadUp(q, |p|)
  {
    hide GenAlts, LenAlts, Starts, Split, OpSize, SolidAlts;
    if a.Group? {
      GroupInside(p, a.no, a.alts);
    } else {
      LeafAlone(p, a);
    }
  }

  /** No link crosses the start of the atom that was emitted last: this is why a repeat header may
      be inserted there. */
  lemma AtomStays(p: seq<int>, a: Atom)
    requires WellLinked(p) && SolidAtom(a)
    ensures NoneCross(p + GenAtom(a), |p|)
  {
    hide GenAtom, Split, LeadUp, WellLinked, NoneCross;
    AtomUp(p, a);
    NoneCrossEnd(p, p + GenAtom(a));
  }
}
