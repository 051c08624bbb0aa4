// A compiled program splits into nodes end to end, and the counters are exactly the fifth words
// of its complex repeats. This is what lets a scan by node size reset every counter.
module RegexNodes {
  import opened RegexSyntax
  import opened RegexCode

  function ZeroAt(p: seq<int>, at: nat): (z: nat)
    ensures at <= z
    ensures at <= |p| ==> z <= |p|
    ensures forall i | at <= i < z :: i < |p| && p[i] != 0
    ensures z < |p| ==> p[z] == 0
    decreases |p| - at
  {
    if at >= |p| || p[at] == 0 then at else ZeroAt(p, at + 1)
  }

  /** Size in words of the node at p, by its opcode and, for operands, their ending zero. */
  function OpSize(p: seq<int>, at: nat): (n: nat)
    requires at < |p|
    ensures n >= 2
  {
    var op := p[at];
    if op == REP || op == REPMIN || op == REPX || op == REPXMIN then 5
    else if op == ANYOF || op == ANYBUT || op == EXACTLY then ZeroAt(p, at + 2) + 1 - at
    else 2
  }

  /** The "next" pointer of the node at p; 0 when there is none. */
  function RegNext(program: seq<int>, p: nat): int
    requires p + 1 < |program|
  {
    var offset := program[p + 1];
    if offset == 0 then 0
    else if program[p] == BACK then p - offset
    else p + offset
  }

  method RegOpSize(p: seq<int>, at: nat) returns (n: nat)
    requires at < |p| && at + OpSize(p, at) <= |p|
    ensures n == OpSize(p, at)
  {
    var op := p[at];
    if op == REP || op == REPMIN || op == REPX || op == REPXMIN {
      return 5;
    }
    if op == ANYOF || op == ANYBUT || op == EXACTLY {
      var s := at + 2;
      while p[s] != 0
        invariant at + 2 <= s < |p| && ZeroAt(p, at + 2) == ZeroAt(p, s)
        decreases |p| - s
      {
        s := s + 1;
      }
      return s + 1 - at;
    }
    return 2;
  }

  ghost predicate IsComplex(op: int) {
    op == REPX || op == REPXMIN
  }

  /** One node at lo of n words, not END, holding a counter (cleared) iff it is a complex repeat. */
  ghost predicate NodeAt(p: seq<int>, cs: set<nat>, lo: nat, n: nat) {
    && lo + n <= |p| && 2 <= n == OpSize(p, lo)
    && p[lo] != END
    && (IsComplex(p[lo]) ==> p[lo + 4] == 0)
    && forall i: nat | lo <= i < lo + n :: i in cs <==> (i == lo + 4 && IsComplex(p[lo]))
  }

  /** Nodes tile the words [lo, hi). */
  ghost predicate Tiled(p: seq<int>, cs: set<nat>, lo: nat, hi: nat)
    decreases hi - lo
  {
    && lo <= hi <= |p|
    && (lo == hi || (NodeAt(p, cs, lo, OpSize(p, lo)) && Tiled(p, cs, lo + OpSize(p, lo), hi)))
  }

  lemma {:induction false} TiledJoin(p: seq<int>, cs: set<nat>, lo: nat, m: nat, hi: nat)
    requires Tiled(p, cs, lo, m) && Tiled(p, cs, m, hi)
    ensures Tiled(p, cs, lo, hi)
    decreases m - lo
  {
    if lo < m {
      TiledJoin(p, cs, lo + OpSize(p, lo), m, hi);
    }
  }

  lemma TiledOne(p: seq<int>, cs: set<nat>, lo: nat, n: nat)
    requires NodeAt(p, cs, lo, n)
    ensures Tiled(p, cs, lo, lo + n)
  {
    assert Tiled(p, cs, lo + n, lo + n);
  }

  // ---- on the block [lo, lo + n), cs is exactly own

  ghost predicate CountersAre(cs: set<nat>, own: set<nat>, lo: nat, n: nat) {
    forall i: nat | lo <= i < lo + n :: i in cs <==> i in own
  }

  lemma CountersSplit(cs: set<nat>, own: set<nat>, more: set<nat>, lo: nat, n: nat, m: nat)
    requires forall i | i in own :: lo <= i < lo + n
    requires forall i | i in more :: lo + n <= i < lo + n + m
    requires CountersAre(cs, own + more, lo, n + m)
    ensures CountersAre(cs, own, lo, n)
    ensures CountersAre(cs, more, lo + n, m)
  {
  }

  lemma ZeroAtOperand(p: seq<int>, at: nat, ws: seq<int>)
    requires Words(p, at, ws + [0]) && forall i | 0 <= i < |ws| :: ws[i] != 0
    ensures ZeroAt(p, at) == at + |ws|
  {
    assert p[at + |ws|] == (ws + [0])[|ws|];
    forall i | at <= i < at + |ws|
      ensures p[i] != 0
    {
      assert p[i] == (ws + [0])[i - at];
    }
  }

  lemma LeafTiled(p: seq<int>, cs: set<nat>, a: Atom, lo: nat)
    requires !a.Group? && SolidAtom(a) && LeafWords(p, a, lo)
    requires CountersAre(cs, {}, lo, LenAtom(a))
    ensures Tiled(p, cs, lo, lo + LenAtom(a))
  {
    match a {
      case Lit(ws) => ZeroAtOperand(p, lo + 2, ws);
      case Class(_, ws) => ZeroAtOperand(p, lo + 2, ws);
      case _ =>
    }
    assert NodeAt(p, cs, lo, LenAtom(a));
    TiledOne(p, cs, lo, LenAtom(a));
  }

  /** Opcode and operand words of a leaf, whatever its link. */
  ghost predicate LeafWords(p: seq<int>, a: Atom, lo: nat) {
    match a
    case Lit(ws) => lo < |p| && p[lo] == EXACTLY && Words(p, lo + 2, ws + [0])
    case Dot => lo + 1 < |p| && p[lo] == ANY
    case Class(neg, ws) => lo < |p| && p[lo] == (if neg then ANYBUT else ANYOF) && Words(p, lo + 2, ws + [0])
    case Zero(op) => lo + 1 < |p| && p[lo] == op
    case Group(_, _) => false
  }

  lemma OperandLeaf(p: seq<int>, a: Atom, lo: nat)
    requires Operand(p, a, lo)
    ensures LeafWords(p, a, lo)
  {
    match a
    case Lit(ws) =>
      assert [EXACTLY, 0] + ws + [0] == [EXACTLY, 0] + (ws + [0]);
      WordsSplit(p, lo, [EXACTLY, 0], ws + [0]);
    case Class(neg, ws) =>
      var op := if neg then ANYBUT else ANYOF;
      assert [op, 0] + ws + [0] == [op, 0] + (ws + [0]);
      WordsSplit(p, lo, [op, 0], ws + [0]);
    case _ =>
  }

  // ---- every emitted construct is tiled

  lemma {:induction false} AtomTiled(p: seq<int>, cs: set<nat>, a: Atom, lo: nat, nx: nat)
    requires CodeAtom(p, cs, a, lo, nx) && SolidAtom(a)
    requires CountersAre(cs, CtrsAtom(a, lo), lo, LenAtom(a))
    ensures Tiled(p, cs, lo, lo + LenAtom(a))
    decreases a, 0
  {
    hide CodeAlts, SolidAlts, LenAlts, CtrsAlts, Tiled;
    if a.Group? {
      var n := LenAlts(a.alts);
      var e := lo + 2 + n;
      CountersSplit(cs, CtrsAlts(a.alts, lo + 2), {}, lo, 2 + n, 2);
      CountersSplit(cs, {}, CtrsAlts(a.alts, lo + 2), lo, 2, n);
      NodeOne(p, cs, lo, OPEN + a.no, lo + 2);
      NodeOne(p, cs, e, CLOSE + a.no, nx);
      AltsTiled(p, cs, a.alts, lo + 2, e);
      TiledJoin(p, cs, lo, lo + 2, e);
      TiledJoin(p, cs, lo, e, e + 2);
    } else {
      LeafTiled(p, cs, a, lo);
    }
  }

  /** A two-word node other than END. */
  lemma NodeOne(p: seq<int>, cs: set<nat>, lo: nat, op: int, nx: nat)
    requires Node(p, lo, op, nx)
    requires op == BRANCH || op == NOTHING || op >= OPEN - 1
    requires CountersAre(cs, {}, lo, 2)
    ensures Tiled(p, cs, lo, lo + 2)
  {
    assert NodeAt(p, cs, lo, 2);
    TiledOne(p, cs, lo, 2);
  }

  lemma LoopTiled(p: seq<int>, cs: set<nat>, a: Atom, min: int, max: int, lazy: bool, r: nat, nx: nat)
    requires CodeLoop(p, cs, a, min, max, lazy, r, 0, nx) && SolidAtom(a) && !SimpleAtom(a)
    requires CountersAre(cs, {r + 4} + CtrsAtom(a, r + 5), r, LenAtom(a) + 7)
    ensures Tiled(p, cs, r, r + LenAtom(a) + 7)
    decreases a, 1
  {
    hide CodeAtom, LenAtom, SolidAtom, CtrsAtom, Tiled;
    var n := LenAtom(a);
    var b := r + 5 + n;
    var own := CtrsAtom(a, r + 5);
    CountersSplit(cs, {r + 4}, own, r, 5, n + 2);
    CountersSplit(cs, own, {}, r + 5, n, 2);
    assert NodeAt(p, cs, r, 5);
    TiledOne(p, cs, r, 5);
    AtomTiled(p, cs, a, r + 5, b);
    assert NodeAt(p, cs, b, 2);
    TiledOne(p, cs, b, 2);
    TiledJoin(p, cs, r, r + 5, b);
    TiledJoin(p, cs, r, b, b + 2);
  }

  lemma SimpleRepeatTiled(p: seq<int>, cs: set<nat>, a: Atom, lo: nat, op: int)
    requires lo + 4 < |p| && p[lo] == op && (op == REP || op == REPMIN)
    requires Operand(p, a, lo + 5) && SolidAtom(a)
    requires CountersAre(cs, {}, lo, LenAtom(a) + 5)
    ensures Tiled(p, cs, lo, lo + LenAtom(a) + 5)
  {
    hide Tiled;
    assert NodeAt(p, cs, lo, 5);
    TiledOne(p, cs, lo, 5);
    OperandLeaf(p, a, lo + 5);
    LeafTiled(p, cs, a, lo + 5);
    TiledJoin(p, cs, lo, lo + 5, lo + 5 + LenAtom(a));
  }

  lemma {:induction false} PieceTiled(p: seq<int>, cs: set<nat>, piece: Piece, lo: nat, nx: nat)
    requires CodePiece(p, cs, piece, lo, nx) && SolidAtom(piece.a)
    requires CountersAre(cs, CtrsPiece(piece, lo), lo, LenPiece(piece))
    ensures Tiled(p, cs, lo, lo + LenPiece(piece))
    decreases piece
  {
    hide CodeAtom, LenAtom, SolidAtom, CtrsAtom, Tiled;
    match piece
    case Once(a) => AtomTiled(p, cs, a, lo, nx);
    case Repeat(a, min, max, lazy) =>
      if SimpleAtom(a) {
        SimpleRepeatTiled(p, cs, a, lo, RepeatOp(a, lazy));
      } else {
        LoopTiled(p, cs, a, min, max, lazy, lo, nx);
      }
  }

  lemma {:induction false} PiecesTiled(p: seq<int>, cs: set<nat>, b: Pieces, lo: nat, nx: nat)
    requires b.Cons?
    requires CodePieces(p, cs, b, lo, nx) && SolidPieces(b)
    requires CountersAre(cs, CtrsPieces(b, lo), lo, LenPieces(b))
    ensures Tiled(p, cs, lo, lo + LenPieces(b))
    decreases b, 0
  {
    hide CodePiece, LenPiece, SolidAtom, CtrsPiece, Tiled;
    var n := LenPiece(b.p);
    CountersSplit(cs, CtrsPiece(b.p, lo), CtrsPieces(b.ps, lo + n), lo, n, LenPieces(b.ps));
    if b.ps.Nil? {
      PieceTiled(p, cs, b.p, lo, nx);
    } else {
      PieceTiled(p, cs, b.p, lo, lo + n);
      PiecesTiled(p, cs, b.ps, lo + n, nx);
      TiledJoin(p, cs, lo, lo + n, lo + n + LenPieces(b.ps));
    }
  }

  lemma BranchTiled(p: seq<int>, cs: set<nat>, b: Pieces, lo: nat, nx: nat)
    requires CodeBranch(p, cs, b, lo, nx) && SolidPieces(b)
    requires CountersAre(cs, CtrsPieces(b, lo), lo, LenBranch(b))
    ensures Tiled(p, cs, lo, lo + LenBranch(b))
    decreases b, 1
  {
    if b.Nil? {
      NodeOne(p, cs, lo, NOTHING, nx);
    } else {
      PiecesTiled(p, cs, b, lo, nx);
    }
  }

  lemma {:induction false} AltsTiled(p: seq<int>, cs: set<nat>, alts: Alts, lo: nat, e: nat)
    requires CodeAlts(p, cs, alts, lo, e) && SolidAlts(alts)
    requires CountersAre(cs, CtrsAlts(alts, lo), lo, LenAlts(alts))
    ensures Tiled(p, cs, lo, lo + LenAlts(alts))
    decreases alts
  {
    hide CodeBranch, LenBranch, SolidPieces, CtrsPieces, Tiled, LenPieces;
    var n := LenBranch(alts.b);
    var own := CtrsPieces(alts.b, lo + 2);
    BranchLens(alts.b);
    match alts
    case Last(b) =>
      CountersSplit(cs, {}, own, lo, 2, n);
      NodeOne(p, cs, lo, BRANCH, e);
      BranchTiled(p, cs, b, lo + 2, e);
      TiledJoin(p, cs, lo, lo + 2, lo + 2 + n);
    case Or(b, more) =>
      CountersSplit(cs, own, CtrsAlts(more, lo + 2 + n), lo, 2 + n, LenAlts(more));
      CountersSplit(cs, {}, own, lo, 2, n);
      NodeOne(p, cs, lo, BRANCH, lo + 2 + n);
      BranchTiled(p, cs, b, lo + 2, e);
      AltsTiled(p, cs, more, lo + 2 + n, e);
      TiledJoin(p, cs, lo, lo + 2, lo + 2 + n);
      TiledJoin(p, cs, lo, lo + 2 + n, lo + LenAlts(alts));
  }

  lemma BranchLens(b: Pieces)
    ensures LenPieces(b) <= LenBranch(b)
  {
  }
}
