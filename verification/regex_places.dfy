// Where the matcher can stand in the program of an expression, counters aside: what the program holds
// from a node on, where each kind of node leads, and a measure of the way still to go.
module RegexPlaces {
  import opened RegexSyntax
  import opened RegexCode
  import opened RegexNodes
  import opened RegexKont

  /** p and q differ at counter words only. */
  ghost predicate SameBut(p: seq<int>, q: seq<int>, cs: set<nat>) {
    |p| == |q| && forall i | 0 <= i < |p| && i !in cs :: p[i] == q[i]
  }

  /** What a program holds from a node on. nx is where it leads; AtBack stands at the BACK node of a
      repeat whose header is at r. */
  datatype Place =
    | AtEnd
    | AtPieces(b: Pieces, nx: nat, k: Place)
    | AtNothing(nx: nat, k: Place)
    | AtAlts(alts: Alts, nx: nat, k: Place)
    | AtClose(no: ParenNo, nx: nat, k: Place)
    | AtBack(r: nat, piece: Piece, nx: nat, k: Place)

  ghost predicate Complex(p: Piece) {
    p.Repeat? && !SimpleAtom(p.a)
  }

  /** q holds, at the node x, what the place says; cs are its counter words. */
  ghost predicate Stands(q: seq<int>, cs: set<nat>, x: nat, pl: Place)
    decreases pl
  {
    && 0 < x && x + 1 < |q|
    && match pl
       case AtEnd => q[x] == END && CountersAre(cs, {}, x, 2)
       case AtPieces(b, nx, k) =>
         && x < nx && b.Cons? && SafePieces(b) && CodePieces(q, cs, b, x, nx)
         && CountersAre(cs, CtrsPieces(b, x), x, LenPieces(b)) && Stands(q, cs, nx, k)
       case AtNothing(nx, k) => Node(q, x, NOTHING, nx) && CountersAre(cs, {}, x, 2) && Stands(q, cs, nx, k)
       case AtAlts(alts, nx, k) =>
         && x < nx && SafeAlts(alts) && CodeAlts(q, cs, alts, x, nx) && (k.AtEnd? || k.AtClose?)
         && CountersAre(cs, CtrsAlts(alts, x), x, LenAlts(alts)) && Stands(q, cs, nx, k)
       case AtClose(no, nx, k) =>
         && (no == -1 || 1 <= no < REG_MAX_PAREN)
         && Node(q, x, CLOSE + no, nx) && CountersAre(cs, {}, x, 2) && Stands(q, cs, nx, k)
       case AtBack(r, piece, nx, k) =>
         && 0 < r && Complex(piece) && SafePiece(piece) && x == r + 5 + LenAtom(piece.a)
         && CodePiece(q, cs, piece, r, nx)
         && CountersAre(cs, CtrsPiece(piece, r), r, LenPiece(piece)) && Stands(q, cs, nx, k)
  }

  // ---- the way still to go if no further round is made

  function StepsAtom(a: Atom): (n: nat)
    ensures n >= 1
    decreases a
  {
    if a.Group? then StepsAlts(a.alts) + 3 else 1
  }

  function StepsPiece(p: Piece): (n: nat)
    ensures n >= 1
    decreases p
  {
    match p
    case Once(a) => StepsAtom(a)
    case Repeat(a, _, _, _) => 2
  }

  function StepsPieces(b: Pieces): nat
    decreases b
  {
    if b.Nil? then 0 else StepsPiece(b.p) + StepsPieces(b.ps)
  }

  function StepsAlts(alts: Alts): nat
    decreases alts
  {
    StepsPieces(alts.b) + 2 + if alts.Or? then StepsAlts(alts.more) else 0
  }

  function Steps(pl: Place): nat {
    match pl
    case AtEnd => 0
    case AtPieces(b, _, k) => StepsPieces(b) + Steps(k)
    case AtNothing(_, k) => 1 + Steps(k)
    case AtAlts(alts, _, k) => StepsAlts(alts) + Steps(k)
    case AtClose(_, _, k) => 1 + Steps(k)
    case AtBack(_, _, _, k) => 3 + Steps(k)
  }

  // ---- the rounds that can still be made

  ghost function Left(max: int, c: int): nat {
    if c < max then max - c else 0
  }

  /** Rounds left over all loops, up to the word n; each loop may be entered once more than its maximum. */
  ghost function Rounds(q: seq<int>, p: seq<int>, cs: set<nat>, n: nat): nat
    requires n <= |p| == |q|
  {
    if n == 0 then 0
    else Rounds(q, p, cs, n - 1) + if n - 1 in cs && n >= 3 then Left(q[n - 3] + 1, p[n - 1]) else 0
  }

  /** Counting a round leaves fewer. */
  lemma {:induction false} RoundsLess(q: seq<int>, p: seq<int>, cs: set<nat>, n: nat, x: nat, v: int)
    requires 2 <= x < n <= |p| == |q| && x in cs && p[x] < v <= q[x - 2] + 1
    ensures Rounds(q, p[x := v], cs, n) < Rounds(q, p, cs, n)
    decreases n
  {
    if x < n - 1 {
      RoundsLess(q, p, cs, n - 1, x, v);
    } else {
      RoundsSame(q, p, cs, n - 1, x, v);
    }
  }

  lemma {:induction false} RoundsSame(q: seq<int>, p: seq<int>, cs: set<nat>, n: nat, x: nat, v: int)
    requires n <= x < |p| == |q|
    ensures Rounds(q, p[x := v], cs, n) == Rounds(q, p, cs, n)
    decreases n
  {
    if n > 0 {
      RoundsSame(q, p, cs, n - 1, x, v);
    }
  }

  // ---- which node it is

  ghost function OpPlace(pl: Place): int {
    match pl
    case AtEnd => END
    case AtPieces(b, _, _) => if b.Cons? then OpPiece(b.p) else NOTHING
    case AtNothing(_, _) => NOTHING
    case AtAlts(_, _, _) => BRANCH
    case AtClose(no, _, _) => CLOSE + no
    case AtBack(_, _, _, _) => BACK
  }

  lemma PlaceOp(q: seq<int>, cs: set<nat>, x: nat, pl: Place)
    requires Stands(q, cs, x, pl)
    ensures q[x] == OpPlace(pl) && x !in cs && x + 1 !in cs
  {
    hide CodeAlts, CodeAtom, CtrsAtom, SafePieces, SafeAlts, LenAtom;
    match pl
    case AtPieces(b, nx, _) => PiecesOp(q, cs, b, x, nx);
    case AtAlts(alts, nx, _) => AltsOp(q, cs, alts, x, nx);
    case AtBack(r, piece, nx, _) => BackOp(q, cs, piece, r, nx);
    case _ =>
  }

  lemma PiecesOp(q: seq<int>, cs: set<nat>, b: Pieces, x: nat, nx: nat)
    requires b.Cons? && CodePieces(q, cs, b, x, nx) && CountersAre(cs, CtrsPieces(b, x), x, LenPieces(b))
    ensures x + 1 < |q| && q[x] == OpPiece(b.p) && x !in cs && x + 1 !in cs
  {
    hide CodePiece, CtrsPiece, LenPiece;
    var n := LenPiece(b.p);
    CountersSplit(cs, CtrsPiece(b.p, x), CtrsPieces(b.ps, x + n), x, n, LenPieces(b.ps));
    OpOfPiece(q, cs, b.p, x, if b.ps.Nil? then nx else x + n);
    PieceRoom(q, cs, b.p, x, if b.ps.Nil? then nx else x + n);
    PieceFree(cs, b.p, x);
  }

  /** The first two words of a piece are no counters. */
  lemma PieceFree(cs: set<nat>, piece: Piece, x: nat)
    requires CountersAre(cs, CtrsPiece(piece, x), x, LenPiece(piece))
    ensures x !in cs && x + 1 !in cs
  {
    hide CtrsAlts, LenAlts;
  }

  lemma AltsOp(q: seq<int>, cs: set<nat>, alts: Alts, x: nat, nx: nat)
    requires CodeAlts(q, cs, alts, x, nx) && CountersAre(cs, CtrsAlts(alts, x), x, LenAlts(alts))
    ensures x + 1 < |q| && q[x] == BRANCH && x !in cs && x + 1 !in cs
  {
    hide CodeBranch, LenBranch, CtrsPieces;
  }

  lemma BackOp(q: seq<int>, cs: set<nat>, piece: Piece, r: nat, nx: nat)
    requires Complex(piece) && CodePiece(q, cs, piece, r, nx)
    requires CountersAre(cs, CtrsPiece(piece, r), r, LenPiece(piece))
    ensures var x := r + 5 + LenAtom(piece.a);
            x + 1 < |q| && q[x] == BACK && q[x + 1] == x - r && x !in cs && x + 1 !in cs
  {
    hide CodeAtom, LenAtom, CtrsAtom;
  }

  /** The opcode tells which node it is. */
  lemma PlaceShape(q: seq<int>, cs: set<nat>, x: nat, pl: Place)
    requires Stands(q, cs, x, pl)
    ensures var op := OpPlace(pl);
            && (op == END ==> pl.AtEnd?) && (op == BRANCH ==> pl.AtAlts?) && (op == NOTHING ==> pl.AtNothing?)
            && (op == BACK ==> pl.AtBack?)
            && (op == REP || op == REPMIN ==>
                  pl.AtPieces? && pl.b.p.Repeat? && SimpleAtom(pl.b.p.a) && pl.b.p.lazy == (op == REPMIN))
            && (op == REPX || op == REPXMIN ==>
                  pl.AtPieces? && Complex(pl.b.p) && pl.b.p.lazy == (op == REPXMIN))
            && (op >= OPEN - 1 ==>
                  && (op == OPEN - 1 || OPEN + 1 <= op < CLOSE_END)
                  && (pl.AtClose? || (pl.AtPieces? && pl.b.p.Once? && pl.b.p.a.Group?)))
            && (op !in {END, BRANCH, NOTHING, BACK, REP, REPMIN, REPX, REPXMIN} && op < OPEN - 1 ==>
                  op <= WORDZ && pl.AtPieces? && pl.b.p.Once? && !pl.b.p.a.Group?)
  {
    hide CodeAlts, CodePieces, CodePiece, CountersAre, SafeAlts, LenAtom, Node;
    if pl.AtPieces? {
      assert SafePiece(pl.b.p) && SafeAtom(pl.b.p.a);
    }
  }

  // ---- past the first piece

  ghost function AfterPlace(pl: Place): Place
    requires pl.AtPieces? && pl.b.Cons?
  {
    if pl.b.ps.Nil? then pl.k else AtPieces(pl.b.ps, pl.nx, pl.k)
  }

  ghost function AfterAddr(pl: Place, x: nat): nat
    requires pl.AtPieces? && pl.b.Cons?
  {
    if pl.b.ps.Nil? then pl.nx else x + LenPiece(pl.b.p)
  }

  lemma AfterStands(q: seq<int>, cs: set<nat>, x: nat, pl: Place)
    requires Stands(q, cs, x, pl) && pl.AtPieces?
    ensures SafePiece(pl.b.p) && x < AfterAddr(pl, x) && CodePiece(q, cs, pl.b.p, x, AfterAddr(pl, x))
    ensures CountersAre(cs, CtrsPiece(pl.b.p, x), x, LenPiece(pl.b.p))
    ensures Stands(q, cs, AfterAddr(pl, x), AfterPlace(pl))
    ensures Steps(pl) == StepsPiece(pl.b.p) + Steps(AfterPlace(pl))
  {
    hide CodePiece, CtrsPiece, LenPiece, SafePiece, StepsPiece, CountersAre;
    var n := LenPiece(pl.b.p);
    CountersSplit(cs, CtrsPiece(pl.b.p, x), CtrsPieces(pl.b.ps, x + n), x, n, LenPieces(pl.b.ps));
    if pl.b.ps.Cons? {
      CodePiecesForward(q, cs, pl.b.ps, x + n, pl.nx);
      CodePieceForward(q, cs, pl.b.p, x, x + n);
    } else {
      assert StepsPieces(pl.b.ps) == 0;
    }
  }

  // ---- along the "next" link

  ghost function NextPlace(pl: Place, x: nat): Place
    requires !pl.AtEnd? && (pl.AtPieces? ==> pl.b.Cons?)
  {
    match pl
    case AtPieces(b, _, _) =>
      if b.p.Once? && b.p.a.Group? then
        AtAlts(b.p.a.alts, x + 2 + LenAlts(b.p.a.alts), AtClose(b.p.a.no, AfterAddr(pl, x), AfterPlace(pl)))
      else AfterPlace(pl)
    case AtNothing(_, k) => k
    case AtAlts(alts, _, k) => if alts.Or? then pl.(alts := alts.more) else k
    case AtClose(_, _, k) => k
    case AtBack(_, piece, nx, k) => AtPieces(Cons(piece, Nil), nx, k)
  }

  ghost function NextAddr(pl: Place, x: nat): nat
    requires !pl.AtEnd? && (pl.AtPieces? ==> pl.b.Cons?)
  {
    match pl
    case AtPieces(b, _, _) => if b.p.Once? && b.p.a.Group? then x + 2 else AfterAddr(pl, x)
    case AtNothing(nx, _) => nx
    case AtAlts(alts, nx, _) => if alts.Or? then x + 2 + LenBranch(alts.b) else nx
    case AtClose(_, nx, _) => nx
    case AtBack(r, _, _, _) => r
  }

  /** Every node but END leads on, to a place nearer to the end. */
  lemma NextStands(q: seq<int>, cs: set<nat>, x: nat, pl: Place)
    requires Stands(q, cs, x, pl) && !pl.AtEnd?
    ensures pl.AtPieces? ==> pl.b.Cons?
    ensures x + 1 < |q| && RegNext(q, x) == NextAddr(pl, x) > 0
    ensures Stands(q, cs, NextAddr(pl, x), NextPlace(pl, x)) && Steps(NextPlace(pl, x)) < Steps(pl)
  {
    hide CodePiece, SafePiece, CountersAre, CtrsAlts, CtrsPiece, SafeAlts, CodeAlts, LenPiece;
    PlaceOp(q, cs, x, pl);
    match pl
    case AtPieces(b, _, _) =>
      AfterStands(q, cs, x, pl);
      if b.p.Once? && b.p.a.Group? {
        GroupStands(q, cs, x, pl);
      } else {
        PieceNext(q, cs, b.p, x, AfterAddr(pl, x));
      }
    case AtAlts(alts, nx, k) => AltsStand(q, cs, x, pl);
    case AtBack(r, piece, nx, k) => BackStands(q, cs, x, pl);
    case _ =>
  }

  lemma PieceNext(q: seq<int>, cs: set<nat>, piece: Piece, x: nat, nx: nat)
    requires CodePiece(q, cs, piece, x, nx) && !(piece.Once? && piece.a.Group?) && x < nx
    ensures x + 1 < |q| && q[x] != BACK && RegNext(q, x) == nx
  {
    hide CodeAlts, LenAlts;
  }

  lemma GroupStands(q: seq<int>, cs: set<nat>, x: nat, pl: Place)
    requires Stands(q, cs, x, pl) && pl.AtPieces? && pl.b.p.Once? && pl.b.p.a.Group?
    ensures x + 1 < |q| && RegNext(q, x) == x + 2
    ensures Stands(q, cs, x + 2, NextPlace(pl, x)) && Steps(NextPlace(pl, x)) < Steps(pl)
  {
    hide CodePiece, CodeAlts, CodePieces, CountersAre, CtrsAlts, SafeAlts, StepsAlts, LenAlts, LenPiece, AfterPlace;
    hide SafePieces, CtrsPieces, LenPieces, StepsPieces, CtrsPiece, AfterAddr;
    AfterStands(q, cs, x, pl);
    var g := pl.b.p.a;
    var e := x + 2 + LenAlts(g.alts);
    GroupParts(q, cs, g.no, g.alts, x, AfterAddr(pl, x));
    GroupFree(cs, g.no, g.alts, x);
    assert StepsPiece(pl.b.p) == StepsAlts(g.alts) + 3;
    assert Stands(q, cs, e, AtClose(g.no, AfterAddr(pl, x), AfterPlace(pl)));
  }

  lemma GroupFree(cs: set<nat>, no: ParenNo, alts: Alts, x: nat)
    requires var g := Once(Group(no, alts)); CountersAre(cs, CtrsPiece(g, x), x, LenPiece(g))
    ensures CountersAre(cs, {}, x, 2) && CountersAre(cs, CtrsAlts(alts, x + 2), x + 2, LenAlts(alts))
    ensures CountersAre(cs, {}, x + 2 + LenAlts(alts), 2)
  {
    hide CtrsAlts, LenAlts;
    var n := LenAlts(alts);
    CountersSplit(cs, CtrsAlts(alts, x + 2), {}, x, 2 + n, 2);
    CountersSplit(cs, {}, CtrsAlts(alts, x + 2), x, 2, n);
  }

  ghost function BranchPlace(b: Pieces, nx: nat, k: Place): Place {
    if b.Nil? then AtNothing(nx, k) else AtPieces(b, nx, k)
  }

  /** A BRANCH leads to the next alternative or out; its operand is the first alternative. */
  lemma AltsStand(q: seq<int>, cs: set<nat>, x: nat, pl: Place)
    requires Stands(q, cs, x, pl) && pl.AtAlts?
    ensures x + 1 < |q| && RegNext(q, x) == NextAddr(pl, x) > x
    ensures Stands(q, cs, NextAddr(pl, x), NextPlace(pl, x)) && Steps(NextPlace(pl, x)) < Steps(pl)
    ensures Stands(q, cs, x + 2, BranchPlace(pl.alts.b, pl.nx, pl.k))
    ensures Steps(BranchPlace(pl.alts.b, pl.nx, pl.k)) < Steps(pl)
    ensures pl.alts.Or? <==> NextPlace(pl, x).AtAlts?
  {
    hide CodeBranch, LenBranch, CtrsPieces, SafePieces, StepsPieces, CodePieces, LenPieces;
    var n := LenBranch(pl.alts.b);
    var own := CtrsPieces(pl.alts.b, x + 2);
    BranchLens(pl.alts.b);
    match pl.alts {
      case Last(_) => CountersSplit(cs, {}, own, x, 2, n);
      case Or(_, more) =>
        CountersSplit(cs, own, CtrsAlts(more, x + 2 + n), x, 2 + n, LenAlts(more));
        CountersSplit(cs, {}, own, x, 2, n);
        AltsForward(q, cs, more, x + 2 + n, pl.nx);
    }
    BranchStands(q, cs, pl.alts.b, x + 2, pl.nx, pl.k);
  }

  lemma BranchStands(q: seq<int>, cs: set<nat>, b: Pieces, x: nat, nx: nat, k: Place)
    requires 0 < x && SafePieces(b) && CodeBranch(q, cs, b, x, nx) && Stands(q, cs, nx, k)
    requires CountersAre(cs, CtrsPieces(b, x), x, LenBranch(b))
    ensures Stands(q, cs, x, BranchPlace(b, nx, k)) && Steps(BranchPlace(b, nx, k)) <= StepsPieces(b) + 1 + Steps(k)
  {
    hide CodePiece, CtrsPiece, LenPiece, SafePiece, StepsPiece;
    if b.Cons? {
      CodePiecesForward(q, cs, b, x, nx);
    }
  }

  lemma BackStands(q: seq<int>, cs: set<nat>, x: nat, pl: Place)
    requires Stands(q, cs, x, pl) && pl.AtBack?
    ensures x + 1 < |q| && RegNext(q, x) == pl.r
    ensures Stands(q, cs, pl.r, NextPlace(pl, x)) && Steps(NextPlace(pl, x)) < Steps(pl)
  {
    var one := Cons(pl.piece, Nil);
    BackOp(q, cs, pl.piece, pl.r, pl.nx);
    PieceRoom(q, cs, pl.piece, pl.r, pl.nx);
    CodePieceForward(q, cs, pl.piece, pl.r, pl.nx);
    assert StepsPieces(one) == StepsPiece(pl.piece) + StepsPieces(Nil);
    OneCounters(pl.piece, pl.r);
    assert SafePieces(Nil) && SafePieces(one) && CodePieces(q, cs, one, pl.r, pl.nx);
    hide CodePiece, CtrsPiece, LenPiece, SafePiece, CodePieces, CtrsPieces, LenPieces, SafePieces, CountersAre;
  }

  lemma OnePiece(q: seq<int>, cs: set<nat>, piece: Piece, x: nat, nx: nat)
    requires CodePiece(q, cs, piece, x, nx) && SafePiece(piece)
    ensures CodePieces(q, cs, Cons(piece, Nil), x, nx) && SafePieces(Cons(piece, Nil))
  {
    hide CodePiece, SafePiece;
    assert SafePieces(Nil);
  }

  lemma OneCounters(piece: Piece, x: nat)
    ensures var one := Cons(piece, Nil);
            CtrsPieces(one, x) == CtrsPiece(piece, x) && LenPieces(one) == LenPiece(piece)
  {
    hide CtrsPiece, LenPiece;
    assert CtrsPieces(Nil, x + LenPiece(piece)) == {} && LenPieces(Nil) == 0;
  }

  // ---- into the body of a loop

  ghost function BodyPlace(pl: Place, x: nat): Place
    requires pl.AtPieces? && pl.b.Cons? && Complex(pl.b.p)
  {
    AtPieces(Cons(Once(pl.b.p.a), Nil), x + 5 + LenAtom(pl.b.p.a), AtBack(x, pl.b.p, AfterAddr(pl, x), AfterPlace(pl)))
  }

  /** The header of a loop, its counter, and the body behind it. */
  lemma BodyStands(q: seq<int>, cs: set<nat>, x: nat, pl: Place)
    requires Stands(q, cs, x, pl) && pl.AtPieces? && Complex(pl.b.p)
    ensures x + 4 < |q| && q[x + 2] == pl.b.p.max && q[x + 3] == pl.b.p.min
    ensures x + 2 !in cs && x + 3 !in cs && x + 4 in cs
    ensures Stands(q, cs, x + 5, BodyPlace(pl, x)) && pl.b.p.min <= pl.b.p.max
  {
    hide CodePiece, CodeAtom, CtrsAtom, LenAtom, SafeAtom, CountersAre, CtrsPiece, LenPiece, AfterPlace, AfterAddr;
    hide SafePieces, CodePieces, CtrsPieces, LenPieces, StepsPieces, Steps;
    AfterStands(q, cs, x, pl);
    var a := pl.b.p.a;
    LoopParts(q, cs, pl.b.p, x, AfterAddr(pl, x));
    LoopFree(cs, pl.b.p, x);
    assert Stands(q, cs, x + 5 + LenAtom(a), AtBack(x, pl.b.p, AfterAddr(pl, x), AfterPlace(pl)));
    hide SafePiece;
    OneStands(q, cs, a, x + 5, AtBack(x, pl.b.p, AfterAddr(pl, x), AfterPlace(pl)));
  }

  /** An atom on its own, and what comes after it. */
  lemma OneStands(q: seq<int>, cs: set<nat>, a: Atom, x: nat, k: Place)
    requires 0 < x && x + 1 < |q| && SafeAtom(a) && CodeAtom(q, cs, a, x, x + LenAtom(a))
    requires CountersAre(cs, CtrsAtom(a, x), x, LenAtom(a)) && Stands(q, cs, x + LenAtom(a), k) && LenAtom(a) > 0
    ensures Stands(q, cs, x, AtPieces(Cons(Once(a), Nil), x + LenAtom(a), k))
  {
    hide CodeAtom, CtrsAtom, LenAtom, SafeAtom, CountersAre;
    OneCounters(Once(a), x);
    OnePiece(q, cs, Once(a), x, x + LenAtom(a));
    assert CtrsPiece(Once(a), x) == CtrsAtom(a, x) && LenPiece(Once(a)) == LenAtom(a);
    hide CtrsPieces, LenPieces, SafePieces, CodePieces, CtrsPiece, LenPiece;
  }

  lemma LoopParts(q: seq<int>, cs: set<nat>, piece: Piece, x: nat, nx: nat)
    requires Complex(piece) && CodePiece(q, cs, piece, x, nx)
    ensures var b := x + 5 + LenAtom(piece.a);
            && x + 6 < |q| && b + 1 < |q| && q[x + 2] == piece.max && q[x + 3] == piece.min
            && CodeAtom(q, cs, piece.a, x + 5, b) && q[b] == BACK
  {
    hide CodeAtom, LenAtom;
  }

  lemma LoopFree(cs: set<nat>, piece: Piece, x: nat)
    requires Complex(piece) && CountersAre(cs, CtrsPiece(piece, x), x, LenPiece(piece))
    ensures x + 2 !in cs && x + 3 !in cs && x + 4 in cs
    ensures CountersAre(cs, CtrsAtom(piece.a, x + 5), x + 5, LenAtom(piece.a))
  {
    hide CtrsAtom, LenAtom;
    var n := LenAtom(piece.a);
    CountersSplit(cs, {x + 4} + CtrsAtom(piece.a, x + 5), {}, x, 5 + n, 2);
    CountersSplit(cs, {x + 4}, CtrsAtom(piece.a, x + 5), x, 5, n);
  }
}
