// The compiled form of a whole expression, and the search hints that are read off it: the character a
// match starts with, and the literal that every match contains.
module RegexHints {
  import opened RegexSyntax
  import opened RegexCode
  import opened RegexNodes
  import opened RegexChain
  import opened RegexKont
  import opened RegexPlaces
  import opened RegexShortcuts

  const REG_MAGIC := 0xFADED00D

  ghost function Clean(alts: Alts): seq<int> {
    GenProgram(REG_MAGIC, alts)
  }

  ghost function Ctrs(alts: Alts): set<nat> {
    CtrsAlts(alts, 1)
  }

  /** regmust points at a literal (of regmlen characters) on the top level of the only alternative. */
  ghost predicate MustOk(alts: Alts, regmust: nat, regmlen: nat, cs: seq<int>) {
    && alts.Last? && TopLiteral(alts.b, cs)
    && Words(Clean(alts), regmust, cs + [0]) && |cs| == regmlen
  }

  ghost predicate HasMust(alts: Alts, regmust: nat, regmlen: nat) {
    exists cs :: MustOk(alts, regmust, regmlen, cs)
  }

  /** Where the matcher starts. */
  ghost function TopPlace(alts: Alts): Place {
    AtAlts(alts, 1 + LenAlts(alts), AtEnd)
  }

  /** The whole-program frame of the matcher. */
  ghost function TopK(alts: Alts): Kont {
    KAlts(alts, 1 + LenAlts(alts), KEnd)
  }

  /** A compiled expression: its start and end, and the place its first node is. */
  lemma CleanFacts(alts: Alts)
    ensures var p := Clean(alts); var e := 1 + LenAlts(alts);
            && |p| == e + 2 && p[0] == REG_MAGIC && p[e] == END && p[e + 1] == 0
            && (SafeAlts(alts) ==> Stands(p, Ctrs(alts), 1, TopPlace(alts)))
            && (PlainAlts(alts) ==> At(p, Ctrs(alts), 1, TopK(alts)) && KOk(TopK(alts)))
            && 0 !in Ctrs(alts)
  {
    hide GenAlts, PlainAlts, SafeAlts, CtrsAlts, CodeAlts, LenAlts;
    var p := Clean(alts);
    var cs := Ctrs(alts);
    var e := 1 + LenAlts(alts);
    assert Words(p, 1, GenAlts(alts));
    AltsHeld(p, cs, alts, 1, e);
    assert Stands(p, cs, e, AtEnd);
  }

  /** It is nodes end to end if no operand holds a zero word. */
  lemma CleanTiled(alts: Alts)
    requires SolidAlts(alts)
    ensures var p := Clean(alts); var e := 1 + LenAlts(alts);
            |p| == e + 2 && Tiled(p, Ctrs(alts), 3, e) && forall i | i in Ctrs(alts) :: 3 <= i < e
  {
    hide GenAlts, SolidAlts, CtrsAlts, CodeAlts, LenAlts, Tiled;
    var p := Clean(alts);
    var cs := Ctrs(alts);
    var e := 1 + LenAlts(alts);
    assert Words(p, 1, GenAlts(alts));
    AltsHeld(p, cs, alts, 1, e);
    AltsTiled(p, cs, alts, 1, e);
    TopBranch(p, cs, alts, e);
  }

  lemma TopBranch(p: seq<int>, cs: set<nat>, alts: Alts, e: nat)
    requires CodeAlts(p, cs, alts, 1, e) && Tiled(p, cs, 1, e)
    requires e == 1 + LenAlts(alts) && cs == Ctrs(alts)
    ensures Tiled(p, cs, 3, e)
    ensures forall i | i in cs :: 3 <= i < e
  {
    hide CodeBranch, LenBranch, CtrsPieces;
    assert p[1] == BRANCH;
  }

  // ---- walking the top-level chain for literals

  /** A place met when following "next" links from the first top-level node: either what is left of
      the top-level pieces b0, or a node of a group passed on the way. The END node is at e. */
  ghost predicate OnTop(pl: Place, b0: Pieces, at: nat, e: nat) {
    match pl
    case AtEnd => at == e
    case AtPieces(b, nx, k) => k.AtEnd? && nx == e && forall cs | TopLiteral(b, cs) :: TopLiteral(b0, cs)
    case AtNothing(nx, k) => k.AtEnd? && nx == e
    case AtAlts(_, nx, k) => k.AtClose? && OnTop(k, b0, nx, e)
    case AtClose(_, nx, k) => OnTop(k, b0, nx, e)
    case AtBack(_, _, _, _) => false
  }

  lemma NextOnTop(pl: Place, x: nat, b0: Pieces, e: nat)
    requires OnTop(pl, b0, x, e) && !pl.AtEnd? && (pl.AtPieces? ==> pl.b.Cons?)
    ensures OnTop(NextPlace(pl, x), b0, NextAddr(pl, x), e)
  {
    if pl.AtPieces? {
      forall cs | TopLiteral(pl.b.ps, cs)
        ensures TopLiteral(b0, cs)
      {
        assert TopLiteral(pl.b, cs);
      }
      assert OnTop(AfterPlace(pl), b0, AfterAddr(pl, x), e);
    }
  }

  lemma ChainStep(p: seq<int>, scan: nat, e: nat)
    requires Path(p, scan, e) && scan <= e && e + 2 == |p| && p[e] == END && p[e + 1] == 0
    ensures scan + 1 < |p|
    ensures scan == e ==> RegNext(p, scan) == 0
    ensures scan != e ==> scan < RegNext(p, scan) <= e && Path(p, RegNext(p, scan), e)
  {
  }

  lemma PlaceStep(p: seq<int>, cs: set<nat>, scan: nat, pl: Place, b0: Pieces, e: nat)
    requires Stands(p, cs, scan, pl) && OnTop(pl, b0, scan, e) && scan != e
    ensures !pl.AtEnd? && (pl.AtPieces? ==> pl.b.Cons?)
    ensures var next := RegNext(p, scan);
            && next > 0 && next == NextAddr(pl, scan)
            && Stands(p, cs, next, NextPlace(pl, scan)) && OnTop(NextPlace(pl, scan), b0, next, e)
  {
    hide Stands, NextPlace, NextAddr, TopLiteral;
    NextStands(p, cs, scan, pl);
    NextOnTop(pl, scan, b0, e);
  }

  // ---- which literal of the chain is kept as the hint

  /** The literal cs is emitted at `at`, as a piece of b, which is emitted from lo on. */
  ghost predicate LitAt(b: Pieces, lo: nat, at: nat, cs: seq<int>) {
    b.Cons? && ((at == lo && b.p == Once(Lit(cs))) || LitAt(b.ps, lo + LenPiece(b.p), at, cs))
  }

  /** The hint (longest, len), where longest is the address of an operand, is at least as long as the
      literal cs at `at`, and is the later one if they are equally long. */
  ghost predicate Beaten(at: nat, cs: seq<int>, longest: nat, len: nat) {
    |cs| < len || (|cs| == len && at + 2 <= longest)
  }

  /** The hint is the longest literal among the pieces of b, the last of several. */
  ghost predicate LongestOf(b: Pieces, longest: nat, len: nat) {
    && (longest != 0 ==> exists at: nat, cs :: LitAt(b, 3, at, cs) && longest == at + 2 && len == |cs|)
    && forall at: nat, cs | LitAt(b, 3, at, cs) :: Beaten(at, cs, longest, len)
  }

  /** The top-level pieces still to come at a place of the chain, and their address. */
  ghost function RestOf(pl: Place): Pieces {
    match pl
    case AtPieces(b, _, _) => b
    case AtAlts(_, _, k) => RestOf(k)
    case AtClose(_, _, k) => RestOf(k)
    case _ => Nil
  }

  ghost function RestAt(pl: Place, scan: nat): nat {
    match pl
    case AtAlts(_, nx, k) => RestAt(k, nx)
    case AtClose(_, nx, k) => RestAt(k, nx)
    case _ => scan
  }

  /** What remains is part of b0, and what was passed is not better than the hint. */
  ghost predicate PassedBest(b0: Pieces, rest: Pieces, lo: nat, longest: nat, len: nat) {
    && (longest != 0 ==> exists at: nat, cs :: LitAt(b0, 3, at, cs) && longest == at + 2 && len == |cs|)
    && (forall at: nat, cs | LitAt(rest, lo, at, cs) :: LitAt(b0, 3, at, cs) && longest <= at + 1)
    && (forall at: nat, cs | LitAt(b0, 3, at, cs) :: LitAt(rest, lo, at, cs) || Beaten(at, cs, longest, len))
  }

  lemma {:induction false} LitInside(b: Pieces, lo: nat, at: nat, cs: seq<int>)
    requires LitAt(b, lo, at, cs)
    ensures at >= lo
    decreases b
  {
    if !(at == lo && b.p == Once(Lit(cs))) {
      LitInside(b.ps, lo + LenPiece(b.p), at, cs);
    }
  }

  lemma PassedStart(b: Pieces)
    ensures PassedBest(b, b, 3, 0, 0)
  {
  }

  lemma PassedEnd(b: Pieces, lo: nat, longest: nat, len: nat)
    requires PassedBest(b, Nil, lo, longest, len)
    ensures LongestOf(b, longest, len)
  {
    forall at: nat, cs | LitAt(b, 3, at, cs)
      ensures Beaten(at, cs, longest, len)
    {
      assert !LitAt(Nil, lo, at, cs);
    }
  }

  /** Passing a piece that is no literal. */
  lemma PassOther(b0: Pieces, rest: Pieces, lo: nat, longest: nat, len: nat)
    requires PassedBest(b0, rest, lo, longest, len) && rest.Cons? && !(rest.p.Once? && rest.p.a.Lit?)
    ensures PassedBest(b0, rest.ps, lo + LenPiece(rest.p), longest, len)
  {
    var lo' := lo + LenPiece(rest.p);
    hide Beaten, LenPiece;
    forall at: nat, cs
      ensures LitAt(rest, lo, at, cs) <==> LitAt(rest.ps, lo', at, cs)
    {
    }
  }

  /** Passing the literal ws, taken as the hint unless it is shorter. */
  lemma PassLit(b0: Pieces, rest: Pieces, lo: nat, longest: nat, len: nat, ws: seq<int>)
    requires PassedBest(b0, rest, lo, longest, len) && rest.Cons? && rest.p == Once(Lit(ws))
    ensures var taken := |ws| >= len;
            PassedBest(b0, rest.ps, lo + LenPiece(rest.p), if taken then lo + 2 else longest,
                       if taken then |ws| else len)
  {
    var lo' := lo + LenPiece(rest.p);
    hide LenPiece;
    var taken := |ws| >= len;
    var longest' := if taken then lo + 2 else longest;
    var len' := if taken then |ws| else len;
    assert LitAt(rest, lo, lo, ws);
    forall at: nat, cs | LitAt(rest.ps, lo', at, cs)
      ensures LitAt(b0, 3, at, cs) && longest' <= at + 1
    {
      assert LitAt(rest, lo, at, cs);
      LitInside(rest.ps, lo', at, cs);
    }
    forall at: nat, cs | LitAt(b0, 3, at, cs)
      ensures LitAt(rest.ps, lo', at, cs) || Beaten(at, cs, longest', len')
    {
      if LitAt(rest, lo, at, cs) && !LitAt(rest.ps, lo', at, cs) {
        assert at == lo && cs == ws;
      }
    }
  }

  lemma ExactlyAt(p: seq<int>, cs: set<nat>, scan: nat, pl: Place)
    requires Stands(p, cs, scan, pl)
    ensures scan < |p| && (p[scan] == EXACTLY <==> pl.AtPieces? && pl.b.Cons? && pl.b.p.Once? && pl.b.p.a.Lit?)
    ensures p[scan] == EXACTLY ==> Words(p, scan + 2, pl.b.p.a.cs + [0]) && pl.b.p.a.cs != []
    ensures p[scan] == EXACTLY ==> ZeroAt(p, scan + 2) == scan + 2 + |pl.b.p.a.cs|
  {
    hide ZeroAt, CodePieces, CodeAlts, SafeAlts, CountersAre, Words;
    PlaceOp(p, cs, scan, pl);
    PlaceShape(p, cs, scan, pl);
    if p[scan] == EXACTLY {
      AfterStands(p, cs, scan, pl);
      assert SafeAtom(pl.b.p.a) && CodeAtom(p, cs, pl.b.p.a, scan, AfterAddr(pl, scan));
      ZeroAtOperand(p, scan + 2, pl.b.p.a.cs);
    }
  }

  lemma ChainFirst(b: Pieces, e: nat)
    ensures PassedBest(b, RestOf(BranchPlace(b, e, AtEnd)), RestAt(BranchPlace(b, e, AtEnd), 3), 0, 0)
  {
    PassedStart(b);
  }

  lemma ChainLast(p: seq<int>, cs: set<nat>, b: Pieces, pl: Place, scan: nat, longest: nat, len: nat)
    requires Stands(p, cs, scan, pl) && scan < |p| && p[scan] == END
    requires PassedBest(b, RestOf(pl), RestAt(pl, scan), longest, len)
    ensures LongestOf(b, longest, len)
  {
    hide PassedBest, LongestOf, Stands;
    PlaceOp(p, cs, scan, pl);
    PlaceShape(p, cs, scan, pl);
    PassedEnd(b, scan, longest, len);
  }

  lemma PassedNone(b0: Pieces, lo: nat, lo': nat, longest: nat, len: nat)
    requires PassedBest(b0, Nil, lo, longest, len)
    ensures PassedBest(b0, Nil, lo', longest, len)
  {
    forall at: nat, cs
      ensures !LitAt(Nil, lo, at, cs) && !LitAt(Nil, lo', at, cs)
    {
    }
  }

  /** One step of the chain: a literal is compared with the hint, any other node leaves it alone. */
  lemma ChainPass(p: seq<int>, cs: set<nat>, scan: nat, pl: Place, b0: Pieces, e: nat, longest: nat, len: nat)
    requires Stands(p, cs, scan, pl) && OnTop(pl, b0, scan, e) && scan != e
    requires PassedBest(b0, RestOf(pl), RestAt(pl, scan), longest, len)
    ensures scan < |p| && !pl.AtEnd? && (pl.AtPieces? ==> pl.b.Cons?)
    ensures var n := ZeroAt(p, scan + 2) - scan - 2;
            var taken := p[scan] == EXACTLY && n >= len;
            PassedBest(b0, RestOf(NextPlace(pl, scan)), RestAt(NextPlace(pl, scan), NextAddr(pl, scan)),
                       if taken then scan + 2 else longest, if taken then n else len)
  {
    hide ZeroAt, PassedBest, LenPiece, LenAlts, TopLiteral, Words, CodePieces, CodeAlts, CountersAre;
    ExactlyAt(p, cs, scan, pl);
    if pl.AtPieces? {
      var lo' := scan + LenPiece(pl.b.p);
      if p[scan] == EXACTLY {
        PassLit(b0, pl.b, scan, longest, len, pl.b.p.a.cs);
        if pl.b.ps.Nil? && |pl.b.p.a.cs| >= len {
          PassedNone(b0, lo', pl.nx, scan + 2, |pl.b.p.a.cs|);
        } else if pl.b.ps.Nil? {
          PassedNone(b0, lo', pl.nx, longest, len);
        }
      } else {
        PassOther(b0, pl.b, scan, longest, len);
        if pl.b.ps.Nil? {
          PassedNone(b0, lo', pl.nx, longest, len);
        }
        if pl.b.p.Once? && pl.b.p.a.Group? {
          var g := NextPlace(pl, scan);
          assert RestOf(g.k) == RestOf(AfterPlace(pl));
          assert RestAt(g.k, g.nx) == RestAt(AfterPlace(pl), AfterAddr(pl, scan));
        }
      }
    } else if pl.AtNothing? {
      PassedNone(b0, scan, pl.nx, longest, len);
    }
  }

  /** With two alternatives, or a first node of another kind, there is nothing to hint. */
  lemma NoHints(alts: Alts)
    ensures !(alts.Last? && alts.b.Cons? && alts.b.p.Once? && alts.b.p.a.Lit?) ==> StartChar(alts) == 0
    ensures !(alts.Last? && alts.b.Cons? && alts.b.p == Once(Zero(BOL))) ==> !Anchored(alts)
    ensures alts.Last? && alts.b.Cons? && alts.b.p == Once(Zero(BOL)) ==> Anchored(alts)
  {
  }

  /** An EXACTLY node on that chain is a literal on the top level. */
  lemma MustHere(p: seq<int>, scan: nat, pl: Place, alts: Alts, e: nat)
    requires p == Clean(alts) && alts.Last? && Stands(p, Ctrs(alts), scan, pl) && OnTop(pl, alts.b, scan, e)
    requires scan < |p| && p[scan] == EXACTLY
    ensures HasMust(alts, scan + 2, ZeroAt(p, scan + 2) - scan - 2)
  {
    hide Clean, Ctrs, ZeroAt, TopLiteral, Stands, Words;
    ExactlyAt(p, Ctrs(alts), scan, pl);
    var ws := pl.b.p.a.cs;
    TopHead(pl.b, ws);
    assert MustOk(alts, scan + 2, |ws|, ws);
  }

  lemma TopHead(b: Pieces, cs: seq<int>)
    requires b.Cons? && b.p == Once(Lit(cs))
    ensures TopLiteral(b, cs)
  {
  }

  /** The chain from the first top-level node to the END node. */
  lemma TopChain(alts: Alts)
    requires alts.Last?
    ensures Path(Clean(alts), 3, 1 + LenAlts(alts))
  {
    hide GenAlts, GenBranch, LenBranch, TailBranch, Words, Path;
    var p := Clean(alts);
    CleanWords(alts);
    AltsWords(p, alts, 1);
    LastBranchForward(alts);
    var t := 3 + TailBranch(alts.b);
    BranchPath(p, alts.b, 3, LenAlts(alts) - 2 - TailBranch(alts.b));
    TailInside(alts.b);
    PathStep(p, t, 1 + LenAlts(alts));
    PathJoin(p, 3, t, 1 + LenAlts(alts));
  }

  lemma CleanWords(alts: Alts)
    ensures var p := Clean(alts); var e := 1 + LenAlts(alts);
            && Words(p, 1, GenAlts(alts)) && |p| == e + 2 && p[0] == REG_MAGIC && p[e] == END && p[e + 1] == 0
  {
    hide GenAlts, LenAlts;
  }

  /** The first place of the chain. */
  lemma TopStart(alts: Alts)
    requires alts.Last? && SafeAlts(alts)
    ensures var pl := BranchPlace(alts.b, 1 + LenAlts(alts), AtEnd);
            Stands(Clean(alts), Ctrs(alts), 3, pl) && OnTop(pl, alts.b, 3, 1 + LenAlts(alts))
  {
    hide Stands, LenAlts, Clean, Ctrs, Steps, TopLiteral;
    CleanFacts(alts);
    AltsStand(Clean(alts), Ctrs(alts), 1, TopPlace(alts));
  }

  /** The first node of the first alternative, and the node after the first BRANCH. */
  lemma FirstNodes(alts: Alts)
    ensures var p := Clean(alts);
            && |p| > 5 && p[1] == BRANCH && p[2] > 0 && 1 + p[2] < |p|
            && (alts.Last? <==> p[1 + p[2]] == END)
            && (p[3] == EXACTLY <==> alts.b.Cons? && alts.b.p.Once? && alts.b.p.a.Lit?)
            && (p[3] == BOL <==> alts.b.Cons? && alts.b.p == Once(Zero(BOL)))
            && (alts.Last? && p[3] == EXACTLY ==> p[5] == StartChar(alts))
  {
    hide GenAlts, GenBranch, LenBranch, TailBranch, CodePieces;
    var p := Clean(alts);
    var n := LenBranch(alts.b);
    CleanWords(alts);
    AltsWords(p, alts, 1);
    LastBranchForward(alts);
    if alts.Or? {
      AltsWords(p, alts.more, 3 + n);
    }
    var cs := Ctrs(alts);
    AltsHeld(p, cs, alts, 1, 1 + LenAlts(alts));
    FirstNode(p, cs, alts.b, 1 + LenAlts(alts));
  }

  lemma FirstNode(p: seq<int>, cs: set<nat>, b: Pieces, nx: nat)
    requires CodeBranch(p, cs, b, 3, nx)
    ensures |p| > 4
    ensures p[3] == EXACTLY <==> b.Cons? && b.p.Once? && b.p.a.Lit?
    ensures p[3] == BOL <==> b.Cons? && b.p == Once(Zero(BOL))
    ensures p[3] == EXACTLY ==> |p| > 5 && p[5] == if |b.p.a.cs| > 0 then b.p.a.cs[0] else 0
  {
    hide LenAlts, CodeAlts;
    if b.Cons? {
      var nx' := if b.ps.Nil? then nx else 3 + LenPiece(b.p);
      OpOfPiece(p, cs, b.p, 3, nx');
      PieceRoom(p, cs, b.p, 3, nx');
      if b.p.Once? && b.p.a.Lit? {
        assert Words(p, 5, b.p.a.cs + [0]);
        assert p[5] == (b.p.a.cs + [0])[0];
      }
    }
  }

}
