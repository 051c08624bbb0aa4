// The matcher's position as every program has it, and, where the program means what its expression
// says, what is still to be matched.
module RegexFrames {
  import opened Wrappers
  import opened RegexSyntax
  import opened RegexSemantics
  import opened RegexCode
  import opened RegexNodes
  import opened RegexKont
  import opened RegexPlaces
  import opened RegexRuns

  /** Where the matcher stands; k, for a plain expression, is what remains to be matched there. */
  datatype Frame = Frame(pl: Place, k: Option<Kont>)

  /** Program p, which differs from q in counters, is at the node x as the frame says. */
  ghost predicate InFrame(p: seq<int>, q: seq<int>, cs: set<nat>, x: nat, f: Frame) {
    && SameBut(p, q, cs) && Stands(q, cs, x, f.pl)
    && (f.k.Some? ==> At(p, cs, x, f.k.value) && KOk(f.k.value))
  }

  /** The final positions, best first, where they are known. */
  ghost function Meaning(f: Frame, s: string, i: nat): Option<seq<nat>> {
    if f.k.Some? then Some(EndsK(f.k.value, s, i)) else None
  }

  ghost function Plus(a: Option<seq<nat>>, b: Option<seq<nat>>): Option<seq<nat>> {
    if a.Some? && b.Some? then Some(a.value + b.value) else None
  }

  /** What a call of the matcher promises: it succeeds or fails, stays inside the subject, and when it
      fails leaves the program, counters included, as it was; where the final positions are known it
      succeeds exactly when there are any, at the best of them. */
  ghost predicate Outcome(r: int, ends: Option<seq<nat>>, p0: seq<int>, p1: seq<int>, i0: nat, i1: nat, n: nat,
                          cs: set<nat>) {
    && (r == 0 || r == 1) && i0 <= i1 <= n
    && (r == 1 ==> SameBut(p0, p1, cs)) && (r == 0 ==> p1 == p0)
    && (ends.Some? ==> (r == 1 <==> ends.value != []) && (r == 1 ==> i1 == ends.value[0]))
  }

  /** Frames whose node, a capturing parenthesis, puts the input position back when it fails. */
  ghost predicate Restores(f: Frame) {
    f.k.Some? &&
    var k := f.k.value;
    || (k.KClose? && k.no >= 1)
    || (k.KSeq? && k.b.Cons? && k.b.p.Once? && k.b.p.a.Group? && k.b.p.a.no >= 1)
  }

  /** The node at x reads the same whatever the counters. */
  lemma HeadSame(p: seq<int>, q: seq<int>, cs: set<nat>, x: nat, f: Frame)
    requires InFrame(p, q, cs, x, f)
    ensures 0 < x && x + 1 < |p| == |q| && p[x] == q[x] == OpPlace(f.pl) && p[x + 1] == q[x + 1]
    ensures RegNext(p, x) == RegNext(q, x)
    ensures f.k.Some? ==> p[x] == OpK(f.k.value)
  {
    hide Stands, At, KOk;
    PlaceOp(q, cs, x, f.pl);
    StandsRoom(q, cs, x, f.pl);
    if f.k.Some? {
      OpAt(p, cs, x, f.k.value);
    }
  }

  lemma StandsRoom(q: seq<int>, cs: set<nat>, x: nat, pl: Place)
    requires Stands(q, cs, x, pl)
    ensures 0 < x && x + 1 < |q|
  {
  }

  // ---- nodes that only lead on

  /** Past a NOTHING or BACK node or a parenthesis. */
  ghost function OnFrame(f: Frame, x: nat): Frame
    requires !f.pl.AtEnd? && (f.pl.AtPieces? ==> f.pl.b.Cons?)
  {
    Frame(NextPlace(f.pl, x), if f.k.Some? then Some(OnK(f.k.value, x)) else None)
  }

  ghost function OnK(k: Kont, x: nat): Kont {
    match k
    case KSeq(b, _, _) => if b.Cons? && b.p.Once? && b.p.a.Group? then GroupK(k, x) else k
    case KNop(_, kk) => kk
    case KClose(_, _, kk) => kk
    case KBack(_, _, _, _, _, _, _) => HeaderK(k)
    case _ => k
  }

  ghost predicate LeadsOn(op: int) {
    op == NOTHING || op == BACK || op >= OPEN - 1
  }

  lemma OnGood(p: seq<int>, q: seq<int>, cs: set<nat>, x: nat, f: Frame, s: string, i: nat)
    requires InFrame(p, q, cs, x, f) && x < |p| && LeadsOn(p[x])
    ensures !f.pl.AtEnd? && (f.pl.AtPieces? ==> f.pl.b.Cons?)
    ensures x + 1 < |p| && RegNext(p, x) > 0 && InFrame(p, q, cs, RegNext(p, x), OnFrame(f, x))
    ensures Meaning(OnFrame(f, x), s, i) == Meaning(f, s, i) && Steps(OnFrame(f, x).pl) < Steps(f.pl)
  {
    hide Stands, At, KOk, EndsK, Steps, NextPlace, NextAddr, OnK;
    HeadSame(p, q, cs, x, f);
    PlaceShape(q, cs, x, f.pl);
    NextStands(q, cs, x, f.pl);
    if f.k.Some? {
      OnKont(p, cs, x, f.k.value, s, i);
    }
  }

  lemma OnKont(p: seq<int>, cs: set<nat>, x: nat, k: Kont, s: string, i: nat)
    requires At(p, cs, x, k) && KOk(k) && LeadsOn(OpK(k))
    ensures x + 1 < |p| && RegNext(p, x) >= 0 && At(p, cs, RegNext(p, x), OnK(k, x)) && KOk(OnK(k, x))
    ensures EndsK(OnK(k, x), s, i) == EndsK(k, s, i)
  {
    OpAt(p, cs, x, k);
    ShapeOf(k);
    if k.KSeq? {
      GroupEnter(p, cs, x, k);
      GroupSame(k, x, s, i);
    } else if k.KBack? {
      BackStep(p, cs, x, k);
      BackSame(k, s, i);
    }
    hide CodePieces, CodeAlts, PlainPieces, PlainAlts, EndsAlts, EndsPieces, CodeLoop;
  }

  // ---- one-character nodes, literals and zero-width tests

  ghost predicate IsLeafOp(op: int) {
    op !in {END, BRANCH, NOTHING, BACK, REP, REPMIN, REPX, REPXMIN} && op < OPEN - 1
  }

  ghost predicate AtPiece(f: Frame) {
    f.pl.AtPieces? && f.pl.b.Cons? && (f.k.Some? ==> f.k.value.KSeq? && f.k.value.b.Cons?)
  }

  /** The piece that stands there. */
  ghost function PieceOf(f: Frame): Piece
    requires AtPiece(f)
  {
    if f.k.Some? then f.k.value.b.p else f.pl.b.p
  }

  /** Past that piece. */
  ghost function PastFrame(f: Frame): Frame
    requires AtPiece(f)
  {
    Frame(AfterPlace(f.pl), if f.k.Some? then Some(After(f.k.value)) else None)
  }

  /** From each of the positions xs in turn, on with f. */
  ghost function Onward(xs: seq<nat>, f: Frame, s: string): Option<seq<nat>> {
    if f.k.Some? then Some(Through(xs, f.k.value, s)) else None
  }

  lemma PastGood(p: seq<int>, q: seq<int>, cs: set<nat>, x: nat, f: Frame, s: string, i: nat)
    requires InFrame(p, q, cs, x, f) && AtPiece(f) && !(f.pl.b.p.Once? && f.pl.b.p.a.Group?)
    requires f.k.Some? ==> !(f.k.value.b.p.Once? && f.k.value.b.p.a.Group?)
    ensures x + 1 < |p| && RegNext(p, x) > x && InFrame(p, q, cs, RegNext(p, x), PastFrame(f))
    ensures Steps(PastFrame(f).pl) < Steps(f.pl)
    ensures Meaning(f, s, i) == Onward(EndsPiece(PieceOf(f), s, i), PastFrame(f), s)
    ensures f.k.Some? ==> PlainPiece(PieceOf(f)) && CodePiece(p, cs, PieceOf(f), x, RegNext(p, x))
  {
    hide Stands, At, KOk, EndsK, Steps, CodePiece, EndsPiece, PlainPiece, Through;
    HeadSame(p, q, cs, x, f);
    NextStands(q, cs, x, f.pl);
    AfterStands(q, cs, x, f.pl);
    if f.k.Some? {
      var k := f.k.value;
      AfterHeld(p, cs, x, k);
      AfterOk(k);
      AfterEnds(k, s, i);
      PieceNext(p, cs, k.b.p, x, AfterAt(k, x));
    }
  }

  lemma LeafGood(p: seq<int>, q: seq<int>, cs: set<nat>, x: nat, f: Frame)
    requires InFrame(p, q, cs, x, f) && x < |p| && IsLeafOp(p[x])
    ensures AtPiece(f) && f.pl.b.p.Once? && !f.pl.b.p.a.Group? && PieceOf(f).Once? && !PieceOf(f).a.Group?
    ensures x + 1 < |p| && RegNext(p, x) >= 0 && SafeAtom(PieceOf(f).a)
    ensures CodeAtom(p, cs, PieceOf(f).a, x, RegNext(p, x))
    ensures f.k.Some? ==> PlainAtom(PieceOf(f).a)
  {
    hide Stands, At, KOk;
    HeadSame(p, q, cs, x, f);
    PlaceShape(q, cs, x, f.pl);
    if f.k.Some? {
      ShapeOf(f.k.value);
      PlainAtomSafe(f.k.value.b.p.a);
    } else {
      AfterStands(q, cs, x, f.pl);
      NextStands(q, cs, x, f.pl);
      LeafSame(p, q, cs, f.pl.b.p.a, x, RegNext(p, x));
      return;
    }
    PastGood(p, q, cs, x, f, "", 0);
  }

  /** A leaf holds no counter. */
  lemma LeafSame(p: seq<int>, q: seq<int>, cs: set<nat>, a: Atom, x: nat, nx: nat)
    requires SameBut(p, q, cs) && !a.Group? && CodePiece(q, cs, Once(a), x, nx)
    requires CountersAre(cs, CtrsPiece(Once(a), x), x, LenPiece(Once(a)))
    ensures CodeAtom(p, cs, a, x, nx)
  {
    assert CtrsPiece(Once(a), x) == {} && LenPiece(Once(a)) == LenAtom(a);
  }

  // ---- a one-character node repeated

  lemma RunGood(p: seq<int>, q: seq<int>, cs: set<nat>, x: nat, f: Frame)
    requires InFrame(p, q, cs, x, f) && x < |p| && (p[x] == REP || p[x] == REPMIN)
    ensures AtPiece(f) && f.pl.b.p.Repeat?
    ensures var piece := PieceOf(f);
            && piece.Repeat? && SimpleAtom(piece.a) && piece.lazy == (p[x] == REPMIN) && 0 <= piece.min <= piece.max
            && SafeAtom(piece.a) && x + 3 < |p| && p[x + 2] == piece.max && p[x + 3] == piece.min
            && Operand(p, piece.a, x + 5) && (f.k.Some? ==> PlainAtom(piece.a))
  {
    hide Stands, At, KOk;
    HeadSame(p, q, cs, x, f);
    PlaceShape(q, cs, x, f.pl);
    AfterStands(q, cs, x, f.pl);
    if f.k.Some? {
      ShapeOf(f.k.value);
      PastGood(p, q, cs, x, f, "", 0);
      PlainAtomSafe(f.k.value.b.p.a);
      RunWords(p, cs, f.k.value.b.p, x, RegNext(p, x));
    } else {
      RunWords(q, cs, f.pl.b.p, x, AfterAddr(f.pl, x));
      RunSame(p, q, cs, f.pl.b.p, x);
    }
  }

  lemma RunWords(p: seq<int>, cs: set<nat>, piece: Piece, x: nat, nx: nat)
    requires CodePiece(p, cs, piece, x, nx) && piece.Repeat? && SimpleAtom(piece.a)
    ensures x + 3 < |p| && p[x + 2] == piece.max && p[x + 3] == piece.min && Operand(p, piece.a, x + 5)
  {
    hide Operand;
  }

  lemma RunSame(p: seq<int>, q: seq<int>, cs: set<nat>, piece: Piece, x: nat)
    requires SameBut(p, q, cs) && piece.Repeat? && SimpleAtom(piece.a) && x + 3 < |q|
    requires Operand(q, piece.a, x + 5) && CountersAre(cs, CtrsPiece(piece, x), x, LenPiece(piece))
    ensures p[x + 2] == q[x + 2] && p[x + 3] == q[x + 3] && Operand(p, piece.a, x + 5)
  {
    assert CountersAre(cs, {}, x, LenAtom(piece.a) + 5);
  }

  /** The character that the literal at x starts with. */
  lemma LookGood(p: seq<int>, q: seq<int>, cs: set<nat>, x: nat, f: Frame, s: string, e: nat)
    requires InFrame(p, q, cs, x, f) && x < |p| && p[x] == EXACTLY
    ensures x + 2 < |p|
    ensures f.k.Some? && CodeAt(s, e) != p[x + 2] ==> Meaning(f, s, e) == Some([])
  {
    LeafGood(p, q, cs, x, f);
    if f.k.Some? {
      LookaheadSound(p, cs, x, f.k.value, s, e);
    } else {
      ExactRoom(p, cs, PieceOf(f).a, x, RegNext(p, x));
    }
  }

  lemma ExactRoom(p: seq<int>, cs: set<nat>, a: Atom, x: nat, nx: nat)
    requires CodeAtom(p, cs, a, x, nx) && !a.Group? && p[x] == EXACTLY
    ensures x + 2 < |p|
  {
  }

  // ---- alternatives

  ghost predicate AtChoice(f: Frame) {
    f.pl.AtAlts? && (f.k.Some? ==> f.k.value.KAlts? && (f.k.value.alts.Or? <==> f.pl.alts.Or?))
  }

  /** The first alternative. */
  ghost function BranchFrame(f: Frame): Frame
    requires AtChoice(f)
  {
    var k := f.k;
    Frame(BranchPlace(f.pl.alts.b, f.pl.nx, f.pl.k),
          if k.Some? then Some(BranchK(k.value.alts.b, k.value.nx, k.value.k)) else None)
  }

  /** The others. */
  ghost function ElseFrame(f: Frame): Frame
    requires AtChoice(f) && f.pl.alts.Or?
  {
    Frame(f.pl.(alts := f.pl.alts.more),
          if f.k.Some? then Some(f.k.value.(alts := f.k.value.alts.more)) else None)
  }

  lemma AltsGood(p: seq<int>, q: seq<int>, cs: set<nat>, x: nat, f: Frame, s: string, i: nat)
    requires InFrame(p, q, cs, x, f) && x < |p| && p[x] == BRANCH
    ensures AtChoice(f) && x + 1 < |p| && x < RegNext(p, x) < |p|
    ensures p[RegNext(p, x)] == BRANCH <==> f.pl.alts.Or?
    ensures InFrame(p, q, cs, x + 2, BranchFrame(f)) && Steps(BranchFrame(f).pl) < Steps(f.pl)
    ensures f.pl.alts.Or? ==> InFrame(p, q, cs, RegNext(p, x), ElseFrame(f)) && Steps(ElseFrame(f).pl) < Steps(f.pl)
    ensures Meaning(f, s, i) == if f.pl.alts.Or? then Plus(Meaning(BranchFrame(f), s, i), Meaning(ElseFrame(f), s, i))
                                else Meaning(BranchFrame(f), s, i)
  {
    hide Stands, At, KOk, EndsK, Steps, BranchPlace, BranchK, NextAddr;
    HeadSame(p, q, cs, x, f);
    PlaceShape(q, cs, x, f.pl);
    AltsStand(q, cs, x, f.pl);
    var next := RegNext(p, x);
    HeadSame(p, q, cs, next, Frame(NextPlace(f.pl, x), None));
    NotBranch(q, cs, x, f.pl);
    if f.k.Some? {
      ShapeOf(f.k.value);
      AltsNext(p, cs, x, f.k.value);
      AltsEnter(p, cs, x, f.k.value, s, i);
      var xs := EndsK(BranchK(f.k.value.alts.b, f.k.value.nx, f.k.value.k), s, i);
      assert xs + [] == xs;
    }
  }

  lemma NotBranch(q: seq<int>, cs: set<nat>, x: nat, pl: Place)
    requires Stands(q, cs, x, pl) && pl.AtAlts?
    ensures OpPlace(NextPlace(pl, x)) == BRANCH <==> pl.alts.Or?
  {
    hide CodeAlts, SafeAlts, CountersAre;
  }

  // ---- a loop

  ghost predicate AtHeader(f: Frame) {
    f.pl.AtPieces? && f.pl.b.Cons? && Complex(f.pl.b.p) && (f.k.Some? ==> AtLoop(f.k.value))
  }

  /** One more round of the loop at x. */
  ghost function BodyFrame(f: Frame, x: nat): Frame
    requires AtHeader(f)
  {
    Frame(BodyPlace(f.pl, x), if f.k.Some? then Some(RoundK(LoopOf(f.k.value, x), x)) else None)
  }

  /** Out of the loop. */
  ghost function OutFrame(f: Frame, x: nat): Frame
    requires AtHeader(f)
  {
    Frame(AfterPlace(f.pl), if f.k.Some? then Some(LoopOf(f.k.value, x).k) else None)
  }

  ghost function None0(f: Frame): Option<seq<nat>> {
    if f.k.Some? then Some([]) else None
  }

  lemma LoopGood(p: seq<int>, q: seq<int>, cs: set<nat>, x: nat, f: Frame, s: string, i: nat)
    requires InFrame(p, q, cs, x, f) && x < |p| && (p[x] == REPX || p[x] == REPXMIN)
    ensures AtHeader(f) && x + 4 < |p| && p[x + 3] <= p[x + 2]
    ensures f.k.Some? ==> p[x] == REPX && p[x + 4] <= p[x + 2]
    ensures RegNext(p, x) > 0 && InFrame(p, q, cs, RegNext(p, x), OutFrame(f, x))
    ensures Steps(OutFrame(f, x).pl) < Steps(f.pl)
    ensures Meaning(f, s, i) == Plus(if p[x + 4] < p[x + 2] then Meaning(BodyFrame(f, x), s, i) else None0(f),
                                     if p[x + 4] < p[x + 3] then None0(f) else Meaning(OutFrame(f, x), s, i))
  {
    hide Stands, At, KOk, EndsK, Steps, RoundK, NextAddr, BodyPlace, LoopOf, AtLoop;
    HeadSame(p, q, cs, x, f);
    PlaceShape(q, cs, x, f.pl);
    NextStands(q, cs, x, f.pl);
    AfterStands(q, cs, x, f.pl);
    BodyStands(q, cs, x, f.pl);
    if f.k.Some? {
      LoopShape(f.k.value);
      RepeatSetup(p, cs, x, f.k.value);
      RepeatSplit(f.k.value, x, p, cs, s, i);
    }
  }

  lemma LoopShape(k: Kont)
    requires KOk(k) && (OpK(k) == REPX || OpK(k) == REPXMIN)
    ensures AtLoop(k) && OpK(k) == REPX
  {
    ShapeOf(k);
    hide PlainAtom, LoopFreePieces, NoLoop;
  }

  /** Counting a round of the loop at x puts the program at the start of its body. */
  lemma RoundGood(p: seq<int>, q: seq<int>, cs: set<nat>, x: nat, f: Frame)
    requires InFrame(p, q, cs, x, f) && x + 4 < |p| && (p[x] == REPX || p[x] == REPXMIN) && p[x + 4] <= p[x + 2]
    requires f.k.Some? ==> p[x + 4] < p[x + 2]
    ensures AtHeader(f)
    ensures var p' := p[x + 4 := p[x + 4] + 1];
            && InFrame(p', q, cs, x + 5, BodyFrame(f, x)) && Rounds(q, p', cs, |p|) < Rounds(q, p, cs, |p|)
            && (f.k.Some? ==> Restores(BodyFrame(f, x)))
  {
    hide Stands, At, KOk, EndsK, Steps, NextAddr, BodyPlace, Rounds;
    HeadSame(p, q, cs, x, f);
    PlaceShape(q, cs, x, f.pl);
    BodyStands(q, cs, x, f.pl);
    RoundsLess(q, p, cs, |p|, x + 4, p[x + 4] + 1);
    if f.k.Some? {
      LoopShape(f.k.value);
      RepeatSetup(p, cs, x, f.k.value);
      RoundAt(p, cs, x, LoopOf(f.k.value, x));
      RoundOk(LoopOf(f.k.value, x), x);
    }
  }

  // ---- what the methods of the matcher use

  lemma OnwardCons(x: nat, xs: seq<nat>, f: Frame, s: string)
    ensures Onward([x] + xs, f, s) == Plus(Meaning(f, s, x), Onward(xs, f, s))
  {
    if f.k.Some? {
      ThroughCons(x, xs, f.k.value, s);
    }
  }

  /** The first of several positions either leads to a match, the best of all, or may be left out. */
  lemma OnwardStep(x: nat, xs: seq<nat>, f: Frame, s: string)
    ensures Onward([x] + xs, f, s).Some? <==> f.k.Some?
    ensures Meaning(f, s, x).Some? <==> f.k.Some?
    ensures f.k.Some? && Meaning(f, s, x).value == [] ==> Onward([x] + xs, f, s) == Onward(xs, f, s)
    ensures f.k.Some? && Meaning(f, s, x).value != [] ==>
              var all := Onward([x] + xs, f, s).value; all != [] && all[0] == Meaning(f, s, x).value[0]
    ensures !f.k.Some? ==> Onward([x] + xs, f, s) == Onward(xs, f, s)
  {
    OnwardCons(x, xs, f, s);
    hide EndsK, Through;
    if f.k.Some? && Meaning(f, s, x).value == [] {
      PlusNone(Onward(xs, f, s));
    }
  }

  lemma OnwardOne(x: nat, f: Frame, s: string)
    ensures Onward([x], f, s) == Meaning(f, s, x)
  {
    if f.k.Some? {
      ThroughOne(x, f.k.value, s);
    }
  }

  lemma OnwardNone(f: Frame, s: string)
    ensures Onward([], f, s) == None0(f)
  {
    if f.k.Some? {
      ThroughNone(f.k.value, s);
    }
  }

  lemma MeaningKnown(f: Frame, g: Frame, s: string, i: nat)
    ensures (Meaning(f, s, i).Some? <==> f.k.Some?) && (Meaning(g, s, i).Some? <==> g.k.Some?)
    ensures f.k.Some? <==> None0(f) == Some([])
  {
  }

  lemma PlusNone(a: Option<seq<nat>>)
    ensures a.Some? ==> Plus(Some([]), a) == a == Plus(a, Some([]))
  {
    if a.Some? {
      assert [] + a.value == a.value == a.value + [];
    }
  }

  lemma KnownLoop(f: Frame, x: nat, s: string, i: nat)
    requires AtHeader(f)
    ensures Meaning(BodyFrame(f, x), s, i).Some? <==> f.k.Some?
    ensures Meaning(OutFrame(f, x), s, i).Some? <==> f.k.Some?
    ensures OutFrame(f, x).k.Some? <==> f.k.Some?
  {
    hide BodyPlace, AfterPlace, LoopOf, RoundK;
  }

  lemma FrameShape(p: seq<int>, q: seq<int>, cs: set<nat>, x: nat, f: Frame)
    requires InFrame(p, q, cs, x, f) && x < |p|
    ensures var op := p[x];
            || op == END || op == BRANCH || op == NOTHING || op == BACK || IsLeafOp(op)
            || op == REP || op == REPMIN || op == REPX || op == REPXMIN
            || op == OPEN - 1 || OPEN + 1 <= op < CLOSE_END
    ensures IsLeafOp(p[x]) ==> p[x] <= WORDZ
  {
    hide Stands, At, KOk;
    HeadSame(p, q, cs, x, f);
    PlaceShape(q, cs, x, f.pl);
  }

  lemma EndGood(p: seq<int>, q: seq<int>, cs: set<nat>, x: nat, f: Frame, s: string, i: nat)
    requires InFrame(p, q, cs, x, f) && x < |p| && p[x] == END
    ensures f.k.Some? ==> Meaning(f, s, i) == Some([i])
  {
    hide Stands, At, KOk;
    HeadSame(p, q, cs, x, f);
    if f.k.Some? {
      EndEnds(f.k.value, s, i);
    }
  }

  /** A leaf matched is on with what comes after it. */
  lemma LeafPast(p: seq<int>, q: seq<int>, cs: set<nat>, x: nat, f: Frame, s: string, i: nat)
    requires InFrame(p, q, cs, x, f) && x < |p| && IsLeafOp(p[x])
    ensures AtPiece(f) && PieceOf(f).Once? && x + 1 < |p| && RegNext(p, x) > 0
    ensures InFrame(p, q, cs, RegNext(p, x), PastFrame(f)) && Steps(PastFrame(f).pl) < Steps(f.pl)
    ensures Meaning(f, s, i) == Onward(EndsAtom(PieceOf(f).a, s, i), PastFrame(f), s)
    ensures f.k.Some? ==> SolidAtom(PieceOf(f).a)
    ensures PastFrame(f).k.Some? <==> f.k.Some?
  {
    hide InFrame, Steps, PlainAtom, SolidAtom, EndsAtom, CodeAtom, SafeAtom, Meaning, Onward, RegNext;
    LeafGood(p, q, cs, x, f);
    PastGood(p, q, cs, x, f, s, i);
    if f.k.Some? {
      PlainAtomSolid(PieceOf(f).a);
    }
  }

  lemma RunPast(p: seq<int>, q: seq<int>, cs: set<nat>, x: nat, f: Frame, s: string, i: nat)
    requires InFrame(p, q, cs, x, f) && x < |p| && (p[x] == REP || p[x] == REPMIN)
    ensures AtPiece(f) && x + 1 < |p| && RegNext(p, x) > 0
    ensures InFrame(p, q, cs, RegNext(p, x), PastFrame(f)) && Steps(PastFrame(f).pl) < Steps(f.pl)
    ensures Meaning(f, s, i) == Onward(EndsPiece(PieceOf(f), s, i), PastFrame(f), s)
    ensures f.k.Some? ==> SolidAtom(PieceOf(f).a)
    ensures PastFrame(f).k.Some? <==> f.k.Some?
  {
    hide InFrame, Steps, PlainAtom, SolidAtom, EndsPiece, CodePiece, SafeAtom, Meaning, Onward, RegNext, Operand;
    RunGood(p, q, cs, x, f);
    PastGood(p, q, cs, x, f, s, i);
    if f.k.Some? {
      PlainAtomSolid(PieceOf(f).a);
    }
  }

  /** What a simple repeat tries, in order. */
  lemma FirstChoices(piece: Piece, f: Frame, s: string, i: nat, run: nat)
    requires piece.Repeat? && SimpleAtom(piece.a) && 0 <= piece.min <= piece.max
    requires f.k.Some? ==> run == Run(piece.a, piece.max, s, i)
    ensures var no := if piece.lazy then piece.min else run;
            Onward(EndsPiece(piece, s, i), f, s) == Onward(Choices(i, no, run, piece.min, piece.lazy), f, s)
  {
    if f.k.Some? {
      SimpleRepeatEnds(piece, s, i);
    }
  }

  /** Too few characters in a row. */
  lemma RunShort(piece: Piece, f: Frame, s: string, i: nat, run: nat)
    requires piece.Repeat? && SimpleAtom(piece.a) && 0 <= piece.min <= piece.max && run < piece.min
    requires AtPiece(f) && (f.k.Some? ==> run == Run(piece.a, piece.max, s, i))
    ensures Onward(EndsPiece(piece, s, i), PastFrame(f), s) == None0(f)
  {
    if f.k.Some? {
      SimpleRepeatEnds(piece, s, i);
      OnwardNone(PastFrame(f), s);
    }
  }

  lemma RestoresOp(p: seq<int>, q: seq<int>, cs: set<nat>, x: nat, f: Frame)
    requires InFrame(p, q, cs, x, f) && x < |p|
    ensures Restores(f) ==> p[x] >= OPEN && p[x] != CLOSE - 1
  {
    hide Stands, At, KOk;
    HeadSame(p, q, cs, x, f);
    if Restores(f) && f.k.value.KSeq? {
      AfterOk(f.k.value);
    }
  }

  lemma RoundSame(p0: seq<int>, p1: seq<int>, q: seq<int>, cs: set<nat>, x: nat, f: Frame)
    requires InFrame(p0, q, cs, x, f) && x + 4 < |p0| && (p0[x] == REPX || p0[x] == REPXMIN)
    requires SameBut(p0[x + 4 := p0[x + 4] + 1], p1, cs)
    ensures SameBut(p0, p1, cs)
  {
    hide Stands, At, KOk;
    HeadSame(p0, q, cs, x, f);
    PlaceShape(q, cs, x, f.pl);
    BodyStands(q, cs, x, f.pl);
  }
}
