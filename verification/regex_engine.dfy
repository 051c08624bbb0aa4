// The compiled-expression object of jimregexp.c and its backtracking matcher.
module RegexEngine {
  import opened Wrappers
  import opened RegexSyntax
  import opened RegexSemantics
  import opened RegexLists
  import opened RegexCode
  import opened RegexKont
  import opened RegexRuns
  import opened RegexOperands
  import opened RegexNodes
  import opened RegexShortcuts
  import opened RegexPlaces
  import opened RegexFrames
  import opened RegexHints
  import opened RegexWidth
  import opened RegexParse
  import opened RegexChain
  import opened RegexWellLinked
  import opened RegexLinks

  const REG_NOERROR := 0
  const REG_NOMATCH := 1
  const REG_ERR_CORRUPTED := 17

  // ---- what a compiled expression is, and what a search promises

  ghost predicate NoMatchIn(alts: Alts, s: string, lo: nat, hi: nat) {
    forall j | lo <= j < hi :: EndsAlts(alts, s, j) == []
  }

  /** so is the leftmost start of any match, eo the end of the best match from there. */
  ghost predicate Found(alts: Alts, s: string, so: nat, eo: nat) {
    && so <= |s|
    && EndsAlts(alts, s, so) != [] && eo == EndsAlts(alts, s, so)[0]
    && NoMatchIn(alts, s, 0, so)
  }

  /** Flags passed up while compiling: HASWIDTH, SIMPLE, SPSTART. */
  datatype Flags = Flags(width: bool, simple: bool, starStart: bool)

  function AtomFlags(a: Atom): Flags {
    Flags(WidthAtom(a), SimpleAtom(a), StarStartAtom(a))
  }

  function PieceFlags(p: Piece): Flags {
    match p
    case Once(a) => AtomFlags(a)
    case Repeat(_, min, _, _) => Flags(min != 0, false, min == 0)
  }

  function BranchFlags(b: Pieces): Flags {
    Flags(WidthPieces(b), false, b.Cons? && StarStartPiece(b.p))
  }

  function AltsFlags(alts: Alts): Flags {
    Flags(WidthAlts(alts), false, StarStartAlts(alts))
  }

  // ---- what the emitting methods promise: they do as the grammar says, appending to the program

  ghost predicate ItemRead(r: Parsed<seq<int>>, p0: seq<int>, p1: seq<int>, ok: bool, at: nat, err: int) {
    match r
    case Bad(e) => !ok && err == e
    case Good(ws, a, _) => ok && at == a && p1 == p0 + ws
  }

  /** A construct whose code is `code` was read: appended, its address returned; or the error. */
  ghost predicate AtomRead(r: Parsed<Atom>, p0: seq<int>, p1: seq<int>, at: nat, nsub: nat, err: int, ret: nat) {
    match r
    case Bad(e) => ret == 0 && err == e
    case Good(a, at', nsub') => ret == |p0| && p1 == p0 + GenAtom(a) && at == at' && nsub == nsub'
  }

  /** The atom a was emitted, turning p0 into p1: the links stay sound, and a header may be put in front. */
  ghost predicate AtomKept(a: Atom, p0: seq<int>, p1: seq<int>) {
    SolidAtom(a) && WellLinked(p0) ==> Grown(p0, p1) && NoneCross(p1, |p0|)
  }

  ghost predicate GroupKept(a: Atom, p0: seq<int>, p1: seq<int>) {
    a.Group? && SolidAtom(a) && WellLinked(p0) ==> Grown(p0, p1)
  }

  /** Whether the links are sound and the node that the alternatives hang on, if any, is there. */
  ghost predicate Ready(p: seq<int>, ret0: nat) {
    WellLinked(p) && (ret0 != 0 ==> ret0 in AllStarts(p))
  }

  /** The alternatives were emitted: the links stay sound, and ret is a node. */
  ghost predicate AltsKept(alts: Alts, ret0: nat, p0: seq<int>, p1: seq<int>, ret: nat) {
    SolidAlts(alts) && Ready(p0, ret0) ==> Grown(p0, p1) && ret in AllStarts(p1)
  }

  ghost predicate PiecesKept(b: Pieces, p0: seq<int>, p1: seq<int>) {
    SolidPieces(b) && WellLinked(p0) ==> Grown(p0, p1)
  }

  ghost predicate PieceKept(q: Piece, p0: seq<int>, p1: seq<int>) {
    SolidAtom(q.a) && WellLinked(p0) ==> Grown(p0, p1)
  }

  /** Pieces emitted so far; chain, unless 0, is the last of them. */
  ghost predicate ChainKept(b: Pieces, p0: seq<int>, p: seq<int>, chain: nat) {
    SolidPieces(b) && WellLinked(p0) ==> Grown(p0, p) && (chain != 0 ==> chain in AllStarts(p))
  }

  lemma ChainBegin(p0: seq<int>, p: seq<int>)
    requires WellLinked(p0) && TwoWords(BRANCH) ==> Grown(p0, p)
    ensures ChainKept(Nil, p0, p, 0)
  {
    hide WellLinked, Grown;
  }

  /** One more piece, and the link to it from the one before. */
  lemma PieceMore(b: Pieces, piece: Piece, p0: seq<int>, p: seq<int>, p1: seq<int>, p2: seq<int>, chain: nat, t: nat)
    requires ChainKept(b, p0, p, chain) && PieceKept(piece, p, p1) && |p| < |p1|
    requires chain == 0 ==> p2 == p1
    requires chain != 0 ==> Path(p1, chain, t) && t < |p| && p1[t] != BACK
    requires chain != 0 && MayLink(p1, chain, t, |p|) ==> Kept(p1, p2)
    ensures ChainKept(Snoc(b, piece), p0, p2, |p|)
  {
    hide WellLinked, AllStarts, Path, SolidPieces, Snoc, SolidAtom;
    SolidMore(b, piece);
    if SolidPieces(Snoc(b, piece)) && WellLinked(p0) {
      GrownMore(p0, p, p1);
      if chain != 0 {
        KeptGrown(p0, p1, p2);
      }
    }
  }

  lemma {:induction false} SolidMore(b: Pieces, piece: Piece)
    ensures SolidPieces(Snoc(b, piece)) == (SolidPieces(b) && SolidAtom(piece.a))
  {
    hide SolidAtom;
    if b.Cons? {
      SolidMore(b.ps, piece);
    } else {
      assert SolidPieces(Nil);
    }
  }

  /** The end of an alternative, a NOTHING node if it has no piece. */
  lemma ChainDone(b: Pieces, p0: seq<int>, p: seq<int>, q: seq<int>, chain: nat)
    requires ChainKept(b, p0, p, chain)
    requires if chain == 0 then WellLinked(p) && TwoWords(NOTHING) ==> Grown(p, q) else q == p
    ensures PiecesKept(b, p0, q)
  {
    hide WellLinked, AllStarts, SolidPieces;
    if SolidPieces(b) && WellLinked(p0) && chain == 0 {
      GrownMore(p0, p, q);
    }
  }

  /** An atom with or without a repeat, emitted behind p0. */
  lemma PieceKeeps(piece: Piece, p0: seq<int>, p1: seq<int>, p2: seq<int>)
    requires AtomKept(piece.a, p0, p1) && |p0| < |p1|
    requires if piece.Once? then p2 == p1
             else WellLinked(p1) && |p0| in Places(p1) && NoneCross(p1, |p0|) ==> WellLinked(p2)
    requires |p0| <= |p2| && p2[..|p0|] == p0
    ensures PieceKept(piece, p0, p2)
  {
    hide WellLinked, AllStarts, SolidAtom, NoneCross;
    if SolidAtom(piece.a) && WellLinked(p0) {
      GrownFront(p0, p2);
    }
  }

  /** A group: its OPEN node, its alternatives, its CLOSE node. */
  lemma GroupKeeps(no: ParenNo, alts: Alts, p0: seq<int>, p1: seq<int>, p2: seq<int>, p3: seq<int>)
    requires |p0| > 0 && |p0| < |p1|
    requires WellLinked(p0) && TwoWords(OPEN + no) ==> Grown(p0, p1)
    requires AltsKept(alts, |p0|, p1, p2, |p0|)
    requires Ready(p2, |p0|) && TwoWords(CLOSE + no) ==> Grown(p2, p3)
    ensures GroupKept(Group(no, alts), p0, p3)
  {
    hide WellLinked, AllStarts, SolidAlts;
    if SolidAlts(alts) && WellLinked(p0) {
      GrownMore(p0, p1, p2);
      GrownMore(p0, p2, p3);
    }
  }

  /** What hooking keeps, if all was sound before: the closing node at e and the node br are there. */
  ghost predicate HookKept(sound: bool, p0: seq<int>, p: seq<int>, e: nat, br: int) {
    sound ==> Grown(p0, p) && e in AllStarts(p) && (br != 0 ==> br >= 0 && br in AllStarts(p))
  }

  lemma HookFirst(sound: bool, p0: seq<int>, p1: seq<int>, p2: seq<int>, ret: nat, t: nat)
    requires sound ==> Ready(p0, ret) && ret != 0 && (WellLinked(p0) ==> Grown(p0, p1))
    requires Path(p1, ret, t) && t < |p0| < |p1| && p1[t] != BACK && (MayLink(p1, ret, t, |p0|) ==> Kept(p1, p2))
    ensures HookKept(sound, p0, p2, |p0|, ret)
  {
    hide WellLinked, AllStarts, Path;
  }

  lemma HookNext(sound: bool, p0: seq<int>, p: seq<int>, q: seq<int>, e: nat, br: nat, t: nat)
    requires HookKept(sound, p0, p, e, br) && br != 0 && br + 1 < |p| == |q|
    requires p[br] == BRANCH ==> Path(p, br + 2, t) && t + 1 < |p| && br + 2 < |p| && t < e && p[t] != BACK
    requires WellLinked(p) && (p[br] == BRANCH ==> MayLink(p, br + 2, t, e)) ==> Kept(p, q)
    requires RegNext(q, br) < |q|
    ensures RegNext(q, br) >= 0 ==> HookKept(sound, p0, q, e, RegNext(q, br))
  {
    hide WellLinked, AllStarts, Path, RegNext;
    if sound && RegNext(q, br) >= 0 {
      if p[br] == BRANCH {
        NodeBehind(p, br);
      }
      KeptGrown(p0, p, q);
      NextNode(q, br);
    }
  }

  /** The first alternative, and its link from ret0. */
  lemma FirstKept(b: Pieces, ret0: nat, p0: seq<int>, p: seq<int>, q: seq<int>)
    requires PiecesKept(b, p0, p) && |p0| < |p|
    requires ret0 == 0 ==> q == p
    requires ret0 != 0 ==> ret0 + 2 == |p0| && p[ret0] != BACK && (MayLink(p, ret0, ret0, |p0|) ==> Kept(p, q))
    ensures AltsKept(Last(b), ret0, p0, q, if ret0 != 0 then ret0 else |p0|)
  {
    hide WellLinked, AllStarts;
    assert SolidAlts(Last(b)) ==> SolidPieces(b);
    if SolidAlts(Last(b)) && Ready(p0, ret0) && ret0 != 0 {
      PathSelf(p, ret0);
      KeptGrown(p0, p, q);
    }
  }

  /** One more alternative, emitted at br, and its link from the BRANCH before it. */
  lemma MoreKept(alts: Alts, b: Pieces, ret0: nat, p0: seq<int>, p1: seq<int>, p2: seq<int>, q: seq<int>, ret: nat,
                 t: nat)
    requires AltsKept(alts, ret0, p0, p1, ret) && PiecesKept(b, p1, p2) && |p1| < |p2|
    requires Path(p2, ret, t) && t < |p1| && p2[t] != BACK && (MayLink(p2, ret, t, |p1|) ==> Kept(p2, q))
    ensures AltsKept(AltsSnoc(alts, b), ret0, p0, q, ret)
  {
    hide WellLinked, AllStarts, Path, SolidAlts, SolidPieces, AltsSnoc;
    SolidSnoc(alts, b);
    if SolidAlts(AltsSnoc(alts, b)) && Ready(p0, ret0) {
      GrownMore(p0, p1, p2);
      KeptGrown(p0, p2, q);
    }
  }

  lemma {:induction false} SolidSnoc(alts: Alts, b: Pieces)
    ensures SolidAlts(AltsSnoc(alts, b)) == (SolidAlts(alts) && SolidPieces(b))
  {
    hide SolidPieces;
    if alts.Or? {
      SolidSnoc(alts.more, b);
    } else {
      assert SolidAlts(Last(b)) == SolidPieces(b);
    }
  }

  lemma AtomKeeps(a: Atom, p0: seq<int>, p1: seq<int>)
    requires p1 == p0 + GenAtom(a) && GroupKept(a, p0, p1)
    ensures AtomKept(a, p0, p1)
  {
    hide GenAtom, LenAtom, SolidAtom, WellLinked, Grown, NoneCross;
    if SolidAtom(a) && WellLinked(p0) {
      AtomStays(p0, a);
      if !a.Group? {
        GrownLeaf(p0, a);
      }
    }
  }

  ghost predicate PieceRead(r: Parsed<Piece>, p0: seq<int>, p1: seq<int>, at: nat, nsub: nat, err: int, ret: nat,
                            flags: Flags) {
    match r
    case Bad(e) => ret == 0 && err == e
    case Good(p, at', nsub') =>
      ret == |p0| && p1 == p0 + GenPiece(p) && at == at' && nsub == nsub' && flags == PieceFlags(p)
  }

  /** An alternative was read: a BRANCH with an open link, then its pieces with an open end. */
  ghost predicate BranchRead(r: Parsed<Pieces>, p0: seq<int>, p1: seq<int>, at: nat, nsub: nat, err: int, ret: nat,
                             flags: Flags) {
    match r
    case Bad(e) => ret == 0 && err == e
    case Good(b, at', nsub') =>
      && ret == |p0| && p1 == p0 + [BRANCH, 0] + GenBranch(b)
      && at == at' && nsub == nsub' && flags == BranchFlags(b)
  }

  ghost function PrependPieces(b: Pieces, r: Parsed<Pieces>): Parsed<Pieces> {
    if r.Bad? then r else Good(Append(b, r.v), r.at, r.nsub)
  }

  lemma PiecesStep(pat: string, i: nat, nsub: nat, b: Pieces)
    requires i <= |pat|
    ensures EndsBranch(pat, i) ==> PrependPieces(b, ParsePieces(pat, i, nsub)) == Good(b, i, nsub)
    ensures !EndsBranch(pat, i) ==>
              var r := ParsePiece(pat, i, nsub);
              PrependPieces(b, ParsePieces(pat, i, nsub)) ==
                if r.Bad? then Bad(r.err) else PrependPieces(Snoc(b, r.v), ParsePieces(pat, r.at, r.nsub))
  {
    hide ParsePiece, EndsBranch;
    AppendNil(b);
    if !EndsBranch(pat, i) && ParsePiece(pat, i, nsub).Good? {
      var r := ParsePiece(pat, i, nsub);
      var rest := ParsePieces(pat, r.at, r.nsub);
      if rest.Good? {
        AppendSnoc(b, r.v, rest.v);
      }
    }
  }

  /** The words of the pieces emitted so far. */
  ghost function GenSome(b: Pieces): seq<int> {
    if b.Nil? then [] else GenPieces(b)
  }

  lemma FlagsSnoc(b: Pieces, q: Piece)
    ensures BranchFlags(Snoc(b, q)) ==
            Flags(BranchFlags(b).width || WidthPiece(q), false,
                  if b.Nil? then StarStartPiece(q) else BranchFlags(b).starStart)
  {
    SnocLen(b, q);
  }

  lemma FlagsOfPiece(q: Piece)
    ensures PieceFlags(q).width == WidthPiece(q) && PieceFlags(q).starStart == StarStartPiece(q)
  {
  }

  /** What the loop over the pieces of one alternative keeps. */
  ghost predicate BranchSoFar(all: Parsed<Pieces>, pat: string, p0: seq<int>, p: seq<int>, b: Pieces,
                              at: nat, nsub: nat, chain: nat, flags: Flags)
    requires at <= |pat|
  {
    && p == p0 + [BRANCH, 0] + GenSome(b)
    && all == PrependPieces(b, ParsePieces(pat, at, nsub))
    && flags == BranchFlags(b)
    && chain == if b.Nil? then 0 else |p0| + 2 + LastStart(b)
  }

  lemma BranchStarts0(all: Parsed<Pieces>, pat: string, p0: seq<int>, at: nat, nsub: nat)
    requires at <= |pat| && all == ParsePieces(pat, at, nsub)
    ensures BranchSoFar(all, pat, p0, p0 + [BRANCH, 0], Nil, at, nsub, 0, Flags(false, false, false))
  {
    assert p0 + [BRANCH, 0] + [] == p0 + [BRANCH, 0];
  }

  /** One more piece, at `latest`, was read and emitted: link the previous one to it. */
  lemma BranchMore(all: Parsed<Pieces>, pat: string, p0: seq<int>, p: seq<int>, b: Pieces, at: nat, nsub: nat,
                   chain: nat, flags: Flags, p1: seq<int>)
    requires at <= |pat| && BranchSoFar(all, pat, p0, p, b, at, nsub, chain, flags) && !EndsBranch(pat, at)
    requires var r := ParsePiece(pat, at, nsub); r.Good? && p1 == p + GenPiece(r.v)
    ensures b.Nil? <==> chain == 0
    ensures var r := ParsePiece(pat, at, nsub);
            var b' := Snoc(b, r.v);
            var t := |p0| + 2 + if b.Nil? then 0 else TailPieces(b);
            && (b.Cons? ==> Path(p1, chain, t) && t < |p| && t + 1 < |p1| && p1[t] != BACK && p1[t + 1] == 0)
            && (b.Cons? ==> p1[t + 1 := |p| - t] == p0 + [BRANCH, 0] + GenSome(b'))
            && (b.Nil? ==> p1 == p0 + [BRANCH, 0] + GenSome(b'))
            && all == PrependPieces(b', ParsePieces(pat, r.at, r.nsub))
            && |p| == |p0| + 2 + LastStart(b')
  {
    hide ParsePiece, ParsePieces, GenPieces, GenPiece, Path, EndsBranch;
    hide TailPieces, BranchFlags, PrependPieces, LastStart, LenPieces, LenPiece, TailPiece, WidthPieces, LastPiece;
    PiecesStep(pat, at, nsub, b);
    var r := ParsePiece(pat, at, nsub);
    SnocLen(b, r.v);
    if b.Cons? {
      PieceEmitted(p1, p0 + [BRANCH, 0], b, r.v);
    } else {
      OnePiece(r.v);
      assert p0 + [BRANCH, 0] + [] == p0 + [BRANCH, 0];
    }
  }

  lemma BranchDone(p0: seq<int>, b: Pieces)
    ensures p0 + [BRANCH, 0] + GenBranch(b)
         == if b.Nil? then p0 + [BRANCH, 0] + GenSome(b) + [NOTHING, 0] else p0 + [BRANCH, 0] + GenSome(b)
  {
  }

  lemma OnePiece(q: Piece)
    ensures GenSome(Snoc(Nil, q)) == GenPiece(q) && Snoc(Nil, q) == Cons(q, Nil)
  {
  }

  /** The program with its OPEN node at ret0, if any, linked to the node that follows it. */
  ghost function Entered(p: seq<int>, ret0: nat): seq<int>
    requires ret0 != 0 ==> ret0 + 1 < |p|
  {
    if ret0 != 0 then p[ret0 + 1 := 2] else p
  }

  /** Alternatives were read and emitted, ends open. */
  ghost predicate AltsRead(r: Parsed<Alts>, p0: seq<int>, p1: seq<int>, at: nat, nsub: nat, err: int, ok: bool,
                           flags: Flags) {
    match r
    case Bad(e) => !ok && err == e
    case Good(alts, at', nsub') =>
      ok && p1 == p0 + GenOpen(alts) && at == at' && nsub == nsub' && flags == AltsFlags(alts)
  }

  /** What ParseAlts yields when alts are read and reading goes on at `at`. */
  ghost function AltsRest(alts: Alts, pat: string, at: nat, nsub: nat): Parsed<Alts>
    requires at <= |pat|
  {
    if Peek(pat, at) != '|' then Good(alts, at, nsub)
    else
      var r := ParseAlts(pat, at + 1, nsub);
      if r.Bad? then r else Good(AltsJoin(alts, r.v), r.at, r.nsub)
  }

  lemma AltsFirst(pat: string, i: nat, nsub: nat)
    requires i <= |pat|
    ensures var b := ParsePieces(pat, i, nsub);
            ParseAlts(pat, i, nsub) == if b.Bad? then Bad(b.err) else AltsRest(Last(b.v), pat, b.at, b.nsub)
  {
    hide ParsePieces;
  }

  lemma AltsStep(pat: string, at: nat, nsub: nat, alts: Alts)
    requires at < |pat| && pat[at] == '|'
    ensures var b := ParsePieces(pat, at + 1, nsub);
            AltsRest(alts, pat, at, nsub) ==
              if b.Bad? then Bad(b.err) else AltsRest(AltsSnoc(alts, b.v), pat, b.at, b.nsub)
  {
    hide ParsePieces, AltsJoin, AltsSnoc;
    var b := ParsePieces(pat, at + 1, nsub);
    if b.Good? {
      if Peek(pat, b.at) == '|' {
        var more := ParseAlts(pat, b.at + 1, b.nsub);
        if more.Good? {
          JoinSnoc(alts, b.v, more.v);
        }
      } else {
        JoinSnoc(alts, b.v, Last(b.v));
      }
    }
  }

  lemma AltsLast(pat: string, at: nat, nsub: nat, alts: Alts)
    requires at <= |pat| && Peek(pat, at) != '|'
    ensures AltsRest(alts, pat, at, nsub) == Good(alts, at, nsub)
  {
  }

  lemma EnterFirst(p0: seq<int>, ret0: nat, b: Pieces)
    requires ret0 != 0 ==> ret0 + 2 == |p0| && p0[ret0 + 1] == 0
    ensures var p := p0 + [BRANCH, 0] + GenBranch(b);
            && (ret0 != 0 ==> p[ret0] == p0[ret0] && p[ret0 + 1] == 0)
            && (if ret0 != 0 then p[ret0 + 1 := |p0| - ret0] else p) == Entered(p0, ret0) + GenOpen(Last(b))
  {
    hide GenBranch;
  }

  lemma FlagsFirst(b: Pieces)
    ensures AltsFlags(Last(b)) == Flags(BranchFlags(b).width, false, BranchFlags(b).starStart)
  {
  }

  lemma {:induction false} WidthSnoc(alts: Alts, b: Pieces)
    ensures WidthAlts(AltsSnoc(alts, b)) == (WidthAlts(alts) && WidthPieces(b))
    ensures StarStartAlts(AltsSnoc(alts, b)) == (StarStartAlts(alts) || (b.Cons? && StarStartPiece(b.p)))
  {
    hide WidthPieces, StarStartPiece;
    if alts.Or? {
      WidthSnoc(alts.more, b);
    } else {
      assert WidthAlts(Last(b)) == WidthPieces(b);
      assert StarStartAlts(Last(b)) == (b.Cons? && StarStartPiece(b.p));
    }
  }

  lemma FlagsMore(alts: Alts, b: Pieces)
    ensures AltsFlags(AltsSnoc(alts, b)) ==
            Flags(AltsFlags(alts).width && BranchFlags(b).width, false,
                  AltsFlags(alts).starStart || BranchFlags(b).starStart)
  {
    WidthSnoc(alts, b);
  }

  /** One more alternative was emitted: the chain to the previous BRANCH and what linking gives. */
  lemma AltsMore(p: seq<int>, p0: seq<int>, ret0: nat, alts: Alts, b: Pieces, ret: nat)
    requires ret0 != 0 ==> ret0 + 2 == |p0| && p0[ret0] != BACK
    requires ret == if ret0 != 0 then ret0 else |p0|
    requires p == Entered(p0, ret0) + GenOpen(alts) + [BRANCH, 0] + GenBranch(b)
    ensures var q0 := Entered(p0, ret0); var t := |q0| + LastBranch(alts);
            && Path(p, ret, t) && t + 1 < |p| && p[t] == BRANCH && p[t + 1] == 0
            && p[t + 1 := LenAlts(alts) - LastBranch(alts)] == q0 + GenOpen(AltsSnoc(alts, b))
            && |q0| == |p0| && |GenOpen(alts)| == LenAlts(alts) && t < |q0 + GenOpen(alts)| < |p|
  {
    hide GenOpen, LenAlts, LastBranch, Path, GenBranch;
    var q0 := Entered(p0, ret0);
    SnocAssoc(q0 + GenOpen(alts), [BRANCH, 0], GenBranch(b));
    BranchEmitted(p, q0, alts, b);
    if ret0 != 0 {
      PathStep(p, ret0, |q0|);
      PathJoin(p, ret0, |q0|, |q0| + LastBranch(alts));
    }
  }

  lemma GroupWhole(p0: seq<int>, no: ParenNo, alts: Alts)
    ensures p0 + [OPEN + no, 2] + GenAlts(alts) + [CLOSE + no, 0] == p0 + GenAtom(Group(no, alts))
  {
    hide GenAlts;
  }

  /** After the closing node: the chain from the OPEN node or the first BRANCH to the last one. */
  lemma HookBegin(p: seq<int>, q0: seq<int>, alts: Alts, op: int, ret: nat)
    requires p == q0 + GenOpen(alts) + [op, 0]
    requires ret == |q0| || (ret + 2 == |q0| && q0[ret + 1] == 2 && q0[ret] != BACK)
    ensures var e := |q0| + LenAlts(alts); var t := |q0| + LastBranch(alts);
            && Path(p, ret, t) && t < e && e + 1 < |p| && p[t] == BRANCH && p[t + 1] == 0
            && Framed(p[t + 1 := e - t], q0, e, op) && PartHeld(p[t + 1 := e - t], alts, |q0|, e, 0)
  {
    hide GenOpen, LenAlts, LastBranch, PartHeld, Path;
    EnderEmitted(p, q0, alts, op);
    if ret != |q0| {
      PathStep(p, ret, |q0|);
      PathJoin(p, ret, |q0|, |q0| + LastBranch(alts));
    }
  }

  /** Which node br is while hooking, and where its link leads. */
  lemma HookAt(p: seq<int>, q0: seq<int>, alts: Alts, e: nat, k: nat, op: int, br: nat, ret: nat)
    requires Framed(p, q0, e, op) && e == |q0| + LenAlts(alts) && op != BRANCH && op != BACK
    requires PartHeld(p, alts, |q0|, e, k) && k <= Count(alts)
    requires ret == |q0| || (ret + 2 == |q0| && q0[ret + 1] == 2 && q0[ret] != BACK && q0[ret] != BRANCH)
    requires (br == ret && br + 2 == |q0| && k == 0) || br == |q0| + BranchStart(alts, k)
    ensures br + 1 < |p| && br <= e
    ensures p[br] == BRANCH ==> k < Count(alts) && br == |q0| + BranchStart(alts, k)
    ensures p[br] != BRANCH && br + 2 == |q0| ==> RegNext(p, br) == |q0| && k == 0
    ensures p[br] != BRANCH && br + 2 != |q0| ==> RegNext(p, br) == 0 && k == Count(alts)
  {
    hide LenAlts, PartHeld, BranchStart, Count, Nth;
    BranchStartEnds(alts);
    if br + 2 == |q0| {
      assert p[br] == p[..|q0|][br] && p[br + 1] == p[..|q0|][br + 1];
    } else if k < Count(alts) {
      HookStep(p, q0, alts, e, k, op);
    }
  }

  ghost predicate CountRead(r: Parsed<Bounds>, ok: bool, min: int, max: int, at: nat, err: int) {
    match r
    case Bad(e) => !ok && err == e
    case Good(c, at', _) => ok && c == Bounds(min, max) && at == at'
  }

  /** A literal run was read and emitted as an EXACTLY node. */
  ghost predicate LitRead(r: Parsed<seq<int>>, p0: seq<int>, p1: seq<int>, at: nat, err: int, ret: nat) {
    match r
    case Bad(e) => ret == 0 && err == e
    case Good(cs, at', _) => ret == |p0| && p1 == p0 + GenAtom(Lit(cs)) && at == at'
  }

  lemma GotDone(got: seq<int>, at: nat)
    ensures PrependWords(got, Good([], at, 0)) == Good(got, at, 0)
  {
    assert got + [] == got;
  }

  lemma LitRunStep(pat: string, i: nat, added: bool)
    requires i <= |pat|
    ensures Peek(pat, i) == '\0' || IsMeta(Peek(pat, i)) || SpecialHere(pat, i)
            ==> LitRun(pat, i, added) == Good([], i, 0)
    ensures Peek(pat, i) != '\0' && !IsMeta(Peek(pat, i)) && !SpecialHere(pat, i) ==>
              i < |pat| &&
              var (n, ch) := LitChar(pat, i);
              i + n <= |pat| && n >= 1 &&
              LitRun(pat, i, added) ==
                if Peek(pat, i) == '\\' && Peek(pat, i + 1) != '\0' && ch == 0 then Bad(REG_ERR_NULL_CHAR)
                else if IsMult(Peek(pat, i + n)) then (if added then Good([], i, 0) else Good([ch], i + n, 0))
                else PrependWords([ch], LitRun(pat, i + n, true))
  {
    hide LitChar, IsMeta, SpecialHere;
  }

  ghost function PrependWords(ws: seq<int>, r: Parsed<seq<int>>): Parsed<seq<int>> {
    if r.Bad? then r else Good(ws + r.v, r.at, r.nsub)
  }

  lemma PrependNone(r: Parsed<seq<int>>)
    ensures PrependWords([], r) == r
  {
    assert r.Good? ==> [] + r.v == r.v;
  }

  lemma PrependMore(ws: seq<int>, vs: seq<int>, r: Parsed<seq<int>>)
    ensures PrependWords(ws, PrependWords(vs, r)) == PrependWords(ws + vs, r)
  {
    if r.Good? {
      SnocAssocWords(ws, vs, r.v);
    }
  }

  lemma SnocAssocWords(a: seq<int>, b: seq<int>, c: seq<int>)
    ensures a + b + c == a + (b + c)
  {
  }

  lemma SetItemsStep(pat: string, i: nat)
    requires i <= |pat|
    ensures Peek(pat, i) == ']' ==> SetItems(pat, i) == Good([], i, 0)
    ensures Peek(pat, i) == '\0' ==> SetItems(pat, i) == Bad(REG_ERR_UNMATCHED_BRACKET)
    ensures Peek(pat, i) != ']' && Peek(pat, i) != '\0' ==>
              i < |pat| && SetItems(pat, i) == if SetItem(pat, i).Bad? then SetItem(pat, i)
                                              else PrependWords(SetItem(pat, i).v, SetItems(pat, SetItem(pat, i).at))
  {
    hide SetItem;
  }

  lemma SetDone(p0: seq<int>, head: seq<int>, words: seq<int>, got: seq<int>, all: Parsed<seq<int>>, at: nat)
    requires all == PrependWords(got, Good([], at, 0))
    ensures all == Good(got, at, 0)
    ensures p0 + head + (words + got) + [0] == p0 + (head + (words + got) + [0])
  {
    assert got + [] == got;
  }

  lemma WordAssoc(p: seq<int>, head: seq<int>, a: seq<int>, b: seq<int>, c: seq<int>)
    ensures p + head + a + b + c + [0] == p + (head + (a + b + c) + [0])
    ensures p + head + a + [0] == p + (head + a + [0])
  {
  }

  lemma Assoc4(p: seq<int>, a: seq<int>, b: seq<int>, c: seq<int>)
    ensures p + a + b + c == p + (a + b + c)
    ensures p + a + b + c == p + (a + (b + c))
    ensures p + b + c == p + (b + c)
  {
  }

  lemma HeaderSet(p0: seq<int>, op: int, max: int, min: int, code: seq<int>)
    ensures var p := Inserted(p0 + code, op, |p0|);
            p[|p0| + 2 := max][|p0| + 3 := min][|p0| + 4 := 0] == p0 + [op, 0, max, min, 0] + code
  {
    assert (p0 + code)[..|p0|] == p0 && (p0 + code)[|p0|..] == code;
  }

  lemma InsertedIs(p: seq<int>, q: seq<int>, op: int, o: nat)
    requires o <= |p| && |q| == |p| + 5 && q[o] == op
    requires forall k | 0 <= k < o :: q[k] == p[k]
    requires forall k | o < k < o + 5 :: q[k] == 0
    requires forall k | o <= k < |p| :: q[k + 5] == p[k]
    ensures q == Inserted(p, op, o)
  {
    forall k | o + 5 <= k < |q|
      ensures q[k] == Inserted(p, op, o)[k]
    {
      assert q[k - 5 + 5] == p[k - 5];
    }
  }

  lemma PathSelf(p: seq<int>, a: nat)
    ensures Path(p, a, a)
  {
  }

  lemma SetIsClass(pat: string, i: nat, nsub: nat)
    requires i <= |pat|
    ensures ParseSet(pat, i, nsub).Good? ==> ParseSet(pat, i, nsub).v.Class? && ParseSet(pat, i, nsub).nsub == nsub
  {
  }

  lemma GenOnce(a: Atom)
    ensures GenPiece(Once(a)) == GenAtom(a)
  {
  }

  // ---- the matcher's contract

  lemma SameSelf(p: seq<int>, cs: set<nat>)
    ensures SameBut(p, p, cs)
  {
  }

  class Regex {
    var exp: string
    var regparse: nat
    var nsub: nat
    var err: int
    var program: seq<int>
    var regstart: int
    var reganch: bool
    var regmust: nat
    var regmlen: nat
    var subject: string
    var reginput: nat

    constructor ()
    {
      exp, regparse, nsub, err := "", 0, 0, REG_NOERROR;
      program := [];
      regstart, reganch, regmust, regmlen := 0, false, 0, 0;
      subject, reginput := "", 0;
    }

    /** The object holds the compiled form of alts, counters in any state. */
    ghost predicate Valid(alts: Alts)
      reads this
    {
      && SafeAlts(alts) && SolidAlts(alts)
      && SameBut(program, Clean(alts), Ctrs(alts))
      && regstart == StartChar(alts)
      && reganch == Anchored(alts)
      && (regmust != 0 ==> HasMust(alts, regmust, regmlen))
    }

    // ---- emitting

    /** Emits a node with an open link. */
    method RegNode(op: int) returns (p: nat)
      modifies this`program
      ensures program == old(program) + [op, 0] && p == |old(program)|
      ensures WellLinked(old(program)) && TwoWords(op) ==> Grown(old(program), program)
    {
      hide WellLinked, Grown, TwoWords;
      p := |program|;
      program := program + [op];
      program := program + [0];
      assert program == old(program) + [op, 0];
      if WellLinked(old(program)) && TwoWords(op) {
        GrownNode(old(program), op);
      }
    }

    method RegC(b: int)
      modifies this`program
      ensures program == old(program) + [b]
    {
      program := program + [b];
    }

    /** Inserts a repeat header in front of the operand at opnd, moving the operand up. */
    method RegInsert(op: int, opnd: nat) returns (next: nat)
      requires opnd <= |program| && HeaderOp(op)
      modifies this`program
      ensures program == Inserted(old(program), op, opnd) && next == opnd + 5
      ensures WellLinked(old(program)) && opnd in Places(old(program)) && NoneCross(old(program), opnd) ==>
                WellLinked(program) && opnd in AllStarts(program) && next in Places(program)
    {
      hide WellLinked, NoneCross, Places, AllStarts;
      MoveUp(opnd, 5);
      var i := 0;
      while i < 5
        invariant i <= 5 && |program| == |old(program)| + 5
        invariant forall k | 0 <= k < opnd :: program[k] == old(program)[k]
        invariant forall k | opnd <= k < opnd + i :: program[k] == 0
        invariant forall k | opnd <= k < |old(program)| :: program[k + 5] == old(program)[k]
      {
        program := program[opnd + i := 0];
        i := i + 1;
      }
      program := program[opnd := op];
      InsertedIs(old(program), program, op, opnd);
      next := opnd + 5;
      if WellLinked(old(program)) && opnd in Places(old(program)) && NoneCross(old(program), opnd) {
        WellInsert(old(program), op, opnd);
      }
    }

    /** Makes room for n words and moves everything from `from` up by n, the last word first. */
    method MoveUp(from: nat, n: nat)
      requires from <= |program|
      modifies this`program
      ensures |program| == |old(program)| + n
      ensures forall k | 0 <= k < from :: program[k] == old(program)[k]
      ensures forall k | from <= k < |old(program)| :: program[k + n] == old(program)[k]
    {
      var i := |program|;
      program := program + seq(n, _ => 0);
      while i > from
        invariant from <= i <= |old(program)| && |program| == |old(program)| + n
        invariant forall k | 0 <= k < i :: program[k] == old(program)[k]
        invariant forall k | i <= k < |old(program)| :: program[k + n] == old(program)[k]
      {
        i := i - 1;
        program := program[i + n := program[i]];
      }
    }

    /** Sets the link at the end of the chain that starts at p; t is that end. */
    method RegTail(p: nat, val: nat, ghost t: nat)
      requires Path(program, p, t) && t + 1 < |program| && program[t + 1] == 0
      modifies this`program
      ensures program == old(program)[t + 1 := if old(program)[t] == BACK then t - val else val - t]
      ensures MayLink(old(program), p, t, val) ==> Kept(old(program), program)
    {
      hide WellLinked, Kept, MayLink;
      var scan := p;
      var temp := RegNext(program, scan);
      while temp != 0
        invariant program == old(program) && Path(program, scan, t)
        invariant scan + 1 < |program| && temp == RegNext(program, scan)
        invariant scan <= t
        decreases t - scan
      {
        PathForward(program, scan, t);
        scan := temp;
        temp := RegNext(program, scan);
      }
      var offset := if program[scan] == BACK then scan - val else val - scan;
      program := program[scan + 1 := offset];
      if MayLink(old(program), p, t, val) {
        TailKeeps(old(program), p, t, val);
      }
    }

    /** RegTail on the operand of a BRANCH; nothing on any other node. */
    method RegOpTail(p: nat, val: nat, ghost t: nat)
      requires p < |program|
      requires program[p] == BRANCH ==>
                 Path(program, p + 2, t) && t + 1 < |program| && program[t + 1] == 0 && program[t] != BACK
      modifies this`program
      ensures program == if old(program)[p] == BRANCH then old(program)[t + 1 := val - t] else old(program)
      ensures WellLinked(old(program)) && (old(program)[p] == BRANCH ==> MayLink(old(program), p + 2, t, val)) ==>
                Kept(old(program), program)
    {
      hide WellLinked, MayLink, AllStarts, Path;
      if program[p] == BRANCH {
        RegTail(p + 2, val, t);
      }
    }

    // ---- bracket sets

    method RegAddRange(lo: int, hi: int)
      modifies this`program
      ensures program == old(program) + RangeWords(lo, hi)
      decreases lo > hi
    {
      if lo > hi {
        RegAddRange(hi, lo);
      }
      RegC(hi - lo + 1);
      RegC(lo);
      assert program == old(program) + RangeWords(lo, hi);
    }

    method RegAddRangeStr(str: string)
      modifies this`program
      ensures program == old(program) + StringWords(str)
    {
      var i := 0;
      assert str[0..] == str;
      while i < |str|
        invariant 0 <= i <= |str|
        invariant program + StringWords(str[i..]) == old(program) + StringWords(str)
      {
        RegAddRange(str[i] as int, str[i] as int);
        assert str[i..][1..] == str[i + 1..];
        i := i + 1;
      }
    }

    /** Letters, with digits in front when alphanumeric. */
    method RegAddAlpha(digits: bool)
      modifies this`program
      ensures program == old(program) + ClassWords(if digits then 1 else 0)
    {
      hide RangeWords;
      if digits {
        RegAddRange('0' as int, '9' as int);
      }
      RegAddRange('a' as int, 'z' as int);
      RegAddRange('A' as int, 'Z' as int);
      Assoc4(old(program), SpanWords('0', '9'), SpanWords('a', 'z'), SpanWords('A', 'Z'));
    }

    /** Digits, with the hexadecimal letters in front when asked for. */
    method RegAddDigits(hex: bool)
      modifies this`program
      ensures program == old(program) + ClassWords(if hex then 7 else 6)
    {
      hide RangeWords;
      if hex {
        RegAddRange('a' as int, 'f' as int);
        RegAddRange('A' as int, 'F' as int);
      }
      RegAddRange('0' as int, '9' as int);
      Assoc4(old(program), SpanWords('a', 'f'), SpanWords('A', 'F'), SpanWords('0', '9'));
    }

    method RegAddPunct()
      modifies this`program
      ensures program == old(program) + ClassWords(11)
    {
      hide RangeWords;
      RegAddRange('!' as int, '/' as int);
      RegAddRange(':' as int, '@' as int);
      RegAddRange('[' as int, '`' as int);
      RegAddRange('{' as int, '~' as int);
      Assoc4(old(program), SpanWords('!', '/'), SpanWords(':', '@'), SpanWords('[', '`'));
      Assoc4(old(program), SpanWords('!', '/') + SpanWords(':', '@'), SpanWords('[', '`'), SpanWords('{', '~'));
    }

    method RegAddCntrl()
      modifies this`program
      ensures program == old(program) + ClassWords(8)
    {
      hide RangeWords;
      RegAddRange(0, 31);
      RegAddRange(127, 127);
      SnocAssoc(old(program), RangeWords(0, 31), RangeWords(127, 127));
    }

    /** Emits the ranges of a named class. */
    method RegAddClass(cc: nat)
      modifies this`program
      ensures program == old(program) + ClassWords(cc)
    {
      hide RangeWords, StringWords;
      if cc == 0 || cc == 1 {
        RegAddAlpha(cc == 1);
      } else if cc == 2 {
        RegAddRangeStr(" \t\r\n\U{0c}\U{0b}");
      } else if cc == 3 {
        RegAddRangeStr(" \t");
      } else if cc == 4 {
        RegAddRange('A' as int, 'Z' as int);
      } else if cc == 5 {
        RegAddRange('a' as int, 'z' as int);
      } else if cc == 6 || cc == 7 {
        RegAddDigits(cc == 7);
      } else if cc == 8 {
        RegAddCntrl();
      } else if cc == 9 {
        RegAddRange('!' as int, '~' as int);
      } else if cc == 10 {
        RegAddRange(' ' as int, '~' as int);
      } else {
        RegAddPunct();
      }
    }

    /** The rest of a set member whose first character is `start`; ok is false on an error. */
    method RegSetRest(start: int, j: nat) returns (ok: bool, at: nat)
      requires j <= |exp|
      modifies this`program, this`err
      ensures ItemRead(SetRest(exp, start, j), old(program), program, ok, at, err)
    {
      hide DecodeEscape, ClassWords, RangeWords, NameHere;
      var pattern := j;
      if Peek(exp, pattern) == '-' && Peek(exp, pattern + 1) != '\0' && Peek(exp, pattern + 1) != ']' {
        var end := Peek(exp, pattern + 1) as int;
        pattern := pattern + 2;
        if end == '\\' as int {
          var (n, ch) := DecodeEscape(exp, pattern);
          pattern := pattern + n;
          end := ch;
          if end == 0 {
            err := REG_ERR_NULL_CHAR;
            return false, 0;
          }
          if end == '\\' as int && Peek(exp, pattern) == '\0' {
            err := REG_ERR_INVALID_ESCAPE;
            return false, 0;
          }
        }
        RegAddRange(start, end);
        return true, pattern;
      }
      if start == '[' as int && Peek(exp, pattern) == ':' {
        var cc := 0;
        while cc < |CLASS_NAMES| && !NameHere(exp, pattern, CLASS_NAMES[cc])
          invariant cc <= |CLASS_NAMES| && FindClass(exp, pattern, 0) == FindClass(exp, pattern, cc)
        {
          cc := cc + 1;
        }
        if cc < |CLASS_NAMES| {
          if Peek(exp, pattern + |CLASS_NAMES[cc]|) != ']' {
            err := REG_ERR_UNMATCHED_BRACKET;
            return false, 0;
          }
          pattern := pattern + |CLASS_NAMES[cc]| + 1;
          RegAddClass(cc);
          return true, pattern;
        }
      }
      RegAddRange(start, start);
      return true, pattern;
    }

    /** One member of a set. */
    method RegSetItem(i: nat) returns (ok: bool, at: nat)
      requires i < |exp|
      modifies this`program, this`err
      ensures ItemRead(SetItem(exp, i), old(program), program, ok, at, err)
    {
      hide DecodeEscape, ClassWords, RangeWords, SetRest;
      var start := exp[i] as int;
      var pattern := i + 1;
      if start == '\\' as int {
        var c := Peek(exp, pattern);
        if c == 's' {
          RegAddClass(2);
          return true, pattern + 1;
        } else if c == 'd' {
          RegAddClass(6);
          return true, pattern + 1;
        } else if c == 'w' {
          RegAddRange('_' as int, '_' as int);
          RegAddClass(1);
          SnocAssoc(old(program), CharWords('_'), ClassWords(1));
          return true, pattern + 1;
        }
        var (n, ch) := DecodeEscape(exp, pattern);
        pattern := pattern + n;
        start := ch;
        if start == 0 {
          err := REG_ERR_NULL_CHAR;
          return false, 0;
        }
        if start == '\\' as int && Peek(exp, pattern) == '\0' {
          err := REG_ERR_INVALID_ESCAPE;
          return false, 0;
        }
      }
      ok, at := RegSetRest(start, pattern);
    }

    /** A whole set; regparse stands after its opening bracket. */
    method RegSet() returns (ret: nat)
      requires regparse <= |exp| && program != []
      modifies this`program, this`err, this`regparse
      ensures AtomRead(ParseSet(exp, old(regparse), nsub), old(program), program, regparse, nsub, err, ret)
    {
      hide SetItem, SetItems, RangeWords, WellLinked, Grown, TwoWords;
      ghost var p0 := program;
      var pattern := regparse;
      if Peek(exp, pattern) == '^' {
        ret := RegNode(ANYBUT);
        pattern := pattern + 1;
      } else {
        ret := RegNode(ANYOF);
      }
      ghost var head := [program[ret], 0];
      ghost var words: seq<int> := FirstMember(exp, pattern);
      if Peek(exp, pattern) == ']' || Peek(exp, pattern) == '-' {
        RegAddRange(Peek(exp, pattern) as int, Peek(exp, pattern) as int);
        pattern := pattern + 1;
      }
      assert program == p0 + head + words;
      ghost var all := SetItems(exp, pattern);
      ghost var got: seq<int> := [];
      PrependNone(all);
      assert words + got == words;
      while Peek(exp, pattern) != ']'
        invariant pattern <= |exp| && program == p0 + head + (words + got)
        invariant all == PrependWords(got, SetItems(exp, pattern))
        decreases |exp| - pattern
      {
        SetItemsStep(exp, pattern);
        if Peek(exp, pattern) == '\0' {
          err := REG_ERR_UNMATCHED_BRACKET;
          return 0;
        }
        var ok, at := RegSetItem(pattern);
        if !ok {
          return 0;
        }
        ghost var item := SetItem(exp, pattern).v;
        PrependMore(got, item, SetItems(exp, at));
        SnocAssocWords(words, got, item);
        SnocAssocWords(p0 + head, words + got, item);
        got := got + item;
        pattern := at;
      }
      SetItemsStep(exp, pattern);
      RegC(0);
      SetDone(p0, head, words, got, all, pattern);
      pattern := pattern + 1;
      regparse := pattern;
    }

    // ---- literals and leaves

    /** A run of literal characters, from regparse on, as one EXACTLY node. */
    method RegLiteral() returns (ret: nat)
      requires regparse < |exp| && program != []
      modifies this`program, this`err, this`regparse
      ensures LitRead(LitRun(exp, old(regparse), false), old(program), program, regparse, err, ret)
    {
      hide LitRun, IsMeta, IsMult, LitChar, SpecialHere;
      ghost var p0 := program;
      ghost var all := LitRun(exp, regparse, false);
      ghost var got: seq<int> := [];
      ret := RegNode(EXACTLY);
      var added := false;
      PrependNone(all);
      assert program == p0 + [EXACTLY, 0] + got;
      var more := true;
      while more && Peek(exp, regparse) != '\0' && !IsMeta(Peek(exp, regparse))
        invariant regparse <= |exp| && program == p0 + [EXACTLY, 0] + got
        invariant more ==> all == PrependWords(got, LitRun(exp, regparse, added))
        invariant !more ==> all == Good(got, regparse, 0)
        decreases more, |exp| - regparse
      {
        LitRunStep(exp, regparse, added);
        GotDone(got, regparse);
        if SpecialHere(exp, regparse) {
          more := false;
        } else {
          var (n, ch) := LitChar(exp, regparse);
          if Peek(exp, regparse) == '\\' && Peek(exp, regparse + 1) != '\0' && ch == 0 {
            err := REG_ERR_NULL_CHAR;
            return 0;
          }
          if IsMult(Peek(exp, regparse + n)) {
            more := false;
            if !added {
              RegC(ch);
              SnocAssocWords(p0 + [EXACTLY, 0], got, [ch]);
              got := got + [ch];
              regparse := regparse + n;
            }
          } else {
            RegC(ch);
            PrependMore(got, [ch], LitRun(exp, regparse + n, true));
            SnocAssocWords(p0 + [EXACTLY, 0], got, [ch]);
            got := got + [ch];
            added := true;
            regparse := regparse + n;
          }
        }
      }
      if more {
        LitRunStep(exp, regparse, added);
        GotDone(got, regparse);
      }
      RegC(0);
      WordAssoc(p0, [EXACTLY, 0], got, [], []);
    }

    /** A special escape or a literal. */
    method RegLeaf() returns (ret: nat)
      requires regparse < |exp| && program != []
      requires !IsMeta(exp[regparse]) && exp[regparse] != '\0'
      modifies this`program, this`err, this`regparse
      ensures AtomRead(ParseLeaf(exp, old(regparse), nsub), old(program), program, regparse, nsub, err, ret)
    {
      hide LitRun, ClassWords;
      var d := Peek(exp, regparse + 1);
      if exp[regparse] == '\\' && d == '\0' {
        err := REG_ERR_INVALID_ESCAPE;
        return 0;
      }
      if SpecialHere(exp, regparse) {
        regparse := regparse + 2;
        ret := RegSpecial(d);
        return;
      }
      ret := RegLiteral();
    }

    method RegSpecial(d: char) returns (ret: nat)
      requires d in "<>mMwWdDsSAZ"
      modifies this`program
      ensures ret == |old(program)| && program == old(program) + GenAtom(SpecialAtom(d))
    {
      hide ClassWords;
      if d == 'A' {
        ret := RegNode(BOLX);
      } else if d == 'Z' {
        ret := RegNode(EOLX);
      } else if d == '<' || d == 'm' {
        ret := RegNode(WORDA);
      } else if d == '>' || d == 'M' {
        ret := RegNode(WORDZ);
      } else if d == 'd' || d == 'D' {
        var op := if d == 'd' then ANYOF else ANYBUT;
        ret := RegNode(op);
        RegAddClass(6);
        RegC(0);
        WordAssoc(old(program), [op, 0], ClassWords(6), [], []);
      } else if d == 'w' || d == 'W' {
        var op := if d == 'w' then ANYOF else ANYBUT;
        ret := RegNode(op);
        RegAddClass(0);
        RegAddClass(6);
        RegAddRange('_' as int, '_' as int);
        RegC(0);
        WordAssoc(old(program), [op, 0], ClassWords(0), ClassWords(6), CharWords('_'));
      } else {
        var op := if d == 's' then ANYOF else ANYBUT;
        ret := RegNode(op);
        RegAddClass(2);
        RegC(0);
        WordAssoc(old(program), [op, 0], ClassWords(2), [], []);
      }
    }

    // ---- repeats

    /** Reads the repeat operator at regparse; leaves regparse at its last character. */
    method RegCount() returns (ok: bool, min: int, max: int)
      requires regparse < |exp| && IsMult(exp[regparse])
      modifies this`regparse, this`err
      ensures CountRead(ParseCount(exp, old(regparse)), ok, min, max, regparse, err)
      ensures !ok ==> regparse <= |exp|
    {
      hide StrToUl;
      var op := exp[regparse];
      min, max := 0, 0;
      if op != '{' {
        min := if op == '+' then 1 else 0;
        max := if op == '?' then 1 else MAX_REP_COUNT;
        return true, min, max;
      }
      var (low, end) := StrToUl(exp, regparse + 1);
      min := low;
      if end == regparse + 1 {
        err := REG_ERR_BAD_COUNT;
        return false, min, max;
      }
      if Peek(exp, end) == '}' {
        max := min;
      } else if Peek(exp, end) == '\0' {
        err := REG_ERR_UNMATCHED_BRACES;
        return false, min, max;
      } else {
        regparse := end;
        var (high, end2) := StrToUl(exp, regparse + 1);
        max, end := high, end2;
        if Peek(exp, end) != '}' {
          err := REG_ERR_UNMATCHED_BRACES;
          return false, min, max;
        }
      }
      if end == regparse + 1 {
        max := MAX_REP_COUNT;
      } else if max < min || max >= 100 {
        err := REG_ERR_BAD_COUNT;
        return false, min, max;
      }
      if min >= 100 {
        err := REG_ERR_BAD_COUNT;
        return false, min, max;
      }
      StrChr('}', end);
      ok := true;
    }

    /** Moves regparse to the next c, which stands at `at`. */
    method StrChr(c: char, ghost at: nat)
      requires regparse <= at < |exp| && exp[at] == c
      requires forall j | regparse <= j < at :: exp[j] != c
      modifies this`regparse
      ensures regparse == at
    {
      while exp[regparse] != c
        invariant regparse <= at && forall j | regparse <= j < at :: exp[j] != c
        decreases at - regparse
      {
        regparse := regparse + 1;
      }
    }

    /** Puts a repeat header in front of the atom emitted at ret. */
    method PutHeader(op: int, ret: nat, min: int, max: int, ghost p0: seq<int>, ghost code: seq<int>)
      returns (next: nat)
      requires program == p0 + code && ret == |p0| && HeaderOp(op)
      modifies this`program
      ensures program == p0 + [op, 0, max, min, 0] + code && next == ret + 5
      ensures WellLinked(old(program)) && ret in Places(old(program)) && NoneCross(old(program), ret) ==>
                WellLinked(program) && ret in AllStarts(program) && next in Places(program)
    {
      hide WellLinked, NoneCross, AllStarts;
      next := RegInsert(op, ret);
      ghost var q := program;
      program := program[ret + 2 := max];
      program := program[ret + 3 := min];
      program := program[ret + 4 := 0];
      HeaderSet(p0, op, max, min, code);
      if WellLinked(q) && ret in AllStarts(q) {
        HeaderKeeps(q, ret, max, min);
      }
    }

    /** Puts a repeat header in front of the atom emitted at ret, and for a complex atom closes the
        loop with a BACK node. */
    method EmitRepeat(ret: nat, simple: bool, lazy: bool, min: int, max: int, ghost p0: seq<int>, ghost a: Atom)
      requires program == p0 + GenAtom(a) && ret == |p0| && simple == SimpleAtom(a)
      modifies this`program
      ensures program == p0 + GenPiece(Repeat(a, min, max, lazy))
      ensures WellLinked(old(program)) && ret in Places(old(program)) && NoneCross(old(program), ret) ==>
                WellLinked(program)
    {
      hide GenAtom, GenPiece, LenAtom, TailAtom, Path, SimpleAtom, WellLinked, AllStarts, NoneCross, Grown, Kept;
      var op := if lazy then (if simple then REPMIN else REPXMIN) else (if simple then REP else REPX);
      var next := PutHeader(op, ret, min, max, p0, GenAtom(a));
      ghost var head := [RepeatOp(a, lazy), 0, max, min, 0];
      assert program == p0 + head + GenAtom(a);
      if simple {
        SimpleRepeatEmitted(p0, a, min, max, lazy);
      } else {
        CloseLoop(ret, next, min, max, p0, a, lazy);
      }
    }

    /** Emits the BACK node of a complex repeat, linked to its header, and links the body to it. */
    method CloseLoop(ret: nat, next: nat, min: int, max: int, ghost p0: seq<int>, ghost a: Atom, ghost lazy: bool)
      requires program == p0 + [RepeatOp(a, lazy), 0, max, min, 0] + GenAtom(a) && !SimpleAtom(a)
      requires ret == |p0| && next == ret + 5
      modifies this`program
      ensures program == p0 + GenPiece(Repeat(a, min, max, lazy))
      ensures WellLinked(old(program)) && ret in AllStarts(old(program)) && next in Places(old(program)) ==>
                WellLinked(program)
    {
      hide GenAtom, GenPiece, LenAtom, TailAtom, Path, SimpleAtom, WellLinked, AllStarts, RepeatOp;
      ghost var head := [RepeatOp(a, lazy), 0, max, min, 0];
      var back := RegNode(BACK);
      PathSelf(program, back);
      RegTail(back, ret, back);
      assert program == p0 + head + GenAtom(a) + [BACK, LenAtom(a) + 5];
      LoopEmitted(program, p0, a, min, max, lazy);
      RegTail(next, back, next + TailAtom(a));
    }

    // ---- the grammar

    /** One atom. */
    method RegAtom() returns (ret: nat, flags: Flags)
      requires regparse <= |exp| && program != []
      modifies this`program, this`err, this`regparse, this`nsub
      ensures AtomRead(ParseAtom(exp, old(regparse), old(nsub)), old(program), program, regparse, nsub, err, ret)
      ensures ret != 0 ==> flags == AtomFlags(ParseAtom(exp, old(regparse), old(nsub)).v)
      ensures ret != 0 ==> AtomKept(ParseAtom(exp, old(regparse), old(nsub)).v, old(program), program)
      decreases |exp| - regparse, 1
    {
      hide AtomKept;
      ret, flags := RegAtomCode();
      if ret != 0 {
        AtomKeeps(ParseAtom(exp, old(regparse), old(nsub)).v, old(program), program);
      }
    }

    /** The code of one atom; only a group links what it emits. */
    method RegAtomCode() returns (ret: nat, flags: Flags)
      requires regparse <= |exp| && program != []
      modifies this`program, this`err, this`regparse, this`nsub
      ensures AtomRead(ParseAtom(exp, old(regparse), old(nsub)), old(program), program, regparse, nsub, err, ret)
      ensures ret != 0 ==> flags == AtomFlags(ParseAtom(exp, old(regparse), old(nsub)).v)
      ensures ret != 0 ==> GroupKept(ParseAtom(exp, old(regparse), old(nsub)).v, old(program), program)
      decreases |exp| - regparse, 1, 0
    {
      hide ParseLeaf, ParseSet, ParseGroup, GenAlts, SolidAtom, WellLinked, Grown;
      flags := Flags(false, false, false);
      var ch := Peek(exp, regparse);
      if ch == '^' {
        regparse := regparse + 1;
        ret := RegNode(BOL);
      } else if ch == '$' {
        regparse := regparse + 1;
        ret := RegNode(EOL);
      } else if ch == '.' {
        regparse := regparse + 1;
        ret := RegNode(ANY);
        flags := Flags(true, true, false);
      } else if ch == '[' {
        ghost var r := ParseSet(exp, regparse + 1, nsub);
        SetIsClass(exp, regparse + 1, nsub);
        regparse := regparse + 1;
        ret := RegSet();
        flags := Flags(true, true, false);
      } else if ch == '(' {
        regparse := regparse + 1;
        ret, flags := RegGroup();
      } else if ch == '\0' || ch == '|' || ch == ')' {
        err := REG_ERR_INTERNAL;
        return 0, flags;
      } else if IsMult(ch) {
        err := REG_ERR_COUNT_FOLLOWS_NOTHING;
        return 0, flags;
      } else {
        ghost var r := ParseLeaf(exp, regparse, nsub);
        ret := RegLeaf();
        if ret != 0 {
          flags := LeafFlags(ret, r.v, old(program));
        }
      }
    }

    /** Flags of a leaf, read off what was emitted. */
    method LeafFlags(ret: nat, ghost a: Atom, ghost p0: seq<int>) returns (flags: Flags)
      requires program == p0 + GenAtom(a) && ret == |p0| && !a.Group?
      ensures flags == AtomFlags(a)
    {
      var op := program[ret];
      assert op == GenAtom(a)[0];
      var leaf := op == ANYOF || op == ANYBUT || op == ANY;
      flags := Flags(leaf || op == EXACTLY, leaf || (op == EXACTLY && |program| == ret + 4), false);
    }

    /** A group; regparse stands after its opening parenthesis. */
    method RegGroup() returns (ret: nat, flags: Flags)
      requires regparse <= |exp| && program != []
      modifies this`program, this`err, this`regparse, this`nsub
      ensures AtomRead(ParseGroup(exp, old(regparse), old(nsub)), old(program), program, regparse, nsub, err, ret)
      ensures ret != 0 ==> flags == AtomFlags(ParseGroup(exp, old(regparse), old(nsub)).v)
      ensures ret != 0 ==> GroupKept(ParseGroup(exp, old(regparse), old(nsub)).v, old(program), program)
      decreases |exp| - regparse, 5
    {
      hide ParseAlts, GenAlts, GenOpen, WidthAlts, StarStartAlts, LenAlts;
      hide WellLinked, Grown, AltsKept, Ready, TwoWords, GroupKept;
      ghost var p0 := program;
      var parno: int := -1;
      if Peek(exp, regparse) == '?' && Peek(exp, regparse + 1) == ':' {
        regparse := regparse + 2;
      } else {
        nsub := nsub + 1;
        parno := nsub;
      }
      ghost var r := ParseAlts(exp, regparse, nsub);
      ret := RegNode(OPEN + parno);
      ghost var p1 := program;
      var ok, _, f := RegAlternatives(ret);
      flags := f;
      if !ok {
        return 0, flags;
      }
      var q0 := p0 + [OPEN + parno, 2];
      assert program == q0 + GenOpen(r.v);
      ghost var p2 := program;
      RegHook(ret, CLOSE + parno, q0, r.v);
      GroupKeeps(parno, r.v, p0, p1, p2, program);
      GroupWhole(p0, parno, r.v);
      if Peek(exp, regparse) != ')' {
        err := REG_ERR_UNMATCHED_PAREN;
        return 0, flags;
      }
      regparse := regparse + 1;
    }

    /** The alternatives, their BRANCH nodes linked in order; ret0, if not 0, is the OPEN node before
        them, which is linked to the first. */
    method RegAlternatives(ret0: nat) returns (ok: bool, ret: nat, flags: Flags)
      requires regparse <= |exp| && program != []
      requires ret0 != 0 ==> ret0 + 2 == |program| && program[ret0 + 1] == 0 && program[ret0] != BACK
      modifies this`program, this`err, this`regparse, this`nsub
      ensures AltsRead(ParseAlts(exp, old(regparse), old(nsub)), Entered(old(program), ret0), program,
                       regparse, nsub, err, ok, flags)
      ensures ok ==> ret == if ret0 != 0 then ret0 else |old(program)|
      ensures ok ==> AltsKept(ParseAlts(exp, old(regparse), old(nsub)).v, ret0, old(program), program, ret)
      decreases |exp| - regparse, 4
    {
      hide ParseAlts, ParsePieces, GenBranch, GenOpen, LenAlts, LastBranch;
      hide Path, BranchFlags, AltsFlags, AltsRest, Entered;
      hide AltsKept, PiecesKept, MayLink, Kept;
      ghost var p0 := program;
      ghost var q0 := Entered(p0, ret0);
      ghost var all := ParseAlts(exp, regparse, nsub);
      AltsFirst(exp, regparse, nsub);
      ghost var b := ParsePieces(exp, regparse, nsub);
      ret, flags := RegFirst(ret0);
      if ret == 0 {
        return false, ret, flags;
      }
      ghost var alts := Last(b.v);
      while Peek(exp, regparse) == '|'
        invariant old(regparse) <= regparse <= |exp| && ret == if ret0 != 0 then ret0 else |p0|
        invariant program == q0 + GenOpen(alts) && flags == AltsFlags(alts)
        invariant AltsKept(alts, ret0, p0, program, ret)
        invariant all == AltsRest(alts, exp, regparse, nsub)
        decreases |exp| - regparse
      {
        AltsStep(exp, regparse, nsub, alts);
        regparse := regparse + 1;
        b := ParsePieces(exp, regparse, nsub);
        ghost var p1 := program;
        var br, f := RegBranch();
        if br == 0 {
          return false, ret, flags;
        }
        AltsMore(program, p0, ret0, alts, b.v, ret);
        ghost var p2 := program;
        RegTail(ret, br, |q0| + LastBranch(alts));
        MoreKept(alts, b.v, ret0, p0, p1, p2, program, ret, |q0| + LastBranch(alts));
        FlagsMore(alts, b.v);
        flags := Flags(flags.width && f.width, false, flags.starStart || f.starStart);
        alts := AltsSnoc(alts, b.v);
      }
      AltsLast(exp, regparse, nsub, alts);
      ok := true;
    }

    /** The first alternative, linked to the OPEN node before it. */
    method RegFirst(ret0: nat) returns (ret: nat, flags: Flags)
      requires regparse <= |exp| && program != []
      requires ret0 != 0 ==> ret0 + 2 == |program| && program[ret0 + 1] == 0 && program[ret0] != BACK
      modifies this`program, this`err, this`regparse, this`nsub
      ensures var b := ParsePieces(exp, old(regparse), old(nsub));
              if b.Bad? then ret == 0 && err == b.err
              else
                && ret == (if ret0 != 0 then ret0 else |old(program)|) && ret != 0
                && program == Entered(old(program), ret0) + GenOpen(Last(b.v))
                && flags == AltsFlags(Last(b.v)) && regparse == b.at && nsub == b.nsub
                && AltsKept(Last(b.v), ret0, old(program), program, ret)
      decreases |exp| - regparse, 4, 0
    {
      hide AltsKept;
      hide ParsePieces, GenBranch, GenOpen, LenAlts, LastBranch, BranchFlags, AltsFlags, Entered;
      ghost var b := ParsePieces(exp, regparse, nsub);
      ghost var p0 := program;
      var br, f := RegBranch();
      if br == 0 {
        return 0, f;
      }
      EnterFirst(p0, ret0, b.v);
      ghost var p := program;
      if ret0 != 0 {
        RegTail(ret0, br, ret0);
        ret := ret0;
      } else {
        ret := br;
      }
      FirstKept(b.v, ret0, p0, p, program);
      flags := Flags(f.width, false, f.starStart);
      FlagsFirst(b.v);
    }

    /** Emits the closing node, links the last BRANCH to it, then the end of every alternative. */
    method RegHook(ret: nat, op: int, ghost q0: seq<int>, ghost alts: Alts)
      requires program == q0 + GenOpen(alts) && op != BRANCH && op != BACK
      requires ret == |q0| || (ret + 2 == |q0| && q0[ret + 1] == 2 && q0[ret] != BACK && q0[ret] != BRANCH)
      requires ret > 0
      modifies this`program
      ensures program == q0 + GenAlts(alts) + [op, 0]
      ensures Ready(old(program), ret) && TwoWords(op) ==> Grown(old(program), program)
    {
      hide WellLinked, AllStarts, MayLink, Kept, Grown, Ready, TwoWords;
      ghost var sound := Ready(program, ret) && TwoWords(op);
      hide GenAlts, GenOpen, LenAlts, LastBranch, PartHeld, Path, BranchStart, Nth, Count, TailBranch;
      var ender := RegNode(op);
      ghost var lo := |q0|;
      ghost var e := lo + LenAlts(alts);
      HookBegin(program, q0, alts, op, ret);
      ghost var p := program;
      RegTail(ret, ender, lo + LastBranch(alts));
      HookFirst(sound, old(program), p, program, ret, lo + LastBranch(alts));
      BranchStartEnds(alts);
      var br := ret;
      ghost var k := 0;
      while br != 0
        invariant Framed(program, q0, e, op) && PartHeld(program, alts, lo, e, k) && k <= Count(alts)
        invariant br == 0 ==> k == Count(alts)
        invariant HookKept(sound, old(program), program, e, br)
        invariant br != 0 ==> (br == ret && br + 2 == lo && k == 0) || br == lo + BranchStart(alts, k)
        decreases if br == 0 then 0 else 1 + e - br
      {
        HookAt(program, q0, alts, e, k, op, br, ret);
        p := program;
        ghost var t := 0;
        if program[br] == BRANCH {
          HookStep(program, q0, alts, e, k, op);
          t := br + 2 + TailBranch(Nth(alts, k));
          RegOpTail(br, ender, t);
          k := k + 1;
        } else {
          RegOpTail(br, ender, 0);
        }
        HookNext(sound, old(program), p, program, e, br, t);
        br := RegNext(program, br);
      }
      HookDone(program, q0, alts, e, op);
    }

    /** An atom and the repeat operator that may follow it. */
    method RegPiece() returns (ret: nat, flags: Flags)
      requires regparse <= |exp| && program != []
      modifies this`program, this`err, this`regparse, this`nsub
      ensures PieceRead(ParsePiece(exp, old(regparse), old(nsub)), old(program), program, regparse, nsub, err, ret,
              flags)
      ensures ret != 0 ==> PieceKept(ParsePiece(exp, old(regparse), old(nsub)).v, old(program), program)
      decreases |exp| - regparse, 2
    {
      hide ParseAtom, GenAtom, GenPiece, ParseCount, WidthAtom, SimpleAtom, StarStartAtom;
      hide AtomKept, PieceKept, WellLinked, NoneCross, Places;
      ghost var p0 := program;
      ghost var r := ParseAtom(exp, regparse, nsub);
      var f;
      ret, f := RegAtom();
      flags := f;
      if ret == 0 {
        return;
      }
      GenOnce(r.v);
      ghost var p1 := program;
      var op := Peek(exp, regparse);
      if !IsMult(op) {
        PieceKeeps(Once(r.v), p0, p1, program);
        return;
      }
      if !f.width && op != '?' {
        err := REG_ERR_OPERAND_COULD_BE_EMPTY;
        return 0, flags;
      }
      var ok, min, max := RegCount();
      if !ok {
        return 0, flags;
      }
      var lazy := Peek(exp, regparse + 1) == '?';
      if lazy {
        regparse := regparse + 1;
      }
      EmitRepeat(ret, f.simple, lazy, min, max, p0, r.v);
      PieceKeeps(Repeat(r.v, min, max, lazy), p0, p1, program);
      flags := Flags(min != 0, false, min == 0);
      regparse := regparse + 1;
      if IsMult(Peek(exp, regparse)) {
        err := REG_ERR_NESTED_COUNT;
        return 0, flags;
      }
    }

    /** One alternative: its pieces, each linked to the next. */
    method RegBranch() returns (ret: nat, flags: Flags)
      requires regparse <= |exp| && program != []
      modifies this`program, this`err, this`regparse, this`nsub
      ensures BranchRead(ParsePieces(exp, old(regparse), old(nsub)), old(program), program, regparse, nsub, err, ret,
              flags)
      ensures ret != 0 ==> PiecesKept(ParsePieces(exp, old(regparse), old(nsub)).v, old(program), program)
      decreases |exp| - regparse, 3
    {
      hide ParsePieces, ParsePiece, GenPieces, GenPiece, Path, TailPieces, BranchFlags, PrependPieces, LastStart;
      hide GenSome, EndsBranch, Snoc, PieceFlags;
      hide WellLinked, Grown, PieceKept, PiecesKept, ChainKept, MayLink, Kept;
      ghost var p0 := program;
      ghost var all := ParsePieces(exp, regparse, nsub);
      ghost var b := Nil;
      BranchStarts0(all, exp, p0, regparse, nsub);
      ret := RegNode(BRANCH);
      ChainBegin(p0, program);
      flags := Flags(false, false, false);
      var chain := 0;
      while !EndsBranch(exp, regparse)
        invariant old(regparse) <= regparse <= |exp|
        invariant BranchSoFar(all, exp, p0, program, b, regparse, nsub, chain, flags)
        invariant ChainKept(b, p0, program, chain)
        decreases |exp| - regparse
      {
        ghost var q := program;
        ghost var piece := ParsePiece(exp, regparse, nsub);
        PiecesStep(exp, regparse, nsub, b);
        ghost var at, n := regparse, nsub;
        var latest, f := RegPiece();
        if latest == 0 {
          return 0, flags;
        }
        ghost var p1 := program;
        BranchMore(all, exp, p0, q, b, at, n, chain, flags, program);
        FlagsSnoc(b, piece.v);
        FlagsOfPiece(piece.v);
        if chain == 0 {
          flags := Flags(flags.width || f.width, false, f.starStart);
        } else {
          flags := Flags(flags.width || f.width, false, flags.starStart);
          RegTail(chain, latest, |p0| + 2 + TailPieces(b));
        }
        PieceMore(b, piece.v, p0, q, p1, program, chain, |p0| + 2 + if b.Nil? then 0 else TailPieces(b));
        chain := latest;
        b := Snoc(b, piece.v);
      }
      PiecesStep(exp, regparse, nsub, b);
      BranchDone(p0, b);
      ghost var p := program;
      if chain == 0 {
        var _ := RegNode(NOTHING);
      }
      ChainDone(b, p0, p, program, chain);
    }

    // ---- compiling a whole pattern

    /** Number of words before the next zero. */
    method StrLen(at: nat) returns (n: nat)
      requires at < |program| && program[|program| - 1] == 0
      ensures n == ZeroAt(program, at) - at
    {
      n := 0;
      while program[at + n] != 0
        invariant at + n < |program| && ZeroAt(program, at) == ZeroAt(program, at + n)
        decreases |program| - n
      {
        n := n + 1;
      }
    }

    /** The longest literal on the chain of top-level nodes, later ones winning ties. */
    method LongestLiteral(ghost alts: Alts) returns (longest: nat, len: nat)
      requires alts.Last? && program == Clean(alts)
      ensures SafeAlts(alts) && longest != 0 ==> HasMust(alts, longest, len)
      ensures SafeAlts(alts) ==> LongestOf(alts.b, longest, len)
    {
      hide Clean, Ctrs, SafeAlts, Stands, Path, LenAlts, GenAlts, HasMust, OnTop, ZeroAt;
      hide PassedBest, LongestOf, RestOf, RestAt, NextPlace, NextAddr;
      ghost var e := 1 + LenAlts(alts);
      CleanWords(alts);
      TopChain(alts);
      ghost var pl := BranchPlace(alts.b, e, AtEnd);
      if SafeAlts(alts) {
        TopStart(alts);
      }
      longest, len := 0, 0;
      ChainFirst(alts.b, e);
      var scan := 3;
      PathForward(program, 3, e);
      while scan != 0
        invariant scan != 0 ==> 3 <= scan <= e && Path(program, scan, e)
        invariant scan != 0 && SafeAlts(alts) ==>
                    Stands(program, Ctrs(alts), scan, pl) && OnTop(pl, alts.b, scan, e)
        invariant SafeAlts(alts) && longest != 0 ==> HasMust(alts, longest, len)
        invariant scan != 0 && SafeAlts(alts) ==> PassedBest(alts.b, RestOf(pl), RestAt(pl, scan), longest, len)
        invariant scan == 0 && SafeAlts(alts) ==> LongestOf(alts.b, longest, len)
        decreases if scan == 0 then 0 else 1 + e - scan
      {
        if SafeAlts(alts) && scan != e {
          ChainPass(program, Ctrs(alts), scan, pl, alts.b, e, longest, len);
        } else if SafeAlts(alts) {
          ChainLast(program, Ctrs(alts), alts.b, pl, scan, longest, len);
        }
        if program[scan] == EXACTLY {
          var plen := StrLen(scan + 2);
          if SafeAlts(alts) {
            MustHere(program, scan, pl, alts, e);
          }
          if plen >= len {
            longest, len := scan + 2, plen;
          }
        }
        ChainStep(program, scan, e);
        if SafeAlts(alts) && scan != e {
          PlaceStep(program, Ctrs(alts), scan, pl, alts.b, e);
          pl := NextPlace(pl, scan);
        }
        scan := RegNext(program, scan);
      }
    }

    /** Compiles `pattern`: the error its grammar gives, or its code with the search hints. */
    method JimRegcomp(pattern: string) returns (r: int)
      modifies this
      ensures ParseRegex(pattern).Bad? ==> r == ParseRegex(pattern).err
      ensures ParseRegex(pattern).Good? ==>
                r == REG_NOERROR && program == Clean(ParseRegex(pattern).v) && nsub == ParseRegex(pattern).nsub
      ensures ParseRegex(pattern).Good? && SafeAlts(ParseRegex(pattern).v) && SolidAlts(ParseRegex(pattern).v) ==>
                Valid(ParseRegex(pattern).v)
      ensures ParseRegex(pattern).Good? && SolidAlts(ParseRegex(pattern).v) ==> WellLinked(program)
    {
      hide SolidAlts, WellLinked;
      hide ParseAlts, Clean, PlainAlts, StartChar, Anchored, HasMust, AltsFlags;
      exp, regparse, nsub, err := pattern, 0, 0, REG_NOERROR;
      regstart, reganch, regmust, regmlen := 0, false, 0, 0;
      program := [];
      RegC(REG_MAGIC);
      var ok, flags := RegTop();
      if !ok {
        return err;
      }
      if nsub >= REG_MAX_PAREN {
        err := REG_ERR_TOO_BIG;
        return err;
      }
      ghost var alts := ParseRegex(pattern).v;
      FirstNodes(alts);
      NoHints(alts);
      var scan := 1;
      if program[RegNext(program, scan)] == END {
        scan := 3;
        if program[scan] == EXACTLY {
          regstart := program[scan + 2];
        } else if program[scan] == BOL {
          reganch := true;
        }
        if flags.starStart {
          regmust, regmlen := LongestLiteral(alts);
        }
      }
      SameSelf(program, Ctrs(alts));
      r := REG_NOERROR;
    }

    /** The main body of a pattern, up to its end. */
    method RegTop() returns (ok: bool, flags: Flags)
      requires regparse == 0 && nsub == 0 && program == [REG_MAGIC]
      modifies this`program, this`err, this`regparse, this`nsub
      ensures var r := ParseAlts(exp, 0, 0);
              if r.Bad? then !ok && err == r.err
              else if r.at != |exp| then
                !ok && err == if Peek(exp, r.at) == ')' then REG_ERR_UNMATCHED_PAREN else REG_ERR_JUNK_ON_END
              else ok && program == Clean(r.v) && nsub == r.nsub
      ensures ok && SolidAlts(ParseAlts(exp, 0, 0).v) ==> WellLinked(program)
    {
      hide ParseAlts, GenAlts, GenOpen, AltsFlags, SolidAlts, WellLinked, AllStarts;
      FirstProgram(REG_MAGIC);
      ghost var r := ParseAlts(exp, 0, 0);
      var ret;
      ok, ret, flags := RegAlternatives(0);
      if !ok {
        return;
      }
      RegHook(ret, END, [REG_MAGIC], r.v);
      if regparse < |exp| {
        err := if Peek(exp, regparse) == ')' then REG_ERR_UNMATCHED_PAREN else REG_ERR_JUNK_ON_END;
        return false, flags;
      }
    }

    // ---- matching

    /** One node that needs no recursion. On success the input position has moved past it. */
    method MatchLeaf(scan: nat, ghost cs: set<nat>, ghost a: Atom, ghost nx: nat) returns (ok: bool)
      requires CodeAtom(program, cs, a, scan, nx) && SafeAtom(a) && !a.Group? && reginput <= |subject|
      modifies this`reginput
      ensures SolidAtom(a) ==> EndsAtom(a, subject, old(reginput)) == if ok then [reginput] else []
      ensures old(reginput) <= reginput <= |subject| && (!ok ==> reginput == old(reginput))
    {
      var op := program[scan];
      var c := CodeAt(subject, reginput);
      if op == EXACTLY {
        ok := MatchExact(scan, cs, a, nx);
      } else if op == ANYOF || op == ANYBUT {
        ok := MatchSet(scan, cs, a, nx);
      } else if op == ANY {
        ok := reginput < |subject|;
        if ok {
          reginput := reginput + 1;
        }
      } else {
        ok := MatchZero(op);
      }
    }

    method MatchExact(scan: nat, ghost cs: set<nat>, ghost a: Atom, ghost nx: nat) returns (ok: bool)
      requires CodeAtom(program, cs, a, scan, nx) && SafeAtom(a) && a.Lit? && reginput <= |subject|
      modifies this`reginput
      ensures EndsAtom(a, subject, old(reginput)) == if ok then [reginput] else []
      ensures old(reginput) <= reginput <= |subject| && (!ok ==> reginput == old(reginput))
    {
      assert a.cs == (a.cs + [0])[..|a.cs|];
      assert Words(program, scan + 2, a.cs) by {
        WordsSplit(program, scan + 2, a.cs, [0]);
      }
      var len := StrIntLen(program, scan + 2, a.cs);
      var slen := PrefixCmp(program, scan + 2, len, subject, reginput, a.cs);
      ok := slen >= 0;
      if ok {
        LitFits(a.cs, subject, reginput);
        reginput := reginput + slen;
      }
    }

    method MatchSet(scan: nat, ghost cs: set<nat>, ghost a: Atom, ghost nx: nat) returns (ok: bool)
      requires CodeAtom(program, cs, a, scan, nx) && SafeAtom(a) && a.Class? && reginput <= |subject|
      modifies this`reginput
      ensures SolidAtom(a) ==> EndsAtom(a, subject, old(reginput)) == if ok then [reginput] else []
      ensures old(reginput) <= reginput <= |subject| && (!ok ==> reginput == old(reginput))
    {
      if reginput >= |subject| {
        return false;
      }
      var found := RegRangeFind(program, scan + 2, CodeAt(subject, reginput), a.words);
      ok := found == (program[scan] == ANYOF);
      if ok {
        reginput := reginput + 1;
      }
    }

    method MatchZero(op: int) returns (ok: bool)
      requires ZeroWidthOp(op)
      ensures ok == ZeroHolds(op, subject, reginput)
    {
      var c := CodeAt(subject, reginput);
      if op == BOLX || op == BOL {
        ok := reginput == 0;
      } else if op == EOLX || op == EOL {
        ok := c == 0;
      } else if op == WORDA {
        if !IsWord(c) {
          return false;
        }
        ok := !(reginput > 0 && IsWord(CodeAt(subject, reginput - 1)));
      } else {
        if reginput > 0 {
          if c == 0 || !IsWord(c) {
            c := CodeAt(subject, reginput - 1);
            if IsWord(c) {
              return true;
            }
          }
        }
        ok := false;
      }
    }

    /** Does the one-character node at p accept the character at i? */
    method RepeatTest(p: nat, i: nat, ghost a: Atom) returns (ok: bool)
      requires Operand(program, a, p) && SafeAtom(a) && SimpleAtom(a)
      ensures (ok ==> i < |subject|) && (SolidAtom(a) ==> ok == OneChar(a, subject, i))
    {
      var op := program[p];
      var ch := CodeAt(subject, i);
      if op == ANY {
        ok := i < |subject|;
      } else if op == EXACTLY {
        assert program[p + 2] == ([EXACTLY, 0] + a.cs + [0])[2];
        ok := i < |subject| && program[p + 2] == ch;
      } else if i >= |subject| {
        ok := false;
      } else {
        assert [op, 0] + a.words + [0] == [op, 0] + (a.words + [0]);
        WordsSplit(program, p, [op, 0], a.words + [0]);
        var found := RegRangeFind(program, p + 2, ch, a.words);
        ok := found == (op == ANYOF);
      }
    }

    /** Matches the one-character node at p as often as it goes, at most max times. */
    method RegRepeat(p: nat, max: nat, ghost a: Atom) returns (count: nat)
      requires Operand(program, a, p) && SafeAtom(a) && SimpleAtom(a) && reginput <= |subject|
      modifies this`reginput
      ensures SolidAtom(a) ==> count == Run(a, max, subject, old(reginput))
      ensures reginput == old(reginput) + count <= |subject|
    {
      hide SolidAtom, SafeAtom;
      count := 0;
      var i := reginput;
      var more := true;
      while more && count < max
        invariant count <= max && i == reginput + count <= |subject| && reginput == old(reginput)
        invariant SolidAtom(a) && more ==> Run(a, max, subject, reginput) == count + Run(a, max - count, subject, i)
        invariant SolidAtom(a) && !more ==> Run(a, max, subject, reginput) == count
        decreases max - count, more
      {
        more := RepeatTest(p, i, a);
        if more {
          count := count + 1;
          i := i + 1;
        }
      }
      reginput := i;
    }

    /** A repeated one-character node: run as far as allowed, then give back one at a time
        (or, when minimal, take one more at a time) until the rest matches. */
    method RegMatchSimpleRepeat(scan: nat, matchmin: bool, ghost cs: set<nat>, ghost q: seq<int>, ghost f: Frame)
      returns (r: int)
      requires InFrame(program, q, cs, scan, f) && reginput <= |subject| && scan < |program|
      requires (program[scan] == REP || program[scan] == REPMIN) && matchmin == (program[scan] == REPMIN)
      modifies this`program, this`reginput
      ensures Outcome(r, Meaning(f, subject, old(reginput)), old(program), program, old(reginput), reginput,
                      |subject|, cs)
      decreases Rounds(q, program, cs, |program|), Steps(f.pl), 1
    {
      hide InFrame, Steps, Rounds, SafeAtom, SolidAtom, PlainAtom, Meaning, SimpleAtom;
      hide EndsPiece, CodePiece, PlainPiece;
      RunGood(program, q, cs, scan, f);
      ghost var piece := PieceOf(f);
      RunPast(program, q, cs, scan, f, subject, reginput);
      var max := program[scan + 2];
      var min := program[scan + 3];
      var next := RegNext(program, scan);
      HeadSame(program, q, cs, next, PastFrame(f));
      var nextch := 0;
      if program[next] == EXACTLY {
        LookGood(program, q, cs, next, PastFrame(f), subject, 0);
        nextch := program[next + 2];
      }
      var save := reginput;
      var no := RegRepeat(scan + 5, max, piece.a);
      if no < min {
        RunShort(piece, f, subject, save, no);
        return 0;
      }
      r := TryRuns(save, no, min, max, matchmin, next, nextch, cs, q, piece, PastFrame(f));
    }

    method TryRuns(save: nat, run: nat, min: nat, max: nat, matchmin: bool, next: nat, nextch: int,
                   ghost cs: set<nat>, ghost q: seq<int>, ghost piece: Piece, ghost f: Frame)
      returns (r: int)
      requires InFrame(program, q, cs, next, f) && save + run == reginput <= |subject| && next < |program|
      requires piece == Repeat(piece.a, min, max, matchmin) && SimpleAtom(piece.a) && min <= run && min <= max
      requires f.k.Some? ==> run == Run(piece.a, max, subject, save)
      requires nextch == if program[next] == EXACTLY && next + 2 < |program| then program[next + 2] else 0
      modifies this`program, this`reginput
      ensures Outcome(r, Onward(EndsPiece(piece, subject, save), f, subject), old(program), program, save, reginput,
                      |subject|, cs)
      decreases Rounds(q, program, cs, |program|), Steps(f.pl), 3
    {
      hide InFrame, Steps, Rounds, EndsPiece, Run, SimpleAtom, Choices, Onward, Meaning, Ups, Downs, RegNext;
      ghost var all := EndsPiece(piece, subject, save);
      FirstChoices(piece, f, subject, save, run);
      var no: int := if matchmin then min else run;
      while (matchmin && no <= run) || (!matchmin && no >= min)
        invariant program == old(program) && -1 <= no && (matchmin ==> no >= 0) && (!matchmin ==> no <= run)
        invariant save <= reginput <= |subject|
        invariant Onward(all, f, subject) == Onward(Choices(save, no, run, min, matchmin), f, subject)
        decreases if matchmin then run - no else no
      {
        var e: nat := save + no;
        ChoicesNext(save, no, run, min, matchmin);
        ghost var no' := if matchmin then no + 1 else no - 1;
        OnwardStep(e, Choices(save, no', run, min, matchmin), f, subject);
        reginput := e;
        var c := CodeAt(subject, e);
        if nextch == 0 || c == nextch {
          r := RegMatch(next, cs, q, f);
          if r != 0 {
            return 1;
          }
        } else {
          LookGood(program, q, cs, next, f, subject, e);
        }
        no := if matchmin then no + 1 else no - 1;
      }
      ChoicesNext(save, no, run, min, matchmin);
      OnwardNone(f, subject);
      return 0;
    }

    method RegMatch(prog: nat, ghost cs: set<nat>, ghost q: seq<int>, ghost f0: Frame) returns (r: int)
      requires InFrame(program, q, cs, prog, f0) && reginput <= |subject|
      modifies this`program, this`reginput
      ensures Outcome(r, Meaning(f0, subject, old(reginput)), old(program), program, old(reginput), reginput,
                      |subject|, cs)
      ensures r == 0 && Restores(f0) ==> reginput == old(reginput)
      decreases Rounds(q, program, cs, |program|), Steps(f0.pl), 2
    {
      hide InFrame, Meaning, Steps, Rounds, RegNext, Restores, OnFrame;
      var scan: nat := prog;
      ghost var f := f0;
      HeadSame(program, q, cs, scan, f);
      while scan != 0
        invariant program == old(program) && old(reginput) <= reginput <= |subject|
        invariant 0 < scan && scan + 1 < |program| && InFrame(program, q, cs, scan, f)
        invariant Meaning(f, subject, reginput) == Meaning(f0, subject, old(reginput))
        invariant Restores(f0) ==> f == f0 && reginput == old(reginput)
        invariant Steps(f.pl) <= Steps(f0.pl)
        decreases Steps(f.pl)
      {
        var op := program[scan];
        FrameShape(program, q, cs, scan, f);
        RestoresOp(program, q, cs, scan, f);
        if op == END {
          MeaningKnown(f, f, subject, reginput);
          EndGood(program, q, cs, scan, f, subject, reginput);
          return 1;
        } else if op == BRANCH {
          AltsGood(program, q, cs, scan, f, subject, reginput);
          if program[RegNext(program, scan)] != BRANCH { // no choice
            f := BranchFrame(f);
            scan := scan + 2;
          } else {
            r := RegMatchBranches(scan, cs, q, f);
            return;
          }
        } else if op == REP || op == REPMIN {
          r := RegMatchSimpleRepeat(scan, op == REPMIN, cs, q, f);
          return;
        } else if op == REPX || op == REPXMIN {
          r := RegMatchRepeat(scan, op == REPXMIN, cs, q, f);
          return;
        } else if op == OPEN - 1 || op == CLOSE - 1 || OPEN + 1 <= op < CLOSE_END {
          r := RegMatchParen(scan, cs, q, f);
          return;
        } else if op > WORDZ {
          return REG_ERR_INTERNAL;
        } else {
          ghost var f';
          var ok;
          ok, scan, f' := RegMatchNode(scan, cs, q, f);
          if !ok {
            return 0;
          }
          f := f';
        }
        HeadSame(program, q, cs, scan, f);
      }
      return REG_ERR_INTERNAL;
    }

    /** A node without recursion; on success the program goes on at its "next". */
    method RegMatchNode(scan: nat, ghost cs: set<nat>, ghost q: seq<int>, ghost f: Frame)
      returns (ok: bool, next: nat, ghost f': Frame)
      requires InFrame(program, q, cs, scan, f) && reginput <= |subject| && scan < |program|
      requires IsLeafOp(program[scan]) || program[scan] == NOTHING || program[scan] == BACK
      modifies this`reginput
      ensures old(reginput) <= reginput <= |subject|
      ensures !ok ==> Meaning(f, subject, old(reginput)) == None0(f)
      ensures ok ==> InFrame(program, q, cs, next, f') && Steps(f'.pl) < Steps(f.pl)
      ensures ok ==> Meaning(f, subject, old(reginput)) == Meaning(f', subject, reginput)
    {
      hide InFrame, Steps, Meaning, RegNext, OnFrame, SafeAtom, SolidAtom, PlainAtom;
      hide CodeAtom, EndsAtom, CodePiece, Onward;
      HeadSame(program, q, cs, scan, f);
      var op := program[scan];
      if op == NOTHING || op == BACK {
        OnGood(program, q, cs, scan, f, subject, reginput);
        f' := OnFrame(f, scan);
        return true, RegNext(program, scan), f';
      }
      LeafGood(program, q, cs, scan, f);
      LeafPast(program, q, cs, scan, f, subject, reginput);
      f' := PastFrame(f);
      next := RegNext(program, scan);
      ok := MatchLeaf(scan, cs, PieceOf(f).a, next);
      MeaningKnown(f, f', subject, old(reginput));
      MeaningKnown(f, f', subject, reginput);
      if ok {
        OnwardOne(reginput, f', subject);
      } else {
        OnwardNone(f', subject);
      }
    }

    /** Two or more alternatives: each in turn from the same input position. */
    method RegMatchBranches(scan: nat, ghost cs: set<nat>, ghost q: seq<int>, ghost f: Frame) returns (r: int)
      requires InFrame(program, q, cs, scan, f) && reginput <= |subject| && scan < |program| && program[scan] == BRANCH
      modifies this`program, this`reginput
      ensures Outcome(r, Meaning(f, subject, old(reginput)), old(program), program, old(reginput), reginput,
                      |subject|, cs)
      decreases Rounds(q, program, cs, |program|), Steps(f.pl), 1
    {
      hide InFrame, Meaning, Steps, Rounds, RegNext;
      var at: nat := scan;
      ghost var rest := f;
      ghost var left := Meaning(f, subject, reginput);
      var save := reginput;
      var more := true;
      while more
        invariant program == old(program) && save == old(reginput) && reginput == save <= |subject|
        invariant Meaning(f, subject, save) == left && (rest.k.Some? <==> f.k.Some?)
        invariant more ==> InFrame(program, q, cs, at, rest) && at < |program| && program[at] == BRANCH
        invariant more ==> Steps(rest.pl) <= Steps(f.pl) && Meaning(rest, subject, save) == left
        invariant !more ==> left == None0(f)
        decreases if more then 1 + Steps(rest.pl) else 0
      {
        AltsGood(program, q, cs, at, rest, subject, save);
        MeaningKnown(rest, BranchFrame(rest), subject, save);
        r := RegMatch(at + 2, cs, q, BranchFrame(rest));
        if r != 0 {
          return 1;
        }
        reginput := save;
        at := RegNext(program, at);
        more := at != 0 && program[at] == BRANCH;
        if more {
          MeaningKnown(rest, ElseFrame(rest), subject, save);
          PlusNone(Meaning(ElseFrame(rest), subject, save));
          rest := ElseFrame(rest);
        }
      }
      return 0;
    }

    /** A parenthesis: on to its "next"; a capturing one restores the input position on failure. */
    method RegMatchParen(scan: nat, ghost cs: set<nat>, ghost q: seq<int>, ghost f: Frame) returns (r: int)
      requires InFrame(program, q, cs, scan, f) && reginput <= |subject|
      requires scan < |program| && program[scan] >= OPEN - 1
      modifies this`program, this`reginput
      ensures Outcome(r, Meaning(f, subject, old(reginput)), old(program), program, old(reginput), reginput,
                      |subject|, cs)
      ensures r == 0 && Restores(f) ==> reginput == old(reginput)
      decreases Rounds(q, program, cs, |program|), Steps(f.pl), 1
    {
      hide InFrame, Meaning, Steps, Rounds, RegNext, OnFrame, Restores;
      var op := program[scan];
      OnGood(program, q, cs, scan, f, subject, reginput);
      RestoresOp(program, q, cs, scan, f);
      var next := RegNext(program, scan);
      var save := reginput;
      r := RegMatch(next, cs, q, OnFrame(f, scan));
      if r == 0 && op != OPEN - 1 && op != CLOSE - 1 {
        reginput := save;
      }
    }

    /** One more round of the loop at scan: count it, match the body, and on failure uncount it. */
    method RegMatchRound(scan: nat, ghost cs: set<nat>, ghost q: seq<int>, ghost f: Frame) returns (r: int)
      requires InFrame(program, q, cs, scan, f) && reginput <= |subject| && scan + 4 < |program|
      requires (program[scan] == REPX || program[scan] == REPXMIN) && program[scan + 4] <= program[scan + 2]
      requires f.k.Some? ==> program[scan + 4] < program[scan + 2]
      modifies this`program, this`reginput
      ensures AtHeader(f)
      ensures Outcome(r, Meaning(BodyFrame(f, scan), subject, old(reginput)), old(program), program, old(reginput),
                      reginput, |subject|, cs)
      ensures r == 0 && f.k.Some? ==> reginput == old(reginput)
      decreases Rounds(q, program, cs, |program|), Steps(f.pl), 0
    {
      hide InFrame, Meaning, Steps, Rounds, Restores, BodyFrame;
      RoundGood(program, q, cs, scan, f);
      ghost var p0 := program;
      program := program[scan + 4 := program[scan + 4] + 1];
      r := RegMatch(scan + 5, cs, q, BodyFrame(f, scan));
      if r != 0 {
        RoundSame(p0, program, q, cs, scan, f);
        return 1;
      }
      program := program[scan + 4 := program[scan + 4] - 1];
      assert program == old(program);
      return 0;
    }

    /** A loop: at least min rounds, then as many more, or as few, as lead to a match. */
    method RegMatchRepeat(scan: nat, matchmin: bool, ghost cs: set<nat>, ghost q: seq<int>, ghost f: Frame)
      returns (r: int)
      requires InFrame(program, q, cs, scan, f) && reginput <= |subject| && scan < |program|
      requires (program[scan] == REPX || program[scan] == REPXMIN) && matchmin == (program[scan] == REPXMIN)
      modifies this`program, this`reginput
      ensures Outcome(r, Meaning(f, subject, old(reginput)), old(program), program, old(reginput), reginput,
                      |subject|, cs)
      decreases Rounds(q, program, cs, |program|), Steps(f.pl), 1
    {
      hide InFrame, Meaning, Steps, Rounds, BodyFrame, OutFrame, RegNext;
      LoopGood(program, q, cs, scan, f, subject, reginput);
      KnownLoop(f, scan, subject, reginput);
      var max := program[scan + 2];
      var min := program[scan + 3];
      if program[scan + 4] < min {
        r := RegMatchRound(scan, cs, q, f);
        return;
      }
      if program[scan + 4] > max {
        return 0;
      }
      if matchmin {
        r := RegMatch(RegNext(program, scan), cs, q, OutFrame(f, scan));
        if r != 0 {
          return 1;
        }
        r := RegMatchRound(scan, cs, q, f);
        return;
      }
      if program[scan + 4] < max {
        r := RegMatchRound(scan, cs, q, f);
        if r != 0 {
          return 1;
        }
      }
      r := RegMatch(RegNext(program, scan), cs, q, OutFrame(f, scan));
    }

    /** Zeroes the counter of every complex repeat, walking the program node by node. */
    method ClearCounters(ghost alts: Alts)
      requires Valid(alts)
      modifies this`program
      ensures program == Clean(alts)
    {
      hide Tiled, NodeAt, SafeAlts, SolidAlts, Stands, Clean, Ctrs, OpSize, Cleared;
      CleanFacts(alts);
      CleanTiled(alts);
      ghost var p := Clean(alts);
      ghost var cs := Ctrs(alts);
      ghost var e := 1 + LenAlts(alts);
      var scan := 3;
      ClearStart(program, p, cs, e);
      while program[scan] != END
        invariant 3 <= scan <= e < |program| && program[e] == END && Cleared(program, p, cs, scan, e)
        decreases e - scan
      {
        var op := program[scan];
        ghost var q := program;
        ClearStep(q, p, cs, scan, e);
        if op == REPX || op == REPXMIN {
          program := program[scan + 4 := 0];
        }
        var n := RegOpSize(program, scan);
        scan := scan + n;
      }
      ClearEnd(program, p, cs, scan, e);
    }

    /** First position from i on holding the character c, or -1. */
    method StrFind(i: nat, c: int) returns (at: int)
      requires i <= |subject|
      ensures -1 <= at < |subject|
      ensures at == -1 ==> forall j | i <= j < |subject| :: CodeAt(subject, j) != c
      ensures at != -1 ==> i <= at && CodeAt(subject, at) == c && forall j | i <= j < at :: CodeAt(subject, j) != c
    {
      at := i;
      while at < |subject|
        invariant i <= at <= |subject|
        invariant forall j | i <= j < at :: CodeAt(subject, j) != c
      {
        if CodeAt(subject, at) == c {
          return at;
        }
        at := at + 1;
      }
      return -1;
    }

    /** Does the literal that every match must contain occur at all? */
    method MustAppear(ghost ws: seq<int>) returns (found: bool)
      requires Words(program, regmust, ws + [0]) && |ws| == regmlen && |ws| > 0
      ensures found <==> exists j: nat :: j < |subject| && LitHere(ws, subject, j)
    {
      WordsSplit(program, regmust, ws, [0]);
      var i := 0;
      while true
        invariant 0 <= i <= |subject|
        invariant forall j | 0 <= j < i :: !LitHere(ws, subject, j)
        decreases |subject| - i
      {
        var at := StrFind(i, program[regmust]);
        if at == -1 {
          return false;
        }
        var slen := PrefixCmp(program, regmust, regmlen, subject, at, ws);
        if slen >= 0 {
          return true;
        }
        i := at + 1;
      }
    }

    /** Tries a match at one position; on success reports where it starts and ends. */
    method RegTry(i: nat, ghost alts: Alts) returns (ok: bool, so: nat, eo: nat)
      requires program == Clean(alts) && SafeAlts(alts) && i <= |subject|
      modifies this`program, this`reginput
      ensures PlainAlts(alts) ==> (ok <==> EndsAlts(alts, subject, i) != [])
      ensures PlainAlts(alts) && ok ==> eo == EndsAlts(alts, subject, i)[0]
      ensures ok ==> so == i <= eo <= |subject| && SameBut(program, Clean(alts), Ctrs(alts))
      ensures !ok ==> program == Clean(alts)
    {
      StartGood(alts);
      StartMeaning(alts, subject, i);
      hide Clean, Ctrs, PlainAlts, SafeAlts, InFrame, Meaning, EndsAlts, StartFrame;
      reginput := i;
      so, eo := 0, 0;
      var r := RegMatch(1, Ctrs(alts), Clean(alts), StartFrame(alts));
      ok := r != 0;
      if ok {
        so, eo := i, reginput;
      }
    }

    /** Searches `str`; for a plain expression the outcome is that of trying every position in turn. */
    method JimRegexec(str: string, ghost alts: Alts) returns (r: int, so: nat, eo: nat)
      requires Valid(alts)
      modifies this`program, this`reginput, this`subject
      ensures Valid(alts)
      ensures r == REG_NOERROR || r == REG_NOMATCH
      ensures r == REG_NOERROR ==> so <= eo <= |str|
      ensures PlainAlts(alts) && r == REG_NOERROR ==> Found(alts, str, so, eo)
      ensures PlainAlts(alts) && r == REG_NOMATCH ==> NoMatchIn(alts, str, 0, |str| + 1)
    {
      hide Clean, Ctrs, PlainAlts, SafeAlts, SolidAlts, Stands, TopK, HasMust, Anchored, StartChar;
      hide Found, NoMatchIn, LenAlts, At, KOk;
      subject := str;
      so, eo := 0, 0;
      CleanFacts(alts);
      if program[0] != REG_MAGIC {
        return REG_ERR_CORRUPTED, so, eo;
      }
      ClearCounters(alts);
      var lacking := LacksMust(alts);
      if lacking {
        return REG_NOMATCH, so, eo;
      }
      var ok;
      if reganch {
        ok, so, eo := SearchAnchored(alts);
      } else if regstart != 0 {
        ok, so, eo := SearchStart(alts);
      } else {
        ok, so, eo := SearchAll(alts);
      }
      r := if ok then REG_NOERROR else REG_NOMATCH;
    }

    /** Is there a literal every match must contain that the subject does not contain? */
    method LacksMust(ghost alts: Alts) returns (lacking: bool)
      requires program == Clean(alts) && SafeAlts(alts)
      requires regmust != 0 ==> HasMust(alts, regmust, regmlen)
      ensures lacking ==> NoMatchIn(alts, subject, 0, |subject| + 1)
    {
      if regmust == 0 {
        return false;
      }
      ghost var ws :| MustOk(alts, regmust, regmlen, ws);
      TopLiteralSafe(alts.b, ws);
      hide Clean, Ctrs, SafeAlts, TopLiteral;
      var found := MustAppear(ws);
      lacking := !found;
      if lacking {
        MustSound(alts, ws, subject);
      }
    }

    /** Tries position 0 only. */
    method SearchAnchored(ghost alts: Alts) returns (ok: bool, so: nat, eo: nat)
      requires program == Clean(alts) && SafeAlts(alts) && Anchored(alts)
      modifies this`program, this`reginput
      ensures SameBut(program, Clean(alts), Ctrs(alts)) && (ok ==> so <= eo <= |subject|)
      ensures PlainAlts(alts) ==>
                if ok then Found(alts, subject, so, eo) else NoMatchIn(alts, subject, 0, |subject| + 1)
    {
      hide Clean, Ctrs, PlainAlts, SafeAlts, Anchored, EndsAlts;
      ok, so, eo := RegTry(0, alts);
      if !ok && PlainAlts(alts) {
        AnchorSoundAll(alts, subject);
      }
    }

    /** Tries only the positions that hold the starting character. */
    method SearchStart(ghost alts: Alts) returns (ok: bool, so: nat, eo: nat)
      requires program == Clean(alts) && SafeAlts(alts)
      requires regstart != 0 && regstart == StartChar(alts)
      modifies this`program, this`reginput
      ensures SameBut(program, Clean(alts), Ctrs(alts)) && (ok ==> so <= eo <= |subject|)
      ensures PlainAlts(alts) ==>
                if ok then Found(alts, subject, so, eo) else NoMatchIn(alts, subject, 0, |subject| + 1)
    {
      hide Clean, Ctrs, PlainAlts, SafeAlts, StartChar, EndsAlts;
      ok, so, eo := false, 0, 0;
      var i := 0;
      while true
        invariant 0 <= i <= |subject| && program == Clean(alts)
        invariant PlainAlts(alts) ==> NoMatchIn(alts, subject, 0, i)
        decreases |subject| - i
      {
        var at := StrFind(i, regstart);
        if PlainAlts(alts) {
          StartSoundIn(alts, subject, i, if at == -1 then |subject| + 1 else at);
        }
        if at == -1 {
          return;
        }
        ok, so, eo := RegTry(at, alts);
        if ok {
          return;
        }
        i := at + 1;
      }
    }

    /** Tries every position, the terminator included. */
    method SearchAll(ghost alts: Alts) returns (ok: bool, so: nat, eo: nat)
      requires program == Clean(alts) && SafeAlts(alts)
      modifies this`program, this`reginput
      ensures SameBut(program, Clean(alts), Ctrs(alts)) && (ok ==> so <= eo <= |subject|)
      ensures PlainAlts(alts) ==>
                if ok then Found(alts, subject, so, eo) else NoMatchIn(alts, subject, 0, |subject| + 1)
    {
      hide Clean, Ctrs, PlainAlts, SafeAlts, EndsAlts;
      var i := 0;
      while true
        invariant 0 <= i <= |subject| && program == Clean(alts)
        invariant PlainAlts(alts) ==> NoMatchIn(alts, subject, 0, i)
        decreases |subject| - i
      {
        ok, so, eo := RegTry(i, alts);
        if ok || i == |subject| {
          return;
        }
        i := i + 1;
      }
    }
  }

  /** The matcher before its first node. */
  ghost function StartFrame(alts: Alts): Frame {
    Frame(TopPlace(alts), if PlainAlts(alts) then Some(TopK(alts)) else None)
  }

  lemma StartGood(alts: Alts)
    requires SafeAlts(alts)
    ensures InFrame(Clean(alts), Clean(alts), Ctrs(alts), 1, StartFrame(alts))
  {
    hide SafeAlts, PlainAlts, Stands, At, KOk, Clean, Ctrs;
    CleanFacts(alts);
  }

  lemma StartMeaning(alts: Alts, s: string, i: nat)
    ensures Meaning(StartFrame(alts), s, i) == if PlainAlts(alts) then Some(EndsAlts(alts, s, i)) else None
  {
    hide PlainAlts, EndsK, EndsAlts;
    TopEnds(alts, s, i);
  }

  lemma TopEnds(alts: Alts, s: string, i: nat)
    ensures EndsK(TopK(alts), s, i) == EndsAlts(alts, s, i)
  {
    FlatMapUnit(EndsAlts(alts, s, i));
    FlatMapSame(EndsAlts(alts, s, i), (e: nat) => EndsK(KEnd, s, e), (e: nat) => [e]);
  }

  lemma {:induction false} TopLiteralSafe(b: Pieces, cs: seq<int>)
    requires TopLiteral(b, cs) && SafePieces(b)
    ensures |cs| > 0
    decreases b
  {
    if b.p != Once(Lit(cs)) {
      TopLiteralSafe(b.ps, cs);
    } else {
      assert SafePiece(b.p) && SafeAtom(b.p.a);
    }
  }

  lemma MustSound(alts: Alts, cs: seq<int>, s: string)
    requires alts.Last? && TopLiteral(alts.b, cs) && cs != []
    requires !exists j: nat :: j < |s| && LitHere(cs, s, j)
    ensures NoMatchIn(alts, s, 0, |s| + 1)
  {
    forall i | 0 <= i <= |s|
      ensures EndsAlts(alts, s, i) == []
    {
      if EndsAlts(alts, s, i) != [] {
        LiteralOnPath(alts.b, cs, s, i);
      }
    }
  }

  lemma AnchorSoundAll(alts: Alts, s: string)
    requires Anchored(alts) && EndsAlts(alts, s, 0) == []
    ensures NoMatchIn(alts, s, 0, |s| + 1)
  {
    forall i | 0 < i <= |s| {
      AnchorSound(alts, s, i);
    }
  }

  lemma StartSoundIn(alts: Alts, s: string, lo: nat, hi: nat)
    requires StartChar(alts) != 0 && lo <= hi
    requires forall j | lo <= j < hi && j < |s| :: CodeAt(s, j) != StartChar(alts)
    requires NoMatchIn(alts, s, 0, lo)
    ensures NoMatchIn(alts, s, 0, hi)
  {
    forall j | lo <= j < hi
      ensures EndsAlts(alts, s, j) == []
    {
      StartSound(alts, s, j);
    }
  }


  /** Counters before scan are zero; everything else is as compiled; nodes tile what is left. */
  ghost predicate Cleared(q: seq<int>, p: seq<int>, cs: set<nat>, scan: nat, e: nat) {
    && scan <= e && e + 2 == |p| && p[e] == END && Tiled(p, cs, scan, e)
    && (forall i | i in cs :: i < e)
    && SameBut(q, p, cs)
    && forall i | i in cs && i < scan :: q[i] == p[i]
  }

  lemma ClearStart(q: seq<int>, p: seq<int>, cs: set<nat>, e: nat)
    requires SameBut(q, p, cs) && 3 <= e && e + 2 == |p| && p[e] == END && Tiled(p, cs, 3, e)
    requires forall i | i in cs :: 3 <= i < e
    ensures Cleared(q, p, cs, 3, e) && q[e] == END
  {
  }

  lemma ClearStep(q: seq<int>, p: seq<int>, cs: set<nat>, scan: nat, e: nat)
    requires Cleared(q, p, cs, scan, e) && scan < |q| && q[scan] != END && e < |q| && q[e] == END
    ensures IsComplex(q[scan]) ==> scan + 4 < |q|
    ensures var q' := if IsComplex(q[scan]) then q[scan + 4 := 0] else q;
            var n := OpSize(q', scan);
            && scan + n <= e && Cleared(q', p, cs, scan + n, e) && |q'| == |q| && q'[e] == END
  {
    assert scan < e;
    var n := OpSize(p, scan);
    assert NodeAt(p, cs, scan, n) && Tiled(p, cs, scan + n, e);
    hide Tiled;
    var q' := if IsComplex(q[scan]) then q[scan + 4 := 0] else q;
    assert q'[scan] == p[scan];
    SameSize(q', p, scan, n);
  }

  lemma SameSize(q: seq<int>, p: seq<int>, at: nat, n: nat)
    requires |p| == |q| && at + n <= |p| && at < |p| && n == OpSize(p, at)
    requires p[at] == q[at]
    requires !(p[at] in {REP, REPMIN, REPX, REPXMIN}) ==> forall i | at <= i < at + n :: p[i] == q[i]
    ensures OpSize(q, at) == n
  {
    if p[at] in {ANYOF, ANYBUT, EXACTLY} {
      ZeroSame(q, p, at + 2, at + n - 1);
    }
  }

  lemma {:induction false} ZeroSame(q: seq<int>, p: seq<int>, at: nat, z: nat)
    requires |p| == |q| && at <= z < |p| && ZeroAt(p, at) == z
    requires forall i | at <= i <= z :: p[i] == q[i]
    ensures ZeroAt(q, at) == z
    decreases z - at
  {
    if at < z {
      ZeroSame(q, p, at + 1, z);
    }
  }

  lemma ClearEnd(q: seq<int>, p: seq<int>, cs: set<nat>, scan: nat, e: nat)
    requires Cleared(q, p, cs, scan, e) && scan < |q| && q[scan] == END
    ensures q == p
  {
  }
}
