// The states a program goes through while it is being emitted: chains of links that end at a node
// whose link is still open, and alternations whose ends are not linked yet.
module RegexChain {
  import opened RegexSyntax
  import opened RegexCode

  /** Following "next" links forward from a leads to b. */
  ghost predicate Path(p: seq<int>, a: nat, b: nat)
    decreases b - a
  {
    || a == b
    || (a + 1 < |p| && p[a] != BACK && p[a + 1] > 0 && a + p[a + 1] <= b && Path(p, a + p[a + 1], b))
  }

  lemma {:induction false} PathJoin(p: seq<int>, a: nat, b: nat, c: nat)
    requires Path(p, a, b) && Path(p, b, c)
    ensures a <= b <= c && Path(p, a, c)
    decreases b - a
  {
    if a != b {
      PathJoin(p, a + p[a + 1], b, c);
    } else {
      PathForward(p, b, c);
    }
  }

  lemma {:induction false} PathForward(p: seq<int>, a: nat, b: nat)
    requires Path(p, a, b)
    ensures a <= b
    decreases b - a
  {
    if a != b {
      PathForward(p, a + p[a + 1], b);
    }
  }

  lemma PathStep(p: seq<int>, a: nat, b: nat)
    requires a + 1 < |p| && p[a] != BACK && a < b && p[a + 1] == b - a
    ensures Path(p, a, b)
  {
    assert Path(p, b, b);
  }

  lemma LinkedAt(p: seq<int>, lo: nat, code: seq<int>, t: nat, d: int)
    requires t + 1 < |code| && Words(p, lo, Link(code, t, d))
    ensures lo + t + 1 < |p| && p[lo + t] == code[t] && p[lo + t + 1] == d
  {
    assert Link(code, t, d)[t] == code[t] && Link(code, t, d)[t + 1] == d;
  }

  lemma {:induction false} AtomPath(p: seq<int>, a: Atom, lo: nat, d: int)
    requires Words(p, lo, Link(GenAtom(a), TailAtom(a), d))
    ensures Path(p, lo, lo + TailAtom(a))
    ensures lo + TailAtom(a) + 1 < |p| && p[lo + TailAtom(a)] != BACK && p[lo + TailAtom(a) + 1] == d
    decreases a, 0
  {
    hide GenAlts, LenAlts;
    if a.Group? {
      GroupPath(p, a.no, a.alts, lo, d);
    } else {
      LinkedAt(p, lo, GenAtom(a), 0, d);
    }
  }

  lemma GroupPath(p: seq<int>, no: ParenNo, alts: Alts, lo: nat, d: int)
    requires Words(p, lo, Link([OPEN + no, 2] + GenAlts(alts) + [CLOSE + no, 0], LenAlts(alts) + 2, d))
    ensures var e := lo + 2 + LenAlts(alts);
            Path(p, lo, e) && e + 1 < |p| && p[e] != BACK && p[e + 1] == d
    decreases alts, 1
  {
    hide GenAlts, LenAlts;
    var body := GenAlts(alts);
    LinkRight([OPEN + no, 2] + body, [CLOSE + no, 0], 0, d);
    assert Link([CLOSE + no, 0], 0, d) == [CLOSE + no, d];
    NodeWords(p, lo, OPEN + no, 2, body, [CLOSE + no, d]);
    AltsPath(p, alts, lo + 2);
    PathStep(p, lo, lo + 2);
    PathJoin(p, lo, lo + 2, lo + 2 + LenAlts(alts));
  }

  lemma {:induction false} PiecePath(p: seq<int>, piece: Piece, lo: nat, d: int)
    requires Words(p, lo, Link(GenPiece(piece), TailPiece(piece), d))
    ensures Path(p, lo, lo + TailPiece(piece))
    ensures lo + TailPiece(piece) + 1 < |p| && p[lo + TailPiece(piece)] != BACK
    ensures p[lo + TailPiece(piece) + 1] == d
    decreases piece
  {
    hide GenAtom, LenAtom;
    match piece
    case Once(a) => AtomPath(p, a, lo, d);
    case Repeat(_, _, _, _) => LinkedAt(p, lo, GenPiece(piece), 0, d);
  }

  lemma {:induction false} PiecesPath(p: seq<int>, b: Pieces, lo: nat, d: int)
    requires b.Cons?
    requires Words(p, lo, Link(GenPieces(b), TailPieces(b), d))
    ensures Path(p, lo, lo + TailPieces(b))
    ensures lo + TailPieces(b) + 1 < |p| && p[lo + TailPieces(b)] != BACK && p[lo + TailPieces(b) + 1] == d
    decreases b, 0
  {
    hide GenPiece, LenPiece, TailPiece, Words;
    var n := LenPiece(b.p);
    var t := TailPiece(b.p);
    if b.ps.Nil? {
      PiecePath(p, b.p, lo, d);
    } else {
      JoinWords(p, lo, Link(GenPiece(b.p), t, n - t), GenPieces(b.ps), TailPieces(b.ps), d);
      PiecePath(p, b.p, lo, n - t);
      PiecesPath(p, b.ps, lo + n, d);
      PathStep(p, lo + t, lo + n);
      PathJoin(p, lo, lo + t, lo + n);
      PathJoin(p, lo, lo + n, lo + TailPieces(b));
    }
  }

  lemma BranchPath(p: seq<int>, b: Pieces, lo: nat, d: int)
    requires Words(p, lo, Link(GenBranch(b), TailBranch(b), d))
    ensures Path(p, lo, lo + TailBranch(b))
    ensures lo + TailBranch(b) + 1 < |p| && p[lo + TailBranch(b)] != BACK && p[lo + TailBranch(b) + 1] == d
    decreases b, 1
  {
    if b.Cons? {
      PiecesPath(p, b, lo, d);
    } else {
      LinkedAt(p, lo, [NOTHING, 0], 0, d);
    }
  }

  /** Along the BRANCH nodes of a linked alternation to the word after it. */
  lemma {:induction false} AltsPath(p: seq<int>, alts: Alts, lo: nat)
    requires Words(p, lo, GenAlts(alts))
    ensures Path(p, lo, lo + LenAlts(alts))
    decreases alts
  {
    hide GenBranch, LenBranch, TailBranch, GenAlts, Words;
    AltsWords(p, alts, lo);
    var n := LenBranch(alts.b);
    PathStep(p, lo, lo + 2 + n);
    if alts.Or? {
      AltsPath(p, alts.more, lo + 2 + n);
      PathJoin(p, lo, lo + 2 + n, lo + LenAlts(alts));
    }
  }

  // ---- concatenations built from the left

  function Snoc(b: Pieces, q: Piece): Pieces {
    if b.Nil? then Cons(q, Nil) else Cons(b.p, Snoc(b.ps, q))
  }

  function LastPiece(b: Pieces): Piece
    requires b.Cons?
  {
    if b.ps.Nil? then b.p else LastPiece(b.ps)
  }

  function LastStart(b: Pieces): (t: nat)
    requires b.Cons?
    ensures t + LenPiece(LastPiece(b)) == LenPieces(b)
    ensures t + TailPiece(LastPiece(b)) == TailPieces(b)
  {
    if b.ps.Nil? then 0 else LenPiece(b.p) + LastStart(b.ps)
  }

  lemma {:induction false} SnocLen(b: Pieces, q: Piece)
    ensures LenPieces(Snoc(b, q)) == LenPieces(b) + LenPiece(q)
    ensures TailPieces(Snoc(b, q)) == LenPieces(b) + TailPiece(q)
    ensures LastPiece(Snoc(b, q)) == q && LastStart(Snoc(b, q)) == LenPieces(b)
    ensures WidthPieces(Snoc(b, q)) == (WidthPieces(b) || WidthPiece(q))
  {
    hide LenPiece, TailPiece, WidthPiece;
    if b.Cons? {
      SnocLen(b.ps, q);
    } else {
      assert LenPieces(Cons(q, Nil)) == LenPiece(q) + LenPieces(Nil);
    }
  }

  /** Appending a piece closes the open link of what is there and leaves its own open. */
  lemma {:induction false} SnocGen(b: Pieces, q: Piece)
    requires b.Cons?
    ensures GenPieces(Snoc(b, q))
         == Link(GenPieces(b), TailPieces(b), LenPieces(b) - TailPieces(b)) + GenPiece(q)
  {
    hide GenPiece, LenPiece, TailPiece;
    SnocLen(b, q);
    if b.ps.Cons? {
      SnocGen(b.ps, q);
      SnocLen(b.ps, q);
      var n := LenPiece(b.p);
      var first := Link(GenPiece(b.p), TailPiece(b.p), n - TailPiece(b.p));
      LinkRight(first, GenPieces(b.ps), TailPieces(b.ps), LenPieces(b) - TailPieces(b));
      SnocAssoc(first, Link(GenPieces(b.ps), TailPieces(b.ps), LenPieces(b) - TailPieces(b)), GenPiece(q));
    }
  }

  lemma SnocAssoc(a: seq<int>, b: seq<int>, c: seq<int>)
    ensures a + b + c == a + (b + c)
  {
  }

  /** In emitted code the last piece still stands as emitted. */
  lemma {:induction false} LastPieceHeld(p: seq<int>, b: Pieces, lo: nat)
    requires b.Cons? && Words(p, lo, GenPieces(b))
    ensures Words(p, lo + LastStart(b), GenPiece(LastPiece(b)))
  {
    hide GenPiece, LenPiece, TailPiece;
    if b.ps.Cons? {
      var first := Link(GenPiece(b.p), TailPiece(b.p), LenPiece(b.p) - TailPiece(b.p));
      WordsSplit(p, lo, first, GenPieces(b.ps));
      LastPieceHeld(p, b.ps, lo + LenPiece(b.p));
    }
  }

  function Append(b: Pieces, c: Pieces): Pieces {
    if b.Nil? then c else Cons(b.p, Append(b.ps, c))
  }

  lemma {:induction false} AppendSnoc(b: Pieces, q: Piece, c: Pieces)
    ensures Append(Snoc(b, q), c) == Append(b, Cons(q, c))
  {
    if b.Cons? {
      AppendSnoc(b.ps, q, c);
    }
  }

  lemma {:induction false} AppendNil(b: Pieces)
    ensures Append(b, Nil) == b
  {
    if b.Cons? {
      AppendNil(b.ps);
    }
  }

  /** A piece emitted after b: where the open end of b is, and what linking it gives. */
  lemma PieceEmitted(p: seq<int>, p0: seq<int>, b: Pieces, q: Piece)
    requires b.Cons? && p == p0 + GenPieces(b) + GenPiece(q)
    ensures var lo := |p0|; var t := lo + TailPieces(b);
            && Path(p, lo + LastStart(b), t) && t + 1 < |p| && p[t] != BACK && p[t + 1] == 0
            && p[t + 1 := LenPieces(b) - TailPieces(b)] == p0 + GenPieces(Snoc(b, q))
  {
    hide GenPieces, LenPieces, TailPieces, GenPiece, LenPiece, TailPiece, Path, LastStart;
    PieceEmittedPath(p, p0, b, q);
    PieceEmittedLink(p0, b, q);
  }

  lemma PieceEmittedPath(p: seq<int>, p0: seq<int>, b: Pieces, q: Piece)
    requires b.Cons? && p == p0 + GenPieces(b) + GenPiece(q)
    ensures var lo := |p0|; var t := lo + TailPieces(b);
            Path(p, lo + LastStart(b), t) && t + 1 < |p| && p[t] != BACK && p[t + 1] == 0
  {
    hide GenPieces, LenPieces, TailPieces, GenPiece, LenPiece, TailPiece, Words, Path, LastStart;
    var last := LastPiece(b);
    MiddleHeld(p0, GenPieces(b), GenPiece(q), |p0|);
    LastPieceHeld(p, b, |p0|);
    OpenPiece(last);
    LastStartFacts(b);
    PiecePath(p, last, |p0| + LastStart(b), 0);
  }

  lemma PieceEmittedLink(p0: seq<int>, b: Pieces, q: Piece)
    requires b.Cons?
    ensures var t := |p0| + TailPieces(b);
            (p0 + GenPieces(b) + GenPiece(q))[t + 1 := LenPieces(b) - TailPieces(b)] == p0 + GenPieces(Snoc(b, q))
  {
    hide GenPieces, LenPieces, TailPieces, GenPiece, LenPiece, TailPiece, Snoc;
    SnocGen(b, q);
    FrontLinked(p0, GenPieces(b), GenPiece(q), TailPieces(b), LenPieces(b) - TailPieces(b));
  }

  lemma LastStartFacts(b: Pieces)
    requires b.Cons?
    ensures LastStart(b) + LenPiece(LastPiece(b)) == LenPieces(b)
    ensures LastStart(b) + TailPiece(LastPiece(b)) == TailPieces(b)
  {
  }

  lemma FrontLinked(p0: seq<int>, code: seq<int>, more: seq<int>, t: nat, d: int)
    requires t + 1 < |code|
    ensures (p0 + code + more)[|p0| + t + 1 := d] == p0 + (Link(code, t, d) + more)
  {
  }

  lemma OpenPiece(q: Piece)
    ensures Link(GenPiece(q), TailPiece(q), 0) == GenPiece(q)
  {
    hide GenAtom, LenAtom, TailAtom;
  }

  // ---- alternations built from the left, ends still open

  function AltsSnoc(alts: Alts, b: Pieces): Alts {
    match alts
    case Last(a) => Or(a, Last(b))
    case Or(a, more) => Or(a, AltsSnoc(more, b))
  }

  /** BRANCH nodes linked to each other; the last BRANCH and every alternative still open. */
  function GenOpen(alts: Alts): (r: seq<int>)
    ensures |r| == LenAlts(alts)
  {
    match alts
    case Last(b) => [BRANCH, 0] + GenBranch(b)
    case Or(b, more) => [BRANCH, LenBranch(b) + 2] + GenBranch(b) + GenOpen(more)
  }

  /** Start of the last BRANCH. */
  function LastBranch(alts: Alts): (t: nat)
    ensures t + 1 < LenAlts(alts)
  {
    if alts.Last? then 0 else 2 + LenBranch(alts.b) + LastBranch(alts.more)
  }

  lemma {:induction false} OpenSnoc(alts: Alts, b: Pieces)
    ensures LenAlts(AltsSnoc(alts, b)) == LenAlts(alts) + 2 + LenBranch(b)
    ensures LastBranch(AltsSnoc(alts, b)) == LenAlts(alts)
    ensures GenOpen(AltsSnoc(alts, b))
         == Link(GenOpen(alts), LastBranch(alts), LenAlts(alts) - LastBranch(alts)) + ([BRANCH, 0] + GenBranch(b))
    decreases alts
  {
    hide GenBranch, LenBranch, GenOpen;
    if alts.Last? {
      OpenSnocLast(alts.b, b);
    } else {
      OpenSnoc(alts.more, b);
      OpenSnocOr(alts.b, alts.more, AltsSnoc(alts.more, b), [BRANCH, 0] + GenBranch(b));
    }
  }

  lemma OpenSnocLast(a: Pieces, b: Pieces)
    ensures LenAlts(Or(a, Last(b))) == LenAlts(Last(a)) + 2 + LenBranch(b)
    ensures LastBranch(Or(a, Last(b))) == LenAlts(Last(a))
    ensures GenOpen(Or(a, Last(b))) == Link(GenOpen(Last(a)), 0, LenAlts(Last(a))) + ([BRANCH, 0] + GenBranch(b))
  {
    hide GenBranch, LenBranch, GenOpen, LenAlts, LastBranch, Link;
    LastBranchForward(Or(a, Last(b)));
    LastBranchForward(Last(a));
    LastBranchForward(Last(b));
    OpenParts(Or(a, Last(b)));
    OpenParts(Last(a));
    OpenParts(Last(b));
    HeadLinked(GenBranch(a), LenBranch(a) + 2);
  }

  lemma HeadLinked(code: seq<int>, d: int)
    ensures Link([BRANCH, 0] + code, 0, d) == [BRANCH, d] + code
  {
  }

  lemma OpenSnocOr(a: Pieces, more: Alts, more': Alts, last: seq<int>)
    requires GenOpen(more') == Link(GenOpen(more), LastBranch(more), LenAlts(more) - LastBranch(more)) + last
    ensures GenOpen(Or(a, more'))
         == Link(GenOpen(Or(a, more)), LastBranch(Or(a, more)), LenAlts(Or(a, more)) - LastBranch(Or(a, more))) + last
  {
    hide GenBranch, LenBranch, GenOpen, LenAlts, LastBranch, Link;
    OpenOr(a, more);
    OpenOr(a, more');
    LastInside(more);
    var t := LastBranch(Or(a, more));
    OpenJoined(GenOpen(Or(a, more)), GenOpen(Or(a, more')), [BRANCH, LenBranch(a) + 2] + GenBranch(a), GenOpen(more),
               LastBranch(more), LenAlts(Or(a, more)) - t, t, last);
  }

  lemma OpenJoined(code: seq<int>, code': seq<int>, head: seq<int>, mid: seq<int>, t: nat, d: int, t': nat,
                   last: seq<int>)
    requires t + 1 < |mid| && t' == |head| + t
    requires code == head + mid && code' == head + (Link(mid, t, d) + last)
    ensures code' == Link(code, t', d) + last
  {
    hide Link;
    JoinOpen(head, mid, t, d, last);
  }

  lemma OpenOr(a: Pieces, more: Alts)
    ensures GenOpen(Or(a, more)) == [BRANCH, LenBranch(a) + 2] + GenBranch(a) + GenOpen(more)
    ensures LenAlts(Or(a, more)) == 2 + LenBranch(a) + LenAlts(more)
    ensures LastBranch(Or(a, more)) == 2 + LenBranch(a) + LastBranch(more)
  {
    hide GenBranch, LenBranch;
  }

  lemma JoinOpen(head: seq<int>, mid: seq<int>, t: nat, d: int, last: seq<int>)
    requires t + 1 < |mid|
    ensures head + (Link(mid, t, d) + last) == Link(head + mid, |head| + t, d) + last
  {
    LinkRight(head, mid, t, d);
    SnocAssoc(head, Link(mid, t, d), last);
  }

  lemma {:induction false} OpenPath(p: seq<int>, alts: Alts, lo: nat)
    requires Words(p, lo, GenOpen(alts))
    ensures Path(p, lo, lo + LastBranch(alts))
    ensures var t := lo + LastBranch(alts); t + 1 < |p| && p[t] == BRANCH && p[t + 1] == 0
    decreases alts
  {
    hide GenBranch, LenBranch, Words, GenOpen, LenAlts;
    OpenWords(p, alts, lo);
    if alts.Or? {
      var m := lo + 2 + LenBranch(alts.b);
      OpenPath(p, alts.more, m);
      PathStep(p, lo, m);
      PathJoin(p, lo, m, lo + LastBranch(alts));
    }
  }

  lemma OpenParts(alts: Alts)
    ensures alts.Last? ==> GenOpen(alts) == [BRANCH, 0] + GenBranch(alts.b)
    ensures alts.Or? ==> GenOpen(alts) == [BRANCH, LenBranch(alts.b) + 2] + GenBranch(alts.b) + GenOpen(alts.more)
  {
    hide GenBranch, LenBranch, LenAlts;
  }

  lemma OpenWords(p: seq<int>, alts: Alts, lo: nat)
    requires Words(p, lo, GenOpen(alts))
    ensures lo + 1 < |p| && p[lo] == BRANCH
    ensures p[lo + 1] == if alts.Last? then 0 else 2 + LenBranch(alts.b)
    ensures alts.Or? ==> Words(p, lo + 2 + LenBranch(alts.b), GenOpen(alts.more))
    ensures Words(p, lo + 2, GenBranch(alts.b))
  {
    hide GenBranch, LenBranch, GenOpen, LenAlts, Words;
    OpenParts(alts);
    if alts.Last? {
      OpenLast(p, GenBranch(alts.b), lo);
    } else {
      NodeWords(p, lo, BRANCH, LenBranch(alts.b) + 2, GenBranch(alts.b), GenOpen(alts.more));
    }
  }

  lemma OpenLast(p: seq<int>, code: seq<int>, lo: nat)
    requires Words(p, lo, [BRANCH, 0] + code)
    ensures lo + 1 < |p| && p[lo] == BRANCH && p[lo + 1] == 0
    ensures Words(p, lo + 2, code)
  {
    WordsSplit(p, lo, [BRANCH, 0], code);
  }

  // ---- alternations while their ends are being linked

  function Count(alts: Alts): (n: nat)
    ensures n >= 1
  {
    if alts.Last? then 1 else 1 + Count(alts.more)
  }

  function Nth(alts: Alts, j: nat): Pieces
    requires j < Count(alts)
  {
    if j == 0 then alts.b else Nth(alts.more, j - 1)
  }

  /** Start of the j-th BRANCH; of the word after the block for j == Count. */
  function BranchStart(alts: Alts, j: nat): (t: nat)
    requires j <= Count(alts)
    decreases alts
  {
    if j == 0 then 0
    else if alts.Last? then LenAlts(alts)
    else 2 + LenBranch(alts.b) + BranchStart(alts.more, j - 1)
  }

  lemma {:induction false} BranchStarts(alts: Alts, j: nat)
    requires j < Count(alts)
    ensures BranchStart(alts, j + 1) == BranchStart(alts, j) + 2 + LenBranch(Nth(alts, j)) <= LenAlts(alts)
    ensures BranchStart(alts, Count(alts)) == LenAlts(alts)
    decreases alts
  {
    hide LenBranch;
    if alts.Or? {
      BranchStarts(alts.more, if j == 0 then 0 else j - 1);
      assert BranchStart(alts.more, 0) == 0;
    }
  }

  /** BRANCH nodes all linked; the first k alternatives lead to e, the others are still open. */
  ghost predicate PartHeld(p: seq<int>, alts: Alts, lo: nat, e: nat, k: nat)
    decreases alts
  {
    var n := LenBranch(alts.b);
    var t := TailBranch(alts.b);
    && lo + 1 < |p| && p[lo] == BRANCH && p[lo + 1] == n + 2
    && Words(p, lo + 2, Link(GenBranch(alts.b), t, if k > 0 then e - lo - 2 - t else 0))
    && (alts.Or? ==> PartHeld(p, alts.more, lo + 2 + n, e, if k > 0 then k - 1 else 0))
  }

  /** Changing one word leaves words elsewhere. */
  lemma WordsElsewhere(p: seq<int>, i: nat, v: int, lo: nat, ws: seq<int>)
    requires i < |p| && Words(p, lo, ws) && (i < lo || lo + |ws| <= i)
    ensures Words(p[i := v], lo, ws)
  {
  }

  lemma WordsLinked(p: seq<int>, lo: nat, code: seq<int>, t: nat, d: int, d': int)
    requires t + 1 < |code| && Words(p, lo, Link(code, t, d))
    ensures Words(p[lo + t + 1 := d'], lo, Link(code, t, d'))
  {
  }

  lemma OpenIsLink(b: Pieces)
    ensures Link(GenBranch(b), TailBranch(b), 0) == GenBranch(b)
  {
    hide GenPieces, LenPieces, TailPieces;
  }

  /** Linking the last BRANCH of an open alternation past its end. */
  lemma {:induction false} OpenClosed(p: seq<int>, alts: Alts, lo: nat, e: nat)
    requires Words(p, lo, GenOpen(alts)) && e == lo + LenAlts(alts)
    ensures var t := lo + LastBranch(alts);
            t + 1 < |p| && PartHeld(p[t + 1 := e - t], alts, lo, e, 0)
    decreases alts
  {
    hide GenBranch, LenBranch, TailBranch, GenOpen, Words;
    OpenWords(p, alts, lo);
    OpenPath(p, alts, lo);
    OpenIsLink(alts.b);
    LastBranchForward(alts);
    var t := lo + LastBranch(alts);
    WordsElsewhere(p, t + 1, e - t, lo + 2, GenBranch(alts.b));
    if alts.Or? {
      OpenClosed(p, alts.more, lo + 2 + LenBranch(alts.b), e);
    }
  }

  lemma LastBranchForward(alts: Alts)
    ensures alts.Or? ==> LastBranch(alts) >= 2 + LenBranch(alts.b)
    ensures alts.Or? ==> LastBranch(alts) == 2 + LenBranch(alts.b) + LastBranch(alts.more)
    ensures alts.Last? ==> LastBranch(alts) == 0 && LenAlts(alts) == 2 + LenBranch(alts.b)
    ensures alts.Or? ==> LenAlts(alts) == 2 + LenBranch(alts.b) + LenAlts(alts.more)
  {
    hide LenBranch;
  }

  lemma NthStep(alts: Alts, k: nat)
    requires k < Count(alts)
    ensures k == 0 ==> BranchStart(alts, k) == 0 && Nth(alts, k) == alts.b
                       && BranchStart(alts, 1) == 2 + LenBranch(alts.b)
    ensures k > 0 ==> alts.Or? && k - 1 < Count(alts.more) && Nth(alts, k) == Nth(alts.more, k - 1)
                      && BranchStart(alts, k) == 2 + LenBranch(alts.b) + BranchStart(alts.more, k - 1)
                      && BranchStart(alts, k + 1) == 2 + LenBranch(alts.b) + BranchStart(alts.more, k)
  {
    hide LenBranch;
    if k == 0 {
      assert alts.Or? ==> BranchStart(alts.more, 0) == 0;
    }
  }

  lemma PartStepFirst(p: seq<int>, alts: Alts, lo: nat, e: nat)
    requires PartHeld(p, alts, lo, e, 0) && lo + LenAlts(alts) <= e
    ensures var t := lo + 2 + TailBranch(alts.b);
            t + 1 < |p| && t < e && PartHeld(p[t + 1 := e - t], alts, lo, e, 1)
  {
    hide GenBranch, LenBranch, TailBranch, Words, LenAlts;
    LastBranchForward(alts);
    var n := LenBranch(alts.b);
    var t0 := TailBranch(alts.b);
    TailInside(alts.b);
    WordsRoom(p, lo + 2, GenBranch(alts.b), t0, 0);
    WordsLinked(p, lo + 2, GenBranch(alts.b), t0, 0, e - lo - 2 - t0);
    if alts.Or? {
      PartElsewhere(p, alts.more, lo + 2 + n, e, 0, lo + 2 + t0 + 1, e - lo - 2 - t0);
    }
  }

  /** Linking one more alternative to the end. */
  lemma {:induction false} PartStep(p: seq<int>, alts: Alts, lo: nat, e: nat, k: nat)
    requires PartHeld(p, alts, lo, e, k) && k < Count(alts) && lo + LenAlts(alts) <= e
    ensures var t := lo + BranchStart(alts, k) + 2 + TailBranch(Nth(alts, k));
            t + 1 < |p| && t < e && PartHeld(p[t + 1 := e - t], alts, lo, e, k + 1)
    decreases alts
  {
    hide GenBranch, LenBranch, TailBranch, Words, Nth, BranchStart, LenAlts, Count, PartHeld;
    LastBranchForward(alts);
    NthStep(alts, k);
    TailInside(alts.b);
    if k == 0 {
      PartStepFirst(p, alts, lo, e);
    } else {
      var m := lo + 2 + LenBranch(alts.b);
      PartTail(p, alts, lo, e, k);
      PartStep(p, alts.more, m, e, k - 1);
      var t := m + BranchStart(alts.more, k - 1) + 2 + TailBranch(Nth(alts.more, k - 1));
      PartCons(p, alts, lo, e, k, t + 1, e - t);
    }
  }

  lemma PartTail(p: seq<int>, alts: Alts, lo: nat, e: nat, k: nat)
    requires PartHeld(p, alts, lo, e, k) && k > 0 && alts.Or?
    ensures PartHeld(p, alts.more, lo + 2 + LenBranch(alts.b), e, k - 1)
  {
    hide GenBranch, LenBranch, TailBranch, Words;
  }

  lemma PartCons(p: seq<int>, alts: Alts, lo: nat, e: nat, k: nat, i: nat, v: int)
    requires PartHeld(p, alts, lo, e, k) && k > 0 && alts.Or?
    requires lo + 2 + LenBranch(alts.b) <= i < |p|
    requires PartHeld(p[i := v], alts.more, lo + 2 + LenBranch(alts.b), e, k)
    ensures PartHeld(p[i := v], alts, lo, e, k + 1)
  {
    hide GenBranch, LenBranch, TailBranch, Words;
    TailInside(alts.b);
    var t := TailBranch(alts.b);
    WordsElsewhere(p, i, v, lo + 2, Link(GenBranch(alts.b), t, e - lo - 2 - t));
  }

  lemma TailInside(b: Pieces)
    ensures TailBranch(b) + 1 < LenBranch(b) == |GenBranch(b)|
  {
  }

  lemma WordsRoom(p: seq<int>, lo: nat, code: seq<int>, t: nat, d: int)
    requires t + 1 < |code| && Words(p, lo, Link(code, t, d))
    ensures lo + |code| <= |p|
  {
  }

  lemma {:induction false} PartElsewhere(p: seq<int>, alts: Alts, lo: nat, e: nat, k: nat, i: nat, v: int)
    requires PartHeld(p, alts, lo, e, k) && i < lo && i < |p|
    ensures PartHeld(p[i := v], alts, lo, e, k)
    decreases alts
  {
    hide GenBranch, LenBranch, TailBranch, Words;
    TailInside(alts.b);
    var t := TailBranch(alts.b);
    WordsElsewhere(p, i, v, lo + 2, Link(GenBranch(alts.b), t, if k > 0 then e - lo - 2 - t else 0));
    if alts.Or? {
      PartElsewhere(p, alts.more, lo + 2 + LenBranch(alts.b), e, if k > 0 then k - 1 else 0, i, v);
    }
  }

  /** The k-th BRANCH while linking: where it is, where it leads, and that its end is open. */
  lemma {:induction false} PartAt(p: seq<int>, alts: Alts, lo: nat, e: nat, k: nat)
    requires PartHeld(p, alts, lo, e, k) && k < Count(alts)
    ensures var s := lo + BranchStart(alts, k);
            && s + 1 < |p| && p[s] == BRANCH && s + p[s + 1] == lo + BranchStart(alts, k + 1)
            && Words(p, s + 2, Link(GenBranch(Nth(alts, k)), TailBranch(Nth(alts, k)), 0))
    decreases alts
  {
    hide GenBranch, LenBranch, TailBranch, Words, Nth, BranchStart, LenAlts, Count;
    NthStep(alts, k);
    if k > 0 {
      PartAt(p, alts.more, lo + 2 + LenBranch(alts.b), e, k - 1);
    }
  }

  lemma {:induction false} PartDone(p: seq<int>, alts: Alts, lo: nat, e: nat)
    requires PartHeld(p, alts, lo, e, Count(alts)) && e == lo + LenAlts(alts)
    ensures Words(p, lo, GenAlts(alts))
    decreases alts
  {
    hide GenBranch, LenBranch, TailBranch, Words, GenAlts;
    LastBranchForward(alts);
    if alts.Or? {
      PartDone(p, alts.more, lo + 2 + LenBranch(alts.b), e);
    }
    AltsWordsBack(p, alts, lo);
  }

  lemma AltsWordsBack(p: seq<int>, alts: Alts, lo: nat)
    requires var n := LenBranch(alts.b); var t := TailBranch(alts.b);
             && lo + 1 < |p| && p[lo] == BRANCH && p[lo + 1] == n + 2
             && Words(p, lo + 2, Link(GenBranch(alts.b), t, LenAlts(alts) - 2 - t))
             && (alts.Or? ==> Words(p, lo + 2 + n, GenAlts(alts.more)))
    ensures Words(p, lo, GenAlts(alts))
  {
    hide GenBranch, LenBranch, TailBranch, Words, GenAlts, LenAlts;
    TailInside(alts.b);
    var n := LenBranch(alts.b);
    var t := TailBranch(alts.b);
    var code := Link(GenBranch(alts.b), t, LenAlts(alts) - 2 - t);
    AltsParts(alts);
    NodeJoin(p, lo, BRANCH, n + 2, code);
    var head := [BRANCH, n + 2] + code;
    if alts.Or? {
      WordsJoin(p, lo, head, GenAlts(alts.more));
    } else {
      assert head + [] == head;
    }
  }

  lemma NodeJoin(p: seq<int>, lo: nat, op: int, d: int, body: seq<int>)
    requires lo + 1 < |p| && p[lo] == op && p[lo + 1] == d && Words(p, lo + 2, body)
    ensures Words(p, lo, [op, d] + body)
  {
    assert Words(p, lo, [op, d]);
    WordsJoin(p, lo, [op, d], body);
  }

  lemma WordsJoin(p: seq<int>, lo: nat, a: seq<int>, b: seq<int>)
    requires Words(p, lo, a) && Words(p, lo + |a|, b)
    ensures Words(p, lo, a + b)
  {
  }

  // ---- a repeat header put in front of an emitted atom

  lemma SimpleRepeatEmitted(p0: seq<int>, a: Atom, min: int, max: int, lazy: bool)
    requires SimpleAtom(a)
    ensures p0 + [RepeatOp(a, lazy), 0, max, min, 0] + GenAtom(a) == p0 + GenPiece(Repeat(a, min, max, lazy))
  {
    var head := [RepeatOp(a, lazy), 0, max, min, 0];
    assert GenPiece(Repeat(a, min, max, lazy)) == head + GenAtom(a);
    hide GenPiece, GenAtom;
    SnocAssoc(p0, head, GenAtom(a));
  }

  /** p holds p0, the header, the atom with its end open, and a BACK node linked to the header. */
  lemma LoopEmitted(p: seq<int>, p0: seq<int>, a: Atom, min: int, max: int, lazy: bool)
    requires !SimpleAtom(a)
    requires p == p0 + [RepeatOp(a, lazy), 0, max, min, 0] + GenAtom(a) + [BACK, LenAtom(a) + 5]
    ensures var lo := |p0| + 5; var t := lo + TailAtom(a);
            && Path(p, lo, t) && t + 1 < |p| && p[t] != BACK && p[t + 1] == 0
            && p[t + 1 := LenAtom(a) - TailAtom(a)] == p0 + GenPiece(Repeat(a, min, max, lazy))
  {
    hide GenAtom, LenAtom, TailAtom, GenPiece, Words, SimpleAtom;
    var n := LenAtom(a);
    var head := [RepeatOp(a, lazy), 0, max, min, 0];
    var code := GenAtom(a);
    var back := [BACK, n + 5];
    LoopGen(a, min, max, lazy);
    OpenAtom(a);
    MiddleHeld(p0 + head, code, back, |p0| + 5);
    AtomPath(p, a, |p0| + 5, 0);
    MiddleLinked(p0, head, code, back, TailAtom(a), n - TailAtom(a));
  }

  lemma LoopGen(a: Atom, min: int, max: int, lazy: bool)
    requires !SimpleAtom(a)
    ensures GenPiece(Repeat(a, min, max, lazy))
         == [RepeatOp(a, lazy), 0, max, min, 0] + Link(GenAtom(a), TailAtom(a), LenAtom(a) - TailAtom(a))
            + [BACK, LenAtom(a) + 5]
  {
    hide GenAtom, LenAtom, TailAtom;
  }

  lemma OpenAtom(a: Atom)
    ensures Link(GenAtom(a), TailAtom(a), 0) == GenAtom(a)
  {
  }

  lemma MiddleHeld(a: seq<int>, b: seq<int>, c: seq<int>, lo: nat)
    requires lo == |a|
    ensures Words(a + b + c, lo, b)
  {
  }

  lemma MiddleLinked(p0: seq<int>, head: seq<int>, code: seq<int>, back: seq<int>, t: nat, d: int)
    requires t + 1 < |code|
    ensures (p0 + head + code + back)[|p0| + |head| + t + 1 := d] == p0 + (head + Link(code, t, d) + back)
  {
  }

  function AltsJoin(a: Alts, r: Alts): Alts {
    match a
    case Last(b) => Or(b, r)
    case Or(b, more) => Or(b, AltsJoin(more, r))
  }

  lemma {:induction false} JoinSnoc(a: Alts, b: Pieces, more: Alts)
    ensures AltsJoin(a, Last(b)) == AltsSnoc(a, b)
    ensures AltsJoin(a, Or(b, more)) == AltsJoin(AltsSnoc(a, b), more)
  {
    if a.Or? {
      JoinSnoc(a.more, b, more);
    }
  }

  /** An alternative emitted after alts: the chain to its last BRANCH and what linking gives. */
  lemma BranchEmitted(p: seq<int>, p0: seq<int>, alts: Alts, b: Pieces)
    requires p == p0 + GenOpen(alts) + ([BRANCH, 0] + GenBranch(b))
    ensures var lo := |p0|; var t := lo + LastBranch(alts);
            && Path(p, lo, t) && t + 1 < |p| && p[t] == BRANCH && p[t + 1] == 0
            && p[t + 1 := LenAlts(alts) - LastBranch(alts)] == p0 + GenOpen(AltsSnoc(alts, b))
  {
    hide GenOpen, GenBranch, LastBranch, LenAlts, Path, Words, AltsSnoc;
    BranchEmittedPath(p, p0, alts, [BRANCH, 0] + GenBranch(b));
    BranchEmittedLink(p, p0, alts, b);
  }

  lemma BranchEmittedPath(p: seq<int>, p0: seq<int>, alts: Alts, more: seq<int>)
    requires p == p0 + GenOpen(alts) + more
    ensures var lo := |p0|; var t := lo + LastBranch(alts);
            Path(p, lo, t) && t + 1 < |p| && p[t] == BRANCH && p[t + 1] == 0
  {
    hide GenOpen, LastBranch, LenAlts, Path, Words;
    MiddleHeld(p0, GenOpen(alts), more, |p0|);
    OpenPath(p, alts, |p0|);
  }

  lemma BranchEmittedLink(p: seq<int>, p0: seq<int>, alts: Alts, b: Pieces)
    requires p == p0 + GenOpen(alts) + ([BRANCH, 0] + GenBranch(b))
    ensures var t := |p0| + LastBranch(alts); t + 1 < |p|
    ensures var t := |p0| + LastBranch(alts);
            p[t + 1 := LenAlts(alts) - LastBranch(alts)] == p0 + GenOpen(AltsSnoc(alts, b))
  {
    hide GenOpen, GenBranch, LastBranch, LenAlts, AltsSnoc, Link;
    OpenSnoc(alts, b);
    LastInside(alts);
    EmittedLink(p, p0, GenOpen(alts), [BRANCH, 0] + GenBranch(b), LastBranch(alts), LenAlts(alts) - LastBranch(alts));
  }

  lemma EmittedLink(p: seq<int>, p0: seq<int>, code: seq<int>, more: seq<int>, t: nat, d: int)
    requires t + 1 < |code| && p == p0 + code + more
    ensures p[|p0| + t + 1 := d] == p0 + (Link(code, t, d) + more)
  {
  }

  /** p is p0, then whatever stands before e, then one closing node with an open link. */
  ghost predicate Framed(p: seq<int>, p0: seq<int>, e: nat, op: int) {
    |p0| <= e && |p| == e + 2 && p[..|p0|] == p0 && p[e] == op && p[e + 1] == 0
  }

  /** The closing node was emitted: the chain to the last BRANCH and what linking gives. */
  lemma EnderEmitted(p: seq<int>, p0: seq<int>, alts: Alts, op: int)
    requires p == p0 + GenOpen(alts) + [op, 0]
    ensures var lo := |p0|; var e := lo + LenAlts(alts); var t := lo + LastBranch(alts);
            && Path(p, lo, t) && t + 1 < |p| && p[t] == BRANCH && p[t + 1] == 0
            && Framed(p[t + 1 := e - t], p0, e, op) && PartHeld(p[t + 1 := e - t], alts, lo, e, 0)
  {
    hide GenOpen, LastBranch, LenAlts, Path, Words, PartHeld;
    MiddleHeld(p0, GenOpen(alts), [op, 0], |p0|);
    OpenPath(p, alts, |p0|);
    OpenClosed(p, alts, |p0|, |p0| + LenAlts(alts));
    LastInside(alts);
  }

  lemma LastInside(alts: Alts)
    ensures LastBranch(alts) + 1 < LenAlts(alts)
  {
  }

  /** Linking the end of the k-th alternative keeps everything else in place. */
  lemma HookStep(p: seq<int>, p0: seq<int>, alts: Alts, e: nat, k: nat, op: int)
    requires Framed(p, p0, e, op) && e == |p0| + LenAlts(alts)
    requires PartHeld(p, alts, |p0|, e, k) && k < Count(alts)
    ensures var s := |p0| + BranchStart(alts, k); var t := s + 2 + TailBranch(Nth(alts, k));
            var next := |p0| + BranchStart(alts, k + 1);
            && s + 1 < |p| && p[s] == BRANCH && s + p[s + 1] == next && s < next <= e && t < next
            && Path(p, s + 2, t) && t + 1 < |p| && p[t] != BACK && p[t + 1] == 0
            && Framed(p[t + 1 := e - t], p0, e, op) && PartHeld(p[t + 1 := e - t], alts, |p0|, e, k + 1)
            && p[t + 1 := e - t][s] == BRANCH && p[t + 1 := e - t][s + 1] == p[s + 1]
  {
    hide GenBranch, LenBranch, TailBranch, LenAlts, Path, Words, PartHeld, BranchStart, Nth, Count;
    PartAt(p, alts, |p0|, e, k);
    PartStep(p, alts, |p0|, e, k);
    BranchStarts(alts, k);
    TailInside(Nth(alts, k));
    var s := |p0| + BranchStart(alts, k);
    BranchPath(p, Nth(alts, k), s + 2, 0);
  }

  /** All ends linked: the program is p0, the emitted alternation, the closing node. */
  lemma HookDone(p: seq<int>, p0: seq<int>, alts: Alts, e: nat, op: int)
    requires Framed(p, p0, e, op) && e == |p0| + LenAlts(alts)
    requires PartHeld(p, alts, |p0|, e, Count(alts))
    ensures p == p0 + GenAlts(alts) + [op, 0]
  {
    hide GenAlts, LenAlts, PartHeld, Count;
    PartDone(p, alts, |p0|, e);
    Rebuild(p, p0, GenAlts(alts), [op, 0]);
  }

  lemma Rebuild(p: seq<int>, a: seq<int>, b: seq<int>, c: seq<int>)
    requires |p| == |a| + |b| + |c| && p[..|a|] == a && Words(p, |a|, b)
    requires forall i | 0 <= i < |c| :: p[|a| + |b| + i] == c[i]
    ensures p == a + b + c
  {
    forall i | 0 <= i < |p|
      ensures p[i] == (a + b + c)[i]
    {
      if i < |a| {
        assert p[i] == p[..|a|][i];
      } else if i >= |a| + |b| {
        assert p[|a| + |b| + (i - |a| - |b|)] == c[i - |a| - |b|];
      }
    }
  }

  /** BranchStart at the ends. */
  lemma BranchStartEnds(alts: Alts)
    ensures BranchStart(alts, 0) == 0 && BranchStart(alts, Count(alts)) == LenAlts(alts) && Count(alts) >= 1
  {
    BranchStarts(alts, 0);
  }
}
