// Compiled form: the words each construct emits (links are relative, so a block means the same
// wherever it is moved), and what it means for a program to hold a construct at an address.
module RegexCode {
  import opened RegexSyntax

  // ---- emitted words

  /** Code with the open link of the node at t set to d. */
  function Link(code: seq<int>, t: nat, d: int): (r: seq<int>)
    requires t + 1 < |code|
    ensures |r| == |code|
  {
    code[t + 1 := d]
  }

  function LenAtom(a: Atom): (n: nat)
    ensures n >= 2
    decreases a
  {
    match a
    case Lit(cs) => |cs| + 3
    case Dot => 2
    case Class(_, ws) => |ws| + 3
    case Zero(_) => 2
    case Group(_, alts) => LenAlts(alts) + 4
  }

  function LenPiece(p: Piece): (n: nat)
    ensures n >= 2
    decreases p
  {
    match p
    case Once(a) => LenAtom(a)
    case Repeat(a, _, _, _) => if SimpleAtom(a) then LenAtom(a) + 5 else LenAtom(a) + 7
  }

  function LenPieces(b: Pieces): nat
    decreases b, 0
  {
    if b.Nil? then 0 else LenPiece(b.p) + LenPieces(b.ps)
  }

  function LenBranch(b: Pieces): (n: nat)
    ensures n >= 2
    decreases b, 1
  {
    if b.Nil? then 2 else LenPieces(b)
  }

  function LenAlts(alts: Alts): (n: nat)
    ensures n >= 4
    decreases alts
  {
    2 + LenBranch(alts.b) + if alts.Or? then LenAlts(alts.more) else 0
  }

  /** The node, relative to the start, whose next link is still open. */
  function TailAtom(a: Atom): (t: nat)
    ensures t + 1 < LenAtom(a)
  {
    if a.Group? then LenAtom(a) - 2 else 0
  }

  function TailPiece(p: Piece): (t: nat)
    ensures t + 1 < LenPiece(p)
  {
    if p.Once? then TailAtom(p.a) else 0
  }

  function TailPieces(b: Pieces): (t: nat)
    requires b.Cons?
    ensures t + 1 < LenPieces(b)
    decreases b
  {
    if b.ps.Nil? then TailPiece(b.p) else LenPiece(b.p) + TailPieces(b.ps)
  }

  function TailBranch(b: Pieces): (t: nat)
    ensures t + 1 < LenBranch(b)
  {
    if b.Nil? then 0 else TailPieces(b)
  }

  function RepeatOp(a: Atom, lazy: bool): int {
    if SimpleAtom(a) then (if lazy then REPMIN else REP)
    else (if lazy then REPXMIN else REPX)
  }

  function GenAtom(a: Atom): (r: seq<int>)
    ensures |r| == LenAtom(a) && r[TailAtom(a) + 1] == 0
    decreases a
  {
    match a
    case Lit(cs) => [EXACTLY, 0] + cs + [0]
    case Dot => [ANY, 0]
    case Class(neg, ws) => [if neg then ANYBUT else ANYOF, 0] + ws + [0]
    case Zero(op) => [op as int, 0]
    case Group(no, alts) => [OPEN + no, 2] + GenAlts(alts) + [CLOSE + no, 0]
  }

  function GenPiece(p: Piece): (r: seq<int>)
    ensures |r| == LenPiece(p) && r[TailPiece(p) + 1] == 0
    decreases p
  {
    match p
    case Once(a) => GenAtom(a)
    case Repeat(a, min, max, lazy) =>
      var head := [RepeatOp(a, lazy), 0, max, min, 0];
      var n := LenAtom(a);
      if SimpleAtom(a) then head + GenAtom(a)
      else head + Link(GenAtom(a), TailAtom(a), n - TailAtom(a)) + [BACK, n + 5]
  }

  function GenPieces(b: Pieces): (r: seq<int>)
    requires b.Cons?
    ensures |r| == LenPieces(b) && r[TailPieces(b) + 1] == 0
    decreases b, 0
  {
    var c := GenPiece(b.p);
    if b.ps.Nil? then c
    else Link(c, TailPiece(b.p), LenPiece(b.p) - TailPiece(b.p)) + GenPieces(b.ps)
  }

  function GenBranch(b: Pieces): (r: seq<int>)
    ensures |r| == LenBranch(b) && r[TailBranch(b) + 1] == 0
    decreases b, 1
  {
    if b.Nil? then [NOTHING, 0] else GenPieces(b)
  }

  /** All alternatives, their ends linked to the word after the block. */
  function GenAlts(alts: Alts): (r: seq<int>)
    ensures |r| == LenAlts(alts)
    decreases alts
  {
    var n := LenBranch(alts.b);
    var rest := if alts.Or? then GenAlts(alts.more) else [];
    [BRANCH, n + 2] + Link(GenBranch(alts.b), TailBranch(alts.b), n - TailBranch(alts.b) + |rest|) + rest
  }

  /** The whole program: the magic word is at 0, the first BRANCH at 1. */
  function GenProgram(magic: int, alts: Alts): seq<int> {
    [magic] + GenAlts(alts) + [END, 0]
  }

  // ---- counter words: the fifth word of every complex repeat in a block placed at lo

  ghost function CtrsAtom(a: Atom, lo: nat): (r: set<nat>)
    ensures forall i | i in r :: lo <= i < lo + LenAtom(a)
    decreases a
  {
    if a.Group? then CtrsAlts(a.alts, lo + 2) else {}
  }

  ghost function CtrsPiece(p: Piece, lo: nat): (r: set<nat>)
    ensures forall i | i in r :: lo <= i < lo + LenPiece(p)
    decreases p
  {
    match p
    case Once(a) => CtrsAtom(a, lo)
    case Repeat(a, _, _, _) => if SimpleAtom(a) then {} else {lo + 4} + CtrsAtom(a, lo + 5)
  }

  ghost function CtrsPieces(b: Pieces, lo: nat): (r: set<nat>)
    ensures forall i | i in r :: lo <= i < lo + LenPieces(b)
    decreases b
  {
    if b.Nil? then {} else CtrsPiece(b.p, lo) + CtrsPieces(b.ps, lo + LenPiece(b.p))
  }

  ghost function CtrsAlts(alts: Alts, lo: nat): (r: set<nat>)
    ensures forall i | i in r :: lo <= i < lo + LenAlts(alts)
    decreases alts
  {
    CtrsPieces(alts.b, lo + 2)
    + if alts.Or? then CtrsAlts(alts.more, lo + 2 + LenBranch(alts.b)) else {}
  }

  // ---- what a program holds; nx is where a block leads, cs the set of its counter words

  /** The words ws stand in p from lo on. */
  ghost predicate Words(p: seq<int>, lo: nat, ws: seq<int>) {
    && lo + |ws| <= |p|
    && forall i | lo <= i < lo + |ws| :: p[i] == ws[i - lo]
  }

  /** A node with a forward link to nx. */
  ghost predicate Node(p: seq<int>, lo: nat, op: int, nx: nat) {
    lo < nx && lo + 1 < |p| && p[lo] == op && p[lo + 1] == nx - lo
  }

  ghost predicate CodeAtom(p: seq<int>, cs: set<nat>, a: Atom, lo: nat, nx: nat)
    decreases a, 0
  {
    match a
    case Lit(ws) => Node(p, lo, EXACTLY, nx) && Words(p, lo + 2, ws + [0])
    case Dot => Node(p, lo, ANY, nx)
    case Class(neg, ws) => Node(p, lo, if neg then ANYBUT else ANYOF, nx) && Words(p, lo + 2, ws + [0])
    case Zero(op) => Node(p, lo, op, nx)
    case Group(no, alts) =>
      var e := lo + 2 + LenAlts(alts);
      && Node(p, lo, OPEN + no, lo + 2)
      && CodeAlts(p, cs, alts, lo + 2, e)
      && Node(p, e, CLOSE + no, nx)
  }

  /** The operand of a simple repeat: a one-character node whose link is not used. */
  ghost predicate Operand(p: seq<int>, a: Atom, lo: nat) {
    match a
    case Lit(ws) => Words(p, lo, [EXACTLY, 0] + ws + [0])
    case Dot => Words(p, lo, [ANY, 0])
    case Class(neg, ws) => Words(p, lo, [if neg then ANYBUT else ANYOF, 0] + ws + [0])
    case _ => false
  }

  /** A complex repeat at r with count c: header, body, and the BACK node that closes the loop. */
  ghost predicate CodeLoop(p: seq<int>, cs: set<nat>, a: Atom, min: int, max: int, lazy: bool,
                           r: nat, c: int, nx: nat)
    decreases a, 1
  {
    var b := r + 5 + LenAtom(a);
    && b + 2 <= nx
    && Node(p, r, RepeatOp(a, lazy), nx)
    && Words(p, r + 2, [max, min, c]) && r + 4 in cs
    && CodeAtom(p, cs, a, r + 5, b)
    && Words(p, b, [BACK, b - r])
  }

  ghost predicate CodePiece(p: seq<int>, cs: set<nat>, piece: Piece, lo: nat, nx: nat)
    decreases piece
  {
    match piece
    case Once(a) => CodeAtom(p, cs, a, lo, nx)
    case Repeat(a, min, max, lazy) =>
      if SimpleAtom(a) then
        && Node(p, lo, RepeatOp(a, lazy), nx)
        && Words(p, lo + 2, [max, min, 0])
        && Operand(p, a, lo + 5)
      else
        CodeLoop(p, cs, a, min, max, lazy, lo, 0, nx)
  }

  ghost predicate CodePieces(p: seq<int>, cs: set<nat>, b: Pieces, lo: nat, nx: nat)
    requires b.Cons?
    decreases b, 0
  {
    if b.ps.Nil? then CodePiece(p, cs, b.p, lo, nx)
    else
      && CodePiece(p, cs, b.p, lo, lo + LenPiece(b.p))
      && CodePieces(p, cs, b.ps, lo + LenPiece(b.p), nx)
  }

  ghost predicate CodeBranch(p: seq<int>, cs: set<nat>, b: Pieces, lo: nat, nx: nat)
    decreases b, 1
  {
    if b.Nil? then Node(p, lo, NOTHING, nx) else CodePieces(p, cs, b, lo, nx)
  }

  /** Every alternative leads to e, and so does the last BRANCH. */
  ghost predicate CodeAlts(p: seq<int>, cs: set<nat>, alts: Alts, lo: nat, e: nat)
    decreases alts
  {
    var m := lo + 2 + LenBranch(alts.b);
    && CodeBranch(p, cs, alts.b, lo + 2, e)
    && match alts
       case Last(_) => Node(p, lo, BRANCH, e)
       case Or(_, more) => Node(p, lo, BRANCH, m) && CodeAlts(p, cs, more, m, e)
  }

  // ---- splitting placed words

  lemma WordsSplit(p: seq<int>, lo: nat, a: seq<int>, b: seq<int>)
    requires Words(p, lo, a + b)
    ensures Words(p, lo, a) && Words(p, lo + |a|, b)
  {
    forall i | lo <= i < lo + |a|
      ensures p[i] == a[i - lo]
    {
      assert (a + b)[i - lo] == a[i - lo];
    }
    forall i | lo + |a| <= i < lo + |a| + |b|
      ensures p[i] == b[i - lo - |a|]
    {
      assert (a + b)[i - lo] == b[i - lo - |a|];
    }
  }

  lemma LinkLeft(a: seq<int>, b: seq<int>, t: nat, d: int)
    requires t + 1 < |a|
    ensures Link(a + b, t, d) == Link(a, t, d) + b
  {
  }

  lemma LinkRight(a: seq<int>, b: seq<int>, t: nat, d: int)
    requires t + 1 < |b|
    ensures Link(a + b, |a| + t, d) == a + Link(b, t, d)
  {
  }

  /** A two-word node, a body and the rest. */
  lemma NodeWords(p: seq<int>, lo: nat, op: int, d: int, body: seq<int>, rest: seq<int>)
    requires Words(p, lo, [op, d] + body + rest)
    ensures lo + 1 < |p| && p[lo] == op && p[lo + 1] == d
    ensures Words(p, lo + 2, body)
    ensures Words(p, lo + 2 + |body|, rest)
  {
    WordsSplit(p, lo, [op, d] + body, rest);
    WordsSplit(p, lo, [op, d], body);
  }

  lemma LoopWords(p: seq<int>, lo: nat, op: int, max: int, min: int, body: seq<int>, back: seq<int>, d: int)
    requires Words(p, lo, Link([op, 0, max, min, 0] + body + back, 0, d))
    ensures lo + 1 < |p| && p[lo] == op && p[lo + 1] == d
    ensures Words(p, lo + 2, [max, min, 0])
    ensures Words(p, lo + 5, body)
    ensures Words(p, lo + 5 + |body|, back)
  {
    var head := [op, 0] + [max, min, 0];
    assert [op, 0, max, min, 0] + body + back == head + (body + back);
    LinkLeft(head, body + back, 0, d);
    assert Link(head, 0, d) == [op, d] + [max, min, 0];
    WordsSplit(p, lo, [op, d] + [max, min, 0], body + back);
    WordsSplit(p, lo, [op, d], [max, min, 0]);
    WordsSplit(p, lo + 5, body, back);
  }

  lemma JoinWords(p: seq<int>, lo: nat, first: seq<int>, rest: seq<int>, t: nat, d: int)
    requires t + 1 < |rest|
    requires Words(p, lo, Link(first + rest, |first| + t, d))
    ensures Words(p, lo, first)
    ensures Words(p, lo + |first|, Link(rest, t, d))
  {
    LinkRight(first, rest, t, d);
    WordsSplit(p, lo, first, Link(rest, t, d));
  }

  /** An emitted alternation: BRANCH, the linked alternative, the other alternatives. */
  lemma AltsParts(alts: Alts)
    ensures var n := LenBranch(alts.b); var t := TailBranch(alts.b);
            var head := [BRANCH, n + 2] + Link(GenBranch(alts.b), t, LenAlts(alts) - 2 - t);
            GenAlts(alts) == head + if alts.Or? then GenAlts(alts.more) else []
  {
    hide GenBranch, LenBranch, TailBranch;
    var n := LenBranch(alts.b);
    var t := TailBranch(alts.b);
    var rest := if alts.Or? then GenAlts(alts.more) else [];
    assert |rest| == LenAlts(alts) - 2 - n;
    assert n - t + |rest| == LenAlts(alts) - 2 - t;
  }

  lemma AltsWords(p: seq<int>, alts: Alts, lo: nat)
    requires Words(p, lo, GenAlts(alts))
    ensures var n := LenBranch(alts.b); var t := TailBranch(alts.b);
            && lo + 1 < |p| && p[lo] == BRANCH && p[lo + 1] == n + 2
            && Words(p, lo + 2, Link(GenBranch(alts.b), t, LenAlts(alts) - 2 - t))
            && (alts.Or? ==> Words(p, lo + 2 + n, GenAlts(alts.more)))
  {
    hide GenBranch, LenBranch, TailBranch, GenAlts, LenAlts, Words;
    AltsParts(alts);
    var t := TailBranch(alts.b);
    NodeWords(p, lo, BRANCH, LenBranch(alts.b) + 2, Link(GenBranch(alts.b), t, LenAlts(alts) - 2 - t),
              if alts.Or? then GenAlts(alts.more) else []);
  }

  // ---- emitted words hold what they were emitted for

  lemma {:induction false} AtomHeld(p: seq<int>, cs: set<nat>, a: Atom, lo: nat, nx: nat)
    requires nx >= lo + LenAtom(a)
    requires Words(p, lo, Link(GenAtom(a), TailAtom(a), nx - lo - TailAtom(a)))
    requires CtrsAtom(a, lo) <= cs
    ensures CodeAtom(p, cs, a, lo, nx)
    decreases a, 0
  {
    hide GenAlts, LenAlts, CodeAtom, CtrsAlts;
    if a.Group? {
      GroupHeld(p, cs, a.no, a.alts, lo, nx);
    } else {
      LeafHeld(p, cs, a, lo, nx);
    }
  }

  lemma LeafHeld(p: seq<int>, cs: set<nat>, a: Atom, lo: nat, nx: nat)
    requires !a.Group?
    requires nx >= lo + LenAtom(a)
    requires Words(p, lo, Link(GenAtom(a), 0, nx - lo))
    ensures CodeAtom(p, cs, a, lo, nx)
  {
    match a
    case Lit(ws) => OperandHeld(p, EXACTLY, ws, lo, nx);
    case Class(neg, ws) => OperandHeld(p, if neg then ANYBUT else ANYOF, ws, lo, nx);
    case _ =>
  }

  lemma OperandHeld(p: seq<int>, op: int, ws: seq<int>, lo: nat, nx: nat)
    requires nx > lo
    requires Words(p, lo, Link([op, 0] + ws + [0], 0, nx - lo))
    ensures Node(p, lo, op, nx) && Words(p, lo + 2, ws + [0])
  {
    assert [op, 0] + ws + [0] == [op, 0] + (ws + [0]);
    LinkLeft([op, 0], ws + [0], 0, nx - lo);
    WordsSplit(p, lo, Link([op, 0], 0, nx - lo), ws + [0]);
  }

  lemma GroupHeld(p: seq<int>, cs: set<nat>, no: ParenNo, alts: Alts, lo: nat, nx: nat)
    requires nx >= lo + LenAlts(alts) + 4
    requires var t := LenAlts(alts) + 2;
             Words(p, lo, Link([OPEN + no, 2] + GenAlts(alts) + [CLOSE + no, 0], t, nx - lo - t))
    requires CtrsAlts(alts, lo + 2) <= cs
    ensures CodeAtom(p, cs, Group(no, alts), lo, nx)
    decreases alts, 1
  {
    hide GenAlts, LenAlts, CodeAlts, CtrsAlts;
    var body := GenAlts(alts);
    var d := nx - lo - LenAlts(alts) - 2;
    LinkRight([OPEN + no, 2] + body, [CLOSE + no, 0], 0, d);
    assert Link([CLOSE + no, 0], 0, d) == [CLOSE + no, d];
    NodeWords(p, lo, OPEN + no, 2, body, [CLOSE + no, d]);
    AltsHeld(p, cs, alts, lo + 2, lo + 2 + LenAlts(alts));
  }

  lemma LoopHeld(p: seq<int>, cs: set<nat>, a: Atom, min: int, max: int, lazy: bool, lo: nat, nx: nat)
    requires nx >= lo + LenAtom(a) + 7
    requires var body := Link(GenAtom(a), TailAtom(a), LenAtom(a) - TailAtom(a));
             Words(p, lo, Link([RepeatOp(a, lazy), 0, max, min, 0] + body + [BACK, LenAtom(a) + 5], 0, nx - lo))
    requires {lo + 4} + CtrsAtom(a, lo + 5) <= cs
    ensures CodeLoop(p, cs, a, min, max, lazy, lo, 0, nx)
    decreases a, 1
  {
    hide GenAtom, LenAtom, CodeAtom, TailAtom, CtrsAtom;
    var n := LenAtom(a);
    LoopWords(p, lo, RepeatOp(a, lazy), max, min, Link(GenAtom(a), TailAtom(a), n - TailAtom(a)),
              [BACK, n + 5], nx - lo);
    AtomHeld(p, cs, a, lo + 5, lo + 5 + n);
  }

  lemma SimpleRepeatHeld(p: seq<int>, cs: set<nat>, a: Atom, min: int, max: int, lazy: bool, lo: nat, nx: nat)
    requires SimpleAtom(a)
    requires nx >= lo + LenAtom(a) + 5
    requires Words(p, lo, Link([RepeatOp(a, lazy), 0, max, min, 0] + GenAtom(a), 0, nx - lo))
    ensures CodePiece(p, cs, Repeat(a, min, max, lazy), lo, nx)
  {
    var code := GenAtom(a);
    assert [RepeatOp(a, lazy), 0, max, min, 0] + code == [RepeatOp(a, lazy), 0, max, min, 0] + code + [];
    LoopWords(p, lo, RepeatOp(a, lazy), max, min, code, [], nx - lo);
  }

  lemma {:induction false} PieceHeld(p: seq<int>, cs: set<nat>, piece: Piece, lo: nat, nx: nat)
    requires nx >= lo + LenPiece(piece)
    requires Words(p, lo, Link(GenPiece(piece), TailPiece(piece), nx - lo - TailPiece(piece)))
    requires CtrsPiece(piece, lo) <= cs
    ensures CodePiece(p, cs, piece, lo, nx)
    decreases piece
  {
    hide GenAtom, LenAtom, CodeAtom, CtrsAtom;
    match piece
    case Once(a) => AtomHeld(p, cs, a, lo, nx);
    case Repeat(a, min, max, lazy) =>
      if SimpleAtom(a) {
        SimpleRepeatHeld(p, cs, a, min, max, lazy, lo, nx);
      } else {
        LoopHeld(p, cs, a, min, max, lazy, lo, nx);
      }
  }

  lemma {:induction false} PiecesHeld(p: seq<int>, cs: set<nat>, b: Pieces, lo: nat, nx: nat)
    requires b.Cons?
    requires nx >= lo + LenPieces(b)
    requires Words(p, lo, Link(GenPieces(b), TailPieces(b), nx - lo - TailPieces(b)))
    requires CtrsPieces(b, lo) <= cs
    ensures CodePieces(p, cs, b, lo, nx)
    decreases b, 0
  {
    hide GenPiece, LenPiece, CodePiece, TailPiece, CtrsPiece;
    var n := LenPiece(b.p);
    if b.ps.Nil? {
      PieceHeld(p, cs, b.p, lo, nx);
    } else {
      JoinWords(p, lo, Link(GenPiece(b.p), TailPiece(b.p), n - TailPiece(b.p)), GenPieces(b.ps),
                TailPieces(b.ps), nx - lo - TailPieces(b));
      PieceHeld(p, cs, b.p, lo, lo + n);
      PiecesHeld(p, cs, b.ps, lo + n, nx);
    }
  }

  lemma BranchHeld(p: seq<int>, cs: set<nat>, b: Pieces, lo: nat, nx: nat)
    requires nx >= lo + LenBranch(b)
    requires Words(p, lo, Link(GenBranch(b), TailBranch(b), nx - lo - TailBranch(b)))
    requires CtrsPieces(b, lo) <= cs
    ensures CodeBranch(p, cs, b, lo, nx)
    decreases b, 1
  {
    if b.Cons? {
      PiecesHeld(p, cs, b, lo, nx);
    }
  }

  lemma {:induction false} AltsHeld(p: seq<int>, cs: set<nat>, alts: Alts, lo: nat, e: nat)
    requires e == lo + LenAlts(alts)
    requires Words(p, lo, GenAlts(alts))
    requires CtrsAlts(alts, lo) <= cs
    ensures CodeAlts(p, cs, alts, lo, e)
    decreases alts, 0
  {
    hide GenBranch, LenBranch, CodeBranch, TailBranch, CtrsPieces, GenAlts, Words;
    AltsWords(p, alts, lo);
    BranchHeld(p, cs, alts.b, lo + 2, e);
    if alts.Or? {
      AltsHeld(p, cs, alts.more, lo + 2 + LenBranch(alts.b), e);
    }
  }
}
