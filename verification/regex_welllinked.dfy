// What every emit step keeps: the program splits into nodes end to end, and every link that is set
// leads to the start of a node or to the end, forward but for BACK.
module RegexWellLinked {
  import opened RegexSyntax
  import opened RegexCode
  import opened RegexNodes
  import opened RegexChain

  /** Nodes of OpSize words fill [lo, hi). */
  ghost predicate Split(p: seq<int>, lo: nat, hi: nat)
    decreases hi - lo
  {
    && lo <= hi <= |p|
    && (lo == hi || Split(p, lo + OpSize(p, lo), hi))
  }

  /** Where nodes start, going from lo to hi by their sizes. */
  ghost function Starts(p: seq<int>, lo: nat, hi: nat): (r: set<nat>)
    ensures forall x | x in r :: lo <= x < hi && x < |p|
    decreases hi - lo
  {
    if lo >= hi || lo >= |p| then {} else {lo} + Starts(p, lo + OpSize(p, lo), hi)
  }

  /** The link of the node at x is open, or leads to one of the places in s. */
  ghost predicate LinkOk(p: seq<int>, x: nat, s: set<nat>) {
    && x + 1 < |p|
    && (p[x + 1] != 0 ==> RegNext(p, x) >= 0 && RegNext(p, x) in s && (RegNext(p, x) > x <==> p[x] != BACK))
  }

  ghost predicate LinksOk(p: seq<int>, lo: nat, hi: nat, s: set<nat>) {
    forall x | x in Starts(p, lo, hi) :: LinkOk(p, x, s)
  }

  /** The nodes of a program; word 0 is the magic word. */
  ghost function AllStarts(p: seq<int>): set<nat> {
    Starts(p, 1, |p|)
  }

  /** Where a link may lead: a node, or the end, where the next one will be emitted. */
  ghost function Places(p: seq<int>): set<nat> {
    AllStarts(p) + {|p|}
  }

  ghost predicate WellLinked(p: seq<int>) {
    |p| >= 1 && Split(p, 1, |p|) && LinksOk(p, 1, |p|, Places(p))
  }

  /** No link crosses o. */
  ghost predicate NoneCross(p: seq<int>, o: nat) {
    forall x | x in AllStarts(p) && x + 1 < |p| && p[x + 1] != 0 ::
      (x < o ==> RegNext(p, x) <= o) && (x >= o ==> RegNext(p, x) >= o)
  }

  /** Opcodes of nodes that are their two words and nothing else. */
  ghost predicate TwoWords(op: int) {
    op !in [REP, REPMIN, REPX, REPXMIN, ANYOF, ANYBUT, EXACTLY]
  }

  ghost predicate HeaderOp(op: int) {
    op in [REP, REPMIN, REPX, REPXMIN]
  }

  // ---- splitting and joining

  lemma {:induction false} SplitJoin(p: seq<int>, lo: nat, m: nat, hi: nat)
    requires Split(p, lo, m) && Split(p, m, hi)
    ensures Split(p, lo, hi) && Starts(p, lo, hi) == Starts(p, lo, m) + Starts(p, m, hi)
    decreases m - lo
  {
    hide OpSize;
    if lo < m {
      SplitJoin(p, lo + OpSize(p, lo), m, hi);
    }
  }

  /** Any start of a node, or the end, cuts a split in two. */
  lemma {:induction false} SplitAt(p: seq<int>, lo: nat, m: nat, hi: nat)
    requires Split(p, lo, hi) && (m in Starts(p, lo, hi) || m == hi)
    ensures Split(p, lo, m) && Split(p, m, hi)
    ensures Starts(p, lo, hi) == Starts(p, lo, m) + Starts(p, m, hi)
    decreases hi - lo
  {
    hide OpSize;
    if m == hi {
      assert Starts(p, hi, hi) == {};
    } else if lo != m {
      SplitAt(p, lo + OpSize(p, lo), m, hi);
    }
  }

  lemma {:induction false} StartBounds(p: seq<int>, lo: nat, hi: nat, x: nat)
    requires Split(p, lo, hi) && x in Starts(p, lo, hi)
    ensures lo <= x < hi && x + OpSize(p, x) <= hi <= |p|
    ensures x + OpSize(p, x) in Starts(p, lo, hi) + {hi}
    decreases hi - lo
  {
    var m := lo + OpSize(p, lo);
    hide OpSize;
    assert m <= hi;
    if x != lo {
      StartBounds(p, m, hi, x);
    } else if m < hi {
      assert m in Starts(p, m, hi);
    }
  }

  /** Nodes do not overlap. */
  lemma {:induction false} StartsApart(p: seq<int>, lo: nat, hi: nat, x: nat, y: nat)
    requires Split(p, lo, hi) && x in Starts(p, lo, hi) && y in Starts(p, lo, hi) && x < y
    ensures x + OpSize(p, x) <= y
    decreases hi - lo
  {
    var m := lo + OpSize(p, lo);
    StartBounds(p, lo, hi, x);
    hide OpSize;
    if x == lo {
      assert y in Starts(p, m, hi);
      StartBounds(p, m, hi, y);
    } else {
      assert x in Starts(p, m, hi) && y in Starts(p, m, hi);
      StartsApart(p, m, hi, x, y);
    }
  }

  lemma FirstStart(p: seq<int>, lo: nat, hi: nat)
    requires lo < hi && lo < |p|
    ensures lo in Starts(p, lo, hi)
  {
  }

  lemma {:induction false} TiledSplit(p: seq<int>, cs: set<nat>, lo: nat, hi: nat)
    requires Tiled(p, cs, lo, hi)
    ensures Split(p, lo, hi)
    decreases hi - lo
  {
    hide OpSize;
    if lo < hi {
      TiledSplit(p, cs, lo + OpSize(p, lo), hi);
    }
  }

  // ---- programs that hold the same nodes

  lemma {:induction false} ZeroAtMoved(p: seq<int>, q: seq<int>, at: nat, d: nat, z: nat)
    requires at <= z < |p| && z + d < |q| && ZeroAt(p, at) == z
    requires forall i | at <= i <= z :: q[i + d] == p[i]
    ensures ZeroAt(q, at + d) == z + d
    decreases z - at
  {
    if at < z {
      assert q[at + d] == p[at];
      ZeroAtMoved(p, q, at + 1, d, z);
    } else {
      assert q[z + d] == p[z];
    }
  }

  /** The size of a node depends on its words alone, and not on its link. */
  lemma OpSizeMoved(p: seq<int>, q: seq<int>, x: nat, d: nat)
    requires x < |p| && x + OpSize(p, x) <= |p| && x + OpSize(p, x) + d <= |q|
    requires forall i | x <= i < x + OpSize(p, x) && i != x + 1 :: q[i + d] == p[i]
    ensures OpSize(q, x + d) == OpSize(p, x)
  {
    assert q[x + d] == p[x];
    if p[x] == ANYOF || p[x] == ANYBUT || p[x] == EXACTLY {
      ZeroAtMoved(p, q, x + 2, d, ZeroAt(p, x + 2));
    }
  }

  /** t is s, each place d words further on. */
  ghost predicate Shifted(s: set<nat>, t: set<nat>, d: nat) {
    && (forall x | x in s :: x + d in t)
    && (forall y | y in t :: y >= d && y - d in s)
  }

  /** The nodes of q in [lo + d, hi + d) are those of p in [lo, hi), d words further on. */
  ghost predicate SameNodes(p: seq<int>, q: seq<int>, lo: nat, hi: nat, d: nat) {
    Split(q, lo + d, hi + d) && Shifted(Starts(p, lo, hi), Starts(q, lo + d, hi + d), d)
  }

  /** q holds, d words further on, nodes of the sizes that p holds in [lo, hi). */
  lemma {:induction false} SplitMoved(p: seq<int>, q: seq<int>, lo: nat, hi: nat, d: nat)
    requires Split(p, lo, hi) && hi + d <= |q|
    requires forall x | x in Starts(p, lo, hi) :: x + d < |q| && OpSize(q, x + d) == OpSize(p, x)
    ensures SameNodes(p, q, lo, hi, d)
    decreases hi - lo
  {
    hide OpSize;
    if lo < hi {
      assert lo in Starts(p, lo, hi);
      SplitMoved(p, q, lo + OpSize(p, lo), hi, d);
    }
  }

  /** The words of a block, moved by d. */
  lemma BlockMoved(p: seq<int>, q: seq<int>, lo: nat, hi: nat, d: nat)
    requires Split(p, lo, hi) && hi + d <= |q|
    requires forall i | lo <= i < hi :: q[i + d] == p[i]
    ensures SameNodes(p, q, lo, hi, d)
  {
    hide OpSize, Split, Starts;
    forall x | x in Starts(p, lo, hi)
      ensures x + d < |q| && OpSize(q, x + d) == OpSize(p, x)
    {
      StartBounds(p, lo, hi, x);
      OpSizeMoved(p, q, x, d);
    }
    SplitMoved(p, q, lo, hi, d);
  }

  /** Writing a word inside a node, but not its opcode or an operand, leaves all nodes where they are. */
  lemma SetKeeps(p: seq<int>, x: nat, i: nat, v: int)
    requires Split(p, 1, |p|) && x in AllStarts(p) && x < i < x + OpSize(p, x) && i < |p|
    requires i == x + 1 || HeaderOp(p[x])
    ensures Split(p[i := v], 1, |p|) && AllStarts(p[i := v]) == AllStarts(p)
    ensures forall y | y in AllStarts(p) && y != x :: i != y && i != y + 1
  {
    hide Split, Starts, OpSize, SameNodes;
    var q := p[i := v];
    forall y | y in AllStarts(p)
      ensures y < |q| && OpSize(q, y) == OpSize(p, y) && (y != x ==> i != y && i != y + 1)
    {
      SetSize(p, x, i, v, y);
    }
    SplitMoved(p, q, 1, |p|, 0);
    StartsSame(p, q, 1, |p|);
  }

  lemma StartsSame(p: seq<int>, q: seq<int>, lo: nat, hi: nat)
    requires SameNodes(p, q, lo, hi, 0)
    ensures Split(q, lo, hi) && Starts(q, lo, hi) == Starts(p, lo, hi)
  {
    hide Split, Starts;
  }

  lemma SetSize(p: seq<int>, x: nat, i: nat, v: int, y: nat)
    requires Split(p, 1, |p|) && x in AllStarts(p) && x < i < x + OpSize(p, x) && i < |p|
    requires i == x + 1 || HeaderOp(p[x])
    requires y in AllStarts(p)
    ensures y < |p| && OpSize(p[i := v], y) == OpSize(p, y) && (y != x ==> i != y && i != y + 1)
  {
    hide Split, Starts, ZeroAt;
    StartBounds(p, 1, |p|, y);
    if y < x {
      StartsApart(p, 1, |p|, y, x);
      OpSizeMoved(p, p[i := v], y, 0);
    } else if x < y {
      StartsApart(p, 1, |p|, x, y);
      OpSizeMoved(p, p[i := v], y, 0);
    } else if i == x + 1 {
      OpSizeMoved(p, p[i := v], y, 0);
    }
  }

  // ---- following links

  lemma StartsRoom(p: seq<int>, x: nat)
    requires WellLinked(p) && x in AllStarts(p)
    ensures 1 <= x && x + 1 < |p| && x + OpSize(p, x) in Places(p)
  {
    hide Starts, Split, OpSize;
    StartBounds(p, 1, |p|, x);
    assert LinkOk(p, x, Places(p));
  }

  /** A chain of links from a node leads to nodes, or to the end. */
  lemma {:induction false} PathStart(p: seq<int>, a: nat, b: nat)
    requires WellLinked(p) && a in Places(p) && Path(p, a, b)
    ensures b in Places(p)
    decreases b - a
  {
    hide Starts, Split;
    if a != b {
      assert LinkOk(p, a, Places(p));
      PathStart(p, a + p[a + 1], b);
    }
  }

  // ---- setting a link, setting a header word

  lemma LinkSame(p: seq<int>, q: seq<int>, x: nat, s: set<nat>)
    requires LinkOk(p, x, s) && x + 1 < |q| && q[x] == p[x] && q[x + 1] == p[x + 1]
    ensures LinkOk(q, x, s)
  {
  }

  /** Linking the node at t to a node or to the end, forward unless t is BACK. */
  lemma WellTail(p: seq<int>, t: nat, val: nat)
    requires WellLinked(p) && t in AllStarts(p) && val in Places(p)
    requires val > t <==> p[t] != BACK
    ensures t + 1 < |p|
    ensures var q := p[t + 1 := if p[t] == BACK then t - val else val - t];
            WellLinked(q) && AllStarts(q) == AllStarts(p)
  {
    hide Starts, Split, OpSize, LinkOk;
    StartsRoom(p, t);
    var q := p[t + 1 := if p[t] == BACK then t - val else val - t];
    SetKeeps(p, t, t + 1, q[t + 1]);
    forall y | y in AllStarts(p)
      ensures LinkOk(q, y, Places(p))
    {
      StartsRoom(p, y);
      if y == t {
        LinkSet(p, t, val, Places(p));
      } else {
        LinkSame(p, q, y, Places(p));
      }
    }
  }

  lemma LinkSet(p: seq<int>, t: nat, val: nat, s: set<nat>)
    requires t + 1 < |p| && val in s && (val > t <==> p[t] != BACK)
    ensures LinkOk(p[t + 1 := if p[t] == BACK then t - val else val - t], t, s)
  {
  }

  /** Writing a word of a repeat header other than its opcode and its link. */
  lemma WellHeader(p: seq<int>, x: nat, i: nat, v: int)
    requires WellLinked(p) && x in AllStarts(p) && HeaderOp(p[x]) && x + 2 <= i < x + 5 && i < |p|
    ensures WellLinked(p[i := v]) && AllStarts(p[i := v]) == AllStarts(p)
  {
    var q := p[i := v];
    assert OpSize(p, x) == 5;
    hide Starts, Split, OpSize, LinkOk;
    SetKeeps(p, x, i, v);
    forall y | y in AllStarts(p)
      ensures LinkOk(q, y, Places(p))
    {
      StartsRoom(p, y);
      LinkSame(p, q, y, Places(p));
    }
  }

  // ---- emitting at the end

  /** q begins with p; the nodes of p are nodes of q. */
  lemma FrontNodes(p: seq<int>, q: seq<int>)
    requires WellLinked(p) && |p| <= |q| && q[..|p|] == p
    ensures Split(q, 1, |p|) && Starts(q, 1, |p|) == AllStarts(p)
  {
    hide Starts, Split, SameNodes;
    forall i | 1 <= i < |p|
      ensures q[i + 0] == p[i]
    {
      assert q[i] == q[..|p|][i];
    }
    BlockMoved(p, q, 1, |p|, 0);
    StartsSame(p, q, 1, |p|);
  }

  /** Nodes emitted behind p, with links into the whole. */
  lemma WellAppend(p: seq<int>, q: seq<int>)
    requires WellLinked(p) && |p| < |q| && q[..|p|] == p
    requires Split(q, |p|, |q|) && LinksOk(q, |p|, |q|, Places(q))
    ensures WellLinked(q) && |p| in AllStarts(q)
    ensures AllStarts(q) == AllStarts(p) + Starts(q, |p|, |q|)
  {
    hide Starts, Split, LinkOk;
    FrontNodes(p, q);
    SplitJoin(q, 1, |p|, |q|);
    FirstStart(q, |p|, |q|);
    forall x | x in AllStarts(p)
      ensures LinkOk(q, x, Places(q))
    {
      FrontLink(p, q, x);
    }
  }

  lemma FrontLink(p: seq<int>, q: seq<int>, x: nat)
    requires WellLinked(p) && |p| < |q| && q[..|p|] == p && x in AllStarts(p)
    requires Places(p) <= Places(q)
    ensures LinkOk(q, x, Places(q))
  {
    hide Starts, Split, Places;
    StartsRoom(p, x);
    assert q[x] == q[..|p|][x] && q[x + 1] == q[..|p|][x + 1];
    assert LinkOk(p, x, Places(p));
  }

  /** The links of the nodes from o on lead to o or further. */
  ghost predicate LeadUp(q: seq<int>, o: nat) {
    forall x | x in Starts(q, o, |q|) && x + 1 < |q| && q[x + 1] != 0 :: RegNext(q, x) >= o
  }

  /** Nothing crosses the end of p if what was emitted behind it links to itself only. */
  lemma NoneCrossEnd(p: seq<int>, q: seq<int>)
    requires WellLinked(p) && |p| <= |q| && q[..|p|] == p && Split(q, |p|, |q|) && LeadUp(q, |p|)
    ensures NoneCross(q, |p|)
  {
    hide Starts, Split, LinkOk, RegNext;
    FrontNodes(p, q);
    SplitJoin(q, 1, |p|, |q|);
    forall x | x in AllStarts(q) && x + 1 < |q| && q[x + 1] != 0
      ensures x < |p| ==> RegNext(q, x) <= |p|
      ensures x >= |p| ==> RegNext(q, x) >= |p|
    {
      if x in AllStarts(p) {
        FrontNext(p, q, x);
      }
    }
  }

  lemma FrontNext(p: seq<int>, q: seq<int>, x: nat)
    requires WellLinked(p) && |p| <= |q| && q[..|p|] == p && x in AllStarts(p)
    ensures x + 1 < |p| && RegNext(q, x) <= |p|
  {
    hide Starts, Split;
    StartsRoom(p, x);
    assert q[x] == q[..|p|][x] && q[x + 1] == q[..|p|][x + 1];
    assert LinkOk(p, x, Places(p));
  }

  /** A node with an open link. */
  lemma WellNode(p: seq<int>, op: int)
    requires WellLinked(p) && TwoWords(op)
    ensures WellLinked(p + [op, 0]) && AllStarts(p + [op, 0]) == AllStarts(p) + {|p|}
  {
    var q := p + [op, 0];
    assert q[|p|] == op && q[|p| + 1] == 0;
    assert OpSize(q, |p|) == 2;
    WellOne(p, q);
  }

  /** One node with an open link, whatever its size. */
  lemma WellOne(p: seq<int>, q: seq<int>)
    requires WellLinked(p) && |p| + 1 < |q| && q[..|p|] == p
    requires |p| + OpSize(q, |p|) == |q| && q[|p| + 1] == 0
    ensures WellLinked(q) && AllStarts(q) == AllStarts(p) + {|p|}
  {
    hide OpSize;
    assert Split(q, |p|, |q|) && Starts(q, |p|, |q|) == {|p|} by {
      assert Split(q, |q|, |q|) && Starts(q, |q|, |q|) == {};
    }
    hide WellLinked, Starts, Split;
    assert LinkOk(q, |p|, Places(q));
    WellAppend(p, q);
  }

  /** A leaf whose operand holds no zero word. */
  lemma WellLeaf(p: seq<int>, a: Atom)
    requires WellLinked(p) && !a.Group? && SolidAtom(a)
    ensures WellLinked(p + GenAtom(a)) && AllStarts(p + GenAtom(a)) == AllStarts(p) + {|p|}
  {
    var q := p + GenAtom(a);
    LeafSize(p, a);
    hide GenAtom, LenAtom, OpSize, WellLinked;
    assert q[..|p|] == p;
    WellOne(p, q);
  }

  lemma LeafSize(p: seq<int>, a: Atom)
    requires !a.Group? && SolidAtom(a)
    ensures OpSize(p + GenAtom(a), |p|) == LenAtom(a) && (p + GenAtom(a))[|p| + 1] == 0
  {
    var q := p + GenAtom(a);
    assert q[|p|] == GenAtom(a)[0] && q[|p| + 1] == GenAtom(a)[1];
    match a
    case Lit(ws) => OperandSize(p, EXACTLY, ws);
    case Class(neg, ws) => OperandSize(p, if neg then ANYBUT else ANYOF, ws);
    case _ =>
  }

  lemma OperandSize(p: seq<int>, op: int, ws: seq<int>)
    requires forall i | 0 <= i < |ws| :: ws[i] != 0
    ensures ZeroAt(p + ([op, 0] + ws + [0]), |p| + 2) == |p| + 2 + |ws|
  {
    var q := p + ([op, 0] + ws + [0]);
    hide ZeroAt, Words;
    assert q == (p + [op, 0]) + (ws + [0]) + [];
    MiddleHeld(p + [op, 0], ws + [0], [], |p| + 2);
    ZeroAtOperand(q, |p| + 2, ws);
  }

  lemma LeafAlone(p: seq<int>, a: Atom)
    requires !a.Group? && SolidAtom(a)
    ensures var q := p + GenAtom(a);
            q[|p| + 1] == 0 && Split(q, |p|, |q|) && Starts(q, |p|, |q|) == {|p|}
  {
    LeafSize(p, a);
    hide GenAtom, OpSize, LenAtom;
    var q := p + GenAtom(a);
    assert Split(q, |q|, |q|) && Starts(q, |q|, |q|) == {};
  }

  // ---- inserting a header

  /** What RegInsert makes of p. */
  ghost function Inserted(p: seq<int>, op: int, o: nat): (q: seq<int>)
    requires o <= |p|
    ensures |q| == |p| + 5
  {
    p[..o] + [op, 0, 0, 0, 0] + p[o..]
  }

  lemma InsertedAt(p: seq<int>, op: int, o: nat)
    requires o <= |p|
    ensures var q := Inserted(p, op, o);
            && (forall i | 0 <= i < o :: q[i] == p[i]) && (forall i | o <= i < |p| :: q[i + 5] == p[i])
            && q[o] == op && q[o + 1] == 0
  {
  }

  /** The nodes of the program after an insertion: those before, the header, those behind, moved. */
  lemma InsertedNodes(p: seq<int>, op: int, o: nat)
    requires Split(p, 1, |p|) && o in Places(p) && o >= 1 && HeaderOp(op)
    ensures var q := Inserted(p, op, o); var after := Starts(q, o + 5, |q|);
            && Split(q, 1, |q|) && AllStarts(q) == Starts(p, 1, o) + {o} + after
            && AllStarts(p) == Starts(p, 1, o) + Starts(p, o, |p|)
            && Shifted(Starts(p, o, |p|), after, 5)
  {
    hide Inserted, Split, Starts, SameNodes, Shifted, OpSize;
    var q := Inserted(p, op, o);
    InsertedAt(p, op, o);
    SplitAt(p, 1, o, |p|);
    BlockMoved(p, q, 1, o, 0);
    StartsSame(p, q, 1, o);
    BlockMoved(p, q, o, |p|, 5);
    MovedNodes(p, q, o, |p|, 5);
    HeaderNode(q, o);
    SplitJoin(q, o, o + 5, |q|);
    SplitJoin(q, 1, o, |q|);
  }

  lemma MovedNodes(p: seq<int>, q: seq<int>, lo: nat, hi: nat, d: nat)
    requires SameNodes(p, q, lo, hi, d)
    ensures Split(q, lo + d, hi + d) && Shifted(Starts(p, lo, hi), Starts(q, lo + d, hi + d), d)
  {
  }

  lemma HeaderNode(q: seq<int>, o: nat)
    requires o + 5 <= |q| && HeaderOp(q[o])
    ensures OpSize(q, o) == 5 && Split(q, o, o + 5) && Starts(q, o, o + 5) == {o}
  {
    assert Split(q, o + 5, o + 5) && Starts(q, o + 5, o + 5) == {};
  }

  /** Places up to o stay, places from o on move up. */
  lemma InsertedPlaces(p: seq<int>, op: int, o: nat, y: nat)
    requires Split(p, 1, |p|) && o in Places(p) && o >= 1 && HeaderOp(op) && y in Places(p)
    ensures y <= o ==> y in Places(Inserted(p, op, o))
    ensures y >= o ==> y + 5 in Places(Inserted(p, op, o))
  {
    hide Inserted, Split, Starts;
    InsertedNodes(p, op, o);
    var q := Inserted(p, op, o);
    if y == |p| {
      assert y <= o ==> y == o;
    } else if y in Starts(p, o, |p|) {
      assert y + 5 in Starts(q, o + 5, |q|);
      assert y <= o ==> y == o;
    }
  }

  lemma InsertBelow(p: seq<int>, op: int, o: nat, x: nat)
    requires WellLinked(p) && NoneCross(p, o) && o in Places(p) && HeaderOp(op)
    requires x in AllStarts(p) && x < o
    ensures o <= |p| && LinkOk(Inserted(p, op, o), x, Places(Inserted(p, op, o)))
  {
    PlacesBounds(p, o);
    InsertedAt(p, op, o);
    hide Inserted, Split, Starts, OpSize, Places;
    NodeBefore(p, x, o);
    var q := Inserted(p, op, o);
    assert q[x] == p[x] && q[x + 1] == p[x + 1];
    assert LinkOk(p, x, Places(p));
    if p[x + 1] != 0 {
      InsertedPlaces(p, op, o, RegNext(p, x));
    }
  }

  lemma InsertAbove(p: seq<int>, op: int, o: nat, x: nat)
    requires WellLinked(p) && NoneCross(p, o) && o in Places(p) && HeaderOp(op)
    requires x in AllStarts(p) && x >= o
    ensures o <= |p| && LinkOk(Inserted(p, op, o), x + 5, Places(Inserted(p, op, o)))
  {
    PlacesBounds(p, o);
    InsertedAt(p, op, o);
    hide Inserted, Split, Starts, OpSize, Places;
    StartsRoom(p, x);
    var q := Inserted(p, op, o);
    assert q[x + 5] == p[x] && q[x + 1 + 5] == p[x + 1];
    assert LinkOk(p, x, Places(p));
    if p[x + 1] != 0 {
      InsertedPlaces(p, op, o, RegNext(p, x));
    }
  }

  lemma PlacesBounds(p: seq<int>, o: nat)
    requires o in Places(p) && |p| >= 1
    ensures 1 <= o <= |p| && (o < |p| ==> o in AllStarts(p))
  {
  }

  /** A node in front of a place ends in front of it. */
  lemma NodeBefore(p: seq<int>, x: nat, o: nat)
    requires Split(p, 1, |p|) && x in AllStarts(p) && o in Places(p) && x < o
    ensures x + OpSize(p, x) <= o
  {
    hide Split, Starts, OpSize;
    StartBounds(p, 1, |p|, x);
    if o in AllStarts(p) {
      StartsApart(p, 1, |p|, x, o);
    }
  }

  lemma InsertLink(p: seq<int>, op: int, o: nat, x: nat)
    requires WellLinked(p) && NoneCross(p, o) && o in Places(p) && HeaderOp(op)
    requires o <= |p| && x in AllStarts(Inserted(p, op, o))
    ensures LinkOk(Inserted(p, op, o), x, Places(Inserted(p, op, o)))
  {
    hide LinksOk, Inserted, Split, Starts, LinkOk, NoneCross;
    PlacesBounds(p, o);
    InsertedNodes(p, op, o);
    hide WellLinked, Places;
    if x == o {
      InsertedAt(p, op, o);
      OpenLink(Inserted(p, op, o), x, Places(Inserted(p, op, o)));
    } else if x in Starts(p, 1, o) {
      InsertBelow(p, op, o, x);
    } else {
      assert x - 5 in Starts(p, o, |p|);
      InsertAbove(p, op, o, x - 5);
    }
  }

  lemma InsertLinks(p: seq<int>, op: int, o: nat)
    requires WellLinked(p) && NoneCross(p, o) && o in Places(p) && HeaderOp(op) && o <= |p|
    ensures var q := Inserted(p, op, o); LinksOk(q, 1, |q|, Places(q))
  {
    hide Inserted, Split, Starts, LinkOk, NoneCross, Places, WellLinked;
    var q := Inserted(p, op, o);
    forall x | x in AllStarts(q)
      ensures LinkOk(q, x, Places(q))
    {
      InsertLink(p, op, o, x);
    }
  }

  /** An insertion where no link crosses keeps every link on the start of a node. */
  lemma WellInsert(p: seq<int>, op: int, o: nat)
    requires WellLinked(p) && NoneCross(p, o) && o in Places(p) && HeaderOp(op)
    ensures o <= |p|
    ensures var q := Inserted(p, op, o);
            WellLinked(q) && o in AllStarts(q) && (forall y | y in Places(p) && y >= o :: y + 5 in Places(q))
  {
    hide Inserted, Split, Starts, LinkOk, NoneCross, Shifted, LinksOk;
    PlacesBounds(p, o);
    InsertedNodes(p, op, o);
    InsertLinks(p, op, o);
    hide Places;
    var q := Inserted(p, op, o);
    forall y | y in Places(p) && y >= o
      ensures y + 5 in Places(q)
    {
      InsertedPlaces(p, op, o, y);
    }
  }

  lemma OpenLink(p: seq<int>, x: nat, s: set<nat>)
    requires x + 1 < |p| && p[x + 1] == 0
    ensures LinkOk(p, x, s)
  {
  }

  // ---- what one emit step does to the nodes that are there

  /** Only links were set: the nodes are where they were. */
  ghost predicate Kept(p: seq<int>, q: seq<int>) {
    WellLinked(q) && AllStarts(q) == AllStarts(p) && |q| == |p|
  }

  /** Links were set and nodes emitted behind. */
  ghost predicate Grown(p: seq<int>, q: seq<int>) {
    && WellLinked(q) && AllStarts(p) <= AllStarts(q)
    && |p| <= |q| && (|p| < |q| ==> |p| in AllStarts(q))
  }

  /** A chain starts at the node x and ends at t, and val is a node on the side that t may lead to. */
  ghost predicate MayLink(p: seq<int>, x: nat, t: nat, val: nat) {
    && WellLinked(p) && x in AllStarts(p) && Path(p, x, t) && t + 1 < |p|
    && (val in AllStarts(p) || val == |p|) && (val > t <==> p[t] != BACK)
  }

  lemma TailKeeps(p: seq<int>, x: nat, t: nat, val: nat)
    requires MayLink(p, x, t, val)
    ensures Kept(p, p[t + 1 := if p[t] == BACK then t - val else val - t])
  {
    hide AllStarts, WellLinked, Path;
    PathStart(p, x, t);
    WellTail(p, t, val);
  }

  lemma KeptGrown(p: seq<int>, q: seq<int>, r: seq<int>)
    requires Grown(p, q) && Kept(q, r)
    ensures Grown(p, r)
  {
    hide AllStarts, WellLinked;
  }

  lemma GrownMore(p: seq<int>, q: seq<int>, r: seq<int>)
    requires Grown(p, q) && Grown(q, r)
    ensures Grown(p, r)
  {
    hide AllStarts, WellLinked;
  }

  lemma GrownNode(p: seq<int>, op: int)
    requires WellLinked(p) && TwoWords(op)
    ensures Grown(p, p + [op, 0])
  {
    hide AllStarts, WellLinked;
    WellNode(p, op);
  }

  lemma GrownLeaf(p: seq<int>, a: Atom)
    requires WellLinked(p) && !a.Group? && SolidAtom(a)
    ensures Grown(p, p + GenAtom(a))
  {
    hide AllStarts, WellLinked, GenAtom, LenAtom;
    WellLeaf(p, a);
  }

  /** Whatever was emitted behind p. */
  lemma GrownFront(p: seq<int>, q: seq<int>)
    requires WellLinked(p) && WellLinked(q) && |p| <= |q| && q[..|p|] == p
    ensures Grown(p, q)
  {
    hide Split, Starts, LinksOk;
    FrontNodes(p, q);
    FrontCut(q, |p|);
  }

  lemma FrontCut(q: seq<int>, m: nat)
    requires Split(q, 1, m) && 1 <= m <= |q| && Split(q, 1, |q|)
    ensures Starts(q, 1, m) <= AllStarts(q) && (m < |q| ==> m in AllStarts(q))
  {
    CutAt(q, 1, m, |q|);
  }

  lemma {:induction false} CutAt(q: seq<int>, lo: nat, m: nat, hi: nat)
    requires Split(q, lo, m) && Split(q, lo, hi) && m <= hi
    ensures Starts(q, lo, m) <= Starts(q, lo, hi) && (m < hi ==> m in Starts(q, lo, hi))
    decreases m - lo
  {
    hide OpSize;
    if lo < m {
      CutAt(q, lo + OpSize(q, lo), m, hi);
    }
  }

  /** The three words of a header behind its link. */
  lemma HeaderKeeps(p: seq<int>, x: nat, max: int, min: int)
    requires WellLinked(p) && x in AllStarts(p) && HeaderOp(p[x]) && x + 4 < |p|
    ensures Kept(p, p[x + 2 := max][x + 3 := min][x + 4 := 0])
  {
    hide AllStarts, WellLinked;
    WellHeader(p, x, x + 2, max);
    var q := p[x + 2 := max];
    WellHeader(q, x, x + 3, min);
    WellHeader(q[x + 3 := min], x, x + 4, 0);
  }

  lemma NextNode(p: seq<int>, x: nat)
    requires WellLinked(p) && x in AllStarts(p)
    ensures x + 1 < |p|
    ensures 0 < RegNext(p, x) < |p| ==> RegNext(p, x) in AllStarts(p)
  {
    hide Split, Starts;
    StartsRoom(p, x);
    assert LinkOk(p, x, Places(p));
  }

  /** The node behind one of two words. */
  lemma NodeBehind(p: seq<int>, x: nat)
    requires WellLinked(p) && x in AllStarts(p) && TwoWords(p[x]) && x + 2 < |p|
    ensures x + 2 in AllStarts(p)
  {
    hide Split, Starts, WellLinked;
    StartsRoom(p, x);
  }

  lemma FirstProgram(magic: int)
    ensures WellLinked([magic]) && AllStarts([magic]) == {}
  {
  }
}
