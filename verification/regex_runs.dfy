// A repeat of a one-character atom matches a run: its ends are consecutive positions.
module RegexRuns {
  import opened RegexSyntax
  import opened RegexSemantics
  import opened RegexLists
  import opened RegexCode
  import opened RegexKont

  /** How many characters in a row, at most max, the atom accepts from i on. */
  function Run(a: Atom, max: nat, s: string, i: nat): (n: nat)
    ensures n <= max
    decreases max
  {
    if max > 0 && OneChar(a, s, i) then 1 + Run(a, max - 1, s, i + 1) else 0
  }

  /** i + no, i + no - 1, ..., i + min */
  function Downs(i: nat, no: int, min: nat): seq<nat>
    decreases no
  {
    if no < min then [] else [i + no] + Downs(i, no - 1, min)
  }

  /** i + no, i + no + 1, ..., i + max */
  function Ups(i: nat, no: nat, max: int): seq<nat>
    decreases max - no
  {
    if no > max then [] else [i + no] + Ups(i, no + 1, max)
  }

  /** The ends still to be tried when no characters in a row come next. */
  function Choices(i: nat, no: int, run: int, min: nat, lazy: bool): seq<nat>
    requires no >= -1
  {
    if lazy then Ups(i, Nat(no), run) else Downs(i, no, min)
  }

  lemma ChoicesNext(i: nat, no: int, run: int, min: nat, lazy: bool)
    requires no >= -1 && (lazy ==> no >= 0)
    ensures var more := if lazy then no <= run else no >= min;
            Choices(i, no, run, min, lazy)
            == if more then [i + Nat(no)] + Choices(i, if lazy then no + 1 else no - 1, run, min, lazy) else []
  {
  }

  function Nat(n: int): nat {
    if n < 0 then 0 else n
  }

  lemma {:induction false} DownsShift(i: nat, no: int, min: nat)
    requires no >= -1
    ensures Downs(i + 1, no, min) == Downs(i, no + 1, min + 1)
    decreases no
  {
    if no >= min {
      DownsShift(i, no - 1, min);
    }
  }

  lemma {:induction false} DownsSnoc(i: nat, no: int)
    requires no >= -1
    ensures Downs(i, no + 1, 0) == Downs(i, no + 1, 1) + [i]
    decreases no
  {
    if no >= 0 {
      DownsSnoc(i, no - 1);
    } else {
      assert Downs(i, -1, 0) == [];
    }
  }

  lemma {:induction false} UpsShift(i: nat, no: nat, max: int)
    ensures Ups(i + 1, no, max) == Ups(i, no + 1, max + 1)
    decreases max - no
  {
    if no <= max {
      UpsShift(i, no + 1, max);
    }
  }

  lemma SimpleEnds(a: Atom, s: string, i: nat)
    requires SimpleAtom(a)
    ensures EndsAtom(a, s, i) == if OneChar(a, s, i) then [i + 1] else []
  {
    match a
    case Lit(cs) => assert LitHere(cs[1..], s, i + 1);
    case _ =>
  }

  /** Greedy: the longest run first. */
  lemma {:induction false} GreedyRun(a: Atom, min: int, max: nat, s: string, i: nat)
    requires SimpleAtom(a)
    ensures EndsRepeat(a, min, max, false, s, i) == Downs(i, Run(a, max, s, i), Nat(min))
    decreases max
  {
    hide EndsAtom, OneChar;
    SimpleEnds(a, s, i);
    if max > 0 {
      var f := (e: nat) => EndsRepeat(a, min - 1, max - 1, false, s, e);
      if OneChar(a, s, i) {
        var n := Run(a, max - 1, s, i + 1);
        FlatMapOne(i + 1, f);
        GreedyRun(a, min - 1, max - 1, s, i + 1);
        DownsShift(i, n, Nat(min - 1));
        if min <= 0 {
          DownsSnoc(i, n);
        }
      } else {
        assert Downs(i, 0, 0) == [i] + Downs(i, -1, 0);
      }
    } else {
      assert Downs(i, 0, 0) == [i] + Downs(i, -1, 0);
    }
  }

  /** Lazy: the shortest run first. */
  lemma {:induction false} LazyRun(a: Atom, min: int, max: nat, s: string, i: nat)
    requires SimpleAtom(a)
    ensures EndsRepeat(a, min, max, true, s, i) == Ups(i, Nat(min), Run(a, max, s, i))
    decreases max
  {
    hide EndsAtom, OneChar;
    SimpleEnds(a, s, i);
    if max > 0 {
      var f := (e: nat) => EndsRepeat(a, min - 1, max - 1, true, s, e);
      if OneChar(a, s, i) {
        FlatMapOne(i + 1, f);
        LazyRun(a, min - 1, max - 1, s, i + 1);
        UpsShift(i, Nat(min - 1), Run(a, max - 1, s, i + 1));
      } else {
        assert Ups(i, 1, 0) == [];
      }
    } else {
      assert Ups(i, 1, 0) == [];
    }
  }

  /** The next-character lookahead rejects only positions from which the rest cannot match. */
  lemma LookaheadSound(p: seq<int>, cs: set<nat>, next: nat, k: Kont, s: string, e: nat)
    requires At(p, cs, next, k) && KOk(k)
    requires p[next] == EXACTLY
    ensures next + 2 < |p|
    ensures CodeAt(s, e) != p[next + 2] ==> EndsK(k, s, e) == []
    ensures p[next + 2] != 0
  {
    OpAt(p, cs, next, k);
    AfterHeld(p, cs, next, k);
    AfterOk(k);
    AfterEnds(k, s, e);
    hide KOk, EndsK, EndsPieces, At;
    var cs0 := k.b.p.a.cs;
    assert Words(p, next + 2, cs0 + [0]);
    assert (cs0 + [0])[0] == cs0[0];
  }

  /** A simple repeat ends, longest run first or shortest first, at min to run characters on. */
  lemma SimpleRepeatEnds(piece: Piece, s: string, i: nat)
    requires piece.Repeat? && SimpleAtom(piece.a) && 0 <= piece.min <= piece.max
    ensures var run := Run(piece.a, piece.max, s, i);
            EndsPiece(piece, s, i) == if piece.lazy then Ups(i, piece.min, run) else Downs(i, run, piece.min)
  {
    if piece.lazy {
      LazyRun(piece.a, piece.min, piece.max, s, i);
    } else {
      GreedyRun(piece.a, piece.min, piece.max, s, i);
    }
  }

  // ---- greedy and lazy

  function Backwards(xs: seq<nat>): seq<nat> {
    if xs == [] then [] else Backwards(xs[1..]) + [xs[0]]
  }

  lemma {:induction false} BackwardsSnoc(xs: seq<nat>, x: nat)
    ensures Backwards(xs + [x]) == [x] + Backwards(xs)
    decreases |xs|
  {
    if xs == [] {
      assert [] + [x] == [x];
      assert Backwards([x]) == Backwards([]) + [x];
    } else {
      assert (xs + [x])[1..] == xs[1..] + [x];
      BackwardsSnoc(xs[1..], x);
    }
  }

  /** Of an atom, group or not, that can end in one way only: lazy tries what greedy tries the other way
      round, and starts with no round where that is allowed. */
  lemma {:induction false} LazyIsBackwards(a: Atom, min: int, max: nat, s: string, i: nat)
    requires forall j: nat :: |EndsAtom(a, s, j)| <= 1
    ensures EndsRepeat(a, min, max, true, s, i) == Backwards(EndsRepeat(a, min, max, false, s, i))
    ensures min <= 0 ==> EndsRepeat(a, min, max, true, s, i) != [] && EndsRepeat(a, min, max, true, s, i)[0] == i
    decreases max
  {
    hide EndsAtom;
    if max > 0 {
      var xs := EndsAtom(a, s, i);
      var f := (e: nat) => EndsRepeat(a, min - 1, max - 1, true, s, e);
      var g := (e: nat) => EndsRepeat(a, min - 1, max - 1, false, s, e);
      assert FlatMap(xs, f) == Backwards(FlatMap(xs, g)) by {
        if xs != [] {
          assert xs == [xs[0]];
          FlatMapOne(xs[0], f);
          FlatMapOne(xs[0], g);
          LazyIsBackwards(a, min - 1, max - 1, s, xs[0]);
        }
      }
      BackwardsSnoc(FlatMap(xs, g), i);
    } else {
      assert Backwards([i]) == Backwards([]) + [i];
    }
  }
}
