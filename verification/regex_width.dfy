// HASWIDTH, computed bottom-up while compiling, is sound where no repeat has a negative minimum; then
// every unbounded repeat consumes input, and the limit of 1000000 repetitions is as good as none on
// any shorter subject.
module RegexWidth {
  import opened RegexSyntax
  import opened RegexSemantics
  import opened RegexLists

  // ---- what the compiler enforces: a literal holds a character, and only ? follows an atom that it
  // ---- does not call wide

  predicate SizedAtom(a: Atom) {
    match a
    case Lit(cs) => cs != []
    case Group(_, alts) => SizedAlts(alts)
    case _ => true
  }

  predicate SizedPiece(p: Piece) {
    match p
    case Once(a) => SizedAtom(a)
    case Repeat(a, min, max, _) => SizedAtom(a) && (WidthAtom(a) || (min == 0 && max == 1))
  }

  predicate SizedPieces(b: Pieces) {
    b.Cons? ==> SizedPiece(b.p) && SizedPieces(b.ps)
  }

  predicate SizedAlts(alts: Alts) {
    SizedPieces(alts.b) && (alts.Or? ==> SizedAlts(alts.more))
  }

  /** Every end listed lies in [lo, |s|]. */
  ghost predicate Within(ends: seq<nat>, lo: nat, s: string) {
    forall e | e in ends :: lo <= e <= |s|
  }

  function Step(width: bool): nat {
    if width then 1 else 0
  }

  lemma {:induction false} LitFits(cs: seq<int>, s: string, i: nat)
    requires LitHere(cs, s, i) && i <= |s|
    ensures i + |cs| <= |s|
  {
    if cs != [] {
      LitFits(cs[1..], s, i + 1);
    }
  }

  lemma WithinFlat(xs: seq<nat>, f: nat -> seq<nat>, lo: nat, hi: nat, s: string)
    requires Within(xs, lo, s)
    requires forall x | x in xs :: Within(f(x), hi, s)
    ensures Within(FlatMap(xs, f), hi, s)
  {
    forall e | e in FlatMap(xs, f)
      ensures hi <= e <= |s|
    {
      InFlatMap(xs, f, e);
    }
  }

  lemma NothingWithin(xs: seq<nat>, lo: nat, s: string)
    requires Within(xs, lo, s) && lo > |s|
    ensures xs == []
  {
    if xs != [] {
      HasMember(xs);
      assert false;
    }
  }

  lemma HasMember(xs: seq<nat>)
    requires xs != []
    ensures exists x :: x in xs
  {
    assert xs[0] in xs;
  }

  lemma {:induction false} AtomWidth(a: Atom, s: string, i: nat)
    requires SizedAtom(a) && CountedAtom(a) && i <= |s|
    ensures Within(EndsAtom(a, s, i), i + Step(WidthAtom(a)), s)
    decreases a, 0, 0
  {
    hide SizedAlts, CountedAlts, EndsAlts, WidthAlts;
    match a
    case Lit(cs) =>
      if LitHere(cs, s, i) {
        LitFits(cs, s, i);
      }
    case Group(_, alts) => AltsWidth(alts, s, i);
    case _ =>
  }

  lemma {:induction false} RepeatWidth(a: Atom, min: int, max: int, lazy: bool, s: string, i: nat)
    requires SizedAtom(a) && CountedAtom(a) && i <= |s|
    ensures Within(EndsRepeat(a, min, max, lazy, s, i), i + Step(min > 0 && WidthAtom(a)), s)
    decreases a, 1, if max < 0 then 0 else max
  {
    hide EndsAtom, SizedAtom, CountedAtom, WidthAtom;
    if max > 0 {
      AtomWidth(a, s, i);
      var xs := EndsAtom(a, s, i);
      var f := (e: nat) => EndsRepeat(a, min - 1, max - 1, lazy, s, e);
      var lo := i + Step(WidthAtom(a));
      forall e | e in xs
        ensures Within(f(e), lo, s)
      {
        RepeatWidth(a, min - 1, max - 1, lazy, s, e);
      }
      WithinFlat(xs, f, lo, lo, s);
    }
  }

  // ---- one repeat: exactly when its flag is right

  /** a never matches the empty string, and no match of it runs past the end. */
  ghost predicate NeverEmpty(a: Atom) {
    forall s, i | 0 <= i <= |s| :: Within(EndsAtom(a, s, i), i + 1, s)
  }

  /** No round is allowed. */
  predicate NoneAllowed(a: Atom, min: int, max: int) {
    min <= 0 && (max >= 0 || SimpleAtom(a))
  }

  lemma NoRound(a: Atom, min: int, max: int, lazy: bool, s: string, i: nat)
    requires NoneAllowed(a, min, max)
    ensures i in EndsRepeat(a, min, max, lazy, s, i)
  {
    hide EndsAtom;
    if max > 0 {
      var more := FlatMap(EndsAtom(a, s, i), e => EndsRepeat(a, min - 1, max - 1, lazy, s, e));
      assert EndsRepeat(a, min, max, lazy, s, i) == if lazy then [i] + more else more + [i];
      assert ([i] + more)[0] == i && (more + [i])[|more|] == i;
    } else {
      assert EndsRepeat(a, min, max, lazy, s, i) == [i];
    }
  }

  lemma {:induction false} SomeRound(a: Atom, min: int, max: int, lazy: bool, s: string, i: nat)
    requires NeverEmpty(a) && !NoneAllowed(a, min, max) && i <= |s|
    ensures Within(EndsRepeat(a, min, max, lazy, s, i), i + 1, s)
  {
    hide EndsAtom, NeverEmpty;
    if max > 0 {
      var xs := EndsAtom(a, s, i);
      var f := (e: nat) => EndsRepeat(a, min - 1, max - 1, lazy, s, e);
      assert Within(xs, i + 1, s) by {
        NeverEmptyAt(a, s, i);
      }
      forall e | e in xs
        ensures Within(f(e), i + 1, s)
      {
        RoundsWithin(a, min - 1, max - 1, lazy, s, e);
      }
      WithinFlat(xs, f, i + 1, i + 1, s);
    }
  }

  lemma NeverEmptyAt(a: Atom, s: string, i: nat)
    requires NeverEmpty(a) && i <= |s|
    ensures Within(EndsAtom(a, s, i), i + 1, s)
  {
  }

  lemma {:induction false} RoundsWithin(a: Atom, min: int, max: nat, lazy: bool, s: string, i: nat)
    requires NeverEmpty(a) && i <= |s|
    ensures Within(EndsRepeat(a, min, max, lazy, s, i), i, s)
    decreases max
  {
    hide EndsAtom, NeverEmpty;
    if max > 0 {
      var xs := EndsAtom(a, s, i);
      var f := (e: nat) => EndsRepeat(a, min - 1, max - 1, lazy, s, e);
      NeverEmptyAt(a, s, i);
      forall e | e in xs
        ensures Within(f(e), i, s)
      {
        RoundsWithin(a, min - 1, max - 1, lazy, s, e);
      }
      WithinFlat(xs, f, i + 1, i, s);
    }
  }

  /** The compiler flags a repeat wide when its minimum is not 0. Over an atom that never matches the
      empty string the flag is right exactly when the minimum is positive, or when the repeat, of a group
      with a negative maximum, never matches at all. */
  lemma FlagRight(a: Atom, min: int, max: int, lazy: bool)
    requires NeverEmpty(a)
    ensures (forall s, i | 0 <= i <= |s| :: i !in EndsRepeat(a, min, max, lazy, s, i))
            <==> min > 0 || (max < 0 && !SimpleAtom(a))
  {
    hide EndsAtom, EndsRepeat, NeverEmpty;
    if NoneAllowed(a, min, max) {
      NoRound(a, min, max, lazy, "", 0);
    } else {
      forall s, i | 0 <= i <= |s|
        ensures i !in EndsRepeat(a, min, max, lazy, s, i)
      {
        SomeRound(a, min, max, lazy, s, i);
      }
    }
  }

  // ---- pieces and alternatives

  lemma {:induction false} PieceWidth(p: Piece, s: string, i: nat)
    requires SizedPiece(p) && CountedPiece(p) && i <= |s|
    ensures Within(EndsPiece(p, s, i), i + Step(WidthPiece(p)), s)
    decreases p, 0, 0
  {
    hide EndsAtom, EndsRepeat, SizedAtom, CountedAtom, WidthAtom;
    match p
    case Once(a) => AtomWidth(a, s, i);
    case Repeat(a, min, max, lazy) => RepeatWidth(a, min, max, lazy, s, i);
  }

  lemma {:induction false} PiecesWidth(b: Pieces, s: string, i: nat)
    requires SizedPieces(b) && CountedPieces(b) && i <= |s|
    ensures Within(EndsPieces(b, s, i), i + Step(WidthPieces(b)), s)
    decreases b, 0, 0
  {
    hide EndsPiece, SizedPiece, CountedPiece, WidthPiece;
    if b.Cons? {
      PieceWidth(b.p, s, i);
      var lo := i + Step(WidthPieces(b));
      var f := (e: nat) => EndsPieces(b.ps, s, e);
      forall e | e in EndsPiece(b.p, s, i)
        ensures Within(f(e), lo, s)
      {
        PiecesWidth(b.ps, s, e);
      }
      WithinFlat(EndsPiece(b.p, s, i), f, i, lo, s);
    }
  }

  /** HASWIDTH is sound where no repeat has a negative minimum: a construct so flagged never matches the
      empty string; and no match runs past the end of the subject. */
  lemma {:induction false} AltsWidth(alts: Alts, s: string, i: nat)
    requires SizedAlts(alts) && CountedAlts(alts) && i <= |s|
    ensures Within(EndsAlts(alts, s, i), i + Step(WidthAlts(alts)), s)
    decreases alts, 0, 0
  {
    hide EndsPieces, SizedPieces, CountedPieces, WidthPieces;
    PiecesWidth(alts.b, s, i);
    if alts.Or? {
      AltsWidth(alts.more, s, i);
    }
  }

  /** Any two limits that the subject cannot reach list the same ends: the limit on * and + is
      never felt. */
  lemma {:induction false} LimitUnfelt(a: Atom, min: int, max: nat, max': nat, lazy: bool, s: string, i: nat)
    requires SizedAtom(a) && CountedAtom(a) && WidthAtom(a) && i <= |s|
    requires max >= |s| - i && max' >= |s| - i && min <= max && min <= max'
    ensures EndsRepeat(a, min, max, lazy, s, i) == EndsRepeat(a, min, max', lazy, s, i)
    decreases max
  {
    hide EndsAtom, SizedAtom, CountedAtom, WidthAtom;
    AtomWidth(a, s, i);
    var xs := EndsAtom(a, s, i);
    if max == 0 || max' == 0 {
      NothingWithin(xs, i + 1, s);
    } else {
      var f := (e: nat) => EndsRepeat(a, min - 1, max - 1, lazy, s, e);
      var g := (e: nat) => EndsRepeat(a, min - 1, max' - 1, lazy, s, e);
      forall e | e in xs
        ensures f(e) == g(e)
      {
        LimitUnfelt(a, min - 1, max - 1, max' - 1, lazy, s, e);
      }
      FlatMapSame(xs, f, g);
    }
  }
}
