// What the repeat operators find, said of the characters of the subject.
module RegexRepeats {
  import opened RegexSyntax
  import opened RegexSemantics
  import opened RegexLists
  import opened RegexParse
  import opened RegexRuns
  import opened RegexSearch
  import opened RegexText
  import opened RegexErrors
  import D = Decimals

  /** A character that stands for itself, or the dot. */
  predicate Operand(x: char) {
    x !in "^$[()|?{+*\\\0"
  }

  predicate Takes(x: char, c: char) {
    x == '.' || c == x
  }

  /** n characters in a row that x takes stand at i. */
  predicate InRow(x: char, s: string, i: nat, n: nat) {
    i + n <= |s| && forall j | i <= j < i + n :: Takes(x, s[j])
  }

  /** What a repeat of x between min and max times takes from so on: to the last character it can, or, lazy,
      no more than it must. */
  predicate Taken(x: char, min: nat, max: nat, lazy: bool, s: string, so: nat, eo: nat) {
    && so + min <= eo <= so + max && InRow(x, s, so, eo - so)
    && (if lazy then eo == so + min else eo == so + max || eo == |s| || !Takes(x, s[eo]))
  }

  // ---- the run a repeat takes

  function One(x: char): Atom {
    if x == '.' then Dot else Lit([x as int])
  }

  function RepeatAlts(x: char, min: nat, max: nat, lazy: bool): Alts {
    Last(Cons(Repeat(One(x), min, max, lazy), Nil))
  }

  lemma OneTakes(x: char, s: string, i: nat)
    ensures OneChar(One(x), s, i) <==> i < |s| && Takes(x, s[i])
  {
  }

  lemma {:induction false} RunIs(x: char, max: nat, s: string, i: nat)
    requires i <= |s|
    ensures var n := Run(One(x), max, s, i);
            InRow(x, s, i, n) && (n == max || i + n == |s| || !Takes(x, s[i + n]))
    decreases max
  {
    hide OneChar, Takes, One;
    OneTakes(x, s, i);
    if max > 0 && OneChar(One(x), s, i) {
      RunIs(x, max - 1, s, i + 1);
    }
  }

  lemma DownsFirst(i: nat, no: nat, min: nat)
    ensures Downs(i, no, min) == [] <==> no < min
    ensures no >= min ==> Downs(i, no, min)[0] == i + no
  {
  }

  lemma UpsFirst(i: nat, no: nat, max: nat)
    ensures Ups(i, no, max) == [] <==> max < no
    ensures max >= no ==> Ups(i, no, max)[0] == i + no
  {
  }

  /** An expression that is one piece ends where the piece does. */
  lemma PieceAlone(p: Piece, s: string, i: nat)
    ensures EndsAlts(Last(Cons(p, Nil)), s, i) == EndsPiece(p, s, i)
  {
    hide EndsPiece;
    var xs := EndsPiece(p, s, i);
    assert EndsPieces(Cons(p, Nil), s, i) == FlatMap(xs, e => EndsPieces(Nil, s, e));
    FlatMapUnit(xs);
    FlatMapSame(xs, e => EndsPieces(Nil, s, e), e => [e]);
  }

  lemma RepeatEnds(x: char, min: nat, max: nat, lazy: bool, s: string, i: nat)
    requires min <= max && i <= |s|
    ensures var ends := EndsAlts(RepeatAlts(x, min, max, lazy), s, i);
            && (ends == [] <==> !InRow(x, s, i, min))
            && (ends != [] ==> Taken(x, min, max, lazy, s, i, ends[0]))
  {
    hide EndsAlts, EndsRepeat, Run, Downs, Ups, Takes;
    PieceAlone(Repeat(One(x), min, max, lazy), s, i);
    var n := Run(One(x), max, s, i);
    RunIs(x, max, s, i);
    if lazy {
      LazyRun(One(x), min, max, s, i);
      UpsFirst(i, min, n);
    } else {
      GreedyRun(One(x), min, max, s, i);
      DownsFirst(i, n, min);
    }
  }

  lemma OnePlain(x: char)
    requires Operand(x)
    ensures PlainAtom(One(x)) && SimpleAtom(One(x))
  {
    assert x as int != 0;
  }

  lemma RepeatPlain(x: char, min: nat, max: nat, lazy: bool)
    requires Operand(x) && min <= max
    ensures PlainAlts(RepeatAlts(x, min, max, lazy))
  {
    OnePlain(x);
    assert PlainPieces(Nil) && PlainPiece(Repeat(One(x), min, max, lazy));
  }

  method SearchRun(pattern: string, x: char, min: nat, max: nat, lazy: bool, s: string)
    returns (found: bool, so: nat, eo: nat)
    requires Operand(x) && min <= max
    requires ParseRegex(pattern) == Good(RepeatAlts(x, min, max, lazy), |pattern|, 0)
    ensures found <==> exists i: nat :: InRow(x, s, i, min)
    ensures found ==> Taken(x, min, max, lazy, s, so, eo) && forall i: nat | InRow(x, s, i, min) :: so <= i
  {
    RepeatPlain(x, min, max, lazy);
    hide Operand, ParseRegex, PlainAlts, RepeatAlts, Taken, EndsAlts;
    found, so, eo := SearchPlain(pattern, RepeatAlts(x, min, max, lazy), s);
    InRowInside(x, s, min);
    hide InRow;
    forall i: nat | i <= |s|
      ensures EndsAlts(RepeatAlts(x, min, max, lazy), s, i) == [] <==> !InRow(x, s, i, min)
      ensures var ends := EndsAlts(RepeatAlts(x, min, max, lazy), s, i);
              ends != [] ==> Taken(x, min, max, lazy, s, i, ends[0])
    {
      RepeatEnds(x, min, max, lazy, s, i);
    }
    if found {
      RepeatEnds(x, min, max, lazy, s, so);
    }
  }

  lemma InRowInside(x: char, s: string, n: nat)
    ensures forall i: nat | InRow(x, s, i, n) :: i <= |s|
  {
  }

  // ---- how repeats are written

  lemma OneRead(x: char, pat: string)
    requires Operand(x) && |pat| > 1 && pat[0] == x && IsMult(pat[1])
    ensures ParseAtom(pat, 0, 0) == Good(One(x), 1, 0) && !EndsBranch(pat, 0) && WidthAtom(One(x))
  {
    if x != '.' {
      assert LitChar(pat, 0) == (1, x as int);
      assert LitRun(pat, 0, false) == Good([x as int], 1, 0);
      hide LitRun;
      LeafRead(pat);
    }
  }

  /** A count behind the operand, and a question mark or nothing behind the count. */
  lemma CountRead(x: char, pat: string, min: nat, max: nat, lazy: bool, at: nat)
    requires Operand(x) && |pat| > 1 && pat[0] == x && IsMult(pat[1]) && 1 <= at < |pat|
    requires ParseCount(pat, 1) == Good(Bounds(min, max), at, 0)
    requires |pat| == (if lazy then at + 2 else at + 1) && (lazy ==> pat[at + 1] == '?')
    ensures ParseRegex(pat) == Good(RepeatAlts(x, min, max, lazy), |pat|, 0)
  {
    OneRead(x, pat);
    hide Operand, ParseCount, ParseAtom, WidthAtom, One;
    assert ParsePiece(pat, 0, 0) == Good(Repeat(One(x), min, max, lazy), |pat|, 0);
    hide ParsePiece;
    assert ParsePieces(pat, |pat|, 0) == Good(Nil, |pat|, 0);
    assert ParsePieces(pat, 0, 0) == Good(Cons(Repeat(One(x), min, max, lazy), Nil), |pat|, 0);
  }

  /** `x*`, `x+` and `x?`, greedy or lazy: the leftmost place where as many stand in a row as must, and from
      there on as many as can be taken, or as few. */
  method SearchRepeat(x: char, op: char, lazy: bool, s: string) returns (found: bool, so: nat, eo: nat)
    requires Operand(x) && op in "*+?"
    ensures var min, max := if op == '+' then 1 else 0, if op == '?' then 1 else 1000000;
            && (found <==> exists i: nat :: InRow(x, s, i, min))
            && (found ==> Taken(x, min, max, lazy, s, so, eo) && forall i: nat | InRow(x, s, i, min) :: so <= i)
  {
    var min, max := if op == '+' then 1 else 0, if op == '?' then 1 else 1000000;
    var pat := [x, op] + if lazy then "?" else "";
    assert ParseCount(pat, 1) == Good(Bounds(min, max), 1, 0);
    hide ParseCount, InRow, Taken, Operand, ParseRegex, RepeatAlts;
    CountRead(x, pat, min, max, lazy, 1);
    found, so, eo := SearchRun(pat, x, min, max, lazy, s);
  }

  /** `x{m,n}`, likewise. */
  method SearchCounted(x: char, m: nat, n: nat, lazy: bool, s: string) returns (found: bool, so: nat, eo: nat)
    requires Operand(x) && m <= n < 100
    ensures found <==> exists i: nat :: InRow(x, s, i, m)
    ensures found ==> Taken(x, m, n, lazy, s, so, eo) && forall i: nat | InRow(x, s, i, m) :: so <= i
  {
    var c := "{" + D.Dec(m) + "," + D.Dec(n) + "}";
    var pat := [x] + c + if lazy then "?" else "";
    assert pat[1..1 + |c|] == c && pat[1] == '{';
    BetweenRead(pat, 1, m, n);
    hide ParseCount, InRow, Taken, Operand, ParseRegex, RepeatAlts;
    CountRead(x, pat, m, n, lazy, |c|);
    found, so, eo := SearchRun(pat, x, m, n, lazy, s);
  }
}
