// What a regular expression means, independently of how it is compiled. `Ends...` lists, best
// first, every position at which a match started at `i` can stop: earlier alternatives before
// later ones, more repetitions before fewer (fewer before more when lazy).
module RegexSemantics {
  import opened RegexSyntax

  /** The byte at position i, 0 at the terminator. */
  function CodeAt(s: string, i: nat): int {
    if i < |s| then s[i] as int else 0
  }

  /** Flattens the lists f yields over xs, in order. */
  function FlatMap(xs: seq<nat>, f: nat -> seq<nat>): seq<nat> {
    if xs == [] then [] else f(xs[0]) + FlatMap(xs[1..], f)
  }

  predicate InRanges(ws: seq<int>, c: int) {
    |ws| >= 2 && ((ws[1] <= c <= ws[0] + ws[1] - 1) || InRanges(ws[2..], c))
  }

  predicate IsWord(c: int) {
    || '0' as int <= c <= '9' as int || 'a' as int <= c <= 'z' as int
    || 'A' as int <= c <= 'Z' as int || c == '_' as int
  }

  predicate ZeroHolds(op: int, s: string, i: nat) {
    if op == BOL || op == BOLX then i == 0
    else if op == EOL || op == EOLX then CodeAt(s, i) == 0
    else if op == WORDA then IsWord(CodeAt(s, i)) && !(i > 0 && IsWord(CodeAt(s, i - 1)))
    else if op == WORDZ then i > 0 && !IsWord(CodeAt(s, i)) && IsWord(CodeAt(s, i - 1))
    else false
  }

  predicate LitHere(cs: seq<int>, s: string, i: nat) {
    cs == [] || (i < |s| && CodeAt(s, i) == cs[0] && LitHere(cs[1..], s, i + 1))
  }

  /** Does a one-character atom accept the character at i? */
  predicate OneChar(a: Atom, s: string, i: nat) {
    && i < |s|
    && match a
       case Lit(cs) => |cs| == 1 && CodeAt(s, i) == cs[0]
       case Dot => true
       case Class(neg, ws) => InRanges(ws, CodeAt(s, i)) != neg
       case _ => false
  }

  function EndsAtom(a: Atom, s: string, i: nat): seq<nat>
    decreases a, 0, 0
  {
    match a
    case Lit(cs) => if LitHere(cs, s, i) then [i + |cs|] else []
    case Dot => if OneChar(a, s, i) then [i + 1] else []
    case Class(_, _) => if OneChar(a, s, i) then [i + 1] else []
    case Zero(op) => if ZeroHolds(op, s, i) then [i] else []
    case Group(_, alts) => EndsAlts(alts, s, i)
  }

  /** Counts are what strtoul makes of them and may be negative: no round at all is then allowed for a
      one-character atom, while a group whose maximum is negative never matches. */
  function EndsRepeat(a: Atom, min: int, max: int, lazy: bool, s: string, i: nat): seq<nat>
    decreases a, 1, if max < 0 then 0 else max
  {
    if max < 0 && !SimpleAtom(a) then []
    else if max <= 0 then
      if min <= 0 then [i] else []
    else
      var more := FlatMap(EndsAtom(a, s, i), e => EndsRepeat(a, min - 1, max - 1, lazy, s, e));
      if min > 0 then more
      else if lazy then [i] + more
      else more + [i]
  }

  function EndsPiece(p: Piece, s: string, i: nat): seq<nat>
    decreases p, 0, 0
  {
    match p
    case Once(a) => EndsAtom(a, s, i)
    case Repeat(a, min, max, lazy) => EndsRepeat(a, min, max, lazy, s, i)
  }

  function EndsPieces(b: Pieces, s: string, i: nat): seq<nat>
    decreases b, 0, 0
  {
    match b
    case Nil => [i]
    case Cons(p, ps) => FlatMap(EndsPiece(p, s, i), e => EndsPieces(ps, s, e))
  }

  function EndsAlts(alts: Alts, s: string, i: nat): seq<nat>
    decreases alts, 0, 0
  {
    match alts
    case Last(b) => EndsPieces(b, s, i)
    case Or(b, more) => EndsPieces(b, s, i) + EndsAlts(more, s, i)
  }
}
