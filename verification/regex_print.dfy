// Expressions written out as patterns: characters as they are where that is possible, or all of them
// as hexadecimal escapes.
module RegexPrint {
  import opened RegexSyntax
  import opened RegexParse

  /** A character a piece may start with. */
  predicate Starts(c: char) {
    !IsMult(c) && c != ')' && c != '|' && c != '\0'
  }

  predicate IsCode(c: int) {
    1 <= c <= 255
  }

  function HexChar(d: int): (c: char)
    requires 0 <= d < 16
    ensures HexDigit(c) == d
  {
    "0123456789abcdef"[d]
  }

  /** How characters are written: as hexadecimal escapes, or printable ones as they are, with a backslash
      in front of those that have a meaning. */
  datatype Style = Coded | Raw

  const META := "^$.[()|?{+*\\"
  const SET_META := "]-^\\"

  predicate Printable(c: int) {
    32 <= c < 127
  }

  function ShowHex(c: int): (t: string)
    requires IsCode(c)
  {
    ['\\', 'x', HexChar(c / 16), HexChar(c % 16)]
  }

  /** One character, where those in `special` have a meaning. */
  function ShowChar(c: int, special: string, st: Style): (t: string)
    requires IsCode(c)
    ensures 1 <= |t| <= 4 && t[0] != '\0'
  {
    if st == Coded || !Printable(c) then ShowHex(c)
    else if c as char in special then ['\\', c as char]
    else [c as char]
  }

  function ShowCode(c: int, st: Style): (t: string)
    requires IsCode(c)
    ensures t != "" && t[0] != '\0'
  {
    ShowChar(c, META, st)
  }

  function ShowMember(c: int, st: Style): (t: string)
    requires IsCode(c)
    ensures t != "" && t[0] != '\0'
  {
    ShowChar(c, SET_META, st)
  }

  predicate AllCodes(cs: seq<int>) {
    forall i | 0 <= i < |cs| :: IsCode(cs[i])
  }

  function ShowLit(cs: seq<int>, st: Style): (t: string)
    requires AllCodes(cs)
    ensures cs != [] ==> t != "" && t[0] == ShowCode(cs[0], st)[0]
  {
    if cs == [] then "" else ShowCode(cs[0], st) + ShowLit(cs[1..], st)
  }

  /** Pairs (length, first) whose characters are bytes. */
  predicate AllSpans(ws: seq<int>) {
    ws != [] ==>
      |ws| >= 2 && ws[0] >= 1 && IsCode(ws[1]) && IsCode(ws[1] + ws[0] - 1) && AllSpans(ws[2..])
  }

  /** A bracket that a colon might follow is written as a range. */
  function ShowSpan(len: int, lo: int, st: Style): (t: string)
    requires len >= 1 && IsCode(lo) && IsCode(lo + len - 1)
    ensures t != "" && t[0] == ShowMember(lo, st)[0]
  {
    if len == 1 && lo != '[' as int then ShowMember(lo, st)
    else ShowMember(lo, st) + "-" + ShowMember(lo + len - 1, st)
  }

  function ShowSpans(ws: seq<int>, st: Style): (t: string)
    requires AllSpans(ws)
    ensures ws != [] ==> t != "" && t[0] == ShowMember(ws[1], st)[0]
  {
    if ws == [] then "" else ShowSpan(ws[0], ws[1], st) + ShowSpans(ws[2..], st)
  }

  function ShowZero(op: ZeroOp): (t: string)
    ensures t != "" && Starts(t[0])
  {
    if op == BOL then "^"
    else if op == EOL then "$"
    else if op == BOLX then "\\A"
    else if op == EOLX then "\\Z"
    else if op == WORDA then "\\<"
    else "\\>"
  }

  function Two(n: int): (t: string)
    requires 0 <= n < 100
    ensures |t| == 2
  {
    [(n / 10 + 48) as char, (n % 10 + 48) as char]
  }

  predicate AreBounds(min: int, max: int) {
    0 <= min < 100 && (max == MAX_REP_COUNT || min <= max < 100)
  }

  function ShowBounds(min: int, max: int): (t: string)
    requires AreBounds(min, max)
    ensures t != "" && IsMult(t[0])
  {
    if min == 0 && max == 1 then "?"
    else if min == 0 && max == MAX_REP_COUNT then "*"
    else if min == 1 && max == MAX_REP_COUNT then "+"
    else if max == MAX_REP_COUNT then "{" + Two(min) + ",}"
    else "{" + Two(min) + "," + Two(max) + "}"
  }

  // ---- the expressions that can be written

  predicate OkAtom(a: Atom) {
    match a
    case Lit(cs) => cs != [] && AllCodes(cs)
    case Dot => true
    case Class(_, ws) => ws != [] && AllSpans(ws)
    case Zero(_) => true
    case Group(_, alts) => OkAlts(alts)
  }

  /** Only one character, a set or a group can be repeated, and what could be empty only by "?". */
  predicate OkPiece(p: Piece) {
    match p
    case Once(a) => OkAtom(a)
    case Repeat(a, min, max, _) =>
      && OkAtom(a) && (a.Lit? ==> |a.cs| == 1) && AreBounds(min, max)
      && (WidthAtom(a) || (min == 0 && max == 1))
  }

  predicate IsLit(p: Piece) {
    p.Once? && p.a.Lit?
  }

  /** Literals side by side would be read as one. */
  predicate OkPieces(b: Pieces) {
    b.Cons? ==> OkPiece(b.p) && OkPieces(b.ps) && !(IsLit(b.p) && b.ps.Cons? && IsLit(b.ps.p))
  }

  predicate OkAlts(alts: Alts) {
    OkPieces(alts.b) && (alts.Or? ==> OkAlts(alts.more))
  }

  // ---- groups are numbered in the order of their parentheses

  function GroupsAtom(a: Atom): nat {
    if a.Group? then (if a.no == -1 then 0 else 1) + GroupsAlts(a.alts) else 0
  }

  function GroupsPieces(b: Pieces): nat {
    if b.Nil? then 0 else GroupsAtom(b.p.a) + GroupsPieces(b.ps)
  }

  function GroupsAlts(alts: Alts): nat {
    GroupsPieces(alts.b) + if alts.Or? then GroupsAlts(alts.more) else 0
  }

  predicate NumberedAtom(a: Atom, n: nat) {
    a.Group? ==> if a.no == -1 then NumberedAlts(a.alts, n) else a.no == n + 1 && NumberedAlts(a.alts, n + 1)
  }

  predicate NumberedPieces(b: Pieces, n: nat) {
    b.Cons? ==> NumberedAtom(b.p.a, n) && NumberedPieces(b.ps, n + GroupsAtom(b.p.a))
  }

  predicate NumberedAlts(alts: Alts, n: nat) {
    NumberedPieces(alts.b, n) && (alts.Or? ==> NumberedAlts(alts.more, n + GroupsPieces(alts.b)))
  }

  // ---- the patterns

  function ShowAtom(a: Atom, st: Style): (t: string)
    requires OkAtom(a)
    ensures t != "" && Starts(t[0])
  {
    match a
    case Lit(cs) => ShowLit(cs, st)
    case Dot => "."
    case Class(neg, ws) => (if neg then "[^" else "[") + ShowSpans(ws, st) + "]"
    case Zero(op) => ShowZero(op)
    case Group(no, alts) => (if no == -1 then "(?:" else "(") + ShowAlts(alts, st) + ")"
  }

  function ShowPiece(p: Piece, st: Style): (t: string)
    requires OkPiece(p)
    ensures t != "" && Starts(t[0])
  {
    match p
    case Once(a) => ShowAtom(a, st)
    case Repeat(a, min, max, lazy) => ShowAtom(a, st) + ShowBounds(min, max) + if lazy then "?" else ""
  }

  function ShowPieces(b: Pieces, st: Style): (t: string)
    requires OkPieces(b)
    ensures b.Cons? ==> t != "" && Starts(t[0])
  {
    if b.Nil? then "" else ShowPiece(b.p, st) + ShowPieces(b.ps, st)
  }

  function ShowAlts(alts: Alts, st: Style): string
    requires OkAlts(alts)
  {
    if alts.Last? then ShowPieces(alts.b, st) else ShowPieces(alts.b, st) + "|" + ShowAlts(alts.more, st)
  }
}
