// The pattern syntax jim_regcomp accepts (cflags 0), as a function from pattern text to a syntax
// tree or the error it reports. Nothing is emitted here.
module RegexParse {
  import opened RegexSyntax

  const REG_ERR_TOO_BIG := 5
  const REG_ERR_UNMATCHED_PAREN := 8
  const REG_ERR_UNMATCHED_BRACES := 9
  const REG_ERR_BAD_COUNT := 10
  const REG_ERR_JUNK_ON_END := 11
  const REG_ERR_OPERAND_COULD_BE_EMPTY := 12
  const REG_ERR_NESTED_COUNT := 13
  const REG_ERR_INTERNAL := 14
  const REG_ERR_COUNT_FOLLOWS_NOTHING := 15
  const REG_ERR_INVALID_ESCAPE := 16
  const REG_ERR_NULL_CHAR := 18
  const REG_ERR_UNMATCHED_BRACKET := 19

  /** A construct read: its value, where reading goes on, and how many capturing groups were
      opened so far; or an error. */
  datatype Parsed<T> = Bad(err: int) | Good(v: T, at: nat, nsub: nat)

  /** The character at i, NUL at the terminator. */
  function Peek(pat: string, i: nat): char {
    if i < |pat| then pat[i] else '\0'
  }

  predicate IsMult(c: char) {
    c == '*' || c == '+' || c == '?' || c == '{'
  }

  predicate IsMeta(c: char) {
    c in "^$.[()|?{+*"
  }

  // ---- escapes

  function HexDigit(c: char): int {
    if '0' <= c <= '9' then c as int - '0' as int
    else if 'a' <= c <= 'f' then c as int - 'a' as int + 10
    else if 'A' <= c <= 'F' then c as int - 'A' as int + 10
    else -1
  }

  /** Two's complement reading of the low 32 bits. */
  function Int32(v: int): int {
    var m := v % 0x1_0000_0000;
    if m >= 0x8000_0000 then m - 0x1_0000_0000 else m
  }

  /** How many hex digits (at most n) stand at i. */
  function HexLen(pat: string, i: nat, n: nat): (k: nat)
    ensures k <= n && (i <= |pat| ==> i + k <= |pat|)
    decreases n
  {
    if n == 0 || HexDigit(Peek(pat, i)) == -1 then 0 else 1 + HexLen(pat, i + 1, n - 1)
  }

  /** The number written by the k hex digits at i, read on from acc. */
  function HexVal(pat: string, i: nat, k: nat, acc: int): int
    decreases k
  {
    if k == 0 then acc else HexVal(pat, i + 1, k - 1, acc * 16 + HexDigit(Peek(pat, i)))
  }

  /** Decodes what follows a backslash at i: bytes consumed and the character. */
  function DecodeEscape(pat: string, i: nat): (r: (nat, int))
    ensures i <= |pat| ==> i + r.0 <= |pat|
  {
    var c := Peek(pat, i);
    if c == '\0' then (0, '\\' as int)
    else if c == 'b' then (1, 8)
    else if c == 'e' then (1, 27)
    else if c == 'f' then (1, 12)
    else if c == 'n' then (1, 10)
    else if c == 'r' then (1, 13)
    else if c == 't' then (1, 9)
    else if c == 'v' then (1, 11)
    else if c == 'u' then
      if Peek(pat, i + 1) == '{' then
        var k := HexLen(pat, i + 2, 6);
        var v := HexVal(pat, i + 2, k, 0);
        if k > 0 && Peek(pat, i + 2 + k) == '}' && 0 <= v <= 0x1fffff then (k + 3, v) else (1, 'u' as int)
      else HexEscape(pat, i, 4)
    else if c == 'U' then HexEscape(pat, i, 8)
    else if c == 'x' then HexEscape(pat, i, 2)
    else (1, c as int)
  }

  /** A letter at i followed by up to n hex digits; without digits the letter itself. */
  function HexEscape(pat: string, i: nat, n: nat): (r: (nat, int))
    requires i < |pat|
    ensures i + r.0 <= |pat|
  {
    var k := HexLen(pat, i + 1, n);
    if k > 0 then (k + 1, Int32(HexVal(pat, i + 1, k, 0))) else (1, pat[i] as int)
  }

  // ---- bracket sets

  /** The pair of words for a range; a descending range leaves a second, empty pair behind. */
  function RangeWords(lo: int, hi: int): seq<int>
    decreases lo > hi
  {
    (if lo > hi then RangeWords(hi, lo) else []) + [hi - lo + 1, lo]
  }

  function CharWords(c: char): seq<int> {
    RangeWords(c as int, c as int)
  }

  function SpanWords(lo: char, hi: char): seq<int> {
    RangeWords(lo as int, hi as int)
  }

  function StringWords(str: string): seq<int> {
    if str == "" then [] else CharWords(str[0]) + StringWords(str[1..])
  }

  const CLASS_NAMES: seq<string> := [
    ":alpha:", ":alnum:", ":space:", ":blank:", ":upper:", ":lower:",
    ":digit:", ":xdigit:", ":cntrl:", ":graph:", ":print:", ":punct:"]

  function ClassWords(cc: nat): seq<int> {
    var alpha := SpanWords('a', 'z') + SpanWords('A', 'Z');
    if cc == 0 then alpha
    else if cc == 1 then SpanWords('0', '9') + alpha
    else if cc == 2 then StringWords(" \t\r\n\U{0c}\U{0b}")
    else if cc == 3 then StringWords(" \t")
    else if cc == 4 then SpanWords('A', 'Z')
    else if cc == 5 then SpanWords('a', 'z')
    else if cc == 6 then SpanWords('0', '9')
    else if cc == 7 then SpanWords('a', 'f') + SpanWords('A', 'F') + SpanWords('0', '9')
    else if cc == 8 then RangeWords(0, 31) + RangeWords(127, 127)
    else if cc == 9 then SpanWords('!', '~')
    else if cc == 10 then SpanWords(' ', '~')
    else SpanWords('!', '/') + SpanWords(':', '@') + SpanWords('[', '`') + SpanWords('{', '~')
  }

  predicate NameHere(pat: string, i: nat, name: string) {
    i <= |pat| && name <= pat[i..]
  }

  /** The first class, from cc on, whose name stands at i; |CLASS_NAMES| if none. */
  function FindClass(pat: string, i: nat, cc: nat): (r: nat)
    requires cc <= |CLASS_NAMES|
    ensures cc <= r <= |CLASS_NAMES|
    ensures r < |CLASS_NAMES| ==> NameHere(pat, i, CLASS_NAMES[r])
    decreases |CLASS_NAMES| - cc
  {
    if cc == |CLASS_NAMES| || NameHere(pat, i, CLASS_NAMES[cc]) then cc else FindClass(pat, i, cc + 1)
  }

  /** What one member of a set, ending before j and starting with `start`, adds. */
  function SetRest(pat: string, start: int, j: nat): (r: Parsed<seq<int>>)
    requires j <= |pat|
    ensures r.Good? ==> j <= r.at <= |pat|
  {
    if Peek(pat, j) == '-' && Peek(pat, j + 1) != '\0' && Peek(pat, j + 1) != ']' then
      if Peek(pat, j + 1) == '\\' then
        var (n, ch) := DecodeEscape(pat, j + 2);
        if ch == 0 then Bad(REG_ERR_NULL_CHAR)
        else if ch == '\\' as int && Peek(pat, j + 2 + n) == '\0' then Bad(REG_ERR_INVALID_ESCAPE)
        else Good(RangeWords(start, ch), j + 2 + n, 0)
      else Good(RangeWords(start, Peek(pat, j + 1) as int), j + 2, 0)
    else if start == '[' as int && Peek(pat, j) == ':' then
      var cc := FindClass(pat, j, 0);
      if cc == |CLASS_NAMES| then Good(RangeWords(start, start), j, 0)
      else if Peek(pat, j + |CLASS_NAMES[cc]|) != ']' then Bad(REG_ERR_UNMATCHED_BRACKET)
      else Good(ClassWords(cc), j + |CLASS_NAMES[cc]| + 1, 0)
    else Good(RangeWords(start, start), j, 0)
  }

  /** One member of a set at i. */
  function SetItem(pat: string, i: nat): (r: Parsed<seq<int>>)
    requires i < |pat|
    ensures r.Good? ==> i < r.at <= |pat|
  {
    if pat[i] == '\\' then
      var c := Peek(pat, i + 1);
      if c == 's' then Good(ClassWords(2), i + 2, 0)
      else if c == 'd' then Good(ClassWords(6), i + 2, 0)
      else if c == 'w' then Good(CharWords('_') + ClassWords(1), i + 2, 0)
      else
        var (n, ch) := DecodeEscape(pat, i + 1);
        if ch == 0 then Bad(REG_ERR_NULL_CHAR)
        else if ch == '\\' as int && Peek(pat, i + 1 + n) == '\0' then Bad(REG_ERR_INVALID_ESCAPE)
        else SetRest(pat, ch, i + 1 + n)
    else SetRest(pat, pat[i] as int, i + 1)
  }

  /** Members up to the closing bracket; `at` is the bracket. */
  function SetItems(pat: string, i: nat): (r: Parsed<seq<int>>)
    requires i <= |pat|
    ensures r.Good? ==> i <= r.at < |pat| && pat[r.at] == ']'
    decreases |pat| - i
  {
    if Peek(pat, i) == ']' then Good([], i, 0)
    else if Peek(pat, i) == '\0' then Bad(REG_ERR_UNMATCHED_BRACKET)
    else
      var item := SetItem(pat, i);
      if item.Bad? then item
      else
        var rest := SetItems(pat, item.at);
        if rest.Bad? then rest else Good(item.v + rest.v, rest.at, 0)
  }

  /** A bracket or dash right after the opening stands for itself. */
  function FirstMember(pat: string, i: nat): seq<int> {
    if Peek(pat, i) == ']' || Peek(pat, i) == '-' then CharWords(Peek(pat, i)) else []
  }

  function FirstLen(pat: string, i: nat): nat {
    if Peek(pat, i) == ']' || Peek(pat, i) == '-' then 1 else 0
  }

  /** The set whose opening bracket stands before i. */
  function ParseSet(pat: string, i: nat, nsub: nat): (r: Parsed<Atom>)
    requires i <= |pat|
    ensures r.Good? ==> i < r.at <= |pat| && !r.v.Group?
  {
    var neg := Peek(pat, i) == '^';
    var j := if neg then i + 1 else i;
    var items := SetItems(pat, j + FirstLen(pat, j));
    if items.Bad? then Bad(items.err)
    else Good(Class(neg, FirstMember(pat, j) + items.v), items.at + 1, nsub)
  }

  // ---- literals

  /** Literal characters from i on. A character that a repeat follows is left for its own literal
      unless it is the first. */
  function LitRun(pat: string, i: nat, added: bool): (r: Parsed<seq<int>>)
    requires i <= |pat|
    ensures r.Good? ==> i <= r.at <= |pat|
    ensures r.Good? && !added && i < |pat| && !IsMeta(pat[i]) && pat[i] != '\0' && !SpecialHere(pat, i)
            ==> i < r.at && r.v != []
    decreases |pat| - i
  {
    if Peek(pat, i) == '\0' || IsMeta(Peek(pat, i)) then Good([], i, 0)
    else if SpecialHere(pat, i) then Good([], i, 0)
    else
      var (n, ch) := LitChar(pat, i);
      if Peek(pat, i) == '\\' && Peek(pat, i + 1) != '\0' && ch == 0 then Bad(REG_ERR_NULL_CHAR)
      else if IsMult(Peek(pat, i + n)) then
        if added then Good([], i, 0) else Good([ch], i + n, 0)
      else
        var rest := LitRun(pat, i + n, true);
        if rest.Bad? then rest else Good([ch] + rest.v, rest.at, 0)
  }

  /** A backslash starting one of the special escapes, which no literal contains. */
  predicate SpecialHere(pat: string, i: nat) {
    Peek(pat, i) == '\\' && Peek(pat, i + 1) != '\0' && Peek(pat, i + 1) in "<>mMwWdDsSAZ"
  }

  /** The literal character at i: its length and code. */
  function LitChar(pat: string, i: nat): (r: (nat, int))
    requires i < |pat|
    ensures 1 <= r.0 && i + r.0 <= |pat|
  {
    if pat[i] == '\\' && Peek(pat, i + 1) != '\0' then
      var (n, ch) := DecodeEscape(pat, i + 1);
      (n + 1, ch)
    else (1, pat[i] as int)
  }

  // ---- counts

  predicate IsSpace(c: char) {
    c == ' ' || c == '\t' || c == '\n' || c == '\U{0b}' || c == '\U{0c}' || c == '\r'
  }

  function SkipSpace(pat: string, i: nat): (r: nat)
    ensures i <= |pat| ==> i <= r <= |pat|
    ensures forall j | i <= j < r && j < |pat| :: pat[j] != '}'
    decreases |pat| - i
  {
    if i < |pat| && IsSpace(pat[i]) then SkipSpace(pat, i + 1) else i
  }

  predicate IsDigit(c: char) {
    '0' <= c <= '9'
  }

  function DigitsEnd(pat: string, i: nat): (r: nat)
    ensures i <= |pat| ==> i <= r <= |pat|
    ensures forall j | i <= j < r && j < |pat| :: pat[j] != '}'
    decreases |pat| - i
  {
    if i < |pat| && IsDigit(pat[i]) then DigitsEnd(pat, i + 1) else i
  }

  function Decimal(str: string): nat {
    if str == "" then 0
    else Decimal(str[..|str| - 1]) * 10 + if IsDigit(str[|str| - 1]) then str[|str| - 1] as int - '0' as int else 0
  }

  /** strtoul(pat + i, &end, 10) converted to int: the value and the end; end is i without digits.
      Values past 64 bits saturate, a minus sign negates modulo 2^64. */
  function StrToUl(pat: string, i: nat): (r: (int, nat))
    requires i <= |pat|
    ensures i <= r.1 <= |pat|
    ensures forall j | i <= j < r.1 :: pat[j] != '}'
  {
    var a := SkipSpace(pat, i);
    var b := if Peek(pat, a) == '+' || Peek(pat, a) == '-' then a + 1 else a;
    var e := DigitsEnd(pat, b);
    if e == b then (0, i)
    else
      var v := Decimal(pat[b..e]);
      var big := 0x1_0000_0000_0000_0000;
      if v >= big then (-1, e)
      else (Int32((if Peek(pat, a) == '-' then -1 else 1) * v), e)
  }

  datatype Bounds = Bounds(min: int, max: int)

  /** The repeat operator at i: its bounds; `at` is its last character. */
  function ParseCount(pat: string, i: nat): (r: Parsed<Bounds>)
    requires i < |pat| && IsMult(pat[i])
    ensures r.Good? ==> i <= r.at < |pat|
  {
    if pat[i] != '{' then
      Good(Bounds(if pat[i] == '+' then 1 else 0, if pat[i] == '?' then 1 else MAX_REP_COUNT), i, 0)
    else
      var (min, e) := StrToUl(pat, i + 1);
      if e == i + 1 then Bad(REG_ERR_BAD_COUNT)
      else if Peek(pat, e) == '}' then CheckCount(min, min, e)
      else if Peek(pat, e) == '\0' then Bad(REG_ERR_UNMATCHED_BRACES)
      else
        var (max, e2) := StrToUl(pat, e + 1);
        if Peek(pat, e2) != '}' then Bad(REG_ERR_UNMATCHED_BRACES)
        else if e2 == e + 1 then
          if min >= 100 then Bad(REG_ERR_BAD_COUNT) else Good(Bounds(min, MAX_REP_COUNT), e2, 0)
        else CheckCount(min, max, e2)
  }

  function CheckCount(min: int, max: int, at: nat): (r: Parsed<Bounds>)
    ensures r.Good? ==> r.at == at
  {
    if max < min || max >= 100 || min >= 100 then Bad(REG_ERR_BAD_COUNT) else Good(Bounds(min, max), at, 0)
  }

  // ---- the grammar

  function ParseAtom(pat: string, i: nat, nsub: nat): (r: Parsed<Atom>)
    requires i <= |pat|
    ensures r.Good? ==> i < r.at <= |pat|
    decreases |pat| - i, 1
  {
    var c := Peek(pat, i);
    if c == '^' then Good(Zero(BOL), i + 1, nsub)
    else if c == '$' then Good(Zero(EOL), i + 1, nsub)
    else if c == '.' then Good(Dot, i + 1, nsub)
    else if c == '[' then ParseSet(pat, i + 1, nsub)
    else if c == '(' then ParseGroup(pat, i + 1, nsub)
    else if c == '\0' || c == '|' || c == ')' then Bad(REG_ERR_INTERNAL)
    else if IsMult(c) then Bad(REG_ERR_COUNT_FOLLOWS_NOTHING)
    else ParseLeaf(pat, i, nsub)
  }

  /** A special escape or a literal. */
  function ParseLeaf(pat: string, i: nat, nsub: nat): (r: Parsed<Atom>)
    requires i < |pat| && !IsMeta(pat[i]) && pat[i] != '\0'
    ensures r.Good? ==> i < r.at <= |pat| && !r.v.Group?
  {
    var d := Peek(pat, i + 1);
    if pat[i] == '\\' && d == '\0' then Bad(REG_ERR_INVALID_ESCAPE)
    else if SpecialHere(pat, i) then Good(SpecialAtom(d), i + 2, nsub)
    else
      var run := LitRun(pat, i, false);
      if run.Bad? then Bad(run.err) else Good(Lit(run.v), run.at, nsub)
  }

  function SpecialAtom(d: char): (a: Atom)
    ensures !a.Group?
  {
    if d == 'A' then Zero(BOLX)
    else if d == 'Z' then Zero(EOLX)
    else if d == '<' || d == 'm' then Zero(WORDA)
    else if d == '>' || d == 'M' then Zero(WORDZ)
    else if d == 'd' || d == 'D' then Class(d == 'D', ClassWords(6))
    else if d == 'w' || d == 'W' then
      Class(d == 'W', ClassWords(0) + ClassWords(6) + CharWords('_'))
    else Class(d == 'S', ClassWords(2))
  }

  /** The group whose opening parenthesis stands before i. */
  function ParseGroup(pat: string, i: nat, nsub: nat): (r: Parsed<Atom>)
    requires i <= |pat|
    ensures r.Good? ==> i < r.at <= |pat|
    decreases |pat| - i, 5
  {
    var plain := Peek(pat, i) == '?' && Peek(pat, i + 1) == ':';
    var j := if plain then i + 2 else i;
    var n := if plain then nsub else nsub + 1;
    var body := ParseAlts(pat, j, n);
    if body.Bad? then Bad(body.err)
    else if Peek(pat, body.at) != ')' then Bad(REG_ERR_UNMATCHED_PAREN)
    else Good(Group(if plain then -1 else n, body.v), body.at + 1, body.nsub)
  }

  function ParsePiece(pat: string, i: nat, nsub: nat): (r: Parsed<Piece>)
    requires i <= |pat|
    ensures r.Good? ==> i < r.at <= |pat|
    decreases |pat| - i, 2
  {
    var a := ParseAtom(pat, i, nsub);
    if a.Bad? then Bad(a.err)
    else if a.at == |pat| || !IsMult(pat[a.at]) then Good(Once(a.v), a.at, a.nsub)
    else if !WidthAtom(a.v) && pat[a.at] != '?' then Bad(REG_ERR_OPERAND_COULD_BE_EMPTY)
    else
      var c := ParseCount(pat, a.at);
      if c.Bad? then Bad(c.err)
      else
        var lazy := Peek(pat, c.at + 1) == '?';
        var e := if lazy then c.at + 2 else c.at + 1;
        if IsMult(Peek(pat, e)) then Bad(REG_ERR_NESTED_COUNT)
        else Good(Repeat(a.v, c.v.min, c.v.max, lazy), e, a.nsub)
  }

  predicate EndsBranch(pat: string, i: nat) {
    Peek(pat, i) == '\0' || Peek(pat, i) == ')' || Peek(pat, i) == '|'
  }

  function ParsePieces(pat: string, i: nat, nsub: nat): (r: Parsed<Pieces>)
    requires i <= |pat|
    ensures r.Good? ==> i <= r.at <= |pat| && EndsBranch(pat, r.at)
    decreases |pat| - i, 3
  {
    if EndsBranch(pat, i) then Good(Nil, i, nsub)
    else
      var p := ParsePiece(pat, i, nsub);
      if p.Bad? then Bad(p.err)
      else
        var rest := ParsePieces(pat, p.at, p.nsub);
        if rest.Bad? then rest else Good(Cons(p.v, rest.v), rest.at, rest.nsub)
  }

  function ParseAlts(pat: string, i: nat, nsub: nat): (r: Parsed<Alts>)
    requires i <= |pat|
    ensures r.Good? ==> i <= r.at <= |pat| && EndsBranch(pat, r.at) && Peek(pat, r.at) != '|'
    decreases |pat| - i, 4
  {
    var b := ParsePieces(pat, i, nsub);
    if b.Bad? then Bad(b.err)
    else if Peek(pat, b.at) != '|' then Good(Last(b.v), b.at, b.nsub)
    else
      var more := ParseAlts(pat, b.at + 1, b.nsub);
      if more.Bad? then more else Good(Or(b.v, more.v), more.at, more.nsub)
  }

  /** A whole pattern: its tree, or the error jim_regcomp returns. */
  function ParseRegex(pat: string): (r: Parsed<Alts>) {
    var r := ParseAlts(pat, 0, 0);
    if r.Bad? then r
    else if Peek(pat, r.at) == ')' then Bad(REG_ERR_UNMATCHED_PAREN)
    else if r.at != |pat| then Bad(REG_ERR_JUNK_ON_END)
    else if r.nsub >= REG_MAX_PAREN then Bad(REG_ERR_TOO_BIG)
    else r
  }
}
