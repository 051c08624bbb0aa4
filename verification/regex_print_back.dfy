// Patterns written out are read back as the same expressions.
module RegexPrintBack {
  import opened RegexSyntax
  import opened RegexParse
  import opened RegexPrint

  /** The text t stands in the pattern at i. */
  predicate Stands(pat: string, i: nat, t: string) {
    i + |t| <= |pat| && pat[i..i + |t|] == t
  }

  lemma StandsAt(pat: string, i: nat, t: string, k: nat)
    requires Stands(pat, i, t) && k < |t|
    ensures Peek(pat, i + k) == t[k] && i + k < |pat| && pat[i + k] == t[k] && i + |t| <= |pat|
  {
    assert pat[i..i + |t|][k] == pat[i + k];
  }

  lemma StandsSplit(pat: string, i: nat, a: string, b: string)
    requires Stands(pat, i, a + b)
    ensures Stands(pat, i, a) && Stands(pat, i + |a|, b) && i + |a| + |b| <= |pat| && |a + b| == |a| + |b|
  {
    assert pat[i..i + |a|] == pat[i..i + |a + b|][..|a|] == a;
    assert pat[i + |a|..i + |a| + |b|] == pat[i..i + |a + b|][|a|..] == b;
  }

  // ---- characters and literals

  lemma CodeBack(pat: string, i: nat, c: int)
    requires IsCode(c) && Stands(pat, i, ShowHex(c))
    ensures i + 4 <= |pat| && Peek(pat, i) == '\\' && Peek(pat, i + 1) == 'x' && DecodeEscape(pat, i + 1) == (3, c)
  {
    hide ShowHex, Stands;
    CodeChars(c);
    StandsAt(pat, i, ShowHex(c), 0);
    StandsAt(pat, i, ShowHex(c), 1);
    StandsAt(pat, i, ShowHex(c), 2);
    StandsAt(pat, i, ShowHex(c), 3);
    HexTwo(pat, i + 2, c / 16, c % 16);
  }

  lemma CodeChars(c: int)
    requires IsCode(c)
    ensures ShowHex(c) == ['\\', 'x', HexChar(c / 16), HexChar(c % 16)]
  {
  }

  lemma HexTwo(pat: string, i: nat, a: int, b: int)
    requires 0 <= a < 16 && 0 <= b < 16 && Peek(pat, i) == HexChar(a) && Peek(pat, i + 1) == HexChar(b)
    ensures HexLen(pat, i, 2) == 2 && HexVal(pat, i, 2, 0) == a * 16 + b && Int32(a * 16 + b) == a * 16 + b
  {
    hide HexDigit;
  }

  /** At i a run of literal characters stops. */
  predicate RunStops(pat: string, i: nat) {
    i <= |pat| && LitRun(pat, i, true) == Good([], i, 0)
  }

  /** A character as it is, escaped by a backslash, or in hexadecimal. */
  lemma CharBack(pat: string, i: nat, c: int, special: string, st: Style)
    requires IsCode(c) && (special == META || special == SET_META) && Stands(pat, i, ShowChar(c, special, st))
    ensures var n := |ShowChar(c, special, st)|;
            && i + n <= |pat|
            && (Peek(pat, i) == '\\' ==>
                  && Peek(pat, i + 1) !in "<>mMwWdDsSAZ\0" && DecodeEscape(pat, i + 1) == (n - 1, c) && n > 1)
            && (Peek(pat, i) != '\\' ==> n == 1 && Peek(pat, i) as int == c && Peek(pat, i) !in special + "\0")
  {
    hide Stands;
    if st == Coded || !Printable(c) {
      CodeBack(pat, i, c);
    } else {
      hide DecodeEscape;
      StandsAt(pat, i, ShowChar(c, special, st), 0);
      if c as char in special {
        StandsAt(pat, i, ShowChar(c, special, st), 1);
        PlainEscape(pat, i + 1);
        PlainOnly(Peek(pat, i + 1));
      } else {
        RawOnly(c, special);
      }
      hide *;
    }
  }

  lemma PlainOnly(c: char)
    requires c in META + SET_META
    ensures c !in "<>mMwWdDsSAZ\0"
  {
  }

  lemma RawOnly(c: int, special: string)
    requires Printable(c) && (special == META || special == SET_META) && c as char !in special
    ensures c as char != '\\' && c as char !in special + "\0"
  {
  }

  /** A backslash in front of a character that is neither letter nor digit stands for it. */
  lemma PlainEscape(pat: string, i: nat)
    requires Peek(pat, i) in META + SET_META
    ensures DecodeEscape(pat, i) == (1, Peek(pat, i) as int)
  {
  }

  lemma EscapeIsCode(pat: string, i: nat, c: int, st: Style)
    requires IsCode(c) && Stands(pat, i, ShowCode(c, st))
    ensures i + |ShowCode(c, st)| <= |pat| && !SpecialHere(pat, i) && LitChar(pat, i) == (|ShowCode(c, st)|, c)
    ensures !IsMeta(Peek(pat, i)) && Peek(pat, i) != '\0' && (pat[i] == '\\' ==> Peek(pat, i + 1) != '\0')
  {
    hide DecodeEscape, Stands;
    CharBack(pat, i, c, META, st);
  }

  /** A character that a repeat follows: read alone, or left for later. */
  lemma RepeatedBack(pat: string, i: nat, c: int, st: Style)
    requires IsCode(c) && Stands(pat, i, ShowCode(c, st)) && IsMult(Peek(pat, i + |ShowCode(c, st)|))
    ensures LitRun(pat, i, false) == Good([c], i + |ShowCode(c, st)|, 0) && RunStops(pat, i)
  {
    hide SpecialHere, LitChar, Stands, ShowCode;
    EscapeIsCode(pat, i, c, st);
  }

  lemma OneBack(pat: string, i: nat, c: int, st: Style, added: bool)
    requires IsCode(c) && Stands(pat, i, ShowCode(c, st)) && !IsMult(Peek(pat, i + |ShowCode(c, st)|))
    ensures i + |ShowCode(c, st)| <= |pat|
    ensures var r := LitRun(pat, i + |ShowCode(c, st)|, true);
            r.Good? ==> LitRun(pat, i, added) == Good([c] + r.v, r.at, 0)
  {
    hide SpecialHere, LitChar, Stands, ShowCode;
    EscapeIsCode(pat, i, c, st);
  }

  lemma {:induction false} LitBack(pat: string, i: nat, cs: seq<int>, st: Style, added: bool)
    requires cs != [] && AllCodes(cs) && Stands(pat, i, ShowLit(cs, st))
    requires RunStops(pat, i + |ShowLit(cs, st)|) && !IsMult(Peek(pat, i + |ShowLit(cs, st)|))
    ensures LitRun(pat, i, added) == Good(cs, i + |ShowLit(cs, st)|, 0)
    decreases |cs|
  {
    hide Stands, LitRun, ShowCode, ShowLit;
    LitSplit(cs, st);
    var n := |ShowCode(cs[0], st)|;
    StandsSplit(pat, i, ShowCode(cs[0], st), ShowLit(cs[1..], st));
    if |cs| > 1 {
      LitSplit(cs[1..], st);
      StandsAt(pat, i + n, ShowLit(cs[1..], st), 0);
      FirstCode(pat, i + n, cs[1..], st);
      LitBack(pat, i + n, cs[1..], st, true);
    }
    OneBack(pat, i, cs[0], st, added);
    assert [cs[0]] + cs[1..] == cs;
  }

  lemma LitSplit(cs: seq<int>, st: Style)
    requires cs != [] && AllCodes(cs)
    ensures IsCode(cs[0]) && AllCodes(cs[1..]) && ShowLit(cs, st) == ShowCode(cs[0], st) + ShowLit(cs[1..], st)
    ensures cs[1..] == [] ==> ShowLit(cs[1..], st) == ""
  {
  }

  // ---- sets

  /** What may follow a member of a set: the end, or another member. */
  predicate MemberEnds(pat: string, i: nat) {
    Peek(pat, i) != '-' && Peek(pat, i) != '\0'
  }

  lemma SpanBack(pat: string, i: nat, len: int, lo: int, st: Style)
    requires len >= 1 && IsCode(lo) && IsCode(lo + len - 1) && Stands(pat, i, ShowSpan(len, lo, st))
    requires MemberEnds(pat, i + |ShowSpan(len, lo, st)|)
    ensures i < |pat| && SetItem(pat, i) == Good([len, lo], i + |ShowSpan(len, lo, st)|, 0)
  {
    hide Stands, MemberEnds, SetItem, ShowMember, IsCode;
    if len == 1 && lo != '[' as int {
      SpanOne(pat, i, lo, ShowSpan(len, lo, st), st);
    } else {
      SpanRange(pat, i, len, lo, ShowSpan(len, lo, st), st);
    }
  }

  lemma SpanOne(pat: string, i: nat, lo: int, t: string, st: Style)
    requires IsCode(lo) && lo != '[' as int && t == ShowMember(lo, st) && Stands(pat, i, t) && MemberEnds(pat, i + |t|)
    ensures i < |pat| && SetItem(pat, i) == Good([1, lo], i + |t|, 0)
  {
    hide *;
    ItemBack(pat, i, lo, st);
    RestOne(pat, lo, i + |t|);
  }

  lemma SpanRange(pat: string, i: nat, len: int, lo: int, t: string, st: Style)
    requires len >= 1 && IsCode(lo) && IsCode(lo + len - 1) && Stands(pat, i, t) && MemberEnds(pat, i + |t|)
    requires t == ShowMember(lo, st) + "-" + ShowMember(lo + len - 1, st)
    ensures i < |pat| && SetItem(pat, i) == Good([len, lo], i + |t|, 0)
  {
    hide *;
    var a, b := ShowMember(lo, st), ShowMember(lo + len - 1, st);
    StandsSplit(pat, i, a + "-", b);
    StandsSplit(pat, i, a, "-");
    StandsAt(pat, i + |a|, "-", 0);
    ItemBack(pat, i, lo, st);
    RestRange(pat, lo, lo + len - 1, i + |a|, st);
  }

  /** A member starts with the character written. */
  lemma ItemBack(pat: string, i: nat, lo: int, st: Style)
    requires IsCode(lo) && Stands(pat, i, ShowMember(lo, st))
    requires MemberEnds(pat, i + |ShowMember(lo, st)|) || Peek(pat, i + |ShowMember(lo, st)|) == '-'
    ensures i + |ShowMember(lo, st)| <= |pat|
    ensures i < |pat| && SetItem(pat, i) == SetRest(pat, lo, i + |ShowMember(lo, st)|)
  {
    hide Stands, DecodeEscape, SetRest;
    CharBack(pat, i, lo, SET_META, st);
  }

  lemma RestOne(pat: string, lo: int, j: nat)
    requires j <= |pat| && MemberEnds(pat, j) && lo != '[' as int
    ensures SetRest(pat, lo, j) == Good([1, lo], j, 0)
  {
    assert RangeWords(lo, lo) == [1, lo];
  }

  lemma RestRange(pat: string, lo: int, hi: int, j: nat, st: Style)
    requires IsCode(lo) && IsCode(hi) && lo <= hi && j < |pat| && pat[j] == '-'
    requires Stands(pat, j + 1, ShowMember(hi, st))
    requires MemberEnds(pat, j + 1 + |ShowMember(hi, st)|)
    ensures SetRest(pat, lo, j) == Good([hi - lo + 1, lo], j + 1 + |ShowMember(hi, st)|, 0)
  {
    hide Stands, DecodeEscape;
    CharBack(pat, j + 1, hi, SET_META, st);
    assert RangeWords(lo, hi) == [hi - lo + 1, lo];
  }

  lemma {:induction false} SpansBack(pat: string, i: nat, ws: seq<int>, st: Style)
    requires AllSpans(ws) && Stands(pat, i, ShowSpans(ws, st)) && Peek(pat, i + |ShowSpans(ws, st)|) == ']'
    ensures i <= |pat| && SetItems(pat, i) == Good(ws, i + |ShowSpans(ws, st)|, 0)
    decreases |ws|
  {
    hide Stands, SetItem, ShowSpan, ShowMember;
    if ws == [] {
      StandsIn(pat, i, "");
    } else {
      var item := ShowSpan(ws[0], ws[1], st);
      StandsSplit(pat, i, item, ShowSpans(ws[2..], st));
      SpanStarts(pat, i, ws[0], ws[1], st);
      if ws[2..] != [] {
        StandsSplit(pat, i + |item|, ShowSpan(ws[2..][0], ws[2..][1], st), ShowSpans(ws[2..][2..], st));
        SpanStarts(pat, i + |item|, ws[2..][0], ws[2..][1], st);
      }
      SpanBack(pat, i, ws[0], ws[1], st);
      SpansBack(pat, i + |item|, ws[2..], st);
      assert [ws[0], ws[1]] + ws[2..] == ws;
    }
  }

  /** No member starts like the end of a set or a range. */
  lemma SpanStarts(pat: string, i: nat, len: int, lo: int, st: Style)
    requires len >= 1 && IsCode(lo) && IsCode(lo + len - 1) && Stands(pat, i, ShowSpan(len, lo, st))
    ensures Peek(pat, i) !in "]-^\0"
  {
    hide Stands;
    StandsAt(pat, i, ShowSpan(len, lo, st), 0);
  }

  lemma StandsIn(pat: string, i: nat, t: string)
    requires Stands(pat, i, t)
    ensures i + |t| <= |pat|
  {
  }

  lemma SetBack(pat: string, i: nat, nsub: nat, neg: bool, ws: seq<int>, st: Style)
    requires ws != [] && AllSpans(ws) && Stands(pat, i, (if neg then "^" else "") + ShowSpans(ws, st) + "]")
    ensures i <= |pat|
    ensures ParseSet(pat, i, nsub) == Good(Class(neg, ws), i + (if neg then 1 else 0) + |ShowSpans(ws, st)| + 1, nsub)
  {
    hide Stands, SetItems, ShowSpan;
    var caret := if neg then "^" else "";
    StandsSplit(pat, i, caret + ShowSpans(ws, st), "]");
    StandsSplit(pat, i, caret, ShowSpans(ws, st));
    var j := i + |caret|;
    StandsSplit(pat, j, ShowSpan(ws[0], ws[1], st), ShowSpans(ws[2..], st));
    SpanStarts(pat, j, ws[0], ws[1], st);
    hide AllSpans, ShowSpans;
    if neg {
      StandsAt(pat, i, "^", 0);
    }
    StandsAt(pat, j + |ShowSpans(ws, st)|, "]", 0);
    SpansBack(pat, j, ws, st);
    assert [] + ws == ws;
  }

  // ---- counts

  lemma TwoBack(pat: string, i: nat, n: int)
    requires 0 <= n < 100 && Stands(pat, i, Two(n)) && !IsDigit(Peek(pat, i + 2))
    ensures i + 2 <= |pat| && StrToUl(pat, i) == (n, i + 2)
  {
    hide Stands;
    StandsAt(pat, i, Two(n), 0);
    StandsAt(pat, i, Two(n), 1);
    assert DigitsEnd(pat, i + 2) == i + 2;
    assert DigitsEnd(pat, i + 1) == i + 2;
    assert pat[i..i + 2] == Two(n);
    DecimalTwo(n);
  }

  lemma DecimalTwo(n: int)
    requires 0 <= n < 100
    ensures Decimal(Two(n)) == n
  {
    var t := Two(n);
    assert t[..1] == [t[0]] && [t[0]][..0] == "";
    assert IsDigit(t[0]) && t[0] as int - 48 == n / 10 && IsDigit(t[1]) && t[1] as int - 48 == n % 10;
    assert Decimal([t[0]]) == n / 10;
  }

  lemma NoNumber(pat: string, i: nat)
    requires i <= |pat| && Peek(pat, i) == '}'
    ensures StrToUl(pat, i) == (0, i)
  {
  }

  lemma BoundsBack(pat: string, i: nat, min: int, max: int)
    requires AreBounds(min, max) && Stands(pat, i, ShowBounds(min, max))
    ensures i < |pat| && IsMult(pat[i])
    ensures ParseCount(pat, i) == Good(Bounds(min, max), i + |ShowBounds(min, max)| - 1, 0)
  {
    hide Stands, StrToUl, Two;
    StandsAt(pat, i, ShowBounds(min, max), 0);
    if max == MAX_REP_COUNT && min > 1 {
      assert ShowBounds(min, max) == "{" + (Two(min) + ",}");
      StandsSplit(pat, i, "{", Two(min) + ",}");
      StandsSplit(pat, i + 1, Two(min), ",}");
      StandsAt(pat, i + 3, ",}", 0);
      StandsAt(pat, i + 3, ",}", 1);
      TwoBack(pat, i + 1, min);
      NoNumber(pat, i + 4);
    } else if max != MAX_REP_COUNT && !(min == 0 && max == 1) {
      BracesBack(pat, i, min, max);
    }
  }

  lemma BracesBack(pat: string, i: nat, min: int, max: int)
    requires 0 <= min <= max < 100 && Stands(pat, i, "{" + Two(min) + "," + Two(max) + "}")
    ensures i < |pat| && pat[i] == '{' && ParseCount(pat, i) == Good(Bounds(min, max), i + 6, 0)
  {
    hide Stands, StrToUl, Two;
    assert "{" + Two(min) + "," + Two(max) + "}" == "{" + (Two(min) + ("," + (Two(max) + "}")));
    StandsSplit(pat, i, "{", Two(min) + ("," + (Two(max) + "}")));
    StandsAt(pat, i, "{", 0);
    StandsSplit(pat, i + 1, Two(min), "," + (Two(max) + "}"));
    StandsSplit(pat, i + 3, ",", Two(max) + "}");
    StandsAt(pat, i + 3, ",", 0);
    StandsSplit(pat, i + 4, Two(max), "}");
    StandsAt(pat, i + 6, "}", 0);
    TwoBack(pat, i + 1, min);
    TwoBack(pat, i + 4, max);
  }

  // ---- the grammar

  /** What may follow an atom: behind a literal, what ends it, or a repeat of its only character. */
  predicate AtomEnds(pat: string, i: nat, a: Atom) {
    i <= |pat| && (a.Lit? ==> if IsMult(Peek(pat, i)) then |a.cs| == 1 else RunStops(pat, i))
  }

  lemma LitAtomBack(pat: string, i: nat, n: nat, cs: seq<int>, st: Style)
    requires OkAtom(Lit(cs)) && Stands(pat, i, ShowAtom(Lit(cs), st))
    requires AtomEnds(pat, i + |ShowAtom(Lit(cs), st)|, Lit(cs))
    ensures i <= |pat| && ParseAtom(pat, i, n) == Good(Lit(cs), i + |ShowAtom(Lit(cs), st)|, n + GroupsAtom(Lit(cs)))
  {
    hide Stands, LitRun, RunStops, SpecialHere, ShowLit, ShowAtom;
    LitText(cs, st);
    StandsAt(pat, i, ShowLit(cs, st), 0);
    FirstCode(pat, i, cs, st);
    if IsMult(Peek(pat, i + |ShowLit(cs, st)|)) {
      OneLit(cs, st);
      RepeatedBack(pat, i, cs[0], st);
    } else {
      LitBack(pat, i, cs, st, false);
    }
  }

  lemma OneLit(cs: seq<int>, st: Style)
    requires |cs| == 1 && AllCodes(cs)
    ensures IsCode(cs[0]) && ShowLit(cs, st) == ShowCode(cs[0], st) && cs == [cs[0]]
  {
    assert cs[1..] == [];
    assert ShowCode(cs[0], st) + "" == ShowCode(cs[0], st);
  }

  lemma FirstCode(pat: string, i: nat, cs: seq<int>, st: Style)
    requires cs != [] && AllCodes(cs) && Stands(pat, i, ShowLit(cs, st))
    ensures i < |pat| && !IsMeta(pat[i]) && pat[i] != '\0' && !SpecialHere(pat, i)
    ensures pat[i] == '\\' ==> Peek(pat, i + 1) != '\0'
  {
    hide Stands, ShowLit, ShowCode;
    LitSplit(cs, st);
    StandsSplit(pat, i, ShowCode(cs[0], st), ShowLit(cs[1..], st));
    EscapeIsCode(pat, i, cs[0], st);
  }

  lemma ClassAtomBack(pat: string, i: nat, n: nat, neg: bool, ws: seq<int>, st: Style)
    requires OkAtom(Class(neg, ws)) && Stands(pat, i, ShowAtom(Class(neg, ws), st))
    ensures i <= |pat| && ParseAtom(pat, i, n) ==
            Good(Class(neg, ws), i + |ShowAtom(Class(neg, ws), st)|, n + GroupsAtom(Class(neg, ws)))
  {
    hide Stands, ParseSet, ShowSpans, AllSpans;
    var caret := if neg then "^" else "";
    assert ShowAtom(Class(neg, ws), st) == "[" + (caret + ShowSpans(ws, st) + "]");
    StandsSplit(pat, i, "[", caret + ShowSpans(ws, st) + "]");
    StandsAt(pat, i, "[", 0);
    SetBack(pat, i + 1, n, neg, ws, st);
  }

  lemma ZeroAtomBack(pat: string, i: nat, n: nat, op: ZeroOp, st: Style)
    requires OkAtom(Zero(op)) && Stands(pat, i, ShowAtom(Zero(op), st))
    ensures i <= |pat| && ParseAtom(pat, i, n) == Good(Zero(op), i + |ShowAtom(Zero(op), st)|, n + GroupsAtom(Zero(op)))
  {
    hide Stands, LitRun;
    var t := ShowZero(op);
    StandsAt(pat, i, t, 0);
    if op != BOL && op != EOL {
      StandsAt(pat, i, t, 1);
      EscapeNames(op);
    }
  }

  lemma EscapeNames(op: ZeroOp)
    requires op != BOL && op != EOL
    ensures var t := ShowZero(op); |t| == 2 && t[0] == '\\' && t[1] in "<>mMwWdDsSAZ" && t[1] != '\0'
    ensures SpecialAtom(ShowZero(op)[1]) == Zero(op)
  {
    assert ZeroWidthOp(op);
  }

  lemma DotAtomBack(pat: string, i: nat, n: nat, st: Style)
    requires OkAtom(Dot) && Stands(pat, i, ShowAtom(Dot, st))
    ensures i <= |pat| && ParseAtom(pat, i, n) == Good(Dot, i + |ShowAtom(Dot, st)|, n + GroupsAtom(Dot))
  {
    hide Stands;
    StandsAt(pat, i, ".", 0);
  }

  lemma {:induction false} AtomBack(pat: string, i: nat, n: nat, a: Atom, st: Style)
    requires OkAtom(a) && NumberedAtom(a, n) && Stands(pat, i, ShowAtom(a, st))
    requires AtomEnds(pat, i + |ShowAtom(a, st)|, a)
    ensures i <= |pat| && ParseAtom(pat, i, n) == Good(a, i + |ShowAtom(a, st)|, n + GroupsAtom(a))
    decreases a, 0
  {
    hide *;
    match a
    case Lit(cs) => LitAtomBack(pat, i, n, cs, st);
    case Dot => DotAtomBack(pat, i, n, st);
    case Class(neg, ws) => ClassAtomBack(pat, i, n, neg, ws, st);
    case Zero(op) => ZeroAtomBack(pat, i, n, op, st);
    case Group(no, alts) => GroupBack(pat, i, n, no, alts, st);
  }

  lemma {:induction false} GroupBack(pat: string, i: nat, n: nat, no: ParenNo, alts: Alts, st: Style)
    requires OkAtom(Group(no, alts)) && NumberedAtom(Group(no, alts), n)
    requires Stands(pat, i, ShowAtom(Group(no, alts), st))
    ensures i <= |pat|
    ensures ParseAtom(pat, i, n) ==
            Good(Group(no, alts), i + |ShowAtom(Group(no, alts), st)|, n + GroupsAtom(Group(no, alts)))
    decreases alts, 4
  {
    hide Stands, OkAlts, NumberedAlts, GroupsAlts, ShowAlts, ParseAlts, EndsBranch;
    var open := if no == -1 then "(?:" else "(";
    var body := ShowAlts(alts, st);
    assert ShowAtom(Group(no, alts), st) == open + (body + ")");
    StandsSplit(pat, i, open, body + ")");
    var j := i + |open|;
    StandsSplit(pat, j, body, ")");
    StandsAt(pat, i, open, 0);
    StandsAt(pat, j, body + ")", 0);
    StandsAt(pat, j + |body|, ")", 0);
    BodyStart(alts, st);
    if no == -1 {
      StandsAt(pat, i, open, 1);
      StandsAt(pat, i, open, 2);
    }
    CloseEnds(pat, j + |body|);
    AltsBack(pat, j, if no == -1 then n else n + 1, alts, st);
  }

  lemma CloseEnds(pat: string, i: nat)
    requires Peek(pat, i) == ')'
    ensures EndsBranch(pat, i)
  {
  }

  /** No body starts with a question mark. */
  lemma BodyStart(alts: Alts, st: Style)
    requires OkAlts(alts)
    ensures (ShowAlts(alts, st) + ")")[0] != '?'
  {
    hide ShowPieces, OkPieces;
    BranchStart(alts.b, st);
  }

  lemma BranchStart(b: Pieces, st: Style)
    requires OkPieces(b)
    ensures b.Nil? ==> ShowPieces(b, st) == ""
    ensures b.Cons? ==> ShowPieces(b, st) != "" && Starts(ShowPieces(b, st)[0])
  {
  }

  lemma {:induction false} PieceBack(pat: string, i: nat, n: nat, p: Piece, st: Style)
    requires OkPiece(p) && NumberedAtom(p.a, n) && Stands(pat, i, ShowPiece(p, st))
    requires var e := i + |ShowPiece(p, st)|; !IsMult(Peek(pat, e)) && (IsLit(p) ==> RunStops(pat, e))
    ensures i <= |pat| && ParsePiece(pat, i, n) == Good(p, i + |ShowPiece(p, st)|, n + GroupsAtom(p.a))
    decreases p, 1
  {
    hide Stands, OkAtom, NumberedAtom, GroupsAtom, ParseAtom, RunStops, ShowAtom, ParseCount, WidthAtom, ShowBounds;
    match p
    case Once(a) =>
      StandsIn(pat, i, ShowAtom(a, st));
      AtomBack(pat, i, n, a, st);
    case Repeat(a, min, max, lazy) =>
      var t := ShowAtom(a, st);
      var c := ShowBounds(min, max);
      StandsSplit(pat, i, t + c, if lazy then "?" else "");
      StandsSplit(pat, i, t, c);
      StandsAt(pat, i + |t|, c, 0);
      AtomBack(pat, i, n, a, st);
      BoundsBack(pat, i + |t|, min, max);
      if lazy {
        StandsAt(pat, i + |t| + |c|, "?", 0);
      }
      QuestionOnly(min, max, a);
  }

  /** What could be empty is followed by "?". */
  lemma QuestionOnly(min: int, max: int, a: Atom)
    requires AreBounds(min, max) && (WidthAtom(a) || (min == 0 && max == 1))
    ensures WidthAtom(a) || ShowBounds(min, max) == "?"
  {
  }

  lemma RunStopsAt(pat: string, i: nat)
    requires i <= |pat| && (Peek(pat, i) == '\0' || IsMeta(Peek(pat, i)) || SpecialHere(pat, i))
    ensures RunStops(pat, i)
  {
  }

  /** Any piece but a literal ends the literal before it. */
  lemma PieceStops(pat: string, i: nat, p: Piece, st: Style)
    requires OkPiece(p) && !IsLit(p) && Stands(pat, i, ShowPiece(p, st))
    ensures RunStops(pat, i)
  {
    hide Stands, RunStops, ShowAtom, ShowBounds, OkAtom;
    if p.Once? {
      AtomStops(pat, i, p.a, st);
    } else {
      var c := ShowBounds(p.min, p.max);
      StandsSplit(pat, i, ShowAtom(p.a, st) + c, if p.lazy then "?" else "");
      StandsSplit(pat, i, ShowAtom(p.a, st), c);
      StandsAt(pat, i + |ShowAtom(p.a, st)|, c, 0);
      if p.a.Lit? {
        LitText(p.a.cs, st);
        OneLit(p.a.cs, st);
        RepeatedBack(pat, i, p.a.cs[0], st);
      } else {
        AtomStops(pat, i, p.a, st);
      }
    }
  }

  lemma LitText(cs: seq<int>, st: Style)
    requires OkAtom(Lit(cs))
    ensures ShowAtom(Lit(cs), st) == ShowLit(cs, st) && AllCodes(cs) && cs != []
  {
  }

  lemma AtomStops(pat: string, i: nat, a: Atom, st: Style)
    requires OkAtom(a) && !a.Lit? && Stands(pat, i, ShowAtom(a, st))
    ensures RunStops(pat, i)
  {
    hide Stands, RunStops, ShowAlts, ShowSpans, OkAlts, AllSpans;
    StandsAt(pat, i, ShowAtom(a, st), 0);
    if a.Zero? && a.op != BOL && a.op != EOL {
      StandsAt(pat, i, ShowAtom(a, st), 1);
    }
    RunStopsAt(pat, i);
  }

  lemma {:induction false} PiecesBack(pat: string, i: nat, n: nat, b: Pieces, st: Style)
    requires OkPieces(b) && NumberedPieces(b, n) && Stands(pat, i, ShowPieces(b, st)) &&
             EndsBranch(pat, i + |ShowPieces(b, st)|)
    ensures i <= |pat| && ParsePieces(pat, i, n) == Good(b, i + |ShowPieces(b, st)|, n + GroupsPieces(b))
    decreases b, 2
  {
    hide Stands, OkPiece, NumberedAtom, GroupsAtom, ParsePiece, RunStops, ShowPiece, EndsBranch;
    if b.Nil? {
      StandsIn(pat, i, "");
    } else {
      PiecesParts(b, n, st);
      hide OkPieces, NumberedPieces, GroupsPieces, ShowPieces, ParsePieces;
      var t := ShowPiece(b.p, st);
      StandsSplit(pat, i, t, ShowPieces(b.ps, st));
      StandsAt(pat, i, t, 0);
      StartsPiece(pat, i);
      PieceFollowed(pat, i + |t|, b.p, b.ps, st);
      PieceBack(pat, i, n, b.p, st);
      PiecesBack(pat, i + |t|, n + GroupsAtom(b.p.a), b.ps, st);
      PiecesMore(pat, i, n, b.p, b.ps);
    }
  }

  lemma PiecesParts(b: Pieces, n: nat, st: Style)
    requires b.Cons? && OkPieces(b) && NumberedPieces(b, n)
    ensures OkPiece(b.p) && OkPieces(b.ps) && NumberedAtom(b.p.a, n)
    ensures NumberedPieces(b.ps, n + GroupsAtom(b.p.a)) && GroupsPieces(b) == GroupsAtom(b.p.a) + GroupsPieces(b.ps)
    ensures ShowPieces(b, st) == ShowPiece(b.p, st) + ShowPieces(b.ps, st)
  {
    hide OkPiece, NumberedAtom, GroupsAtom, ShowPiece;
  }

  lemma PiecesMore(pat: string, i: nat, n: nat, p: Piece, ps: Pieces)
    requires i <= |pat| && !EndsBranch(pat, i) && ParsePiece(pat, i, n).Good? && ParsePiece(pat, i, n).v == p
    requires var j := ParsePiece(pat, i, n); var r := ParsePieces(pat, j.at, j.nsub); r.Good? && r.v == ps
    ensures var j := ParsePiece(pat, i, n); var r := ParsePieces(pat, j.at, j.nsub);
            ParsePieces(pat, i, n) == Good(Cons(p, ps), r.at, r.nsub)
  {
    hide EndsBranch, ParsePiece;
  }

  lemma StartsPiece(pat: string, i: nat)
    requires i < |pat| && Starts(pat[i])
    ensures !EndsBranch(pat, i)
  {
  }

  /** What follows a piece is no repeat, and ends a literal. */
  lemma PieceFollowed(pat: string, i: nat, p: Piece, ps: Pieces, st: Style)
    requires OkPieces(Cons(p, ps)) && Stands(pat, i, ShowPieces(ps, st)) && EndsBranch(pat, i + |ShowPieces(ps, st)|)
    ensures !IsMult(Peek(pat, i)) && (IsLit(p) ==> RunStops(pat, i))
  {
    hide Stands, RunStops, OkPiece, ShowPiece;
    StandsIn(pat, i, ShowPieces(ps, st));
    if ps.Nil? {
      RunStopsAt(pat, i);
    } else {
      StandsSplit(pat, i, ShowPiece(ps.p, st), ShowPieces(ps.ps, st));
      StandsAt(pat, i, ShowPiece(ps.p, st), 0);
      if IsLit(p) {
        PieceStops(pat, i, ps.p, st);
      }
    }
  }

  lemma {:induction false} AltsBack(pat: string, i: nat, n: nat, alts: Alts, st: Style)
    requires OkAlts(alts) && NumberedAlts(alts, n) && Stands(pat, i, ShowAlts(alts, st))
    requires EndsBranch(pat, i + |ShowAlts(alts, st)|) && Peek(pat, i + |ShowAlts(alts, st)|) != '|'
    ensures i <= |pat| && ParseAlts(pat, i, n) == Good(alts, i + |ShowAlts(alts, st)|, n + GroupsAlts(alts))
    decreases alts, 3
  {
    hide Stands, OkPieces, NumberedPieces, GroupsPieces, ParsePieces, ShowPieces, EndsBranch;
    var t := ShowPieces(alts.b, st);
    if alts.Last? {
      PiecesBack(pat, i, n, alts.b, st);
    } else {
      assert ShowAlts(alts, st) == t + ("|" + ShowAlts(alts.more, st));
      StandsSplit(pat, i, t, "|" + ShowAlts(alts.more, st));
      StandsSplit(pat, i + |t|, "|", ShowAlts(alts.more, st));
      StandsAt(pat, i + |t|, "|", 0);
      BarEnds(pat, i + |t|);
      PiecesBack(pat, i, n, alts.b, st);
      AltsBack(pat, i + |t| + 1, n + GroupsPieces(alts.b), alts.more, st);
    }
  }

  lemma BarEnds(pat: string, i: nat)
    requires Peek(pat, i) == '|'
    ensures EndsBranch(pat, i)
  {
  }

  /** An expression written out is read back as itself. */
  lemma ParseShown(alts: Alts, st: Style)
    requires OkAlts(alts) && NumberedAlts(alts, 0) && GroupsAlts(alts) < REG_MAX_PAREN
    ensures ParseRegex(ShowAlts(alts, st)) == Good(alts, |ShowAlts(alts, st)|, GroupsAlts(alts))
  {
    hide OkAlts, NumberedAlts, GroupsAlts, ShowAlts, ParseAlts;
    var t := ShowAlts(alts, st);
    assert t[0..0 + |t|] == t;
    AltsBack(t, 0, 0, alts, st);
  }
}
