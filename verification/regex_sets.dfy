// Which characters a set accepts: ranges, the twelve named classes and the escapes \d, \w and \s, said
// character by character, from the pattern down to a search.
module RegexSets {
  import opened RegexSyntax
  import opened RegexSemantics
  import opened RegexParse
  import opened RegexSafe
  import opened RegexSolid
  import opened RegexSearch
  import opened RegexText

  /** The characters of the C locale in a class. */
  predicate InClass(name: string, c: int) {
    var lower := 'a' as int <= c <= 'z' as int;
    var upper := 'A' as int <= c <= 'Z' as int;
    var digit := '0' as int <= c <= '9' as int;
    if name == ":alpha:" then lower || upper
    else if name == ":alnum:" then lower || upper || digit
    else if name == ":space:" then c == 32 || 9 <= c <= 13
    else if name == ":blank:" then c == 32 || c == 9
    else if name == ":upper:" then upper
    else if name == ":lower:" then lower
    else if name == ":digit:" then digit
    else if name == ":xdigit:" then digit || 'a' as int <= c <= 'f' as int || 'A' as int <= c <= 'F' as int
    else if name == ":cntrl:" then 0 <= c < 32 || c == 127
    else if name == ":graph:" then 32 < c < 127
    else if name == ":print:" then 32 <= c < 127
    else name == ":punct:" && 32 < c < 127 && !lower && !upper && !digit
  }

  // ---- what the words of a set accept

  lemma RangeHolds(lo: int, hi: int, c: int)
    ensures lo <= hi ==> (InRanges(RangeWords(lo, hi), c) <==> lo <= c <= hi)
    ensures lo > hi ==> (InRanges(RangeWords(lo, hi), c) <==> hi <= c <= lo)
  {
    if lo > hi {
      assert RangeWords(hi, lo) == [lo - hi + 1, hi];
      var none := [hi - lo + 1, lo];
      assert RangeWords(lo, hi)[2..] == none && none[2..] == [];
      assert InRanges(none, c) <==> lo <= c <= hi;
    }
  }

  lemma {:induction false} JoinHolds(a: seq<int>, b: seq<int>, c: int)
    requires Pairs(a)
    ensures InRanges(a + b, c) <==> InRanges(a, c) || InRanges(b, c)
    decreases |a|
  {
    if a == [] {
      assert a + b == b;
    } else {
      assert (a + b)[2..] == a[2..] + b;
      JoinHolds(a[2..], b, c);
    }
  }

  lemma SpanHolds(lo: char, hi: char, c: int)
    requires lo <= hi
    ensures InRanges(SpanWords(lo, hi), c) <==> lo as int <= c <= hi as int
    ensures Pairs(SpanWords(lo, hi))
  {
    RangeHolds(lo as int, hi as int, c);
  }

  lemma {:induction false} StringHolds(str: string, c: int)
    ensures InRanges(StringWords(str), c) <==> exists i :: 0 <= i < |str| && str[i] as int == c
    decreases str
  {
    if str != "" {
      RangeHolds(str[0] as int, str[0] as int, c);
      RangePairs(str[0] as int, str[0] as int);
      JoinHolds(CharWords(str[0]), StringWords(str[1..]), c);
      StringHolds(str[1..], c);
      assert forall i | 0 < i < |str| :: str[i] == str[1..][i - 1];
    }
  }

  lemma TwoSpans(a: char, b: char, d: char, e: char, c: int)
    requires a <= b && d <= e
    ensures InRanges(SpanWords(a, b) + SpanWords(d, e), c) <==> a as int <= c <= b as int || d as int <= c <= e as int
    ensures Pairs(SpanWords(a, b) + SpanWords(d, e))
  {
    SpanHolds(a, b, c);
    SpanHolds(d, e, c);
    JoinHolds(SpanWords(a, b), SpanWords(d, e), c);
  }

  lemma ClassHolds(cc: nat, c: int)
    requires cc < |CLASS_NAMES|
    ensures InRanges(ClassWords(cc), c) <==> InClass(CLASS_NAMES[cc], c)
  {
    hide RangeWords, SpanWords, StringWords, InRanges, Pairs;
    if cc <= 1 {
      TwoSpans('a', 'z', 'A', 'Z', c);
      SpanHolds('0', '9', c);
      JoinHolds(SpanWords('0', '9'), SpanWords('a', 'z') + SpanWords('A', 'Z'), c);
    } else if cc <= 3 {
      StringHolds(" \t\r\n\U{0c}\U{0b}", c);
      StringHolds(" \t", c);
      SpacesAre(c);
    } else if cc <= 6 {
      SpanHolds('A', 'Z', c);
      SpanHolds('a', 'z', c);
      SpanHolds('0', '9', c);
    } else if cc == 7 {
      TwoSpans('a', 'f', 'A', 'F', c);
      SpanHolds('0', '9', c);
      JoinHolds(SpanWords('a', 'f') + SpanWords('A', 'F'), SpanWords('0', '9'), c);
    } else if cc == 8 {
      RangeHolds(0, 31, c);
      RangeHolds(127, 127, c);
      RangePairs(0, 31);
      JoinHolds(RangeWords(0, 31), RangeWords(127, 127), c);
    } else {
      PunctHolds(cc, c);
    }
  }

  lemma SpacesAre(c: int)
    ensures var s := " \t\r\n\U{0c}\U{0b}";
            (exists i :: 0 <= i < |s| && s[i] as int == c) <==> c == 32 || 9 <= c <= 13
    ensures var s := " \t"; (exists i :: 0 <= i < |s| && s[i] as int == c) <==> c == 32 || c == 9
  {
    var s := " \t\r\n\U{0c}\U{0b}";
    assert s[0] as int == 32 && s[1] as int == 9 && s[2] as int == 13 && s[3] as int == 10 && s[4] as int == 12;
    assert s[5] as int == 11;
    var t := " \t";
    assert t[0] as int == 32 && t[1] as int == 9;
  }

  lemma PunctHolds(cc: nat, c: int)
    requires 9 <= cc < |CLASS_NAMES|
    ensures InRanges(ClassWords(cc), c) <==> InClass(CLASS_NAMES[cc], c)
  {
    hide RangeWords, SpanWords, StringWords, InRanges, Pairs;
    SpanHolds('!', '~', c);
    SpanHolds(' ', '~', c);
    TwoSpans('!', '/', ':', '@', c);
    var two := SpanWords('!', '/') + SpanWords(':', '@');
    SpanHolds('[', '`', c);
    JoinHolds(two, SpanWords('[', '`'), c);
    JoinPairs(two, SpanWords('[', '`'));
    SpanHolds('{', '~', c);
    JoinHolds(two + SpanWords('[', '`'), SpanWords('{', '~'), c);
  }

  // ---- how they are written

  function Caret(neg: bool): string {
    if neg then "^" else ""
  }

  /** A set of one range. */
  function RangeText(lo: char, hi: char, neg: bool): string {
    "[" + Caret(neg) + [lo, '-', hi] + "]"
  }

  /** A set of one class named by what stands between the inner brackets. */
  function NamedText(cc: nat, neg: bool): string
    requires cc < |CLASS_NAMES|
  {
    "[" + Caret(neg) + "[" + CLASS_NAMES[cc] + "]]"
  }

  lemma RangeRead(lo: char, hi: char, neg: bool)
    requires lo !in "]-^\\\0" && hi !in "]\\\0" && lo <= hi
    ensures ParseRegex(RangeText(lo, hi, neg)) ==
            Good(Last(Cons(Once(Class(neg, SpanWords(lo, hi))), Nil)), |RangeText(lo, hi, neg)|, 0)
  {
    var pat := RangeText(lo, hi, neg);
    var j := if neg then 2 else 1;
    assert pat[0] == '[' && (neg ==> pat[1] == '^') && pat[j] == lo && pat[j + 1] == '-' && pat[j + 2] == hi;
    assert pat[j + 3] == ']' && |pat| == j + 4;
    RangeItem(pat, j, lo, hi);
    hide SetItem, RangeWords;
    assert SetItems(pat, j + 3) == Good([], j + 3, 0);
    assert SpanWords(lo, hi) + [] == SpanWords(lo, hi) == [] + SpanWords(lo, hi);
    assert SetItems(pat, j) == Good(SpanWords(lo, hi), j + 3, 0);
    SetRead(pat, neg, SpanWords(lo, hi));
  }

  lemma RangeItem(pat: string, j: nat, lo: char, hi: char)
    requires j + 3 < |pat| && pat[j] == lo && pat[j + 1] == '-' && pat[j + 2] == hi
    requires lo != '\\' && hi !in "]\\\0"
    ensures SetItem(pat, j) == Good(SpanWords(lo, hi), j + 3, 0)
  {
    hide RangeWords;
  }

  /** A pattern that is one set. */
  lemma SetRead(pat: string, neg: bool, ws: seq<int>)
    requires |pat| >= 3 && pat[0] == '[' && (neg <==> pat[1] == '^')
    requires var j := if neg then 2 else 1;
             pat[j] != ']' && pat[j] != '-' && SetItems(pat, j) == Good(ws, |pat| - 1, 0)
    ensures ParseRegex(pat) == Good(Last(Cons(Once(Class(neg, ws)), Nil)), |pat|, 0)
  {
    BracketStarts(pat);
    SetValue(pat, neg, ws);
    hide *;
    SingleRead(pat, Class(neg, ws));
  }

  lemma SetValue(pat: string, neg: bool, ws: seq<int>)
    requires |pat| >= 3 && (neg <==> pat[1] == '^')
    requires var j := if neg then 2 else 1;
             pat[j] != ']' && pat[j] != '-' && SetItems(pat, j) == Good(ws, |pat| - 1, 0)
    ensures ParseSet(pat, 1, 0) == Good(Class(neg, ws), |pat|, 0)
  {
    hide SetItems;
    assert [] + ws == ws;
  }

  /** A closing bracket or a minus sign that comes first is a member like any other character. */
  lemma FirstRead(x: char, neg: bool)
    requires x in "]-"
    ensures var pat := "[" + Caret(neg) + [x] + "]";
            ParseRegex(pat) == Good(Last(Cons(Once(Class(neg, SpanWords(x, x))), Nil)), |pat|, 0)
  {
    var pat := "[" + Caret(neg) + [x] + "]";
    var j := if neg then 2 else 1;
    assert pat[0] == '[' && (neg ==> pat[1] == '^') && pat[j] == x && pat[j + 1] == ']' && |pat| == j + 2;
    BracketStarts(pat);
    assert SetItems(pat, j + 1) == Good([], j + 1, 0);
    assert FirstMember(pat, j) == SpanWords(x, x) == SpanWords(x, x) + [];
    hide SetItems, FirstMember, RangeWords;
    assert ParseSet(pat, 1, 0) == Good(Class(neg, SpanWords(x, x)), |pat|, 0);
    hide *;
    SingleRead(pat, Class(neg, SpanWords(x, x)));
  }

  lemma BracketStarts(pat: string)
    requires pat != "" && pat[0] == '['
    ensures !EndsBranch(pat, 0) && ParseAtom(pat, 0, 0) == ParseSet(pat, 1, 0)
  {
    hide ParseSet, ParseGroup, ParseLeaf;
  }

  /** No class name starts another. */
  lemma NamesApart(c: nat, d: nat)
    requires c < d < |CLASS_NAMES|
    ensures exists k :: 1 <= k <= 3 && k < |CLASS_NAMES[c]| && k < |CLASS_NAMES[d]|
                        && CLASS_NAMES[c][k] != CLASS_NAMES[d][k]
  {
    var a, b := CLASS_NAMES[c], CLASS_NAMES[d];
    assert |a| > 3 && |b| > 3;
    assert a[1] != b[1] || a[2] != b[2] || a[3] != b[3];
  }

  lemma {:induction false} NameFound(pat: string, i: nat, c: nat, cc: nat)
    requires c <= cc < |CLASS_NAMES| && NameHere(pat, i, CLASS_NAMES[cc])
    ensures FindClass(pat, i, c) == cc
    decreases cc - c
  {
    if c < cc {
      NamesApart(c, cc);
      var k :| 1 <= k <= 3 && k < |CLASS_NAMES[c]| && k < |CLASS_NAMES[cc]| && CLASS_NAMES[c][k] != CLASS_NAMES[cc][k];
      assert pat[i..][k] == CLASS_NAMES[cc][k];
      NameFound(pat, i, c + 1, cc);
    }
  }

  lemma NamedItem(pat: string, j: nat, cc: nat)
    requires cc < |CLASS_NAMES| && j < |pat| && pat[j] == '[' && NameHere(pat, j + 1, CLASS_NAMES[cc])
    requires Peek(pat, j + 1 + |CLASS_NAMES[cc]|) == ']'
    ensures SetItem(pat, j) == Good(ClassWords(cc), j + 2 + |CLASS_NAMES[cc]|, 0)
  {
    NameFound(pat, j + 1, 0, cc);
    assert pat[j + 1..][0] == CLASS_NAMES[cc][0] == ':';
    hide ClassWords, FindClass, NameHere, DecodeEscape;
  }

  lemma NamedRead(cc: nat, neg: bool)
    requires cc < |CLASS_NAMES|
    ensures ParseRegex(NamedText(cc, neg)) ==
            Good(Last(Cons(Once(Class(neg, ClassWords(cc))), Nil)), |NamedText(cc, neg)|, 0)
  {
    hide ClassWords, SetItem;
    var name := CLASS_NAMES[cc];
    var pat := NamedText(cc, neg);
    var j := if neg then 2 else 1;
    var n := |name|;
    assert pat == ("[" + Caret(neg) + "[") + (name + "]]");
    assert pat[j + 1..] == name + "]]" && pat[j] == '[' && |pat| == j + n + 3;
    assert pat[j + 1 + n] == pat[j + 1..][n] == ']' && pat[j + 2 + n] == pat[j + 1..][n + 1] == ']';
    NamedItem(pat, j, cc);
    assert SetItems(pat, j + 2 + n) == Good([], j + 2 + n, 0);
    assert SetItems(pat, j) == Good(ClassWords(cc) + [], j + 2 + n, 0);
    assert ClassWords(cc) + [] == ClassWords(cc);
    SetRead(pat, neg, ClassWords(cc));
  }

  // ---- the escapes

  const ESCAPES := "dDsSwW"

  /** The characters \d, \s and \w stand for, and the capitals for all others. */
  predicate InEscape(d: char, c: int)
    requires d in ESCAPES
  {
    var holds := if d == 'd' || d == 'D' then InClass(":digit:", c)
                 else if d == 's' || d == 'S' then InClass(":space:", c)
                 else InClass(":alnum:", c) || c == '_' as int;
    holds != (d in "DSW")
  }

  lemma WordHolds(c: int)
    ensures InRanges(ClassWords(0) + ClassWords(6) + CharWords('_'), c) <==> InEscape('w', c)
    ensures InRanges(CharWords('_') + ClassWords(1), c) <==> InEscape('w', c)
    ensures Pairs(ClassWords(0) + ClassWords(6) + CharWords('_')) && Pairs(CharWords('_') + ClassWords(1))
  {
    hide ClassWords, RangeWords, InRanges;
    RangePairs('_' as int, '_' as int);
    ClassPairs(0);
    ClassPairs(1);
    ClassPairs(6);
    hide Pairs;
    RangeHolds('_' as int, '_' as int, c);
    ClassHolds(0, c);
    ClassHolds(1, c);
    ClassHolds(6, c);
    JoinHolds(ClassWords(0), ClassWords(6), c);
    JoinPairs(ClassWords(0), ClassWords(6));
    JoinHolds(ClassWords(0) + ClassWords(6), CharWords('_'), c);
    JoinPairs(ClassWords(0) + ClassWords(6), CharWords('_'));
    JoinHolds(CharWords('_'), ClassWords(1), c);
    JoinPairs(CharWords('_'), ClassWords(1));
  }

  /** The set an escape is read as. */
  lemma EscapeRead(d: char) returns (a: Atom)
    requires d in ESCAPES
    ensures ParseRegex(['\\', d]) == Good(Last(Cons(Once(a), Nil)), 2, 0)
    ensures a.Class? && PlainAtom(a) && forall c :: (InRanges(a.words, c) != a.neg) <==> InEscape(d, c)
  {
    var pat := ['\\', d];
    a := SpecialAtom(d);
    LeafRead(pat);
    SpecialRead(pat, d);
    SingleRead(pat, a);
    LeafSolid(pat, 0, 0);
    LeafSafe(pat, 0, 0);
    hide ParseLeaf, ParseRegex;
    assert PlainAtom(a);
    forall c: int
      ensures (InRanges(a.words, c) != a.neg) <==> InEscape(d, c)
    {
      SpecialHolds(d, c);
    }
  }

  lemma SpecialRead(pat: string, d: char)
    requires pat == ['\\', d] && d in ESCAPES
    ensures !IsMeta(pat[0]) && pat[0] != '\0' && ParseLeaf(pat, 0, 0) == Good(SpecialAtom(d), 2, 0)
  {
    hide LitRun, ClassWords;
  }

  lemma SpecialHolds(d: char, c: int)
    requires d in ESCAPES
    ensures SpecialAtom(d).Class? && (InRanges(SpecialAtom(d).words, c) != SpecialAtom(d).neg <==> InEscape(d, c))
  {
    hide ClassWords, RangeWords, InRanges;
    ClassHolds(6, c);
    ClassHolds(2, c);
    WordHolds(c);
  }

  /** Inside a set an escape in small letters stands for the same characters. */
  lemma InsideHolds(pat: string, i: nat, c: int)
    requires i + 1 < |pat| && pat[i] == '\\' && pat[i + 1] in "dsw"
    ensures var r := SetItem(pat, i); r.Good? && r.at == i + 2 && (InRanges(r.v, c) <==> InEscape(pat[i + 1], c))
  {
    hide ClassWords, RangeWords, InRanges, DecodeEscape;
    ClassHolds(6, c);
    ClassHolds(2, c);
    WordHolds(c);
  }

  // ---- searches

  /** A pattern that is one set, run on a subject of one character. */
  method SearchOne(pattern: string, ghost a: Atom, c: char) returns (found: bool)
    requires ParseRegex(pattern) == Good(Last(Cons(Once(a), Nil)), |pattern|, 0) && a.Class? && PlainAtom(a)
    ensures found <==> InRanges(a.words, c as int) != a.neg
  {
    AtomPlain(a);
    AtomAlone(a, [c], 0);
    AtomAlone(a, [c], 1);
    ghost var alts := Last(Cons(Once(a), Nil));
    assert EndsAtom(a, [c], 1) == [];
    assert EndsAtom(a, [c], 0) == if InRanges(a.words, c as int) != a.neg then [1] else [];
    hide ParseRegex, EndsAlts, EndsAtom, PlainAtom, PlainAlts, InRanges;
    var so, eo;
    found, so, eo := SearchPlain(pattern, alts, [c]);
  }

  /** A range finds the characters from its first to its last, its negation all others. */
  method SearchRange(lo: char, hi: char, neg: bool, c: char) returns (found: bool)
    requires lo !in "]-^\\\0" && hi !in "]\\\0" && lo <= hi
    ensures found <==> (lo <= c <= hi) != neg
  {
    RangeRead(lo, hi, neg);
    RangeHolds(lo as int, hi as int, c as int);
    RangeZero(lo as int, hi as int);
    RangePairs(lo as int, hi as int);
    hide ParseRegex, InRanges, RangeWords;
    found := SearchOne(RangeText(lo, hi, neg), Class(neg, SpanWords(lo, hi)), c);
  }

  method SearchFirst(x: char, neg: bool, c: char) returns (found: bool)
    requires x in "]-"
    ensures found <==> (c == x) != neg
  {
    FirstRead(x, neg);
    RangeHolds(x as int, x as int, c as int);
    RangeZero(x as int, x as int);
    RangePairs(x as int, x as int);
    hide ParseRegex, InRanges, RangeWords;
    found := SearchOne("[" + Caret(neg) + [x] + "]", Class(neg, SpanWords(x, x)), c);
  }

  /** A named class finds the characters in it, its negation all others. */
  method SearchNamed(cc: nat, neg: bool, c: char) returns (found: bool)
    requires cc < |CLASS_NAMES| && CLASS_NAMES[cc] != ":cntrl:"
    ensures found <==> InClass(CLASS_NAMES[cc], c as int) != neg
  {
    NamedRead(cc, neg);
    ClassHolds(cc, c as int);
    ClassZero(cc);
    ClassPairs(cc);
    hide ParseRegex, InRanges, ClassWords, NamedText, InClass;
    found := SearchOne(NamedText(cc, neg), Class(neg, ClassWords(cc)), c);
  }

  method SearchEscape(d: char, c: char) returns (found: bool)
    requires d in ESCAPES
    ensures found <==> InEscape(d, c as int)
  {
    ghost var a := EscapeRead(d);
    hide ParseRegex, InRanges, InEscape, PlainAtom;
    found := SearchOne(['\\', d], a, c);
  }
}
