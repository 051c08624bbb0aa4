// Which patterns put a zero word into an operand, where the end of the operand is marked by a zero
// word: those with a set that names [:cntrl:] or holds a range from a character to the one before it.
module RegexSolid {
  import opened RegexSyntax
  import opened RegexCode
  import opened RegexNodes
  import opened RegexParse
  import opened RegexWellLinked

  const CNTRL := 8

  predicate NoZero(ws: seq<int>) {
    forall i | 0 <= i < |ws| :: ws[i] != 0
  }

  // ---- which members of a set hold a zero word

  /** The rest of a member that starts with the character `start` makes it hold a zero word. */
  predicate RestBreaks(pat: string, start: int, j: nat) {
    if Peek(pat, j) == '-' && Peek(pat, j + 1) != '\0' && Peek(pat, j + 1) != ']' then
      start == 1 + if Peek(pat, j + 1) == '\\' then DecodeEscape(pat, j + 2).1 else Peek(pat, j + 1) as int
    else start == '[' as int && Peek(pat, j) == ':' && FindClass(pat, j, 0) == CNTRL
  }

  predicate ItemBreaks(pat: string, i: nat)
    requires i < |pat|
  {
    if pat[i] == '\\' then
      var (n, ch) := DecodeEscape(pat, i + 1);
      Peek(pat, i + 1) !in "sdw" && RestBreaks(pat, ch, i + 1 + n)
    else RestBreaks(pat, pat[i] as int, i + 1)
  }

  /** Some member of the set whose members are read from i on holds a zero word. */
  predicate ItemsBreak(pat: string, i: nat)
    requires i <= |pat|
    decreases |pat| - i
  {
    && i < |pat| && pat[i] != ']' && pat[i] != '\0'
    && SetItem(pat, i).Good? && (ItemBreaks(pat, i) || ItemsBreak(pat, SetItem(pat, i).at))
  }

  lemma RangeZero(lo: int, hi: int)
    ensures NoZero(RangeWords(lo, hi)) <==> lo != 0 && lo != hi + 1 && (lo > hi ==> hi != 0)
  {
    var ws := RangeWords(lo, hi);
    if lo > hi {
      assert RangeWords(hi, lo) == [lo - hi + 1, hi];
      assert ws == [lo - hi + 1, hi, hi - lo + 1, lo];
      assert ws[1] == hi && ws[2] == hi - lo + 1 && ws[3] == lo;
    } else {
      assert ws == [hi - lo + 1, lo];
      assert ws[1] == lo;
    }
  }

  lemma JoinZero(a: seq<int>, b: seq<int>)
    ensures NoZero(a + b) <==> NoZero(a) && NoZero(b)
  {
    if NoZero(a + b) {
      forall i | 0 <= i < |a|
        ensures a[i] != 0
      {
        assert (a + b)[i] == a[i];
      }
      forall i | 0 <= i < |b|
        ensures b[i] != 0
      {
        assert (a + b)[|a| + i] == b[i];
      }
    }
  }

  lemma {:induction false} StringZero(str: string)
    requires forall i | 0 <= i < |str| :: str[i] != '\0'
    ensures NoZero(StringWords(str))
    decreases str
  {
    hide RangeWords;
    if str != "" {
      RangeZero(str[0] as int, str[0] as int);
      JoinZero(CharWords(str[0]), StringWords(str[1..]));
      StringZero(str[1..]);
    }
  }

  lemma SpanZero(lo: char, hi: char)
    requires '\0' < lo <= hi
    ensures NoZero(SpanWords(lo, hi))
  {
    RangeZero(lo as int, hi as int);
  }

  /** Of the named classes one holds a zero word. */
  lemma ClassZero(cc: nat)
    ensures NoZero(ClassWords(cc)) <==> cc != CNTRL
  {
    hide RangeWords, StringWords, NoZero, SpanWords;
    SpanZero('a', 'z');
    SpanZero('A', 'Z');
    SpanZero('0', '9');
    JoinZero(SpanWords('a', 'z'), SpanWords('A', 'Z'));
    JoinZero(SpanWords('0', '9'), SpanWords('a', 'z') + SpanWords('A', 'Z'));
    if cc == 2 || cc == 3 {
      StringZero(if cc == 2 then " \t\r\n\U{0c}\U{0b}" else " \t");
    } else if cc == 7 {
      SpanZero('a', 'f');
      SpanZero('A', 'F');
      JoinZero(SpanWords('a', 'f'), SpanWords('A', 'F'));
      JoinZero(SpanWords('a', 'f') + SpanWords('A', 'F'), SpanWords('0', '9'));
    } else if cc == CNTRL {
      RangeZero(0, 31);
      JoinZero(RangeWords(0, 31), RangeWords(127, 127));
    } else if cc > CNTRL {
      PunctZero();
    }
  }

  lemma PunctZero()
    ensures NoZero(SpanWords('!', '~')) && NoZero(SpanWords(' ', '~'))
    ensures NoZero(SpanWords('!', '/') + SpanWords(':', '@') + SpanWords('[', '`') + SpanWords('{', '~'))
  {
    hide RangeWords, NoZero, SpanWords;
    SpanZero('!', '~');
    SpanZero(' ', '~');
    SpanZero('!', '/');
    SpanZero(':', '@');
    SpanZero('[', '`');
    SpanZero('{', '~');
    JoinZero(SpanWords('!', '/'), SpanWords(':', '@'));
    JoinZero(SpanWords('!', '/') + SpanWords(':', '@'), SpanWords('[', '`'));
    JoinZero(SpanWords('!', '/') + SpanWords(':', '@') + SpanWords('[', '`'), SpanWords('{', '~'));
  }

  lemma RestZero(pat: string, start: int, j: nat)
    requires j <= |pat| && start != 0 && SetRest(pat, start, j).Good?
    ensures NoZero(SetRest(pat, start, j).v) <==> !RestBreaks(pat, start, j)
  {
    hide RangeWords, ClassWords, NoZero, DecodeEscape, NameHere;
    RangeZero(start, start);
    if Peek(pat, j) == '-' && Peek(pat, j + 1) != '\0' && Peek(pat, j + 1) != ']' {
      RangeZero(start, if Peek(pat, j + 1) == '\\' then DecodeEscape(pat, j + 2).1 else Peek(pat, j + 1) as int);
    } else {
      ClassZero(FindClass(pat, j, 0));
    }
  }

  /** One member of a set. */
  lemma ItemZero(pat: string, i: nat)
    requires i < |pat| && pat[i] != '\0' && SetItem(pat, i).Good?
    ensures NoZero(SetItem(pat, i).v) <==> !ItemBreaks(pat, i)
  {
    hide RangeWords, ClassWords, NoZero, DecodeEscape, SetRest, RestBreaks;
    if pat[i] == '\\' {
      var c := Peek(pat, i + 1);
      var (n, ch) := DecodeEscape(pat, i + 1);
      if c == 's' || c == 'd' || c == 'w' {
        RangeZero('_' as int, '_' as int);
        ClassZero(if c == 's' then 2 else if c == 'd' then 6 else 1);
        JoinZero(CharWords('_'), ClassWords(1));
      } else {
        RestZero(pat, ch, i + 1 + n);
      }
    } else {
      RestZero(pat, pat[i] as int, i + 1);
    }
  }

  lemma {:induction false} ItemsZero(pat: string, i: nat)
    requires i <= |pat| && SetItems(pat, i).Good?
    ensures NoZero(SetItems(pat, i).v) <==> !ItemsBreak(pat, i)
    decreases |pat| - i
  {
    hide SetItem, ItemBreaks;
    if Peek(pat, i) != ']' {
      ItemZero(pat, i);
      var item := SetItem(pat, i);
      ItemsZero(pat, item.at);
      JoinZero(item.v, SetItems(pat, item.at).v);
    }
  }

  /** A set holds a zero word exactly when one of its members does. */
  lemma SetSolid(pat: string, i: nat, nsub: nat)
    requires i <= |pat| && ParseSet(pat, i, nsub).Good?
    ensures var j := if Peek(pat, i) == '^' then i + 1 else i;
            SolidAtom(ParseSet(pat, i, nsub).v) <==> !ItemsBreak(pat, j + FirstLen(pat, j))
  {
    hide SetItems, ItemsBreak, RangeWords;
    var j := if Peek(pat, i) == '^' then i + 1 else i;
    ItemsZero(pat, j + FirstLen(pat, j));
    RangeZero(Peek(pat, j) as int, Peek(pat, j) as int);
    JoinZero(FirstMember(pat, j), SetItems(pat, j + FirstLen(pat, j)).v);
  }

  // ---- nothing else holds one

  lemma {:induction false} LitSolid(pat: string, i: nat, added: bool)
    requires i <= |pat| && LitRun(pat, i, added).Good?
    ensures NoZero(LitRun(pat, i, added).v)
    decreases |pat| - i
  {
    hide IsMeta, SpecialHere, DecodeEscape, IsMult;
    if Peek(pat, i) != '\0' && !IsMeta(Peek(pat, i)) && !SpecialHere(pat, i) {
      var (n, ch) := LitChar(pat, i);
      assert ch != 0;
      if !IsMult(Peek(pat, i + n)) {
        LitSolid(pat, i + n, true);
        JoinZero([ch], LitRun(pat, i + n, true).v);
      }
    }
  }

  lemma LeafSolid(pat: string, i: nat, nsub: nat)
    requires i < |pat| && !IsMeta(pat[i]) && pat[i] != '\0' && ParseLeaf(pat, i, nsub).Good?
    ensures SolidAtom(ParseLeaf(pat, i, nsub).v)
  {
    hide LitRun, ClassWords, RangeWords;
    if SpecialHere(pat, i) {
      ClassZero(0);
      ClassZero(2);
      ClassZero(6);
      RangeZero('_' as int, '_' as int);
      JoinZero(ClassWords(0), ClassWords(6));
      JoinZero(ClassWords(0) + ClassWords(6), CharWords('_'));
    } else {
      LitSolid(pat, i, false);
    }
  }

  // ---- whole patterns

  /** Read from whatever place, no member of a set would hold a zero word. */
  ghost predicate NoneBreaks(pat: string) {
    forall i | 0 <= i < |pat| :: !ItemBreaks(pat, i)
  }

  lemma {:induction false} NoItemsBreak(pat: string, i: nat)
    requires i <= |pat| && NoneBreaks(pat)
    ensures !ItemsBreak(pat, i)
    decreases |pat| - i
  {
    hide SetItem, ItemBreaks;
    if i < |pat| && SetItem(pat, i).Good? {
      NoItemsBreak(pat, SetItem(pat, i).at);
    }
  }

  lemma {:induction false} ParsedAtomSolid(pat: string, i: nat, nsub: nat)
    requires i <= |pat| && NoneBreaks(pat) && ParseAtom(pat, i, nsub).Good?
    ensures SolidAtom(ParseAtom(pat, i, nsub).v)
    decreases |pat| - i, 1
  {
    hide ParseSet, ParseLeaf, ParseAlts, NoneBreaks;
    var c := Peek(pat, i);
    if c == '(' {
      var plain := Peek(pat, i + 1) == '?' && Peek(pat, i + 2) == ':';
      ParsedAltsSolid(pat, if plain then i + 3 else i + 1, if plain then nsub else nsub + 1);
    } else if c == '[' {
      var j := if Peek(pat, i + 1) == '^' then i + 2 else i + 1;
      SetSolid(pat, i + 1, nsub);
      NoItemsBreak(pat, j + FirstLen(pat, j));
    } else if i < |pat| && !IsMeta(c) && c != '\0' {
      LeafSolid(pat, i, nsub);
    }
  }

  lemma {:induction false} ParsedPiecesSolid(pat: string, i: nat, nsub: nat)
    requires i <= |pat| && NoneBreaks(pat) && ParsePieces(pat, i, nsub).Good?
    ensures SolidPieces(ParsePieces(pat, i, nsub).v)
    decreases |pat| - i, 3
  {
    hide ParseAtom, SolidAtom, EndsBranch, NoneBreaks, StrToUl, CheckCount, WidthAtom;
    if !EndsBranch(pat, i) {
      ParsedAtomSolid(pat, i, nsub);
      var p := ParsePiece(pat, i, nsub);
      ParsedPiecesSolid(pat, p.at, p.nsub);
    }
  }

  lemma {:induction false} ParsedAltsSolid(pat: string, i: nat, nsub: nat)
    requires i <= |pat| && NoneBreaks(pat) && ParseAlts(pat, i, nsub).Good?
    ensures SolidAlts(ParseAlts(pat, i, nsub).v)
    decreases |pat| - i, 4
  {
    hide ParsePieces, SolidPieces, NoneBreaks;
    ParsedPiecesSolid(pat, i, nsub);
    var b := ParsePieces(pat, i, nsub);
    if Peek(pat, b.at) == '|' {
      ParsedAltsSolid(pat, b.at + 1, b.nsub);
    }
  }

  /** A pattern without such members compiles to operands without zero words. */
  lemma PatternSolid(pat: string)
    requires ParseRegex(pat).Good? && NoneBreaks(pat)
    ensures SolidAlts(ParseRegex(pat).v)
  {
    hide ParseAlts, SolidAlts, NoneBreaks;
    ParsedAltsSolid(pat, 0, 0);
  }

  // ---- what a zero word does

  /** The words emitted for a leaf are one node exactly when no zero word is among its operand. */
  lemma LeafWhole(p: seq<int>, a: Atom)
    requires !a.Group?
    ensures OpSize(p + GenAtom(a), |p|) == LenAtom(a) <==> SolidAtom(a)
  {
    if SolidAtom(a) {
      LeafSize(p, a);
    } else {
      var ws := if a.Lit? then a.cs else a.words;
      var i :| 0 <= i < |ws| && ws[i] == 0;
      var q := p + GenAtom(a);
      assert q[|p|] == GenAtom(a)[0] && q[|p| + 2 + i] == GenAtom(a)[2 + i] == 0;
    }
  }

  lemma {:induction false} CntrlFound(cc: nat)
    requires cc <= CNTRL
    ensures FindClass("[:cntrl:]]", 1, cc) == CNTRL
    decreases CNTRL - cc
  {
    var pat := "[:cntrl:]]";
    if cc == CNTRL {
      assert pat[1..][..7] == ":cntrl:";
    } else {
      assert CLASS_NAMES[cc][1] != pat[1..][1];
      CntrlFound(cc + 1);
    }
  }

  lemma CntrlRead()
    ensures ParseSet("[:cntrl:]]", 0, 0) == Good(Class(false, ClassWords(CNTRL)), 10, 0)
  {
    hide ClassWords, FindClass, NameHere;
    var pat := "[:cntrl:]]";
    CntrlFound(0);
    assert SetItem(pat, 0) == Good(ClassWords(CNTRL), 9, 0);
    assert SetItems(pat, 9) == Good([], 9, 0);
    assert SetItems(pat, 0) == Good(ClassWords(CNTRL) + [], 9, 0);
    assert [] + (ClassWords(CNTRL) + []) == ClassWords(CNTRL);
  }

  lemma CntrlWords(p: seq<int>)
    ensures var q := p + GenAtom(Class(false, ClassWords(CNTRL))); var n := |p|;
            && |q| == n + 7 && q[n] == ANYOF && q[n + 2] == 32 && q[n + 3] == 0 && q[n + 4] == BOL && q[n + 5] == 127
            && OpSize(q, n) == 4
  {
    var q := p + GenAtom(Class(false, ClassWords(CNTRL)));
    var n := |p|;
    assert ClassWords(CNTRL) == [32, 0, 1, 127];
    assert GenAtom(Class(false, ClassWords(CNTRL))) == [ANYOF, 0, 32, 0, 1, 127, 0];
    hide GenAtom, LenAtom, ClassWords, RangeWords;
    assert ZeroAt(q, n + 3) == n + 3;
    assert ZeroAt(q, n + 2) == n + 3;
  }

  lemma CntrlNodes(p: seq<int>)
    requires WellLinked(p)
    ensures !WellLinked(p + GenAtom(Class(false, ClassWords(CNTRL))))
  {
    var q := p + GenAtom(Class(false, ClassWords(CNTRL)));
    var n := |p|;
    CntrlWords(p);
    hide GenAtom, LenAtom, ClassWords, OpSize, Split, Starts;
    if WellLinked(q) {
      GrownFront(p, q);
      StartsRoom(q, n);
      assert q[..|q|] == q;
      FrontNext(q, q, n + 4);
    }
  }

  /** The set [[:cntrl:]], emitted behind whatever program, is read back as a node that ends at its
      first character and a node whose link leads past the end. */
  lemma CntrlBreaks(p: seq<int>)
    requires WellLinked(p)
    ensures ParseSet("[:cntrl:]]", 0, 0) == Good(Class(false, ClassWords(CNTRL)), 10, 0)
    ensures !WellLinked(p + GenAtom(Class(false, ClassWords(CNTRL))))
  {
    CntrlRead();
    CntrlNodes(p);
  }
}
