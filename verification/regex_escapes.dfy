// What the escapes of a pattern stand for: control characters, characters by number, and the places that
// the zero-width tests accept.
module RegexEscapes {
  import opened RegexSyntax
  import opened RegexSemantics
  import opened RegexParse
  import opened RegexText
  import opened RegexSets

  // ---- control characters

  const LETTERS: map<char, int> := map['b' := 8, 't' := 9, 'n' := 10, 'v' := 11, 'f' := 12, 'r' := 13, 'e' := 27]

  lemma LetterDecoded(pat: string, i: nat)
    requires i < |pat| && pat[i] in LETTERS
    ensures DecodeEscape(pat, i) == (1, LETTERS[pat[i]])
  {
  }

  /** Of all other letters those of a class or a place have a meaning, and those that start a number. */
  lemma SelfDecoded(pat: string, i: nat)
    requires i < |pat| && pat[i] !in LETTERS && pat[i] !in "uUx\0"
    ensures DecodeEscape(pat, i) == (1, pat[i] as int)
  {
  }

  /** A pattern of one escaped character that is not special. */
  lemma EscapedRead(c: char)
    requires c !in "<>mMwWdDsSAZuUx\0"
    ensures var code := if c in LETTERS then LETTERS[c] else c as int;
            ParseRegex(['\\', c]) == Good(Last(Cons(Once(Lit([code])), Nil)), 2, 0)
  {
    var pat := ['\\', c];
    if c in LETTERS {
      LetterDecoded(pat, 1);
    } else {
      SelfDecoded(pat, 1);
    }
    var code := if c in LETTERS then LETTERS[c] else c as int;
    hide DecodeEscape;
    assert Peek(pat, 0) == '\\' && Peek(pat, 1) == c && Peek(pat, 2) == '\0';
    assert LitRun(pat, 2, true) == Good([], 2, 0);
    assert [code] + [] == [code];
    assert LitRun(pat, 0, false) == Good([code], 2, 0);
    hide LitRun;
    LeafRead(pat);
    assert ParseLeaf(pat, 0, 0) == Good(Lit([code]), 2, 0);
    hide ParseLeaf;
    SingleRead(pat, Lit([code]));
  }

  // ---- characters by number

  const LOWER := "0123456789abcdef"
  const UPPER := "0123456789ABCDEF"

  lemma HexDigitIs(d: nat)
    requires d < 16
    ensures HexDigit(LOWER[d]) == d == HexDigit(UPPER[d])
  {
  }

  lemma OnlyHexDigits(c: char)
    ensures HexDigit(c) != -1 ==> 0 <= HexDigit(c) < 16 && (c == LOWER[HexDigit(c)] || c == UPPER[HexDigit(c)])
  {
  }

  /** The number that digits write, the first the highest. */
  function Hex(ds: string): int {
    if ds == "" then 0 else Hex(ds[..|ds| - 1]) * 16 + HexDigit(ds[|ds| - 1])
  }

  /** k hexadecimal digits, at most n, stand at i and no further one is taken. */
  predicate HexHere(pat: string, i: nat, k: nat, n: nat) {
    && i + k <= |pat| && k <= n && (forall j | i <= j < i + k :: HexDigit(pat[j]) != -1)
    && (k == n || HexDigit(Peek(pat, i + k)) == -1)
  }

  lemma {:induction false} HexCounted(pat: string, i: nat, k: nat, n: nat)
    requires HexHere(pat, i, k, n)
    ensures HexLen(pat, i, n) == k
    decreases k
  {
    hide HexDigit;
    if k > 0 {
      HexCounted(pat, i + 1, k - 1, n - 1);
    }
  }

  lemma {:induction false} HexNumber(pat: string, i: nat, k: nat, m: nat)
    requires k <= m && i + m <= |pat|
    ensures HexVal(pat, i + k, m - k, Hex(pat[i..i + k])) == Hex(pat[i..i + m])
    decreases m - k
  {
    hide HexDigit;
    if k < m {
      assert pat[i..i + k + 1][..k] == pat[i..i + k];
      HexNumber(pat, i, k + 1, m);
    }
  }

  lemma HexRead(pat: string, i: nat, k: nat, n: nat)
    requires HexHere(pat, i, k, n)
    ensures i + k <= |pat| && HexLen(pat, i, n) == k && HexVal(pat, i, k, 0) == Hex(pat[i..i + k])
  {
    HexCounted(pat, i, k, n);
    HexNumber(pat, i, 0, k);
    assert pat[i..i] == "" && Hex("") == 0;
  }

  /** \x, \u and \U and up to two, four or eight digits: the number, cut to 32 bits. */
  lemma NumberDecoded(pat: string, i: nat, k: nat)
    requires i < |pat| && pat[i] in "xuU" && (pat[i] == 'u' ==> Peek(pat, i + 1) != '{')
    requires k > 0 && HexHere(pat, i + 1, k, if pat[i] == 'x' then 2 else if pat[i] == 'u' then 4 else 8)
    ensures DecodeEscape(pat, i) == (k + 1, Int32(Hex(pat[i + 1..i + 1 + k])))
  {
    hide HexLen, HexVal, Hex, HexDigit, HexHere, Int32;
    HexRead(pat, i + 1, k, if pat[i] == 'x' then 2 else if pat[i] == 'u' then 4 else 8);
  }

  /** \u and up to six digits in braces: the number, unless it is past the last character. */
  lemma BracesDecoded(pat: string, i: nat, k: nat)
    requires i + 1 < |pat| && pat[i] == 'u' && pat[i + 1] == '{' && k > 0 && HexHere(pat, i + 2, k, 6)
    ensures DecodeEscape(pat, i) ==
            if Peek(pat, i + 2 + k) == '}' && 0 <= Hex(pat[i + 2..i + 2 + k]) <= 0x1fffff
            then (k + 3, Hex(pat[i + 2..i + 2 + k])) else (1, 'u' as int)
  {
    hide HexLen, HexVal, Hex, HexDigit, HexHere, HexEscape;
    HexRead(pat, i + 2, k, 6);
  }

  // ---- places

  /** A character of a word stands at i. */
  predicate WordAt(s: string, i: nat) {
    i < |s| && (InClass(":alnum:", s[i] as int) || s[i] == '_')
  }

  /** Where the zero-width tests hold: at the start, at the end, at the first character of a word and behind
      its last. */
  lemma PlacesAre(op: ZeroOp, s: string, i: nat)
    requires i <= |s| && forall j | 0 <= j < |s| :: s[j] != '\0'
    ensures ZeroHolds(op, s, i) <==>
            if op == BOL || op == BOLX then i == 0
            else if op == EOL || op == EOLX then i == |s|
            else if op == WORDA then WordAt(s, i) && (i == 0 || !WordAt(s, i - 1))
            else !WordAt(s, i) && i > 0 && WordAt(s, i - 1)
  {
    WordIs(s, i);
    if i > 0 {
      WordIs(s, i - 1);
    }
    hide WordAt, IsWord;
    assert CodeAt(s, i) == 0 <==> i == |s|;
    assert ZeroWidthOp(op);
  }

  lemma WordIs(s: string, i: nat)
    ensures WordAt(s, i) <==> IsWord(CodeAt(s, i))
  {
  }

  /** How they are written. */
  lemma PlaceRead(d: char)
    requires d in "AZ<>mM"
    ensures ParseRegex(['\\', d]) == Good(Last(Cons(Once(Zero(if d == 'A' then BOLX else if d == 'Z' then EOLX
                                                              else if d in "<m" then WORDA else WORDZ)), Nil)), 2, 0)
  {
    var pat := ['\\', d];
    LeafRead(pat);
    PlaceLeaf(pat, d);
    SingleRead(pat, SpecialAtom(d));
  }

  /** `^` and `$` alone. */
  lemma BoundRead(d: char)
    requires d in "^$"
    ensures ParseRegex([d]) == Good(Last(Cons(Once(Zero(if d == '^' then BOL else EOL)), Nil)), 1, 0)
  {
    assert ParseAtom([d], 0, 0) == Good(Zero(if d == '^' then BOL else EOL), 1, 0);
    SingleRead([d], Zero(if d == '^' then BOL else EOL));
  }

  lemma PlaceLeaf(pat: string, d: char)
    requires pat == ['\\', d] && d in "AZ<>mM"
    ensures !IsMeta(pat[0]) && pat[0] != '\0' && ParseLeaf(pat, 0, 0) == Good(SpecialAtom(d), 2, 0)
  {
    hide LitRun, ClassWords;
  }
}
