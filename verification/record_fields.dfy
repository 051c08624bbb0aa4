// Fields of colon-separated records, and numbers in them.
module RecordFields {
  import opened Wrappers
  import opened CStrings
  import opened Decimals

  const WORD: nat := 0x1_0000_0000

  /** The position of the next colon from i on. */
  function FindColon(t: string, i: nat): (r: Option<nat>)
    ensures r.Some? ==> i <= r.value < |t| && t[r.value] == ':' && forall k | i <= k < r.value :: t[k] != ':'
    ensures r.None? ==> forall k | i <= k < |t| :: t[k] != ':'
    decreases |t| - i
  {
    if i >= |t| then None else if t[i] == ':' then Some(i) else FindColon(t, i + 1)
  }

  /** A char of C, which is signed. */
  function Signed(c: char): int {
    if c as int < 128 then c as int else c as int - 256
  }

  /** Where the loop over digits stops: at what is above '9', a colon first of all. What is below '0',
      the end of the text too, does not stop it. */
  predicate Stops(c: char) {
    Signed(c) - 48 >= 10
  }

  function Step(x: nat, c: char): (r: nat)
    ensures r < WORD
  {
    (10 * x + Signed(c) - 48) % WORD
  }

  /** The number read from position i on, and where it ends; None if nothing in the text stops it. */
  function Atou(t: string, i: nat, x: nat): (r: Option<(nat, nat)>)
    ensures r.Some? ==> i <= r.value.1 < |t| && Stops(t[r.value.1])
    decreases |t| - i
  {
    if i >= |t| then None else if Stops(t[i]) then Some((x, i)) else Atou(t, i + 1, Step(x, t[i]))
  }

  /** Digits read one by one from the front. */
  function Value(s: string, x: nat): nat {
    if s == "" then x else Value(s[1..], Step(x, s[0]))
  }

  lemma {:induction false} ValueJoin(a: string, b: string, x: nat)
    ensures Value(a + b, x) == Value(b, Value(a, x))
    decreases |a|
  {
    if a == "" {
      assert a + b == b;
    } else {
      assert (a + b)[1..] == a[1..] + b;
      ValueJoin(a[1..], b, Step(x, a[0]));
    }
  }

  lemma {:induction false} ValueWeight(s: string)
    requires Digits(s)
    ensures Value(s, 0) == Weight(s) % WORD
    decreases |s|
  {
    if s != "" {
      var up, c := s[..|s| - 1], s[|s| - 1];
      assert s == up + [c];
      WeightMore(up, c);
      ValueWeight(up);
      ValueJoin(up, [c], 0);
      assert [c][1..] == "";
      assert Value([c], Value(up, 0)) == Step(Value(up, 0), c);
      StepModulo(Weight(up), c);
    }
  }

  lemma StepModulo(w: nat, c: char)
    requires 48 <= c as int < 58
    ensures Step(w % WORD, c) == (10 * w + (c as int - 48)) % WORD
  {
    var q, d := w / WORD, c as int - 48;
    assert 10 * w + d == 10 * (w % WORD) + d + 10 * q * WORD;
  }

  lemma {:induction false} AtouDigits(t: string, i: nat, s: string, x: nat)
    requires i + |s| < |t| && t[i..i + |s|] == s && Digits(s) && t[i + |s|] == ':'
    ensures Atou(t, i, x) == Some((Value(s, x), i + |s|))
    decreases |s|
  {
    hide Step;
    if s != "" {
      assert t[i] == t[i..i + |s|][0];
      assert t[i + 1..i + |s|] == t[i..i + |s|][1..] == s[1..];
      AtouDigits(t, i + 1, s[1..], Step(x, t[i]));
    }
  }

  /** Digits followed by a colon are read as the number they stand for, as far as 32 bits hold it. */
  lemma NumberRead(t: string, i: nat, s: string)
    requires Digits(s) && i + |s| < |t| && t[i..i + |s|] == s && t[i + |s|] == ':'
    ensures Atou(t, i, 0) == Some((Weight(s) % WORD, i + |s|))
  {
    ValueWeight(s);
    AtouDigits(t, i, s, 0);
  }

  /** What else than a digit stands in a number: what is above '9' as a signed char ends it, and what is below
      '0' counts as a negative digit. */
  lemma OtherRead(c: char, t: string)
    requires t == [c, ':']
    ensures var v := if c as int < 128 then c as int else c as int - 256;
            var low: nat := (v - '0' as int) % 0x1_0000_0000;
            Atou(t, 0, 0) == if v > '9' as int then Some((0, 0)) else Some((low, 1))
  {
    assert Atou(t, 1, Step(0, c)) == Some((Step(0, c), 1));
  }

  /** d are digits, and n is the number they are read as. */
  predicate Reads(d: string, n: nat) {
    Digits(d) && n == Weight(d) % WORD
  }

  /** A printed number is read back. */
  lemma DecRead(n: nat)
    requires n < WORD
    ensures Reads(Dec(n), n)
  {
    DecWeight(n);
  }

  /** A text that can be a field. */
  predicate IsField(s: string) {
    forall i | 0 <= i < |s| :: s[i] != ':' && s[i] != '\n' && s[i] != NUL
  }

  lemma {:induction false} ColonBehind(t: string, i: nat, s: string, j: nat)
    requires j <= |s| && i + |s| < |t| && t[i..i + |s|] == s && IsField(s) && t[i + |s|] == ':'
    ensures FindColon(t, i + j) == Some(i + |s|)
    decreases |s| - j
  {
    if j < |s| {
      assert t[i + j] == t[i..i + |s|][j] == s[j];
      ColonBehind(t, i, s, j + 1);
    }
  }

  /** r is the field s and, behind a colon, the rest. */
  predicate FieldThen(r: string, s: string, rest: string) {
    r == s + ":" + rest
  }

  /** The text from position i on is r. */
  predicate FromOn(t: string, i: nat, r: string) {
    i <= |t| && t[i..] == r
  }

  lemma Behind(t: string, i: nat, s: string, rest: string)
    requires i <= |t| && t[i..] == s + ":" + rest
    ensures i + |s| < |t| && t[i..i + |s|] == s && t[i + |s|] == ':' && t[i + |s| + 1..] == rest
  {
    assert t[i..][..|s|] == s && t[i..][|s|] == ':' && t[i..][|s| + 1..] == rest;
  }

  lemma FirstField(t: string, s: string, rest: string)
    requires FieldThen(t, s, rest) && IsField(s) && s != ""
    ensures FindColon(t, 1) == Some(|s|) && |s| < |t| && t[..|s|] == s && FromOn(t, |s| + 1, rest) && t != ""
  {
    hide FindColon, IsField;
    assert t[0..] == t;
    Behind(t, 0, s, rest);
    ColonBehind(t, 0, s, 1);
  }

  lemma NextField(t: string, i: nat, r: string, s: string, rest: string)
    requires FromOn(t, i, r) && FieldThen(r, s, rest) && IsField(s)
    ensures FindColon(t, i) == Some(i + |s|) && i + |s| < |t| && t[i..i + |s|] == s && FromOn(t, i + |s| + 1, rest)
  {
    hide FindColon, IsField;
    Behind(t, i, s, rest);
    ColonBehind(t, i, s, 0);
  }

  lemma NextNumber(t: string, i: nat, r: string, n: nat, d: string, rest: string)
    requires FromOn(t, i, r) && FieldThen(r, d, rest) && Reads(d, n)
    ensures Atou(t, i, 0) == Some((n, i + |d|)) && i + |d| < |t| && t[i + |d|] == ':' && FromOn(t, i + |d| + 1, rest)
  {
    hide Weight, Digits, Atou;
    Behind(t, i, d, rest);
    NumberRead(t, i, d);
  }

  lemma LastField(t: string, i: nat, s: string)
    requires FromOn(t, i, s)
    ensures i <= |t| && t[i..] == s
  {
  }

  // ---- in place

  /** From position i on the line is as it was read; before it, it has been cut. */
  ghost predicate Uncut(line: array<char>, t: string, i: nat)
    reads line
  {
    i <= |t| < line.Length && line[i..|t|] == t[i..] && line[|t|] == NUL && NoNul(t)
  }

  lemma CharAt(line: array<char>, t: string, i: nat, k: nat)
    requires Uncut(line, t, i) && i <= k <= |t|
    ensures k < line.Length
    ensures k < |t| ==> line[k] == t[k] && line[k] != NUL
    ensures k == |t| ==> line[k] == NUL
  {
    if k < |t| {
      assert line[k] == line[i..|t|][k - i] == t[i..][k - i];
    }
  }

  /** strchr(s, ':') from position i, on a line not cut from `from` on. */
  method StrChr(line: array<char>, t: string, ghost from: nat, i: nat) returns (r: Option<nat>)
    requires Uncut(line, t, from) && from <= i <= |t|
    ensures r == FindColon(t, i)
  {
    hide NoNul;
    var k := i;
    CharAt(line, t, from, i);
    while line[k] != NUL && line[k] != ':'
      invariant i <= k <= |t| && FindColon(t, i) == FindColon(t, k)
      invariant k < |t| ==> line[k] == t[k] && line[k] != NUL
      decreases |t| - k
    {
      k := k + 1;
      CharAt(line, t, from, k);
    }
    return if line[k] == ':' then Some(k) else None;
  }

  /** atou from position i. */
  method ReadNumber(line: array<char>, t: string, i: nat) returns (x: nat, j: nat)
    requires Uncut(line, t, i) && Atou(t, i, 0).Some?
    ensures Atou(t, i, 0) == Some((x, j))
  {
    hide NoNul;
    x, j := 0, i;
    CharAt(line, t, i, i);
    while Signed(line[j]) - 48 < 10
      invariant i <= j < |t| && Atou(t, i, 0) == Atou(t, j, x) && line[j] == t[j]
      decreases |t| - j
    {
      x := Step(x, line[j]);
      j := j + 1;
      CharAt(line, t, i, j);
    }
  }

  /** The text at a position is x, ended by a NUL. */
  predicate At(s: seq<char>, i: nat, x: string) {
    i + |x| < |s| && s[i..i + |x|] == x && s[i + |x|] == NUL && NoNul(x)
  }

  lemma AtMore(s: seq<char>, s': seq<char>, i: nat, x: string)
    requires At(s, i, x) && s <= s'
    ensures At(s', i, x)
  {
    assert s'[i..i + |x|] == s'[..|s|][i..i + |x|];
  }

  lemma TextIs(s: seq<char>, i: nat, x: string)
    requires At(s, i, x)
    ensures CText(s[i..]) == x
  {
    assert s[i..][..|x|] == x && s[i..][|x|] == NUL;
    CTextIs(s[i..], |x|);
  }

  lemma AtBounds(s: seq<char>, i: nat, x: string)
    requires At(s, i, x)
    ensures i < |s|
  {
  }

  lemma ReadText(line: array<char>, front: seq<char>, i: nat, x: string)
    requires At(front, i, x) && front <= line[..]
    ensures i < line.Length && CText(line[i..]) == x
  {
    hide At, CText;
    AtMore(front, line[..], i, x);
    AtBounds(line[..], i, x);
    TextIs(line[..], i, x);
    assert line[..][i..] == line[i..];
  }

  lemma LastText(line: array<char>, t: string, i: nat)
    requires Uncut(line, t, i)
    ensures At(line[..], i, t[i..])
  {
    assert line[..][i..i + |t[i..]|] == line[i..|t|];
  }

  /** Cut the line at position j: the text from i to there stands by itself. */
  method Cut(line: array<char>, t: string, i: nat, j: nat)
    requires Uncut(line, t, i) && i <= j < |t|
    modifies line
    ensures Uncut(line, t, j + 1) && At(line[..j + 1], i, t[i..j])
    ensures line[..i] == old(line[..i]) <= line[..j + 1]
  {
    assert line[i..j] == line[i..|t|][..j - i] == t[i..][..j - i] == t[i..j];
    assert line[j + 1..|t|] == line[i..|t|][j + 1 - i..] == t[i..][j + 1 - i..] == t[j + 1..];
    line[j] := NUL;
    assert line[..j + 1][i..i + (j - i)] == line[i..j];
  }

  lemma UncutFacts(line: array<char>, t: string, i: nat)
    requires Uncut(line, t, i)
    ensures i <= |t| < line.Length
  {
  }

  lemma AtEnd(line: array<char>, t: string, i: nat, k: nat)
    requires Uncut(line, t, i) && i <= k <= |t| && line[k] == NUL
    ensures k == |t|
  {
    hide Uncut;
    UncutFacts(line, t, i);
    CharAt(line, t, i, k);
  }

  /** The length of the first line, its end included. */
  function LineLen(text: string): (n: nat)
    ensures n <= |text| && (text != "" ==> n > 0)
  {
    if text == "" then 0 else if text[0] == '\n' then 1 else 1 + LineLen(text[1..])
  }

  /** The first line without its last character, which is its end but for a file that has none there. */
  function FirstLine(text: string): string
    requires text != ""
  {
    text[..LineLen(text) - 1]
  }

  /** getline, and the end of the line taken off. */
  method GetLine(text: string) returns (line: array<char>, l: nat)
    requires text != "" && NoNul(text)
    ensures fresh(line) && l == LineLen(text) && Uncut(line, FirstLine(text), 0)
  {
    l := 0;
    while l < |text| && (l == 0 || text[l - 1] != '\n')
      invariant l <= |text| && LineLen(text) == l + (if l > 0 && text[l - 1] == '\n' then 0 else LineLen(text[l..]))
    {
      assert text[l..][1..] == text[l + 1..];
      l := l + 1;
    }
    line := new char[l];
    var i := 0;
    while i < l
      invariant 0 <= i <= l && line[..i] == text[..i]
    {
      line[i] := text[i];
      i := i + 1;
    }
    line[l - 1] := NUL;
    assert line[..l - 1] == text[..l - 1] && line[0..l - 1] == line[..l - 1];
    assert FirstLine(text)[0..] == FirstLine(text);
  }

  lemma {:induction false} LineLenIs(s: string, rest: string)
    requires forall i | 0 <= i < |s| :: s[i] != '\n'
    ensures LineLen(s + "\n" + rest) == |s| + 1
    decreases |s|
  {
    if s != "" {
      assert (s + "\n" + rest)[1..] == s[1..] + "\n" + rest;
      LineLenIs(s[1..], rest);
    }
  }

  predicate OneLine(s: string) {
    forall i | 0 <= i < |s| :: s[i] != '\n'
  }

  lemma OneLineJoin(a: string, b: string)
    requires OneLine(a) && OneLine(b)
    ensures OneLine(a + b)
  {
  }

  lemma FirstOf(t: string, rest: string)
    ensures (t + "\n" + rest)[..|t|] == t && (t + "\n" + rest)[|t| + 1..] == rest
  {
  }
}
