// The matcher's primitive tests on operand words: they read a zero-ended operand in the program.
module RegexOperands {
  import opened RegexSemantics
  import opened RegexCode

  ghost predicate NonZero(ws: seq<int>) {
    forall i | 0 <= i < |ws| :: ws[i] != 0
  }

  /** Length of the zero-ended operand at `at`. */
  method StrIntLen(p: seq<int>, at: nat, ghost ws: seq<int>) returns (n: nat)
    requires Words(p, at, ws + [0]) && NonZero(ws)
    ensures n == |ws|
  {
    n := 0;
    assert p[at + |ws|] == (ws + [0])[|ws|];
    while p[at + n] != 0
      invariant n <= |ws|
      decreases |ws| - n
    {
      assert p[at + n] == (ws + [0])[n];
      n := n + 1;
    }
    assert p[at + n] == (ws + [0])[n];
  }

  lemma {:induction false} LitHereStep(cs: seq<int>, s: string, i: nat, n: nat)
    requires n <= |cs|
    requires forall j | 0 <= j < n :: CodeAt(s, i + j) == cs[j] && i + j < |s|
    ensures LitHere(cs, s, i) == LitHere(cs[n..], s, i + n)
    decreases n
  {
    if n > 0 {
      forall j | 0 <= j < n - 1
        ensures CodeAt(s, i + 1 + j) == cs[1..][j] && i + 1 + j < |s|
      {
        assert CodeAt(s, i + (j + 1)) == cs[j + 1];
      }
      assert CodeAt(s, i + 0) == cs[0];
      LitHereStep(cs[1..], s, i + 1, n - 1);
      assert cs[1..][n - 1..] == cs[n..];
    } else {
      assert cs[0..] == cs;
    }
  }

  /** Number of characters of s at i matched by the len operand words, or -1. */
  method PrefixCmp(p: seq<int>, at: nat, len: nat, s: string, i: nat, ghost ws: seq<int>) returns (r: int)
    requires Words(p, at, ws) && len == |ws|
    ensures r == if LitHere(ws, s, i) then len else -1
  {
    var n := 0;
    while n < len && i + n < |s|
      invariant n <= len
      invariant forall j | 0 <= j < n :: CodeAt(s, i + j) == ws[j] && i + j < |s|
    {
      assert p[at + n] == ws[n];
      if CodeAt(s, i + n) != p[at + n] {
        LitHereStep(ws, s, i, n);
        return -1;
      }
      n := n + 1;
    }
    LitHereStep(ws, s, i, n);
    if n == len {
      return n;
    }
    return -1;
  }

  /** The pair at k, a length and a first character, holds c. */
  predicate InPair(ws: seq<int>, k: nat, c: int) {
    k % 2 == 0 && k + 1 < |ws| && ws[k + 1] <= c < ws[k + 1] + ws[k]
  }

  lemma {:induction false} RangesAre(ws: seq<int>, c: int)
    requires |ws| % 2 == 0
    ensures InRanges(ws, c) <==> exists k: nat :: InPair(ws, k, c)
    decreases |ws|
  {
    if |ws| >= 2 {
      RangesAre(ws[2..], c);
      assert InPair(ws, 0, c) <==> ws[1] <= c < ws[1] + ws[0];
      if k: nat :| InPair(ws[2..], k, c) {
        assert InPair(ws, k + 2, c);
      }
      if k: nat :| InPair(ws, k, c) && k > 0 {
        assert InPair(ws[2..], k - 2, c);
      }
    }
  }

  /** Is c in one of the (length, first) ranges at `at`? A length of zero ends them. */
  method RegRangeFind(p: seq<int>, at: nat, c: int, ghost ws: seq<int>) returns (found: bool)
    requires Words(p, at, ws + [0]) && |ws| % 2 == 0
    ensures NonZero(ws) ==> found == InRanges(ws, c)
    ensures NonZero(ws) ==> (found <==> exists k: nat :: InPair(ws, k, c))
  {
    RangesAre(ws, c);
    var n := 0;
    assert ws[0..] == ws;
    assert p[at + |ws|] == (ws + [0])[|ws|];
    while p[at + n] != 0
      invariant n <= |ws| && n % 2 == 0 && at + n < |p|
      invariant NonZero(ws) ==> InRanges(ws, c) == InRanges(ws[n..], c)
      decreases |ws| - n
    {
      assert forall j | 0 <= j < |ws| :: p[at + j] == (ws + [0])[j] == ws[j];
      assert n < |ws|;
      if c >= p[at + n + 1] && c <= p[at + n] + p[at + n + 1] - 1 {
        return true;
      }
      assert ws[n..][2..] == ws[n + 2..];
      n := n + 2;
    }
    assert n < |ws| ==> p[at + n] == (ws + [0])[n] == ws[n];
    return false;
  }
}
