// Colon-separated lists of paths.
module PreloadList {
  import opened Limits

  /** Length of the text up to the first colon or the end. */
  function TokenLen(s: string): (n: nat)
    ensures n <= |s| && (n < |s| ==> s[n] == ':')
    ensures forall i | 0 <= i < n :: s[i] != ':'
  {
    if s == "" || s[0] == ':' then 0 else 1 + TokenLen(s[1..])
  }

  /** The tokens of a list; empty ones do not count. */
  function Tokens(s: string): seq<string> {
    if s == "" then
      []
    else if s[0] == ':' then
      Tokens(s[1..])
    else
      [s[..TokenLen(s)]] + Tokens(s[TokenLen(s)..])
  }

  predicate IsPath(p: string) {
    0 < |p| < PATH_MAX && forall i | 0 <= i < |p| :: p[i] != ':'
  }

  /** A list with a path behind it. */
  function Joined(list: string, path: string): string {
    if list != "" && path != "" then list + ":" + path else list + path
  }

  /** Whether there is room for it, in a buffer of cap characters. */
  predicate Fits(list: string, path: string, cap: nat) {
    |path| + (if list != "" then 1 else 0) + |list| + 1 <= cap
  }

  /** What a copy of the list for looking through it keeps. */
  function Head(list: string): (r: string)
    ensures |list| <= PATH_MAX ==> r == list
  {
    if |list| <= PATH_MAX then list else list[..PATH_MAX]
  }

  lemma TokensStep(s: string)
    ensures s == "" ==> Tokens(s) == []
    ensures s != "" && s[0] == ':' ==> Tokens(s) == Tokens(s[1..])
    ensures s != "" && s[0] != ':' ==> TokenLen(s) > 0 && Tokens(s) == [s[..TokenLen(s)]] + Tokens(s[TokenLen(s)..])
  {
  }

  lemma {:induction false} TokenLenJoin(s: string, t: string)
    requires s != "" && s[0] != ':'
    ensures TokenLen(s + ":" + t) == TokenLen(s)
    decreases |s|
  {
    assert (s + ":" + t)[1..] == s[1..] + ":" + t;
    if |s| > 1 && s[1] != ':' {
      TokenLenJoin(s[1..], t);
    }
  }

  lemma DropJoin(s: string, t: string, n: nat)
    requires n <= |s|
    ensures (s + ":" + t)[n..] == s[n..] + ":" + t && (s + ":" + t)[..n] == s[..n]
  {
  }

  lemma {:induction false} TokensJoin(s: string, t: string)
    ensures Tokens(s + ":" + t) == Tokens(s) + Tokens(t)
    decreases |s|
  {
    hide Tokens, TokenLen;
    if s == "" {
      assert "" + ":" + t == ":" + t && (":" + t)[1..] == t;
      TokensStep(s);
      TokensStep(":" + t);
      assert [] + Tokens(t) == Tokens(t);
    } else if s[0] == ':' {
      DropJoin(s, t, 1);
      TokensStep(s);
      TokensStep(s + ":" + t);
      TokensJoin(s[1..], t);
    } else {
      var n := TokenLen(s);
      TokensStep(s);
      TokenLenJoin(s, t);
      DropJoin(s, t, n);
      TokensStep(s + ":" + t);
      TokensJoin(s[n..], t);
      assert [s[..n]] + (Tokens(s[n..]) + Tokens(t)) == [s[..n]] + Tokens(s[n..]) + Tokens(t);
    }
  }

  lemma {:induction false} TokenOfPath(p: string)
    requires forall i | 0 <= i < |p| :: p[i] != ':'
    ensures TokenLen(p) == |p| && Tokens(p) == if p == "" then [] else [p]
    decreases |p|
  {
    if p != "" {
      TokenOfPath(p[1..]);
      assert p[..|p|] == p && p[|p|..] == "";
    }
  }

  /** Appending a path appends one token. */
  lemma JoinedTokens(list: string, path: string)
    requires IsPath(path)
    ensures Tokens(Joined(list, path)) == Tokens(list) + [path]
    ensures |Joined(list, path)| == |path| + (if list != "" then 1 else 0) + |list|
    ensures forall cap: nat :: Fits(list, path, cap) <==> |Joined(list, path)| < cap
  {
    hide Tokens;
    TokenOfPath(path);
    if list == "" {
      TokensStep(list);
      assert "" + path == path && [] + [path] == [path];
    } else {
      TokensJoin(list, path);
    }
  }

  /** Pieces with colons between them. */
  function Colons(ps: seq<string>): string
    requires ps != []
  {
    if |ps| == 1 then ps[0] else ps[0] + ":" + Colons(ps[1..])
  }

  function NonEmpty(ps: seq<string>): seq<string> {
    if ps == [] then [] else (if ps[0] == "" then [] else [ps[0]]) + NonEmpty(ps[1..])
  }

  /** The tokens of a list are its pieces between colons, empty ones left out. */
  lemma {:induction false} TokensAre(ps: seq<string>)
    requires ps != [] && forall k, i | 0 <= k < |ps| && 0 <= i < |ps[k]| :: ps[k][i] != ':'
    ensures Tokens(Colons(ps)) == NonEmpty(ps)
    decreases |ps|
  {
    TokenOfPath(ps[0]);
    assert NonEmpty([]) == [];
    hide Tokens;
    if |ps| > 1 {
      assert forall k | 0 <= k < |ps| - 1 :: ps[1..][k] == ps[k + 1];
      TokensAre(ps[1..]);
      TokensJoin(ps[0], Colons(ps[1..]));
    }
  }
}
