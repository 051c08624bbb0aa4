// C strings: texts that end at the first NUL of a buffer.
module CStrings {
  const NUL := '\0'

  predicate NoNul(s: string) {
    forall i | 0 <= i < |s| :: s[i] != NUL
  }

  /** The text up to the first NUL. */
  function CText(s: seq<char>): string {
    if s == [] || s[0] == NUL then "" else [s[0]] + CText(s[1..])
  }

  lemma {:induction false} CTextIs(s: seq<char>, n: nat)
    requires n < |s| && s[n] == NUL && NoNul(s[..n])
    ensures CText(s) == s[..n]
    decreases n
  {
    if n > 0 {
      assert s[..n][0] == s[0];
      assert s[1..][..n - 1] == s[..n][1..];
      CTextIs(s[1..], n - 1);
      assert [s[0]] + s[1..][..n - 1] == s[..n];
    }
  }

  lemma NoNulPrefix(s: string, n: nat)
    requires NoNul(s) && n <= |s|
    ensures NoNul(s[..n])
  {
  }

  lemma NoNulJoin(a: string, b: string)
    requires NoNul(a) && NoNul(b)
    ensures NoNul(a + b)
  {
  }

  /** The buffer holds the C string t. */
  ghost predicate Holds(buf: array<char>, t: string)
    reads buf
  {
    |t| < buf.Length && buf[..|t|] == t && buf[|t|] == NUL && NoNul(t)
  }

  lemma HoldsText(buf: array<char>, t: string)
    requires Holds(buf, t)
    ensures CText(buf[..]) == t
  {
    assert buf[..][..|t|] == t;
    CTextIs(buf[..], |t|);
  }

  lemma HoldsEmpty(buf: array<char>, t: string)
    requires Holds(buf, t)
    ensures buf[0] == NUL <==> t == ""
  {
    assert t != "" ==> buf[0] == buf[..|t|][0];
  }

  lemma HoldsAt(buf: array<char>, t: string, i: nat)
    requires Holds(buf, t) && i <= |t|
    ensures buf[i] == NUL <==> i == |t|
    ensures i < |t| ==> buf[i] == t[i]
  {
    assert i < |t| ==> buf[i] == buf[..|t|][i];
  }
}
