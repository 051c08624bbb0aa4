// Path strings and their components.
module PathText {
  /** The text after any leading slashes. */
  function SkipSlashes(t: string): (r: string)
    ensures |r| <= |t|
    ensures r == "" || r[0] != '/'
  {
    if t != "" && t[0] == '/' then SkipSlashes(t[1..]) else t
  }

  /** Length of the text up to the first slash or the end. */
  function PieceLen(t: string): (n: nat)
    ensures n <= |t|
    ensures n < |t| ==> t[n] == '/'
    ensures forall i | 0 <= i < n :: t[i] != '/'
  {
    if t == "" || t[0] == '/' then 0 else 1 + PieceLen(t[1..])
  }

  /** The components of a path; empty ones and "." do not count. */
  function Comps(t: string): seq<string> {
    if t == "" then
      []
    else if t[0] == '/' then
      Comps(t[1..])
    else
      var n := PieceLen(t);
      if t[..n] == "." then Comps(t[n..]) else [t[..n]] + Comps(t[n..])
  }

  /** Whether text follows the last component. */
  predicate Ends(t: string) {
    if t == "" then
      false
    else if Comps(t) == [] then
      true
    else if t[0] == '/' then
      Ends(t[1..])
    else
      Ends(t[PieceLen(t)..])
  }

  /** What a component name looks like; ".." is left to the walk. */
  predicate IsComp(x: string) {
    x != "" && x != "." && forall i | 0 <= i < |x| :: x[i] != '/'
  }

  lemma {:induction false} CompsAreComps(t: string)
    ensures forall x | x in Comps(t) :: IsComp(x)
    decreases |t|
  {
    if t == "" {
    } else if t[0] == '/' {
      CompsAreComps(t[1..]);
    } else {
      CompsAreComps(t[PieceLen(t)..]);
    }
  }

  lemma SlashStep(t: string)
    requires t != "" && t[0] == '/'
    ensures Comps(t) == Comps(t[1..])
    ensures Comps(t) != [] ==> Ends(t) == Ends(t[1..])
    ensures SkipSlashes(t) == SkipSlashes(t[1..])
  {
  }

  lemma PieceStep(t: string)
    requires t != "" && t[0] != '/'
    ensures var n := PieceLen(t);
            && n >= 1
            && Comps(t) == (if t[..n] == "." then [] else [t[..n]]) + Comps(t[n..])
            && (Comps(t) != [] ==> Ends(t) == Ends(t[n..]))
            && (t[n..] == "" <==> Comps(t[n..]) == [] && !Ends(t[n..]))
  {
  }

  lemma {:induction false} SkipSame(t: string)
    ensures Comps(SkipSlashes(t)) == Comps(t)
    ensures Comps(t) != [] ==> Ends(SkipSlashes(t)) == Ends(t)
    decreases |t|
  {
    if t != "" && t[0] == '/' {
      hide Comps, Ends, SkipSlashes;
      SlashStep(t);
      SkipSame(t[1..]);
    }
  }

  /** Text whose last piece ends where r begins. */
  predicate Splits(c: string, r: string) {
    c == "" || c[|c| - 1] == '/' || r == "" || r[0] == '/'
  }

  lemma PieceOfJoin(c: string, r: string)
    requires Splits(c, r) && c != "" && c[0] != '/'
    ensures PieceLen(c + r) == PieceLen(c)
    decreases |c|
  {
    if |c| > 1 && c[1] != '/' {
      PieceOfJoin(c[1..], r);
      assert (c + r)[1..] == c[1..] + r;
    } else if |c| > 1 {
      assert (c + r)[1..][0] == '/';
    } else {
      assert (c + r)[1..] == r;
    }
  }

  lemma JoinDrop(c: string, r: string, n: nat)
    requires n <= |c|
    ensures (c + r)[n..] == c[n..] + r && (c + r)[..n] == c[..n]
  {
  }

  lemma SplitsDrop(c: string, r: string, n: nat)
    requires Splits(c, r) && n <= |c|
    ensures Splits(c[n..], r)
  {
  }

  /** The components of a text pushed in front of another. */
  lemma {:induction false} CompsJoin(c: string, r: string)
    requires Splits(c, r)
    ensures Comps(c + r) == Comps(c) + Comps(r)
    decreases |c|
  {
    hide Comps, PieceLen, Splits;
    if c == "" {
      CompsEmpty();
      assert c + r == r;
    } else if c[0] == '/' {
      JoinDrop(c, r, 1);
      SplitsDrop(c, r, 1);
      SlashStep(c);
      SlashStep(c + r);
      CompsJoin(c[1..], r);
    } else {
      var n := PieceLen(c);
      PieceOfJoin(c, r);
      JoinDrop(c, r, n);
      SplitsDrop(c, r, n);
      PieceStep(c);
      PieceStep(c + r);
      CompsJoin(c[n..], r);
      JoinAssoc(if c[..n] == "." then [] else [c[..n]], Comps(c[n..]), Comps(r));
    }
  }

  lemma JoinAssoc(a: seq<string>, b: seq<string>, c: seq<string>)
    ensures a + (b + c) == a + b + c
  {
  }

  lemma CompsEmpty()
    ensures Comps("") == [] && !Ends("")
  {
  }

  lemma EndsBare(t: string)
    requires Comps(t) == []
    ensures Ends(t) == (t != "")
  {
  }

  /** Whether text follows the last component of a text pushed in front of another. */
  lemma {:induction false} EndsJoin(c: string, r: string)
    requires Splits(c, r) && Comps(c + r) != []
    ensures Ends(c + r) == if r == "" then Ends(c) else if Comps(r) == [] then true else Ends(r)
    decreases |c|
  {
    hide Comps, PieceLen, Splits, Ends;
    CompsJoin(c, r);
    if r == "" {
      assert c + r == c;
    } else if c == "" {
      CompsEmpty();
      assert c + r == r;
    } else if c[0] == '/' {
      JoinDrop(c, r, 1);
      SplitsDrop(c, r, 1);
      SlashStep(c);
      SlashStep(c + r);
      EndsJoin(c[1..], r);
    } else {
      var n := PieceLen(c);
      PieceOfJoin(c, r);
      JoinDrop(c, r, n);
      SplitsDrop(c, r, n);
      PieceStep(c);
      PieceStep(c + r);
      if Comps(c[n..] + r) != [] {
        EndsJoin(c[n..], r);
      } else {
        CompsJoin(c[n..], r);
        EndsBare(c[n..] + r);
      }
    }
  }
}
