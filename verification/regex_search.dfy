// Compiling a pattern and searching with it, as every call site does, read in terms of the language.
module RegexSearch {
  import opened RegexSyntax
  import opened RegexSemantics
  import opened RegexLanguage
  import opened RegexParse
  import opened RegexPrint
  import opened RegexPrintBack
  import opened RegexSafe
  import opened RegexEngine

  /** s[i..j] belongs to the language of alts, anchors read where they stand. */
  ghost predicate MatchesAt(alts: Alts, s: string, i: nat, j: nat) {
    i <= |s| && j in LangAlts(alts, s, i)
  }

  lemma FoundMatches(alts: Alts, s: string, so: nat, eo: nat)
    requires PlainAlts(alts) && Found(alts, s, so, eo)
    ensures MatchesAt(alts, s, so, eo)
    ensures forall i, j | MatchesAt(alts, s, i, j) :: so <= i
  {
    hide EndsAlts, LangAlts, PlainAlts;
    AltsLanguage(alts, s, so);
    assert eo in Elems(EndsAlts(alts, s, so));
    forall i, j | MatchesAt(alts, s, i, j)
      ensures so <= i
    {
      AltsLanguage(alts, s, i);
      assert j in EndsAlts(alts, s, i);
    }
  }

  lemma NoneMatches(alts: Alts, s: string)
    requires PlainAlts(alts) && NoMatchIn(alts, s, 0, |s| + 1)
    ensures !exists i, j :: MatchesAt(alts, s, i, j)
  {
    hide EndsAlts, LangAlts, PlainAlts;
    forall i, j | MatchesAt(alts, s, i, j)
      ensures false
    {
      AltsLanguage(alts, s, i);
      assert false;
    }
  }

  /** A search of s with this outcome: a match was found iff the language has one, and it is the leftmost,
      ending where the priorities of the expression would have it. */
  ghost predicate Searched(alts: Alts, s: string, found: bool, so: nat, eo: nat) {
    && (found <==> exists i, j :: MatchesAt(alts, s, i, j))
    && (found ==> Found(alts, s, so, eo) && MatchesAt(alts, s, so, eo)
                  && forall i, j | MatchesAt(alts, s, i, j) :: so <= i)
  }

  lemma SearchedIs(alts: Alts, s: string, found: bool, so: nat, eo: nat)
    requires PlainAlts(alts)
    requires found ==> Found(alts, s, so, eo)
    requires !found ==> NoMatchIn(alts, s, 0, |s| + 1)
    ensures Searched(alts, s, found, so, eo)
  {
    hide PlainAlts, Found, NoMatchIn, MatchesAt;
    if found {
      FoundMatches(alts, s, so, eo);
    } else {
      NoneMatches(alts, s);
    }
  }

  /** What any search comes to whose counts are not negative and whose sets hold no zero word, and what
      it comes to besides where the program means what the expression says. */
  ghost predicate Ended(alts: Alts, s: string, found: bool, so: nat, eo: nat) {
    && (found ==> so <= eo <= |s|)
    && (PlainAlts(alts) ==> Searched(alts, s, found, so, eo))
  }

  /** Compiles once and searches two subjects with the same object: neither the hints nor the
      counters left by the first search change what the second reports. */
  method CompileAndSearchTwice(pattern: string, s: string, t: string)
    returns (err: int, found: bool, so: nat, eo: nat, found': bool, so': nat, eo': nat)
    requires ParseRegex(pattern).Good? ==> CountedAlts(ParseRegex(pattern).v) && SolidAlts(ParseRegex(pattern).v)
    ensures ParseRegex(pattern).Bad? ==> err == ParseRegex(pattern).err
    ensures ParseRegex(pattern).Good? ==>
              err == REG_NOERROR && Ended(ParseRegex(pattern).v, s, found, so, eo)
              && Ended(ParseRegex(pattern).v, t, found', so', eo')
  {
    hide ParseRegex, PlainAlts, SafeAlts, SolidAlts, CountedAlts, Found, NoMatchIn, MatchesAt, Searched;
    found, so, eo, found', so', eo' := false, 0, 0, false, 0, 0;
    var preg := new Regex();
    err := preg.JimRegcomp(pattern);
    if ParseRegex(pattern).Bad? {
      return;
    }
    CompiledSafe(pattern);
    ghost var alts := ParseRegex(pattern).v;
    found, so, eo := SearchOnce(preg, s, alts);
    found', so', eo' := SearchOnce(preg, t, alts);
  }

  method SearchOnce(preg: Regex, s: string, ghost alts: Alts) returns (found: bool, so: nat, eo: nat)
    requires preg.Valid(alts)
    modifies preg
    ensures preg.Valid(alts) && Ended(alts, s, found, so, eo)
  {
    hide *;
    var r;
    r, so, eo := preg.JimRegexec(s, alts);
    found := r == REG_NOERROR;
    EndedIs(alts, s, found, so, eo);
  }

  lemma EndedIs(alts: Alts, s: string, found: bool, so: nat, eo: nat)
    requires found ==> so <= eo <= |s|
    requires PlainAlts(alts) && found ==> Found(alts, s, so, eo)
    requires PlainAlts(alts) && !found ==> NoMatchIn(alts, s, 0, |s| + 1)
    ensures Ended(alts, s, found, so, eo)
  {
    hide PlainAlts, Found, NoMatchIn, Searched;
    if PlainAlts(alts) {
      SearchedIs(alts, s, found, so, eo);
    }
  }

  /** Compiles a pattern that is read as the plain expression alts and searches with it. */
  method SearchPlain(pattern: string, ghost alts: Alts, s: string) returns (found: bool, so: nat, eo: nat)
    requires ParseRegex(pattern).Good? && ParseRegex(pattern).v == alts && PlainAlts(alts)
    ensures if found then Found(alts, s, so, eo) else NoMatchIn(alts, s, 0, |s| + 1)
  {
    hide *;
    PlainIsSafe(alts);
    PlainIsSolid(alts);
    var preg := new Regex();
    var err := preg.JimRegcomp(pattern);
    var r;
    r, so, eo := preg.JimRegexec(s, alts);
    found := r == REG_NOERROR;
  }

  /** From an expression to its matches, whatever the pattern is read as on the way: written out in either
      style, compiled and run, it finds the leftmost match of its language, if there is one. */
  method SearchShown(alts: Alts, style: Style, s: string) returns (found: bool, so: nat, eo: nat)
    requires OkAlts(alts) && NumberedAlts(alts, 0) && GroupsAlts(alts) < REG_MAX_PAREN && PlainAlts(alts)
    ensures found <==> exists i, j :: MatchesAt(alts, s, i, j)
    ensures found ==> MatchesAt(alts, s, so, eo) && forall i, j | MatchesAt(alts, s, i, j) :: so <= i
    ensures found ==> EndsAlts(alts, s, so) != [] && eo == EndsAlts(alts, s, so)[0]
  {
    hide *;
    ParseShown(alts, style);
    found, so, eo := SearchPlain(ShowAlts(alts, style), alts, s);
    if found {
      FoundMatches(alts, s, so, eo);
      FoundBest(alts, s, so, eo);
    } else {
      NoneMatches(alts, s);
    }
  }

  lemma FoundBest(alts: Alts, s: string, so: nat, eo: nat)
    requires Found(alts, s, so, eo)
    ensures EndsAlts(alts, s, so) != [] && eo == EndsAlts(alts, s, so)[0]
  {
    hide EndsAlts;
  }
}
