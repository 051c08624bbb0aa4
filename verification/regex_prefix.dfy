// Patterns of the form ^(a|b|c), as the ones that say which paths are left alone: they find the subjects
// that start with one of the texts.
module RegexPrefix {
  import opened RegexSyntax
  import opened RegexSemantics
  import opened RegexLists
  import opened RegexParse
  import opened RegexPrint
  import opened RegexPrintBack
  import opened RegexEngine
  import opened RegexSearch
  import opened RegexText

  /** Printable characters without a meaning in a pattern. */
  predicate Word(t: string) {
    PlainText(t) && forall i | 0 <= i < |t| :: ' ' <= t[i] <= '~'
  }

  predicate Words(ts: seq<string>) {
    ts != [] && forall k | 0 <= k < |ts| :: Word(ts[k])
  }

  /** The texts with bars between them. */
  function Barred(ts: seq<string>): string
    requires ts != []
  {
    if |ts| == 1 then ts[0] else ts[0] + "|" + Barred(ts[1..])
  }

  function Prefixes(ts: seq<string>): string
    requires ts != []
  {
    "^(" + Barred(ts) + ")"
  }

  /** The pattern used where none is given (path_resolution.c:278). */
  const DEFAULT_IGNORE := ["/proc/", "/sys/", "/dev/", "/var/run/", "/run/"]

  lemma PathWord(t: string)
    requires t != "" && forall i | 0 <= i < |t| :: t[i] == '/' || 'a' <= t[i] <= 'z'
    ensures Word(t)
  {
  }

  lemma DefaultWords()
    ensures Words(DEFAULT_IGNORE)
  {
    hide Word;
    forall k | 0 <= k < |DEFAULT_IGNORE|
      ensures Word(DEFAULT_IGNORE[k])
    {
      PathWord(DEFAULT_IGNORE[k]);
    }
  }

  lemma DefaultIgnore()
    ensures Words(DEFAULT_IGNORE)
    ensures Prefixes(DEFAULT_IGNORE) ==
            "^(" + ("/proc/" + "|" + ("/sys/" + "|" + ("/dev/" + "|" + ("/var/run/" + "|" + "/run/")))) + ")"
  {
    DefaultWords();
    BarredOne("/run/");
    assert DEFAULT_IGNORE == ["/proc/"] + (["/sys/"] + (["/dev/"] + (["/var/run/"] + ["/run/"])));
    hide *;
    BarredCons("/var/run/", ["/run/"]);
    BarredCons("/dev/", ["/var/run/"] + ["/run/"]);
    BarredCons("/sys/", ["/dev/"] + (["/var/run/"] + ["/run/"]));
    BarredCons("/proc/", ["/sys/"] + (["/dev/"] + (["/var/run/"] + ["/run/"])));
    PrefixesText(DEFAULT_IGNORE);
  }

  lemma PrefixesText(ts: seq<string>)
    requires ts != []
    ensures Prefixes(ts) == "^(" + Barred(ts) + ")"
  {
  }

  lemma BarredOne(t: string)
    ensures Barred([t]) == t
  {
  }

  lemma BarredCons(t: string, ts: seq<string>)
    requires ts != []
    ensures Barred([t] + ts) == t + "|" + Barred(ts)
  {
    assert ([t] + ts)[1..] == ts;
  }

  // ---- what it is read as

  function WordAlts(ts: seq<string>): Alts
    requires ts != []
  {
    var b := Cons(Once(Lit(Codes(ts[0]))), Nil);
    if |ts| == 1 then Last(b) else Or(b, WordAlts(ts[1..]))
  }

  function PrefixAlts(ts: seq<string>): Alts
    requires ts != []
  {
    Last(Cons(Once(Zero(BOL)), Cons(Once(Group(1, WordAlts(ts))), Nil)))
  }

  lemma {:induction false} WordShown(t: string)
    requires forall i | 0 <= i < |t| :: ' ' <= t[i] <= '~' && t[i] !in "^$.[()|?{+*\\\0"
    ensures AllCodes(Codes(t)) && ShowLit(Codes(t), Raw) == t
    decreases |t|
  {
    if t != "" {
      WordShown(t[1..]);
      assert Codes(t)[1..] == Codes(t[1..]);
      assert ShowCode(t[0] as int, Raw) == [t[0]];
      assert t == [t[0]] + t[1..];
    }
  }

  lemma {:induction false} WordsShown(ts: seq<string>)
    requires Words(ts)
    ensures OkAlts(WordAlts(ts)) && ShowAlts(WordAlts(ts), Raw) == Barred(ts) && NumberedAlts(WordAlts(ts), 1)
    ensures GroupsAlts(WordAlts(ts)) == 0 && PlainAlts(WordAlts(ts))
    decreases |ts|
  {
    WordShown(ts[0]);
    var a := Lit(Codes(ts[0]));
    assert ShowAtom(a, Raw) == ts[0] && PlainAtom(a);
    OneShown(a, 1);
    if |ts| > 1 {
      WordsShown(ts[1..]);
    }
  }

  lemma OneShown(a: Atom, n: nat)
    requires OkAtom(a) && NumberedAtom(a, n) && PlainAtom(a)
    ensures var b := Cons(Once(a), Nil);
            && OkPieces(b) && ShowPieces(b, Raw) == ShowAtom(a, Raw)
            && NumberedPieces(b, n) && GroupsPieces(b) == GroupsAtom(a) && PlainPieces(b)
  {
    hide ShowAtom, OkAtom, NumberedAtom, GroupsAtom, PlainAtom;
    assert OkPieces(Nil) && PlainPieces(Nil) && NumberedPieces(Nil, n + GroupsAtom(a)) && GroupsPieces(Nil) == 0;
    assert ShowPieces(Nil, Raw) == "" && ShowAtom(a, Raw) + "" == ShowAtom(a, Raw);
    assert ShowPiece(Once(a), Raw) == ShowAtom(a, Raw) && PlainPiece(Once(a)) && OkPiece(Once(a));
  }

  lemma PrefixRead(ts: seq<string>)
    requires Words(ts)
    ensures ParseRegex(Prefixes(ts)) == Good(PrefixAlts(ts), |Prefixes(ts)|, 1) && PlainAlts(PrefixAlts(ts))
  {
    WordsShown(ts);
    var g := Group(1, WordAlts(ts));
    PrefixShown(ts, g);
    ParseShown(PrefixAlts(ts), Raw);
  }

  lemma PrefixShown(ts: seq<string>, g: Atom)
    requires ts != [] && OkAlts(WordAlts(ts)) && g == Group(1, WordAlts(ts)) && PlainAlts(WordAlts(ts))
    requires ShowAlts(WordAlts(ts), Raw) == Barred(ts) && NumberedAlts(WordAlts(ts), 1) && GroupsAlts(WordAlts(ts)) == 0
    ensures var e := PrefixAlts(ts);
            && OkAlts(e) && ShowAlts(e, Raw) == Prefixes(ts) && NumberedAlts(e, 0) && GroupsAlts(e) == 1 && PlainAlts(e)
  {
    hide ShowAlts, OkAlts, NumberedAlts, GroupsAlts, PlainAlts, WordAlts, Barred;
    var b1 := Cons(Once(g), Nil);
    assert ShowAtom(g, Raw) == "(" + Barred(ts) + ")";
    assert OkAtom(g) && NumberedAtom(g, 0) && GroupsAtom(g) == 1 && PlainAtom(g);
    OneShown(g, 0);
    assert OkPieces(b1) && ShowPieces(b1, Raw) == "(" + Barred(ts) + ")" && GroupsPieces(b1) == 1;
    var b0 := Cons(Once(Zero(BOL)), b1);
    assert OkPieces(b0) && NumberedPieces(b0, 0) && GroupsPieces(b0) == 1 && PlainPieces(b0);
    assert ShowPieces(b0, Raw) == "^" + ("(" + Barred(ts) + ")");
    WholeShown(b0);
  }

  lemma WholeShown(b: Pieces)
    requires OkPieces(b) && NumberedPieces(b, 0) && PlainPieces(b)
    ensures OkAlts(Last(b)) && NumberedAlts(Last(b), 0) && PlainAlts(Last(b))
    ensures ShowAlts(Last(b), Raw) == ShowPieces(b, Raw) && GroupsAlts(Last(b)) == GroupsPieces(b)
  {
  }

  /** A text in parentheses is a group, one with a number unless "?:" stands in front. */
  lemma GroupRead(t: string, counted: bool)
    requires Word(t)
    ensures var pat := (if counted then "(" else "(?:") + t + ")";
            var g := Group(if counted then 1 else -1, TextAlts(t));
            ParseRegex(pat) == Good(Last(Cons(Once(g), Nil)), |pat|, if counted then 1 else 0)
  {
    WordsShown([t]);
    BarredOne(t);
    assert WordAlts([t]) == TextAlts(t);
    UnnumberedText(t);
    hide TextAlts, WordAlts, ShowAlts, OkAlts, NumberedAlts, GroupsAlts, PlainAlts;
    GroupShown(TextAlts(t), t, if counted then 1 else -1);
    var b := Cons(Once(Group(if counted then 1 else -1, TextAlts(t))), Nil);
    WholeShown(b);
    ParseShown(Last(b), Raw);
  }

  lemma UnnumberedText(t: string)
    ensures NumberedAlts(TextAlts(t), 0)
  {
    assert NumberedPieces(Nil, 0) && NumberedAtom(Lit(Codes(t)), 0) && GroupsAtom(Lit(Codes(t))) == 0;
    assert NumberedPieces(Cons(Once(Lit(Codes(t))), Nil), 0);
  }

  lemma GroupShown(alts: Alts, t: string, no: int)
    requires OkAlts(alts) && ShowAlts(alts, Raw) == t && NumberedAlts(alts, 1) && GroupsAlts(alts) == 0
    requires NumberedAlts(alts, 0) && PlainAlts(alts) && (no == 1 || no == -1)
    ensures var b := Cons(Once(Group(no, alts)), Nil);
            && OkPieces(b) && NumberedPieces(b, 0) && GroupsPieces(b) == (if no == -1 then 0 else 1) && PlainPieces(b)
            && ShowPieces(b, Raw) == (if no == -1 then "(?:" else "(") + t + ")"
  {
    hide ShowAlts, OkAlts, NumberedAlts, GroupsAlts, PlainAlts;
    var g := Group(no, alts);
    assert OkAtom(g) && NumberedAtom(g, 0) && PlainAtom(g);
    OneShown(g, 0);
  }

  // ---- what it matches

  /** The first of the texts that stand there. */
  ghost predicate First(ts: seq<string>, s: string, i: nat, k: nat) {
    k < |ts| && Occurs(ts[k], s, i) && forall j | 0 <= j < k :: !Occurs(ts[j], s, i)
  }

  lemma WordsSplit(ts: seq<string>, s: string, i: nat)
    requires ts != []
    ensures EndsAlts(WordAlts(ts), s, i)
         == EndsAlts(TextAlts(ts[0]), s, i) + if |ts| > 1 then EndsAlts(WordAlts(ts[1..]), s, i) else []
  {
    hide EndsPieces;
  }

  lemma {:induction false} WordsEnds(ts: seq<string>, s: string, i: nat)
    requires Words(ts)
    ensures var ends := EndsAlts(WordAlts(ts), s, i);
            && (ends != [] <==> exists k :: 0 <= k < |ts| && Occurs(ts[k], s, i))
            && (ends != [] ==> exists k: nat :: First(ts, s, i, k) && ends[0] == i + |ts[k]|)
    decreases |ts|
  {
    WordsSplit(ts, s, i);
    TextEnds(ts[0], s, i);
    hide Occurs, EndsAlts, WordAlts, TextAlts;
    if Occurs(ts[0], s, i) {
      assert First(ts, s, i, 0);
    } else if |ts| > 1 {
      WordsEnds(ts[1..], s, i);
      assert forall k | 0 < k < |ts| :: ts[k] == ts[1..][k - 1];
      var ends := EndsAlts(WordAlts(ts[1..]), s, i);
      if ends != [] {
        var k: nat :| First(ts[1..], s, i, k) && ends[0] == i + |ts[1..][k]|;
        assert First(ts, s, i, k + 1);
      }
    }
  }

  /** The first of the texts that s starts with. */
  predicate FirstIn(ts: seq<string>, s: string, k: nat) {
    k < |ts| && ts[k] <= s && forall j | 0 <= j < k :: !(ts[j] <= s)
  }

  lemma PrefixEnds(ts: seq<string>, s: string, i: nat)
    requires Words(ts)
    ensures var ends := EndsAlts(PrefixAlts(ts), s, i);
            && (ends != [] <==> i == 0 && exists k :: 0 <= k < |ts| && ts[k] <= s)
            && (ends != [] ==> exists k: nat :: FirstIn(ts, s, k) && ends[0] == |ts[k]|)
  {
    WordsEnds(ts, s, i);
    hide WordAlts, Words;
    var g := Group(1, WordAlts(ts));
    var b1 := Cons(Once(g), Nil);
    AtomAlone(g, s, i);
    assert EndsAlts(Last(b1), s, i) == EndsPieces(b1, s, i);
    hide EndsAlts;
    BolFirst(b1, s, i);
    assert forall k | 0 <= k < |ts| :: Occurs(ts[k], s, 0) <==> ts[k] <= s;
    assert forall k: nat | First(ts, s, 0, k) :: FirstIn(ts, s, k);
  }

  lemma BolFirst(b: Pieces, s: string, i: nat)
    ensures EndsAlts(Last(Cons(Once(Zero(BOL)), b)), s, i) == if i == 0 then EndsPieces(b, s, i) else []
  {
    var xs := EndsPiece(Once(Zero(BOL)), s, i);
    assert EndsPieces(Cons(Once(Zero(BOL)), b), s, i) == FlatMap(xs, e => EndsPieces(b, s, e));
    assert xs == if i == 0 then [i] else [];
    FlatMapOne(i, e => EndsPieces(b, s, e));
  }

  /** Compiled and run, such a pattern finds exactly the subjects that start with one of the texts, and of
      those the first in the pattern. */
  method SearchPrefixes(ts: seq<string>, s: string) returns (found: bool, so: nat, eo: nat)
    requires Words(ts)
    ensures found <==> exists k :: 0 <= k < |ts| && ts[k] <= s
    ensures found ==> so == 0 && exists k: nat :: FirstIn(ts, s, k) && eo == |ts[k]|
  {
    PrefixRead(ts);
    hide *;
    found, so, eo := SearchPlain(Prefixes(ts), PrefixAlts(ts), s);
    PrefixFound(ts, s, found, so, eo);
  }

  lemma PrefixFound(ts: seq<string>, s: string, found: bool, so: nat, eo: nat)
    requires Words(ts)
    requires if found then Found(PrefixAlts(ts), s, so, eo) else NoMatchIn(PrefixAlts(ts), s, 0, |s| + 1)
    ensures found <==> exists k :: 0 <= k < |ts| && ts[k] <= s
    ensures found ==> so == 0 && exists k: nat :: FirstIn(ts, s, k) && eo == |ts[k]|
  {
    hide EndsAlts, PrefixAlts, Words, FirstIn;
    PrefixEnds(ts, s, so);
    PrefixEnds(ts, s, 0);
  }

  /** Whether a path is left alone where no pattern is given. */
  method IgnoredByDefault(path: string) returns (yes: bool)
    ensures yes <==> exists k :: 0 <= k < |DEFAULT_IGNORE| && DEFAULT_IGNORE[k] <= path
  {
    DefaultWords();
    var so, eo;
    yes, so, eo := SearchPrefixes(DEFAULT_IGNORE, path);
  }
}
