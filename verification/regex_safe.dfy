// Every tree the parser yields whose counts are not negative is one the matcher is safe on: whatever
// its sets hold, and however its repeats are nested.
module RegexSafe {
  import opened RegexSyntax
  import opened RegexParse
  import opened RegexSolid

  // ---- sets hold whole pairs

  predicate Pairs(ws: seq<int>) {
    |ws| % 2 == 0
  }

  lemma {:induction false} RangePairs(lo: int, hi: int)
    ensures Pairs(RangeWords(lo, hi))
    decreases lo > hi
  {
    if lo > hi {
      RangePairs(hi, lo);
    }
  }

  lemma JoinPairs(a: seq<int>, b: seq<int>)
    requires Pairs(a) && Pairs(b)
    ensures Pairs(a + b)
  {
  }

  lemma {:induction false} StringPairs(str: string)
    ensures Pairs(StringWords(str))
    decreases str
  {
    hide RangeWords;
    if str != "" {
      RangePairs(str[0] as int, str[0] as int);
      StringPairs(str[1..]);
      JoinPairs(CharWords(str[0]), StringWords(str[1..]));
    }
  }

  lemma ClassPairs(cc: nat)
    ensures Pairs(ClassWords(cc))
  {
    hide RangeWords, StringWords;
    forall lo: int, hi: int
      ensures Pairs(RangeWords(lo, hi))
    {
      RangePairs(lo, hi);
    }
    StringPairs(" \t\r\n\U{0c}\U{0b}");
    StringPairs(" \t");
  }

  lemma RestPairs(pat: string, start: int, j: nat)
    requires j <= |pat| && SetRest(pat, start, j).Good?
    ensures Pairs(SetRest(pat, start, j).v)
  {
    hide RangeWords, ClassWords, DecodeEscape, NameHere, Pairs;
    RangePairs(start, start);
    RangePairs(start, DecodeEscape(pat, j + 2).1);
    RangePairs(start, Peek(pat, j + 1) as int);
    ClassPairs(FindClass(pat, j, 0));
  }

  lemma ItemPairs(pat: string, i: nat)
    requires i < |pat| && SetItem(pat, i).Good?
    ensures Pairs(SetItem(pat, i).v)
  {
    hide RangeWords, ClassWords, DecodeEscape, SetRest, Pairs;
    if pat[i] == '\\' {
      var c := Peek(pat, i + 1);
      var (n, ch) := DecodeEscape(pat, i + 1);
      if c == 's' || c == 'd' || c == 'w' {
        RangePairs('_' as int, '_' as int);
        ClassPairs(if c == 's' then 2 else if c == 'd' then 6 else 1);
        if c == 'w' {
          JoinPairs(CharWords('_'), ClassWords(1));
        }
      } else {
        RestPairs(pat, ch, i + 1 + n);
      }
    } else {
      RestPairs(pat, pat[i] as int, i + 1);
    }
  }

  lemma {:induction false} ItemsPairs(pat: string, i: nat)
    requires i <= |pat| && SetItems(pat, i).Good?
    ensures Pairs(SetItems(pat, i).v)
    decreases |pat| - i
  {
    hide SetItem;
    if Peek(pat, i) != ']' {
      ItemPairs(pat, i);
      var item := SetItem(pat, i);
      ItemsPairs(pat, item.at);
    }
  }

  lemma SetSafe(pat: string, i: nat, nsub: nat)
    requires i <= |pat| && ParseSet(pat, i, nsub).Good?
    ensures SafeAtom(ParseSet(pat, i, nsub).v) && ParseSet(pat, i, nsub).nsub == nsub
  {
    hide SetItems, RangeWords;
    var j := if Peek(pat, i) == '^' then i + 1 else i;
    ItemsPairs(pat, j + FirstLen(pat, j));
    RangePairs(Peek(pat, j) as int, Peek(pat, j) as int);
  }

  lemma LeafSafe(pat: string, i: nat, nsub: nat)
    requires i < |pat| && !IsMeta(pat[i]) && pat[i] != '\0' && ParseLeaf(pat, i, nsub).Good?
    ensures SafeAtom(ParseLeaf(pat, i, nsub).v) && ParseLeaf(pat, i, nsub).nsub == nsub
  {
    hide LitRun, ClassWords, RangeWords;
    if SpecialHere(pat, i) {
      ClassPairs(0);
      ClassPairs(2);
      ClassPairs(6);
      RangePairs('_' as int, '_' as int);
    } else {
      LitSolid(pat, i, false);
    }
  }

  // ---- whole patterns

  /** Reading opens groups and closes none. */
  ghost predicate Counts<T>(r: Parsed<T>, nsub: nat) {
    r.Good? && nsub <= r.nsub
  }

  lemma {:induction false} AtomSafe(pat: string, i: nat, nsub: nat)
    requires i <= |pat| && ParseAtom(pat, i, nsub).Good?
    ensures var r := ParseAtom(pat, i, nsub);
            Counts(r, nsub) && (r.nsub < REG_MAX_PAREN && CountedAtom(r.v) ==> SafeAtom(r.v))
    decreases |pat| - i, 1
  {
    hide ParseSet, ParseLeaf, ParseAlts;
    var c := Peek(pat, i);
    if c == '(' {
      var plain := Peek(pat, i + 1) == '?' && Peek(pat, i + 2) == ':';
      AltsSafe(pat, if plain then i + 3 else i + 1, if plain then nsub else nsub + 1);
    } else if c == '[' {
      SetSafe(pat, i + 1, nsub);
    } else if i < |pat| && !IsMeta(c) && c != '\0' {
      LeafSafe(pat, i, nsub);
    }
  }

  lemma CountOrdered(pat: string, i: nat)
    requires i < |pat| && IsMult(pat[i]) && ParseCount(pat, i).Good?
    ensures ParseCount(pat, i).v.min <= ParseCount(pat, i).v.max
  {
    hide StrToUl;
  }

  lemma {:induction false} PieceSafe(pat: string, i: nat, nsub: nat)
    requires i <= |pat| && ParsePiece(pat, i, nsub).Good?
    ensures var r := ParsePiece(pat, i, nsub);
            Counts(r, nsub) && (r.nsub < REG_MAX_PAREN && CountedPiece(r.v) ==> SafePiece(r.v))
    decreases |pat| - i, 2
  {
    hide ParseAtom, ParseCount, SafeAtom, CountedAtom, WidthAtom;
    AtomSafe(pat, i, nsub);
    var a := ParseAtom(pat, i, nsub);
    if a.at < |pat| && IsMult(pat[a.at]) && ParseCount(pat, a.at).Good? {
      CountOrdered(pat, a.at);
    }
  }

  lemma {:induction false} PiecesSafe(pat: string, i: nat, nsub: nat)
    requires i <= |pat| && ParsePieces(pat, i, nsub).Good?
    ensures var r := ParsePieces(pat, i, nsub);
            Counts(r, nsub) && (r.nsub < REG_MAX_PAREN && CountedPieces(r.v) ==> SafePieces(r.v))
    decreases |pat| - i, 3
  {
    hide ParsePiece, EndsBranch, SafePiece, CountedPiece;
    if !EndsBranch(pat, i) {
      PieceSafe(pat, i, nsub);
      var p := ParsePiece(pat, i, nsub);
      PiecesSafe(pat, p.at, p.nsub);
    }
  }

  lemma {:induction false} AltsSafe(pat: string, i: nat, nsub: nat)
    requires i <= |pat| && ParseAlts(pat, i, nsub).Good?
    ensures var r := ParseAlts(pat, i, nsub);
            Counts(r, nsub) && (r.nsub < REG_MAX_PAREN && CountedAlts(r.v) ==> SafeAlts(r.v))
    decreases |pat| - i, 4
  {
    hide ParsePieces, SafePieces, CountedPieces;
    PiecesSafe(pat, i, nsub);
    var b := ParsePieces(pat, i, nsub);
    if Peek(pat, b.at) == '|' {
      AltsSafe(pat, b.at + 1, b.nsub);
    }
  }

  /** The matcher is safe on every pattern that compiles, exactly unless a count is negative. */
  lemma CompiledSafe(pat: string)
    requires ParseRegex(pat).Good?
    ensures SafeAlts(ParseRegex(pat).v) <==> CountedAlts(ParseRegex(pat).v)
  {
    hide ParseAlts, SafeAlts, CountedAlts;
    AltsSafe(pat, 0, 0);
    if SafeAlts(ParseRegex(pat).v) {
      SafeIsCounted(ParseRegex(pat).v);
    }
  }

  lemma {:induction false} SafeIsCounted(alts: Alts)
    requires SafeAlts(alts)
    ensures CountedAlts(alts)
    decreases alts
  {
    SafePiecesCounted(alts.b);
    if alts.Or? {
      SafeIsCounted(alts.more);
    }
  }

  lemma {:induction false} SafePiecesCounted(b: Pieces)
    requires SafePieces(b)
    ensures CountedPieces(b)
    decreases b
  {
    if b.Cons? {
      SafePiecesCounted(b.ps);
      assert SafeAtom(b.p.a);
      if b.p.a.Group? {
        SafeIsCounted(b.p.a.alts);
      }
    }
  }
}
