// The search for a character or the end of a string, a word at a time.
module StringSearch {
  import opened StringWords

  /** What ends the search for c. */
  predicate Ends(b: bv8, c: bv8) {
    b == 0 || b == c
  }

  /** The search byte by byte from position s on. */
  function ByteSearch(mem: seq<bv8>, s: nat, c: bv8): (r: nat)
    ensures s < |mem| ==> s <= r <= |mem|
    ensures forall k | s <= k < r && k < |mem| :: !Ends(mem[k], c)
    ensures s <= r < |mem| ==> Ends(mem[r], c)
    decreases |mem| - s
  {
    if s >= |mem| || Ends(mem[s], c) then s else ByteSearch(mem, s + 1, c)
  }

  /** A string starts at s: it ends inside the memory. */
  predicate IsString(mem: seq<bv8>, s: nat) {
    s < |mem| && exists k | s <= k < |mem| :: mem[k] == 0
  }

  lemma SkipByte(mem: seq<bv8>, s: nat, c: bv8)
    requires IsString(mem, s) && !Ends(mem[s], c)
    ensures IsString(mem, s + 1) && ByteSearch(mem, s, c) == ByteSearch(mem, s + 1, c)
  {
    var k :| s <= k < |mem| && mem[k] == 0;
    assert s + 1 <= k;
  }

  lemma SearchIs(mem: seq<bv8>, s: nat, c: bv8)
    requires IsString(mem, s)
    ensures var r := ByteSearch(mem, s, c);
            && s <= r < |mem| && (mem[r] == 0 || mem[r] == c) && forall k | s <= k < r :: mem[k] != 0 && mem[k] != c
  {
    var k :| s <= k < |mem| && mem[k] == 0;
    var r := ByteSearch(mem, s, c);
    assert forall j | s <= j < r && j < |mem| :: !Ends(mem[j], c);
    assert Ends(mem[k], c);
  }

  /** A word without an end is passed over. */
  lemma SkipWord(mem: seq<bv8>, s: nat, c: bv8)
    requires IsString(mem, s) && s + 8 <= |mem| && !Among(mem, s, 0) && !Among(mem, s, c)
    ensures IsString(mem, s + 8) && ByteSearch(mem, s, c) == ByteSearch(mem, s + 8, c)
  {
    hide ByteSearch, IsString;
    SkipByte(mem, s, c);
    SkipByte(mem, s + 1, c);
    SkipByte(mem, s + 2, c);
    SkipByte(mem, s + 3, c);
    SkipByte(mem, s + 4, c);
    SkipByte(mem, s + 5, c);
    SkipByte(mem, s + 6, c);
    SkipByte(mem, s + 7, c);
  }

  lemma StringBounds(mem: seq<bv8>, s: nat)
    requires IsString(mem, s)
    ensures s < |mem|
  {
  }

  /** From a position in whole words of memory, the word there is whole. */
  lemma WholeWord(base: nat, n: nat, s: nat)
    requires (base + n) % 8 == 0 && (base + s) % 8 == 0 && s < n
    ensures s + 8 <= n
  {
  }

  /** (unsigned char)c. */
  function AsByte(c: int): bv8 {
    (c % 256) as bv8
  }

  /** __strchrnul on memory of whole words from address base on, in either byte order: the position
      of the byte-by-byte search. */
  method StrChrNul(mem: array<bv8>, base: nat, s0: nat, ch: int, little: bool) returns (s: nat)
    requires IsString(mem[..], s0) && (base + mem.Length) % 8 == 0
    ensures s == ByteSearch(mem[..], s0, AsByte(ch))
    ensures s0 <= s < mem.Length && (mem[s] == 0 || mem[s] == (ch % 256) as bv8)
    ensures forall k | s0 <= k < s :: mem[k] != 0 && mem[k] != (ch % 256) as bv8
  {
    SearchIs(mem[..], s0, AsByte(ch));
    hide ByteSearch, IsString, HasZero, Word, Everywhere, Against, Among;
    var c := AsByte(ch);
    ghost var all := mem[..];
    s := s0;
    StringBounds(all, s);
    if c == 0 {
      s := StrLen(mem, s0);
      return;
    }
    while (base + s) % 8 != 0
      invariant s < mem.Length && IsString(all, s) && ByteSearch(all, s, c) == ByteSearch(all, s0, c)
      decreases mem.Length - s
    {
      if mem[s] == 0 || mem[s] == c {
        Found(all, s, c);
        return;
      }
      SkipByte(all, s, c);
      s := s + 1;
      StringBounds(all, s);
    }
    s := PassWords(mem, base, s, c, little);
    s := LastBytes(mem, s, c);
  }

  lemma Found(mem: seq<bv8>, s: nat, c: bv8)
    requires s < |mem| && Ends(mem[s], c)
    ensures ByteSearch(mem, s, c) == s
  {
  }

  /** Whole words are passed over while they hold no end. */
  method PassWords(mem: array<bv8>, base: nat, s0: nat, c: bv8, little: bool) returns (s: nat)
    requires IsString(mem[..], s0) && (base + mem.Length) % 8 == 0 && (base + s0) % 8 == 0
    ensures IsString(mem[..], s) && ByteSearch(mem[..], s, c) == ByteSearch(mem[..], s0, c)
  {
    hide ByteSearch, IsString, HasZero, Word, Everywhere, Against, Among;
    ghost var all := mem[..];
    s := s0;
    StringBounds(all, s);
    WholeWord(base, mem.Length, s);
    WordTests(all, s, little, c);
    while !HasZero(Word(mem[..], s, little)) && !HasZero(Against(Word(mem[..], s, little), Everywhere(c)))
      invariant s + 8 <= mem.Length && (base + s) % 8 == 0
      invariant IsString(all, s) && ByteSearch(all, s, c) == ByteSearch(all, s0, c)
      invariant HasZero(Word(all, s, little)) <==> Among(all, s, 0)
      invariant HasZero(Against(Word(all, s, little), Everywhere(c))) <==> Among(all, s, c)
      decreases mem.Length - s
    {
      SkipWord(all, s, c);
      s := s + 8;
      StringBounds(all, s);
      WholeWord(base, mem.Length, s);
      WordTests(all, s, little, c);
    }
  }

  method LastBytes(mem: array<bv8>, s0: nat, c: bv8) returns (s: nat)
    requires IsString(mem[..], s0)
    ensures s == ByteSearch(mem[..], s0, c)
  {
    hide ByteSearch, IsString;
    ghost var all := mem[..];
    s := s0;
    StringBounds(all, s);
    while mem[s] != 0 && mem[s] != c
      invariant s < mem.Length && IsString(all, s) && ByteSearch(all, s, c) == ByteSearch(all, s0, c)
      decreases mem.Length - s
    {
      SkipByte(all, s, c);
      s := s + 1;
      StringBounds(all, s);
    }
    Found(all, s, c);
  }

  /** s + strlen(s). */
  method StrLen(mem: array<bv8>, s0: nat) returns (s: nat)
    requires IsString(mem[..], s0)
    ensures s == ByteSearch(mem[..], s0, 0)
  {
    s := LastBytes(mem, s0, 0);
  }
}
