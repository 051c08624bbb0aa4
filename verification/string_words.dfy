// Bytes in words: a test of a whole word for a zero byte.
module StringWords {
  const ONES: bv64 := 0x0101_0101_0101_0101
  const HIGHS: bv64 := 0x8080_8080_8080_8080

  /** HASZERO, as a condition. */
  predicate HasZero(x: bv64) {
    (x - ONES) & !x & HIGHS != 0
  }

  /** The words agree in one of their eight bytes. */
  predicate SameByte(x: bv64, y: bv64) {
    || x & 0xFF == y & 0xFF
    || x & 0xFF00 == y & 0xFF00
    || x & 0xFF_0000 == y & 0xFF_0000
    || x & 0xFF00_0000 == y & 0xFF00_0000
    || x & 0xFF_0000_0000 == y & 0xFF_0000_0000
    || x & 0xFF00_0000_0000 == y & 0xFF00_0000_0000
    || x & 0xFF_0000_0000_0000 == y & 0xFF_0000_0000_0000
    || x & 0xFF00_0000_0000_0000 == y & 0xFF00_0000_0000_0000
  }

  /** A word passes the test iff one of its bytes is zero: borrows from one byte to the next do no harm. */
  lemma HasZeroIff(x: bv64)
    ensures HasZero(x) <==> SameByte(x, 0)
  {
  }

  /** Zero in every byte in which the words agree. */
  function Against(x: bv64, y: bv64): bv64 {
    x ^ y
  }

  lemma XorBytes(x: bv64, y: bv64)
    ensures SameByte(x ^ y, 0) <==> SameByte(x, y)
  {
  }

  lemma XorZero(x: bv64, y: bv64)
    ensures SameByte(Against(x, y), 0) <==> SameByte(x, y)
  {
    hide SameByte;
    XorBytes(x, y);
  }

  /** The word of eight bytes, the lowest first. */
  function Join(b0: bv8, b1: bv8, b2: bv8, b3: bv8, b4: bv8, b5: bv8, b6: bv8, b7: bv8): bv64 {
    (b0 as bv64) | ((b1 as bv64) << 8) | ((b2 as bv64) << 16) | ((b3 as bv64) << 24)
    | ((b4 as bv64) << 32) | ((b5 as bv64) << 40) | ((b6 as bv64) << 48) | ((b7 as bv64) << 56)
  }

  lemma JoinBytes(b0: bv8, b1: bv8, b2: bv8, b3: bv8, b4: bv8, b5: bv8, b6: bv8, b7: bv8)
    ensures var w := Join(b0, b1, b2, b3, b4, b5, b6, b7);
            && w & 0xFF == (b0 as bv64) && w & 0xFF00 == (b1 as bv64) << 8
            && w & 0xFF_0000 == (b2 as bv64) << 16 && w & 0xFF00_0000 == (b3 as bv64) << 24
            && w & 0xFF_0000_0000 == (b4 as bv64) << 32 && w & 0xFF00_0000_0000 == (b5 as bv64) << 40
            && w & 0xFF_0000_0000_0000 == (b6 as bv64) << 48 && w & 0xFF00_0000_0000_0000 == (b7 as bv64) << 56
  {
  }

  lemma ShiftSame(b: bv8, c: bv8)
    ensures (b as bv64) == (c as bv64) <==> b == c
    ensures (b as bv64) << 8 == (c as bv64) << 8 <==> b == c
    ensures (b as bv64) << 16 == (c as bv64) << 16 <==> b == c
    ensures (b as bv64) << 24 == (c as bv64) << 24 <==> b == c
    ensures (b as bv64) << 32 == (c as bv64) << 32 <==> b == c
    ensures (b as bv64) << 40 == (c as bv64) << 40 <==> b == c
    ensures (b as bv64) << 48 == (c as bv64) << 48 <==> b == c
    ensures (b as bv64) << 56 == (c as bv64) << 56 <==> b == c
  {
  }

  /** Against a byte eight times: the words agree in a byte iff one of the bytes is that one. */
  lemma JoinSame(b0: bv8, b1: bv8, b2: bv8, b3: bv8, b4: bv8, b5: bv8, b6: bv8, b7: bv8, c: bv8)
    ensures SameByte(Join(b0, b1, b2, b3, b4, b5, b6, b7), Join(c, c, c, c, c, c, c, c))
       <==> b0 == c || b1 == c || b2 == c || b3 == c || b4 == c || b5 == c || b6 == c || b7 == c
  {
    hide Join;
    JoinBytes(b0, b1, b2, b3, b4, b5, b6, b7);
    JoinBytes(c, c, c, c, c, c, c, c);
    ShiftSame(b0, c);
    ShiftSame(b1, c);
    ShiftSame(b2, c);
    ShiftSame(b3, c);
    ShiftSame(b4, c);
    ShiftSame(b5, c);
    ShiftSame(b6, c);
    ShiftSame(b7, c);
  }

  /** The byte in all places. */
  function Everywhere(c: bv8): bv64 {
    ONES * (c as bv64)
  }

  lemma Spread(c: bv8)
    ensures Everywhere(c) == Join(c, c, c, c, c, c, c, c)
    ensures Join(0, 0, 0, 0, 0, 0, 0, 0) == 0
  {
  }

  /** The word at a byte address, in either byte order. */
  function Word(b: seq<bv8>, i: nat, little: bool): bv64
    requires i + 8 <= |b|
  {
    if little then
      Join(b[i], b[i + 1], b[i + 2], b[i + 3], b[i + 4], b[i + 5], b[i + 6], b[i + 7])
    else
      Join(b[i + 7], b[i + 6], b[i + 5], b[i + 4], b[i + 3], b[i + 2], b[i + 1], b[i])
  }

  /** Byte k of the eight is c. */
  predicate Among(b: seq<bv8>, i: nat, c: bv8)
    requires i + 8 <= |b|
  {
    || b[i] == c || b[i + 1] == c || b[i + 2] == c || b[i + 3] == c
    || b[i + 4] == c || b[i + 5] == c || b[i + 6] == c || b[i + 7] == c
  }

  /** Two tests say of a word whether it holds the end of the string, or the byte c. */
  lemma WordTests(b: seq<bv8>, i: nat, little: bool, c: bv8)
    requires i + 8 <= |b|
    ensures HasZero(Word(b, i, little)) <==> Among(b, i, 0)
    ensures HasZero(Against(Word(b, i, little), Everywhere(c))) <==> Among(b, i, c)
  {
    hide *;
    var w := Word(b, i, little);
    var k := Everywhere(c);
    HasZeroIff(w);
    HasZeroIff(Against(w, k));
    XorZero(w, k);
    Spread(c);
    WordSame(b, i, little, c);
    WordSame(b, i, little, 0);
  }

  lemma WordSame(b: seq<bv8>, i: nat, little: bool, c: bv8)
    requires i + 8 <= |b|
    ensures SameByte(Word(b, i, little), Join(c, c, c, c, c, c, c, c)) <==> Among(b, i, c)
  {
    hide Join, SameByte;
    if little {
      JoinSame(b[i], b[i + 1], b[i + 2], b[i + 3], b[i + 4], b[i + 5], b[i + 6], b[i + 7], c);
    } else {
      JoinSame(b[i + 7], b[i + 6], b[i + 5], b[i + 4], b[i + 3], b[i + 2], b[i + 1], b[i], c);
    }
  }
}
