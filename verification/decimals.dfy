// Numbers written in decimal.
module Decimals {
  function Digit(d: nat): (c: char)
    requires d < 10
    ensures c as int == d + 48
  {
    (d + 48) as char
  }

  function Dec(n: nat): (s: string)
    ensures s != ""
  {
    if n < 10 then [Digit(n)] else Dec(n / 10) + [Digit(n % 10)]
  }

  predicate Digits(s: string) {
    forall i | 0 <= i < |s| :: 48 <= s[i] as int < 58
  }

  function Ten(k: nat): nat {
    if k == 0 then 1 else 10 * Ten(k - 1)
  }

  /** What digits stand for by their places. */
  function Weight(s: string): nat
    requires Digits(s)
  {
    if s == "" then 0 else (s[0] as int - 48) * Ten(|s| - 1) + Weight(s[1..])
  }

  lemma {:induction false} WeightMore(s: string, c: char)
    requires Digits(s + [c])
    ensures Digits(s) && 48 <= c as int < 58 && Weight(s + [c]) == 10 * Weight(s) + (c as int - 48)
    decreases |s|
  {
    var t := s + [c];
    assert forall i | 0 <= i < |s| :: s[i] == t[i];
    assert t[|s|] == c;
    if s == "" {
      assert t[1..] == "" && Ten(0) == 1;
    } else {
      assert t[1..] == s[1..] + [c];
      WeightMore(s[1..], c);
      Tenfold(s[0] as int - 48, |s|);
    }
  }

  lemma Tenfold(d: int, k: nat)
    requires k > 0
    ensures d * Ten(k) == 10 * (d * Ten(k - 1))
  {
  }

  /** A number written in decimal stands for itself, without a zero in front. */
  lemma {:induction false} DecWeight(n: nat)
    ensures Digits(Dec(n)) && Weight(Dec(n)) == n && (|Dec(n)| > 1 ==> Dec(n)[0] != '0')
  {
    if n < 10 {
      WeightMore("", Digit(n));
      assert "" + [Digit(n)] == Dec(n);
    } else {
      DecWeight(n / 10);
      WeightMore(Dec(n / 10), Digit(n % 10));
    }
  }
}
