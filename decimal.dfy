/** The decimal line-number prefix that `search_segment` prints with `%zu`. */
module Decimal {
  import opened Ascii

  predicate IsDigit(b: byte)
  {
    '0' as int <= b <= '9' as int
  }

  /** The number a string of decimal digits denotes, most significant digit first. */
  function Value(s: seq<byte>): nat
    requires forall i :: 0 <= i < |s| ==> IsDigit(s[i])
  {
    if s == [] then 0
    else
      assert IsDigit(s[|s| - 1]);
      Value(s[..|s| - 1]) * 10 + (s[|s| - 1] - '0' as int)
  }

  /** The decimal rendering of `n`, most significant digit first. */
  function Digits(n: nat): (r: seq<byte>)
    ensures 1 <= |r|
    decreases n
  {
    if n < 10 then [n + '0' as int] else Digits(n / 10) + [n % 10 + '0' as int]
  }

  /** The rendering is the shortest one: digits only, no leading zero, denoting `n`. */
  lemma {:induction false} DigitsDenote(n: nat)
    ensures forall i :: 0 <= i < |Digits(n)| ==> IsDigit(Digits(n)[i])
    ensures Digits(n)[0] == '0' as int ==> n == 0 && |Digits(n)| == 1
    ensures Value(Digits(n)) == n
    decreases n
  {
    if n >= 10 {
      DigitsDenote(n / 10);
      var init := Digits(n / 10);
      var r := Digits(n);
      assert r == init + [n % 10 + '0' as int];
      assert r[..|r| - 1] == init;
      assert r[0] == init[0];
    }
  }
}
