/** Decimal numerals: `strconv` on runs of digits. */
module Decimal {
  predicate IsDigit(c: char) {
    '0' <= c <= '9'
  }

  predicate AllDigits(s: string) {
    forall i :: 0 <= i < |s| ==> IsDigit(s[i])
  }

  function Digit(d: nat): (c: char)
    requires d < 10
    ensures IsDigit(c) && c as int - '0' as int == d
  {
    ('0' as int + d) as char
  }

  /** The number a run of digits denotes. */
  function Value(s: string): (n: nat)
    requires AllDigits(s)
  {
    if s == [] then 0 else Value(s[..|s| - 1]) * 10 + (s[|s| - 1] as int - '0' as int)
  }

  /** `strconv.FormatUint` and `%d`. */
  function Dec(n: nat): (s: string)
    ensures s != [] && AllDigits(s)
  {
    if n < 10 then [Digit(n)] else Dec(n / 10) + [Digit(n % 10)]
  }

  lemma {:induction false} ValueOfDec(n: nat)
    ensures Value(Dec(n)) == n
  {
    if n < 10 {
      assert [Digit(n)][..0] == [];
    } else {
      ValueOfDec(n / 10);
      var s := Dec(n / 10) + [Digit(n % 10)];
      assert s[..|s| - 1] == Dec(n / 10);
    }
  }

  /** A printed number above zero has no leading zero. */
  lemma {:induction false} DecHasNoLeadingZero(n: nat)
    ensures Dec(n)[0] == '0' <==> n == 0
    ensures n == 0 ==> |Dec(n)| == 1
  {
    if n >= 10 { DecHasNoLeadingZero(n / 10); }
  }
}
