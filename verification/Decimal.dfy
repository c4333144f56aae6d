/** Decimal notation of natural numbers. */
module Decimal {
  import opened Wrappers

  predicate IsDigit(c: char) { '0' <= c <= '9' }

  ghost predicate AllDigits(s: string) {
    forall i :: 0 <= i < |s| ==> IsDigit(s[i])
  }

  function DigitChar(d: nat): (c: char)
    requires d < 10
    ensures IsDigit(c)
  {
    '0' + d as char
  }

  function Value(s: string): Option<nat> {
    if s == "" then Some(0)
    else
      var front := Value(s[..|s| - 1]);
      var c := s[|s| - 1];
      if front.Some? && IsDigit(c) then Some(10 * front.value + (c as int - '0' as int)) else None
  }

  function PrintNat(n: nat): (s: string)
    ensures s != "" && AllDigits(s)
  {
    if n < 10 then [DigitChar(n)] else PrintNat(n / 10) + [DigitChar(n % 10)]
  }

  lemma {:induction false} ValueSnoc(s: string, d: nat)
    requires d < 10
    ensures Value(s + [DigitChar(d)]) == if Value(s).Some? then Some(10 * Value(s).value + d) else None
  {}

  lemma {:induction false} ValueOfPrint(n: nat)
    ensures Value(PrintNat(n)) == Some(n)
  {
    var last := n % 10;
    if n < 10 {
      ValueSnoc("", last);
      assert "" + [DigitChar(last)] == PrintNat(n);
    } else {
      var rest := n / 10;
      ValueOfPrint(rest);
      ValueSnoc(PrintNat(rest), last);
      assert PrintNat(n) == PrintNat(rest) + [DigitChar(last)];
    }
  }
}
