/** Natural numbers as they are written. */
module Numerals {

  predicate IsDigit(c: char) {
    '0' <= c <= '9'
  }

  predicate IsNumber(p: string) {
    p != "" && forall i :: 0 <= i < |p| ==> IsDigit(p[i])
  }

  function Value(p: string): nat
    requires forall i :: 0 <= i < |p| ==> IsDigit(p[i])
  {
    if p == "" then 0
    else
      assert IsDigit(p[|p| - 1]);
      10 * Value(p[..|p| - 1]) + (p[|p| - 1] - '0') as nat
  }

  function Decimal(n: nat): (p: string)
    ensures IsNumber(p) && Value(p) == n && (n > 0 ==> p[0] != '0')
  {
    var digit := [('0' as int + n % 10) as char];
    if n < 10 then
      assert digit[..0] == "";
      digit
    else
      var p := Decimal(n / 10) + digit;
      assert p[..|p| - 1] == Decimal(n / 10);
      p
  }
}
