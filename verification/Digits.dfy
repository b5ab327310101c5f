/** Fixed-width decimal digits, as strftime and the % operator write them. */
module Digits {
  import opened Words

  function Digit(n: int): char
    requires 0 <= n <= 9
  {
    '0' + n as char
  }

  function Two(n: int): string
    requires 0 <= n <= 99
  {
    [Digit(n / 10), Digit(n % 10)]
  }

  function Value(c: char): int
    requires IsDigit(c)
  {
    c as int - '0' as int
  }

  function Number(a: char, b: char): int
    requires IsDigit(a) && IsDigit(b)
  {
    10 * Value(a) + Value(b)
  }

  lemma {:induction false} TwoReads(n: int)
    requires 0 <= n <= 99
    ensures IsDigit(Two(n)[0]) && IsDigit(Two(n)[1]) && Number(Two(n)[0], Two(n)[1]) == n
  {
  }

  lemma {:induction false} TwoBack(a: char, b: char)
    requires IsDigit(a) && IsDigit(b)
    ensures 0 <= Number(a, b) <= 99 && Two(Number(a, b)) == [a, b]
  {
  }
}
