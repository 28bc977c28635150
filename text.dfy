/** Rendering of integers the way Python's `str(int)` writes them. */
module Text {
  /** The decimal digit character for `d`. */
  function Digit(d: nat): char
    requires d < 10
  {
    '0' + d as char
  }
  /** The digits of `n`, most significant first, with no leading zeros. */
  function NatDigits(n: nat): string
    decreases n
  {
    if n < 10 then [Digit(n)] else NatDigits(n / 10) + [Digit(n % 10)]
  }
  /** `str(n)`: a minus sign for negative numbers, then the digits. */
  function Decimal(n: int): string {
    if n < 0 then "-" + NatDigits(-n) else NatDigits(n)
  }
}
