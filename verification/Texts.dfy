/** Digits and white space. */
module Texts {
  /** Decimal digits. */
  function Digits(n: nat): (text: string)
    ensures text != "" && forall c :: c in text ==> '0' <= c <= '9'
  {
    var digit := ["0123456789"[n % 10]];
    if n < 10 then digit else Digits(n / 10) + digit
  }

  predicate IsSpace(c: char) {
    c == ' ' || c == '\t' || c == '\n' || c == '\r'
  }

  predicate Blank(text: string) {
    forall c :: c in text ==> IsSpace(c)
  }
}
