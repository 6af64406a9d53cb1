/** How characters and numbers are written down, apart from any program that reads them. */
module Notation {
  import opened Bytes

  predicate IsAscii(text: string) {
    forall i | 0 <= i < |text| :: text[i] < 128 as char
  }

  function Ascii(text: string): bytes
    requires IsAscii(text)
  {
    seq(|text|, i requires 0 <= i < |text| => text[i] as int)
  }

  predicate IsBlank(b: byte) {
    b in Ascii(" \t\r\n")
  }

  predicate Spaces(s: bytes) {
    forall i | 0 <= i < |s| :: IsBlank(s[i])
  }

  const LOWER_DIGITS := "0123456789abcdef"
  const UPPER_DIGITS := "0123456789ABCDEF"

  /** b is the digit d, in either case. */
  predicate IsDigitOf(b: byte, d: int) {
    0 <= d < 16 && (b == LOWER_DIGITS[d] as int || b == UPPER_DIGITS[d] as int)
  }

  /** s is a way to write the number n: digits in either case, maybe with zeros in front. */
  predicate Numeral(s: bytes, base: int, n: int)
    requires base == 10 || base == 16
  {
    if s == [] then n == 0
    else n >= 0 && IsDigitOf(s[|s| - 1], n % base) && Numeral(s[..|s| - 1], base, n / base)
  }

  lemma {:induction false} NumeralStep(s: bytes, b: byte, base: int, n: int)
    requires base == 10 || base == 16
    ensures Numeral(s + [b], base, n) <==> n >= 0 && IsDigitOf(b, n % base) && Numeral(s, base, n / base)
  {
    assert (s + [b])[..|s|] == s;
  }

  lemma {:induction false} LastDigit(base: int, high: int, d: int)
    requires (base == 10 || base == 16) && 0 <= d < base
    ensures (high * base + d) / base == high && (high * base + d) % base == d
  {
  }

  lemma {:induction false} NumeralAppend(s: bytes, b: byte, base: int, high: int, d: int)
    requires (base == 10 || base == 16) && 0 <= d < base && high >= 0
    ensures Numeral(s + [b], base, high * base + d) <==> IsDigitOf(b, d) && Numeral(s, base, high)
  {
    NumeralStep(s, b, base, high * base + d);
    LastDigit(base, high, d);
  }

  function Raised(base: int, n: nat): int {
    if n == 0 then 1 else base * Raised(base, n - 1)
  }

  /** The way that printf writes it. */
  function Printed(n: nat, base: int, digits: string): bytes
    requires (base == 10 || base == 16) && (digits == LOWER_DIGITS || digits == UPPER_DIGITS)
  {
    var last := [digits[n % base] as int];
    if n < base then last else Printed(n / base, base, digits) + last
  }

  lemma {:induction false} PrintedNumeral(n: nat, base: int, digits: string, zeros: bytes)
    requires (base == 10 || base == 16) && (digits == LOWER_DIGITS || digits == UPPER_DIGITS)
    requires forall i | 0 <= i < |zeros| :: zeros[i] == '0' as int
    ensures Numeral(zeros + Printed(n, base, digits), base, n)
    decreases n
  {
    var s := zeros + Printed(n, base, digits);
    if n < base {
      assert s[..|s| - 1] == zeros;
      ZerosNumeral(zeros, base);
    } else {
      assert s[..|s| - 1] == zeros + Printed(n / base, base, digits);
      PrintedNumeral(n / base, base, digits, zeros);
    }
  }

  lemma {:induction false} ZerosNumeral(zeros: bytes, base: int)
    requires (base == 10 || base == 16) && forall i | 0 <= i < |zeros| :: zeros[i] == '0' as int
    ensures Numeral(zeros, base, 0)
    decreases |zeros|
  {
    if zeros != [] { ZerosNumeral(zeros[..|zeros| - 1], base); }
  }
}
