/** Numbers as text. */
module Numerals {
  function Digit(d: nat): char
    requires d < 16
  {
    if d < 10 then ('0' as int + d) as char else ('a' as int + d - 10) as char
  }

  /** The format `%x`: the hexadecimal digits without leading zeros. */
  function Hex(n: nat): (s: string)
    ensures |s| > 0
  {
    if n < 16 then [Digit(n)] else Hex(n / 16) + [Digit(n % 16)]
  }

  /** The format `%u`: the decimal digits without leading zeros. */
  function Dec(n: nat): (s: string)
    ensures |s| > 0 && (n < 10 ==> |s| == 1) && (n < 100 ==> |s| <= 2) && (n < 1000 ==> |s| <= 3)
  {
    if n < 10 then [Digit(n)] else Dec(n / 10) + [Digit(n % 10)]
  }

  // ----- what the digits mean

  function DigitValue(c: char): int {
    if '0' <= c <= '9' then c as int - '0' as int else c as int - 'a' as int + 10
  }

  /** The number that digits stand for in a base. */
  function Value(s: string, base: nat): int {
    if s == "" then 0 else Value(s[..|s| - 1], base) * base + DigitValue(s[|s| - 1])
  }

  lemma ValueNext(s: string, c: char, base: nat)
    ensures Value(s + [c], base) == Value(s, base) * base + DigitValue(c)
  {
    assert (s + [c])[..|s|] == s;
  }

  /** The digits mean the number, and begin with a zero only for zero. */
  lemma {:induction false} DecMeans(n: nat)
    ensures Value(Dec(n), 10) == n && (Dec(n)[0] == '0' <==> n == 0)
  {
    if n < 10 {
      ValueNext("", Digit(n), 10);
      assert "" + [Digit(n)] == [Digit(n)];
    } else {
      DecMeans(n / 10);
      ValueNext(Dec(n / 10), Digit(n % 10), 10);
    }
  }

  lemma {:induction false} HexMeans(n: nat)
    ensures Value(Hex(n), 16) == n && (Hex(n)[0] == '0' <==> n == 0)
  {
    if n < 16 {
      ValueNext("", Digit(n), 16);
      assert "" + [Digit(n)] == [Digit(n)];
    } else {
      HexMeans(n / 16);
      ValueNext(Hex(n / 16), Digit(n % 16), 16);
    }
  }
}
