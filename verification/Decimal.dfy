/** Decimal text of integers, as `strconv.Itoa` and the verb `%d` write it. */
module Decimal {
  function Digit(d: nat): char
    requires d < 10
  {
    ('0' as int + d) as char
  }

  function DigitValue(c: char): int {
    c as int - '0' as int
  }

  function Digits(n: nat): string {
    if n < 10 then [Digit(n)] else Digits(n / 10) + [Digit(n % 10)]
  }

  function Parsed(s: string): int {
    if s == [] then 0 else 10 * Parsed(s[..|s| - 1]) + DigitValue(s[|s| - 1])
  }

  lemma {:induction false} ParsedDigits(n: nat)
    ensures Parsed(Digits(n)) == n
    ensures Digits(n) != [] && '0' <= Digits(n)[0] <= '9'
  {
    if n < 10 {
      assert [Digit(n)][..0] == [];
    } else {
      ParsedDigits(n / 10);
      assert (Digits(n / 10) + [Digit(n % 10)])[..|Digits(n)| - 1] == Digits(n / 10);
    }
  }

  lemma DigitsInjective(m: nat, n: nat)
    requires Digits(m) == Digits(n)
    ensures m == n
  {
    ParsedDigits(m);
    ParsedDigits(n);
  }

  function Itoa(i: int): string {
    if i < 0 then "-" + Digits(-i) else Digits(i)
  }

  lemma ItoaInjective(i: int, j: int)
    requires Itoa(i) == Itoa(j)
    ensures i == j
  {
    ParsedDigits(if i < 0 then -i else i);
    ParsedDigits(if j < 0 then -j else j);
    if i < 0 && j < 0 {
      assert Itoa(i)[1..] == Digits(-i) && Itoa(j)[1..] == Digits(-j);
      DigitsInjective(-i, -j);
    } else if i >= 0 && j >= 0 {
      DigitsInjective(i, j);
    }
  }
}
