/** Decimal printing and reading of numbers, as boost::lexical_cast does it. */
module Decimal {

  predicate IsDigit(c: char) {
    '0' <= c <= '9'
  }

  predicate AllDigits(s: string) {
    forall i | 0 <= i < |s| :: IsDigit(s[i])
  }

  function DigitChar(d: nat): (c: char)
    requires d < 10
    ensures IsDigit(c)
  {
    ('0' as int + d) as char
  }

  function DigitValue(c: char): (d: nat)
    requires IsDigit(c)
    ensures d < 10
  {
    (c as int - '0' as int) as nat
  }

  /** The decimal form of a natural number, without leading zeros. */
  function Print(n: nat): (s: string)
    ensures |s| > 0 && AllDigits(s)
  {
    if n < 10 then [DigitChar(n)] else Print(n / 10) + [DigitChar(n % 10)]
  }

  /** One more digit is written at the end. */
  lemma PrintMore(n: nat, d: nat)
    requires d < 10
    ensures Print(d) == ["0123456789"[d]]
    ensures n > 0 ==> Print(10 * n + d) == Print(n) + ["0123456789"[d]]
  {
    assert DigitChar(d) == "0123456789"[d];
    assert (10 * n + d) / 10 == n && (10 * n + d) % 10 == d;
  }

  /** The number a run of digits stands for; leading zeros are accepted. */
  function Read(s: string): nat
    requires AllDigits(s)
  {
    if |s| == 0 then 0 else 10 * Read(s[..|s| - 1]) + DigitValue(s[|s| - 1])
  }

  /** The decimal form of any integer. */
  function PrintInt(n: int): (s: string)
    ensures |s| > 0
  {
    if n < 0 then "-" + Print(-n) else Print(n)
  }

  lemma {:induction false} ReadPrint(n: nat)
    ensures Read(Print(n)) == n
  {
    if n >= 10 {
      ReadPrint(n / 10);
      var s := Print(n);
      assert s[..|s| - 1] == Print(n / 10);
    }
  }

  lemma PrintIntChars(n: int)
    ensures forall i | 0 <= i < |PrintInt(n)| :: IsDigit(PrintInt(n)[i]) || PrintInt(n)[i] == '-'
  {
  }

  lemma PrintIntInjective(m: int, n: int)
    requires PrintInt(m) == PrintInt(n)
    ensures m == n
  {
    var s := PrintInt(m);
    assert m < 0 <==> s[0] == '-';
    assert n < 0 <==> s[0] == '-';
    if m < 0 {
      assert Print(-m) == s[1..] == Print(-n);
      ReadPrint(-m);
      ReadPrint(-n);
    } else {
      ReadPrint(m);
      ReadPrint(n);
    }
  }
}
