/** Decimal numerals without sign or leading zeros. */
module Decimal {

  predicate IsDigit(c: char) { '0' <= c <= '9' }

  function DigitOf(d: nat): (c: char)
    requires d < 10
    ensures IsDigit(c) && DigitValue(c) == d
  {
    ('0' as int + d) as char
  }

  function DigitValue(c: char): (d: nat)
    requires IsDigit(c)
    ensures d < 10
  {
    c as int - '0' as int
  }

  predicate AllDigits(s: string) { forall i | 0 <= i < |s| :: IsDigit(s[i]) }

  function Print(n: nat): (s: string)
    ensures AllDigits(s) && |s| >= 1
  {
    if n < 10 then [DigitOf(n)] else Print(n / 10) + [DigitOf(n % 10)]
  }

  function Read(s: string): nat
    requires AllDigits(s)
  {
    if s == "" then 0 else Read(s[..|s| - 1]) * 10 + DigitValue(s[|s| - 1])
  }

  /** A numeral as it is printed: no leading zero except in zero itself. */
  predicate Canonical(s: string) {
    AllDigits(s) && |s| >= 1 && (s[0] == '0' ==> |s| == 1)
  }

  lemma {:induction false} PrintIsCanonical(n: nat)
    ensures Canonical(Print(n)) && (Print(n)[0] == '0' <==> n == 0)
  {
    if n >= 10 { PrintIsCanonical(n / 10); }
  }

  lemma {:induction false} ReadPrint(n: nat)
    ensures Read(Print(n)) == n
  {
    if n >= 10 {
      ReadPrint(n / 10);
      assert Print(n)[..|Print(n)| - 1] == Print(n / 10);
    }
  }

  lemma DigitBack(c: char)
    requires IsDigit(c)
    ensures DigitOf(DigitValue(c)) == c
  {
  }

  lemma PrintGrows(n: nat, d: nat)
    requires n >= 1 && d < 10
    ensures Print(n * 10 + d) == Print(n) + [DigitOf(d)]
  {
    var m := n * 10 + d;
    assert m / 10 == n && m % 10 == d;
  }

  lemma ReadGrows(t: string, c: char)
    requires AllDigits(t) && IsDigit(c)
    ensures AllDigits(t + [c]) && Read(t + [c]) == Read(t) * 10 + DigitValue(c)
  {
    assert (t + [c])[..|t|] == t;
  }

  lemma {:induction false} PrintRead(s: string)
    requires Canonical(s)
    ensures Print(Read(s)) == s
  {
    var (t, c) := (s[..|s| - 1], s[|s| - 1]);
    assert s == t + [c];
    ReadGrows(t, c);
    DigitBack(c);
    if |s| >= 2 {
      PrintRead(t);
      ReadIsPositive(t);
      PrintGrows(Read(t), DigitValue(c));
    }
  }

  lemma {:induction false} ReadIsPositive(s: string)
    requires Canonical(s) && s[0] != '0'
    ensures Read(s) >= 1
  {
    if |s| >= 2 { ReadIsPositive(s[..|s| - 1]); } else { assert s[..0] == ""; }
  }
}
