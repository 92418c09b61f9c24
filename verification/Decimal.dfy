/** Decimal texts of natural numbers. */
module Decimal {

  predicate IsDigit(c: char) {
    '0' <= c <= '9'
  }

  predicate AllDigits(s: string) {
    forall i :: 0 <= i < |s| ==> IsDigit(s[i])
  }

  function Digit(d: nat): (c: char)
    requires d < 10
    ensures IsDigit(c) && DigitValue(c) == d
  {
    '0' + d as char
  }

  function DigitValue(c: char): nat
    requires IsDigit(c)
  {
    (c - '0') as nat
  }

  function Print(n: nat): (s: string)
    ensures s != "" && AllDigits(s)
  {
    if n < 10 then [Digit(n)] else Print(n / 10) + [Digit(n % 10)]
  }

  function Read(s: string): nat
    requires AllDigits(s)
  {
    if s == "" then 0
    else
      assert forall i :: 0 <= i < |s| - 1 ==> s[..|s| - 1][i] == s[i];
      10 * Read(s[..|s| - 1]) + DigitValue(s[|s| - 1])
  }

  /** Reading a printed number gives it back. */
  lemma {:induction false} ReadPrint(n: nat)
    ensures Read(Print(n)) == n
  {
    var s := Print(n);
    if n < 10 {
      assert s[..0] == "";
    } else {
      ReadPrint(n / 10);
      assert s[..|s| - 1] == Print(n / 10);
    }
  }

  /** Decimal text of an integer. */
  function PrintInteger(i: int): string {
    if i < 0 then "-" + Print(-i) else Print(i)
  }

  /** The integer that a decimal text denotes, and 0 for other texts. */
  function ReadInteger(s: string): int {
    if AllDigits(s) then Read(s)
    else if s[0] == '-' && AllDigits(s[1..]) then 0 - Read(s[1..])
    else 0
  }

  lemma ReadPrintInteger(i: int)
    ensures ReadInteger(PrintInteger(i)) == i
  {
    if i < 0 {
      assert PrintInteger(i)[0] == '-' && PrintInteger(i)[1..] == Print(-i);
      assert !IsDigit(PrintInteger(i)[0]);
      ReadPrint(-i);
    } else {
      ReadPrint(i);
    }
  }
}
