/** Unsigned decimal numbers as Rust's integer parsers and printers treat them. */
module Decimal {
  import opened Common

  predicate IsDigit(c: char) { '0' <= c <= '9' }

  function DigitValue(c: char): nat
    requires IsDigit(c)
  {
    c as int - '0' as int
  }

  function DigitChar(d: nat): (c: char)
    requires d < 10
    ensures IsDigit(c) && DigitValue(c) == d
  {
    (d + '0' as int) as char
  }

  function Digits(s: string): Option<nat> {
    if s == "" then Some(0)
    else
      var c := s[|s| - 1];
      match Digits(s[..|s| - 1])
      case None => None
      case Some(n) => if IsDigit(c) then Some(10 * n + DigitValue(c)) else None
  }

  /** `parse::<uN>()`: an optional plus sign, at least one digit, and no overflow. */
  function Parse(s: string, max: nat): Option<nat> {
    var digits := if s != "" && s[0] == '+' then s[1..] else s;
    if digits == "" then None
    else
      match Digits(digits)
      case None => None
      case Some(n) => if n <= max then Some(n) else None
  }

  function Show(n: nat): (s: string)
    ensures s != "" && forall i | 0 <= i < |s| :: IsDigit(s[i])
  {
    if n < 10 then [DigitChar(n)] else Show(n / 10) + [DigitChar(n % 10)]
  }

  lemma {:induction false} DigitsShow(n: nat)
    ensures Digits(Show(n)) == Some(n)
  {
    var s := Show(n);
    if n < 10 {
      assert s[..|s| - 1] == "";
    } else {
      DigitsShow(n / 10);
      assert s[..|s| - 1] == Show(n / 10);
    }
  }

  lemma {:induction false} ParseShow(n: nat, max: nat)
    requires n <= max
    ensures Parse(Show(n), max) == Some(n)
  {
    DigitsShow(n);
    assert IsDigit(Show(n)[0]);
  }

  lemma {:induction false} ShowShort(n: nat)
    requires n < 100
    ensures |Show(n)| <= 2
  {
    if n >= 10 { assert n / 10 < 10 && |Show(n / 10)| == 1; }
  }
}
