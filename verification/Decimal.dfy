/** Decimal notation, as produced by template literals and `String(n)` for integers. */
module Decimal {
  function Digit(d: nat): (c: char)
    requires d < 10
    ensures '0' <= c <= '9'
  {
    '0' + d as char
  }

  /** The decimal form of a natural number, without leading zeros. */
  function Text(n: nat): (s: string)
    ensures |s| >= 1
    ensures forall c :: c in s ==> '0' <= c <= '9'
  {
    if n < 10 then [Digit(n)] else Text(n / 10) + [Digit(n % 10)]
  }

  function IntText(n: int): string {
    if n < 0 then "-" + Text(-n) else Text(n)
  }

  /** The number a string of digits stands for; other characters count with their code. */
  function Value(s: string): int {
    if s == "" then 0 else 10 * Value(s[..|s| - 1]) + (s[|s| - 1] as int - '0' as int)
  }

  function IntValue(s: string): int {
    if s != "" && s[0] == '-' then -Value(s[1..]) else Value(s)
  }

  lemma {:induction false} ValueOfText(n: nat)
    ensures Value(Text(n)) == n
  {
    if n >= 10 {
      ValueOfText(n / 10);
      assert Text(n)[..|Text(n)| - 1] == Text(n / 10);
    } else {
      assert Text(n)[..0] == "";
    }
  }

  lemma ValueOfIntText(n: int)
    ensures IntValue(IntText(n)) == n
  {
    if n < 0 {
      ValueOfText(-n);
      assert IntText(n)[1..] == Text(-n);
    } else {
      ValueOfText(n);
      assert Text(n)[0] in Text(n);
    }
  }

  /** Different numbers are written differently. */
  lemma TextIsInjective(a: nat, b: nat)
    requires Text(a) == Text(b)
    ensures a == b
  {
    ValueOfText(a);
    ValueOfText(b);
  }

  function Pow10(k: nat): (p: nat)
    ensures p >= 1
  {
    if k == 0 then 1 else 10 * Pow10(k - 1)
  }

  /** A number below 10^k takes at most k digits. */
  lemma {:induction false} TextLength(n: nat, k: nat)
    requires k >= 1 && n < Pow10(k)
    ensures |Text(n)| <= k
  {
    if n >= 10 {
      TextLength(n / 10, k - 1);
    }
  }

  /** `String(n).padStart(2, '0')`. */
  function Pad2(n: nat): string {
    var s := Text(n);
    if |s| < 2 then seq(2 - |s|, _ => '0') + s else s
  }

  lemma ValueOfPad2(n: nat)
    requires n < 100
    ensures |Pad2(n)| == 2 && Value(Pad2(n)) == n
  {
    assert Pow10(2) == 100 by { assert Pow10(1) == 10; }
    TextLength(n, 2);
    ValueOfText(n);
    var s := Text(n);
    if |s| < 2 {
      assert Pad2(n) == ['0'] + s;
      assert Pad2(n)[..1] == "0" && Pad2(n)[..1][..0] == "";
      assert s[..0] == "";
    }
  }
}
