/** Numerals in bases up to sixteen, as they are printed and parsed. */
module Numerals {

  type Radix = b: nat | 2 <= b <= 16 witness 10

  predicate IsDigit(c: char) {
    '0' <= c <= '9' || 'a' <= c <= 'f'
  }

  function DigitChar(k: nat): (c: char)
    requires k < 16
    ensures IsDigit(c) && DigitValue(c) == k
  {
    (if k < 10 then '0' as nat + k else 'a' as nat + k - 10) as char
  }

  function DigitValue(c: char): nat {
    if '0' <= c <= '9' then c as nat - '0' as nat
    else if 'a' <= c <= 'f' then c as nat - 'a' as nat + 10
    else 0
  }

  function Digits(n: nat, b: Radix): (s: string)
    ensures s != "" && forall c :: c in s ==> IsDigit(c)
  {
    if n < b then [DigitChar(n)] else Digits(n / b, b) + [DigitChar(n % b)]
  }

  function ValueOf(s: string, b: Radix): nat {
    if s == "" then 0 else ValueOf(s[..|s| - 1], b) * b + DigitValue(s[|s| - 1])
  }

  lemma {:induction false} ValueOfDigits(n: nat, b: Radix)
    ensures ValueOf(Digits(n, b), b) == n
  {
    if n >= b {
      DivMod(n, b);
      var q, m := n / b, n % b;
      assert Digits(n, b) == Digits(q, b) + [DigitChar(m)];
      hide Digits;
      ValueOfDigits(q, b);
      ValueOfSnoc(Digits(q, b), DigitChar(m), b);
    } else {
      ValueOfSnoc("", DigitChar(n), b);
      assert [DigitChar(n)] == "" + [DigitChar(n)];
    }
  }

  lemma DivMod(n: nat, b: Radix)
    ensures n / b * b + n % b == n && 0 <= n % b < b
    ensures n >= b ==> n / b < n
  {
  }

  lemma ValueOfSnoc(s: string, c: char, b: Radix)
    ensures ValueOf(s + [c], b) == ValueOf(s, b) * b + DigitValue(c)
  {
    assert (s + [c])[..|s + [c]| - 1] == s;
  }
}
