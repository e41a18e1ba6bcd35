/** Decimal digit strings, as `BigInt(string)` and `BigInt.toString()` see them. */
module Decimal {

  predicate IsDigit(c: char) { '0' <= c <= '9' }

  predicate AllDigits(s: string) { forall i :: 0 <= i < |s| ==> IsDigit(s[i]) }

  function DigitValue(c: char): (d: nat)
    requires IsDigit(c)
    ensures d <= 9
  {
    c as int - '0' as int
  }

  function Digit(d: nat): (c: char)
    requires d <= 9
    ensures IsDigit(c) && DigitValue(c) == d
  {
    (d + '0' as int) as char
  }

  /** `BigInt(s)` for a string of digits. */
  function Value(s: string): nat
    requires AllDigits(s)
  {
    if s == "" then 0 else Value(s[..|s| - 1]) * 10 + DigitValue(s[|s| - 1])
  }

  /** `n.toString()`. */
  function ToText(n: nat): (s: string)
    ensures s != "" && AllDigits(s)
  {
    if n < 10 then [Digit(n)] else ToText(n / 10) + [Digit(n % 10)]
  }

  function Zeros(n: nat): (s: string)
    ensures |s| == n && AllDigits(s)
  {
    seq(n, _ => '0')
  }

  function Pow10(n: nat): nat {
    if n == 0 then 1 else 10 * Pow10(n - 1)
  }

  /** The same number without leading zeros. */
  function StripZeros(s: string): string {
    if |s| > 1 && s[0] == '0' then StripZeros(s[1..]) else s
  }

  lemma {:induction false} ValueOfText(n: nat)
    ensures Value(ToText(n)) == n
  {
    if n < 10 {
      assert ToText(n)[..0] == "";
    } else {
      ValueOfText(n / 10);
      assert ToText(n)[..|ToText(n)| - 1] == ToText(n / 10);
    }
  }

  lemma {:induction false} ValueOfAppend(a: string, b: string)
    requires AllDigits(a) && AllDigits(b)
    ensures AllDigits(a + b) && Value(a + b) == Value(a) * Pow10(|b|) + Value(b)
  {
    if b == "" {
      assert a + b == a;
    } else {
      var rest := b[..|b| - 1];
      ValueOfAppend(a, rest);
      assert (a + b)[..|a + b| - 1] == a + rest;
      Shift(Value(a), Pow10(|rest|));
    }
  }

  lemma {:induction false} Shift(x: nat, p: nat)
    ensures x * p * 10 == x * (10 * p)
  {
  }

  lemma {:induction false} ValueOfZeros(n: nat)
    ensures Value(Zeros(n)) == 0
  {
    if n > 0 {
      assert Zeros(n)[..n - 1] == Zeros(n - 1);
      ValueOfZeros(n - 1);
    }
  }

  lemma {:induction false} ValueBound(s: string)
    requires AllDigits(s)
    ensures Value(s) < Pow10(|s|)
  {
    if s != "" {
      ValueBound(s[..|s| - 1]);
    }
  }

  lemma {:induction false} StripKeepsValue(s: string)
    requires AllDigits(s) && s != ""
    ensures AllDigits(StripZeros(s)) && StripZeros(s) != "" && Value(StripZeros(s)) == Value(s)
  {
    if |s| > 1 && s[0] == '0' {
      StripKeepsValue(s[1..]);
      assert s == s[..1] + s[1..];
      ValueOfAppend(s[..1], s[1..]);
      assert s[..1][..0] == "" && Value(s[..1]) == 0;
    }
  }

  /** A digit string with no needless leading zero is what its number prints as. */
  lemma {:induction false} TextOfValue(s: string)
    requires AllDigits(s) && s != "" && (|s| > 1 ==> s[0] != '0')
    ensures ToText(Value(s)) == s
    ensures |s| > 1 ==> Value(s) >= 10
  {
    var front, last := s[..|s| - 1], s[|s| - 1];
    if |s| == 1 {
      assert front == "" && Value(s) == DigitValue(last);
      assert s == [Digit(DigitValue(last))];
    } else {
      TextOfValue(front);
      assert Value(front) >= 1 by {
        if |front| == 1 {
          assert front[..0] == "" && Value(front) == DigitValue(s[0]);
        }
      }
      assert Value(s) / 10 == Value(front) && Value(s) % 10 == DigitValue(last);
      assert s == front + [last];
    }
  }

  lemma {:induction false} StripIsCanonical(s: string)
    requires s != ""
    ensures StripZeros(s) != "" && (|StripZeros(s)| > 1 ==> StripZeros(s)[0] != '0')
  {
    if |s| > 1 && s[0] == '0' {
      StripIsCanonical(s[1..]);
    }
  }

  lemma {:induction false} PrintedIsStripped(s: string)
    requires AllDigits(s) && s != ""
    ensures ToText(Value(s)) == StripZeros(s)
  {
    StripKeepsValue(s);
    StripIsCanonical(s);
    TextOfValue(StripZeros(s));
  }

  lemma {:induction false} TextLength(n: nat, width: nat)
    requires width >= 1 && n < Pow10(width)
    ensures |ToText(n)| <= width
  {
    if n >= 10 {
      assert Pow10(1) == 10;
      TextLength(n / 10, width - 1);
    }
  }
}
