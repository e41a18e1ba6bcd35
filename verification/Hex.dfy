/** Hexadecimal text, as `parseInt(s, 16)` and `n.toString(16)` see it. */
module Hex {

  predicate IsHex(c: char) { '0' <= c <= '9' || 'a' <= c <= 'f' || 'A' <= c <= 'F' }

  predicate AllHex(s: string) { forall i :: 0 <= i < |s| ==> IsHex(s[i]) }

  function HexDigitValue(c: char): (d: nat)
    requires IsHex(c)
    ensures d < 16
  {
    if c <= '9' then c as int - '0' as int
    else if c <= 'F' then c as int - 'A' as int + 10
    else c as int - 'a' as int + 10
  }

  function HexDigit(d: nat): (c: char)
    requires d < 16
    ensures IsHex(c) && HexDigitValue(c) == d
  {
    if d < 10 then (d + '0' as int) as char else (d - 10 + 'a' as int) as char
  }

  function HexValue(s: string): nat
    requires AllHex(s)
  {
    if s == "" then 0 else HexValue(s[..|s| - 1]) * 16 + HexDigitValue(s[|s| - 1])
  }

  function ToHex(n: nat): (s: string)
    ensures s != "" && AllHex(s)
  {
    if n < 16 then [HexDigit(n)] else ToHex(n / 16) + [HexDigit(n % 16)]
  }

  lemma {:induction false} ValueOfHex(n: nat)
    ensures HexValue(ToHex(n)) == n
  {
    if n < 16 {
      assert ToHex(n)[..0] == "";
    } else {
      ValueOfHex(n / 16);
      assert ToHex(n)[..|ToHex(n)| - 1] == ToHex(n / 16);
    }
  }

  /** The leading hexadecimal digits, which is all `parseInt` looks at. */
  function HexPrefix(s: string): (p: string)
    ensures AllHex(p) && (AllHex(s) ==> p == s)
  {
    if s == "" || !IsHex(s[0]) then ""
    else
      var rest := HexPrefix(s[1..]);
      assert AllHex(s) ==> AllHex(s[1..]);
      [s[0]] + rest
  }
}
