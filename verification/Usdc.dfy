/** USDC amounts as strings and as stroops: apps/api/src/lib/usdc.ts, the parser of the
    deposit webhook, and the amount test of the Stellar package. */
module Usdc {
  import opened Decimal
  import opened Options
  import Texts

  const STROOPS_PER_USDC: nat := 10_000_000

  /** Position of the dot, or the length. */
  function DotAt(s: string): (i: nat)
    ensures i <= |s| && '.' !in s[..i] && (i < |s| ==> s[i] == '.')
  {
    Texts.IndexOf(s, '.')
  }

  function WholePart(s: string): string { s[..DotAt(s)] }

  function FractionPart(s: string): string {
    if DotAt(s) == |s| then "" else s[DotAt(s) + 1..]
  }

  /** One or more digits, then optionally a dot and up to seven digits. */
  predicate Accepts(s: string) {
    && WholePart(s) != "" && AllDigits(WholePart(s))
    && AllDigits(FractionPart(s)) && |FractionPart(s)| <= 7
  }

  function PadEnd7(s: string): (r: string)
    requires |s| <= 7
    ensures |r| == 7
  {
    s + Zeros(7 - |s|)
  }

  /** `padStart(7, "0")`. */
  function PadStart7(s: string): string {
    if |s| >= 7 then s else Zeros(7 - |s|) + s
  }

  function Stroops(s: string): nat
    requires Accepts(s)
  {
    Value(WholePart(s)) * STROOPS_PER_USDC + Value(PadEnd7(FractionPart(s)))
  }

  /** `None` where the source throws. */
  function UsdcToStroops(s: string): Option<string> {
    if Accepts(s) then Some(ToText(Stroops(s))) else None
  }

  /** BigInt division and remainder truncate toward zero. */
  function TruncDiv(a: int, b: nat): int
    requires b > 0
  {
    if a >= 0 then a / b else -(-a / b)
  }

  function TruncMod(a: int, b: nat): int
    requires b > 0
  {
    a - TruncDiv(a, b) * b
  }

  function IntText(n: int): string {
    if n >= 0 then ToText(n) else "-" + ToText(-n)
  }

  function StroopsToUsdc(stroops: int): string {
    IntText(TruncDiv(stroops, STROOPS_PER_USDC)) + "."
      + PadStart7(IntText(TruncMod(stroops, STROOPS_PER_USDC)))
  }

  /** The webhook's parser: both digit groups concatenated, the second padded and cut to seven. */
  function WebhookStroops(s: string): nat
    requires Accepts(s)
  {
    Value(WholePart(s) + PadEnd7(FractionPart(s))[..7])
  }

  /** `isValidStellarAmount`: a dot needs digits after it, and the amount is not zero. */
  predicate IsValidStellarAmount(s: string) {
    Accepts(s) && (DotAt(s) < |s| ==> FractionPart(s) != "") && Stroops(s) > 0
  }

  // ---------------------------------------------------------------- what is accepted, and its worth

  /** The text is these digits, or these digits, a dot and those digits. */
  ghost predicate Spells(s: string, whole: string, fraction: string) {
    && whole != "" && AllDigits(whole) && AllDigits(fraction) && |fraction| <= 7
    && (s == whole + "." + fraction || (fraction == "" && s == whole))
  }

  lemma {:induction false} DigitsHaveNoDot(s: string)
    requires AllDigits(s)
    ensures '.' !in s
  {
    assert forall i :: 0 <= i < |s| ==> IsDigit(s[i]);
  }

  lemma {:induction false} SpellingParts(s: string, whole: string, fraction: string)
    requires Spells(s, whole, fraction)
    ensures WholePart(s) == whole && FractionPart(s) == fraction
    ensures DotAt(s) < |s| <==> s != whole
  {
    DigitsHaveNoDot(whole);
    if s == whole {
      assert DotAt(s) == |s|;
      assert '.' in whole + "." + fraction by {
        assert (whole + "." + fraction)[|whole|] == '.';
      }
    } else {
      DotSplits(whole, fraction);
    }
  }

  lemma {:induction false} PartsSpell(s: string)
    requires Accepts(s)
    ensures Spells(s, WholePart(s), FractionPart(s))
  {
    var i := DotAt(s);
    if i < |s| {
      assert s == s[..i] + [s[i]] + s[i + 1..];
    }
  }

  /** Accepted is exactly one or more digits, then nothing, or a dot and up to seven digits. */
  lemma {:induction false} AcceptsIff(s: string)
    ensures Accepts(s) <==> exists whole, fraction :: Spells(s, whole, fraction)
  {
    if Accepts(s) {
      PartsSpell(s);
    }
    forall whole, fraction | Spells(s, whole, fraction) ensures Accepts(s) {
      SpellingParts(s, whole, fraction);
    }
  }

  lemma {:induction false} PowSum(a: nat, b: nat)
    ensures Pow10(a + b) == Pow10(a) * Pow10(b)
  {
    if a > 0 {
      PowSum(a - 1, b);
      assert 10 * (Pow10(a - 1) * Pow10(b)) == (10 * Pow10(a - 1)) * Pow10(b);
    }
  }

  /** An amount is worth ten million stroops a unit: whole.fraction times 10^k, for k decimal
      places, is the number whole fraction without the dot. */
  lemma {:induction false} WorthInStroops(s: string, whole: string, fraction: string)
    requires Spells(s, whole, fraction)
    ensures Accepts(s) && AllDigits(whole + fraction)
    ensures Stroops(s) * Pow10(|fraction|) == Value(whole + fraction) * 10_000_000
  {
    var k := |fraction|;
    SpellingParts(s, whole, fraction);
    Pow10Of7();
    PowSum(k, 7 - k);
    ValueOfAppend(whole, fraction);
    ValueOfAppend(fraction, Zeros(7 - k));
    ValueOfZeros(7 - k);
    Scaled(Value(whole), Value(fraction), Pow10(k), Pow10(7 - k));
  }

  /** (w * pq + f * q) * p is (w * p + f) * pq. */
  lemma {:induction false} Scaled(w: nat, f: nat, p: nat, q: nat)
    ensures (w * (p * q) + f * q) * p == (w * p + f) * (p * q)
  {
    assert (w * (p * q) + f * q) * p == w * (p * q) * p + f * q * p;
    assert (w * p + f) * (p * q) == w * p * (p * q) + f * (p * q);
    assert w * (p * q) * p == w * p * (p * q);
    assert f * q * p == f * (p * q);
  }

  /** It spells a number above zero and ends in a digit. */
  ghost predicate SpellsPositive(s: string) {
    exists whole, fraction :: Spells(s, whole, fraction) && (s == whole || fraction != "") && Value(whole + fraction) > 0
  }

  /** A submitted amount is valid exactly when it is such a text. */
  lemma {:induction false} ValidIff(s: string)
    ensures IsValidStellarAmount(s) <==> SpellsPositive(s)
  {
    if Accepts(s) {
      PartsSpell(s);
      var whole, fraction := WholePart(s), FractionPart(s);
      SpellingParts(s, whole, fraction);
      WorthInStroops(s, whole, fraction);
      PositiveWorth(Stroops(s), Pow10(|fraction|), Value(whole + fraction));
      PowPositive(|fraction|);
    }
    forall whole, fraction | Spells(s, whole, fraction) && (s == whole || fraction != "") && Value(whole + fraction) > 0
      ensures IsValidStellarAmount(s)
    {
      SpellingParts(s, whole, fraction);
      WorthInStroops(s, whole, fraction);
    }
  }

  lemma {:induction false} PowPositive(k: nat)
    ensures Pow10(k) > 0
  {
    if k > 0 {
      PowPositive(k - 1);
    }
  }

  lemma {:induction false} PositiveWorth(n: nat, p: nat, v: nat)
    requires n * p == v * 10_000_000
    ensures n > 0 && p > 0 ==> v > 0
  {
  }

  // ---------------------------------------------------------------- printing and parsing

  lemma {:induction false} Pow10Of7()
    ensures Pow10(7) == STROOPS_PER_USDC
  {
    assert Pow10(3) == 1000;
  }

  /** A text made of a dot-free head, a dot and a tail is taken apart there. */
  lemma {:induction false} DotSplits(head: string, tail: string)
    requires '.' !in head
    ensures WholePart(head + "." + tail) == head && FractionPart(head + "." + tail) == tail
    ensures DotAt(head + "." + tail) == |head|
  {
    Texts.IndexAfter(head, '.', tail);
    assert head + "." + tail == head + ['.'] + tail;
  }

  /** The seven-digit text of a remainder stands for that remainder. */
  lemma {:induction false} PaddedFraction(f: nat)
    requires f < STROOPS_PER_USDC
    ensures var t := PadStart7(ToText(f)); |t| == 7 && AllDigits(t) && Value(t) == f
  {
    Pow10Of7();
    TextLength(f, 7);
    var t := ToText(f);
    ValueOfText(f);
    ValueOfZeros(7 - |t|);
    ValueOfAppend(Zeros(7 - |t|), t);
    assert |t| == 7 ==> PadStart7(t) == t;
  }

  lemma {:induction false} PrintedParts(n: nat)
    ensures var s := StroopsToUsdc(n);
            && Accepts(s) && |FractionPart(s)| == 7 && DotAt(s) < |s|
            && WholePart(s) == ToText(n / STROOPS_PER_USDC)
            && Value(FractionPart(s)) == n % STROOPS_PER_USDC
            && Stroops(s) == n
  {
    var whole, fraction := n / STROOPS_PER_USDC, n % STROOPS_PER_USDC;
    assert TruncMod(n, STROOPS_PER_USDC) == fraction;
    var head, tail := ToText(whole), PadStart7(ToText(fraction));
    PaddedFraction(fraction);
    DotSplits(head, tail);
    ValueOfText(whole);
    assert PadEnd7(tail) == tail;
  }

  /** A negative amount prints with a minus sign that the parser refuses. */
  lemma {:induction false} NegativeIsRefused(n: int)
    requires n < 0
    ensures !Accepts(StroopsToUsdc(n))
  {
    var whole, fraction := TruncDiv(n, STROOPS_PER_USDC), TruncMod(n, STROOPS_PER_USDC);
    var head, tail := IntText(whole), PadStart7(IntText(fraction));
    assert 0 - STROOPS_PER_USDC < fraction <= 0 && whole <= 0;
    assert '.' !in head by {
      var digits := if whole >= 0 then ToText(whole) else ToText(-whole);
      assert forall i :: 0 <= i < |digits| ==> IsDigit(digits[i]);
    }
    DotSplits(head, tail);
    if fraction < 0 {
      var t := IntText(fraction);
      assert t[0] == '-';
      var at := if |t| >= 7 then 0 else 7 - |t|;
      assert tail[at] == '-';
      assert !AllDigits(FractionPart(StroopsToUsdc(n)));
    } else {
      assert head[0] == '-';
      assert !AllDigits(WholePart(StroopsToUsdc(n)));
    }
  }

  /** Printing and parsing back is the identity on exactly the non-negative amounts. */
  lemma {:induction false} PrintThenParse(n: int)
    ensures UsdcToStroops(StroopsToUsdc(n)) == if n >= 0 then Some(ToText(n)) else None
  {
    if n >= 0 {
      PrintedParts(n);
    } else {
      NegativeIsRefused(n);
    }
  }

  /** Parsing any accepted string and printing gives its canonical seven-place form. */
  lemma {:induction false} ParseThenPrint(s: string)
    requires Accepts(s)
    ensures StroopsToUsdc(Stroops(s)) == StripZeros(WholePart(s)) + "." + PadEnd7(FractionPart(s))
  {
    var whole, tail := WholePart(s), PadEnd7(FractionPart(s));
    Pow10Of7();
    ValueBound(tail);
    var n := Stroops(s);
    assert n / STROOPS_PER_USDC == Value(whole) && n % STROOPS_PER_USDC == Value(tail);
    assert TruncMod(n, STROOPS_PER_USDC) == Value(tail);
    PrintedIsStripped(whole);
    PaddedFraction(Value(tail));
    SameValueSameText(PadStart7(ToText(Value(tail))), tail);
  }

  lemma {:induction false} SameDigit(x: nat, d: nat, y: nat, e: nat)
    requires x * 10 + d == y * 10 + e && d <= 9 && e <= 9
    ensures x == y && d == e
  {
  }

  /** Digit strings of equal length and value are equal. */
  lemma {:induction false} SameValueSameText(a: string, b: string)
    requires AllDigits(a) && AllDigits(b) && |a| == |b| && Value(a) == Value(b)
    ensures a == b
  {
    if a != "" {
      var x, y := a[..|a| - 1], b[..|b| - 1];
      var d, e := a[|a| - 1], b[|b| - 1];
      SameDigit(Value(x), DigitValue(d), Value(y), DigitValue(e));
      SameValueSameText(x, y);
      assert a == x + [d] && b == y + [e];
    }
  }

  /** The webhook's parser agrees on every accepted string. */
  lemma {:induction false} WebhookAgrees(s: string)
    requires Accepts(s)
    ensures AllDigits(WholePart(s) + PadEnd7(FractionPart(s))[..7])
    ensures WebhookStroops(s) == Stroops(s)
  {
    Pow10Of7();
    var tail := PadEnd7(FractionPart(s));
    assert tail[..7] == tail;
    ValueOfAppend(WholePart(s), tail);
  }

  /** A printed amount is accepted for submission exactly when it is at least one stroop. */
  lemma {:induction false} PrintedIsValidIffPositive(n: int)
    ensures IsValidStellarAmount(StroopsToUsdc(n)) <==> n >= 1
  {
    if n >= 0 {
      PrintedParts(n);
    } else {
      NegativeIsRefused(n);
    }
  }
}
