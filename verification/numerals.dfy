/** Positional digit strings: their value, the canonical rendering of a number,
    left padding, and the facts that make binary strings a faithful encoding. */
module Numerals {
  import opened Base

  /** Value of a digit character up to radix 16 (either letter case); 16 for any other character. */
  function DigitValue(c: char): nat
  {
    if '0' <= c <= '9' then c as int - '0' as int
    else if 'a' <= c <= 'f' then c as int - 'a' as int + 10
    else if 'A' <= c <= 'F' then c as int - 'A' as int + 10
    else 16
  }

  /** Lower-case digit character for `d`, as JavaScript's `toString(radix)` prints it. */
  function DigitChar(d: nat): (c: char)
    requires d < 16
    ensures DigitValue(c) == d
  {
    if d < 10 then ('0' as int + d) as char else ('a' as int + d - 10) as char
  }

  predicate IsDigits(s: string, radix: nat)
  {
    forall i :: 0 <= i < |s| ==> DigitValue(s[i]) < radix
  }

  predicate IsBits(s: string)
  {
    forall i :: 0 <= i < |s| ==> s[i] == '0' || s[i] == '1'
  }

  /** Value of a digit string, most significant digit first. */
  function Value(s: string, radix: nat): nat
    decreases |s|
  {
    if |s| == 0 then 0 else Value(s[..|s| - 1], radix) * radix + DigitValue(s[|s| - 1])
  }

  /** Canonical rendering without leading zeros ("0" for zero), as `n.toString(radix)`. */
  function ToRadix(n: nat, radix: nat): (s: string)
    requires 2 <= radix <= 16
    ensures |s| >= 1 && IsDigits(s, radix)
    decreases n
  {
    if n < radix then [DigitChar(n)] else ToRadix(n / radix, radix) + [DigitChar(n % radix)]
  }

  function Repeat(c: char, k: nat): (s: string)
    ensures |s| == k && forall i :: 0 <= i < k ==> s[i] == c
  {
    seq(k, _ => c)
  }

  /** `s.padStart(width, fill)` for a one-character fill. */
  function PadStart(s: string, width: nat, fill: char): (r: string)
    ensures |s| >= width ==> r == s
    ensures |s| < width ==> |r| == width && r[width - |s|..] == s
    ensures forall i :: 0 <= i < |r| - |s| ==> r[i] == fill
  {
    if |s| >= width then s else Repeat(fill, width - |s|) + s
  }

  lemma {:induction false} ValueOfToRadix(n: nat, radix: nat)
    requires 2 <= radix <= 16
    ensures Value(ToRadix(n, radix), radix) == n
    decreases n
  {
    var s := ToRadix(n, radix);
    if n >= radix {
      var init := ToRadix(n / radix, radix);
      DivShrinks(n, radix);
      DivMod(n, radix);
      assert s == init + [DigitChar(n % radix)];
      assert s[..|s| - 1] == init;
      ValueOfToRadix(n / radix, radix);
      assert Value(s, radix) == Value(init, radix) * radix + n % radix;
    }
  }

  lemma {:induction false} ToRadixLength(n: nat, radix: nat, k: nat)
    requires 2 <= radix <= 16 && k >= 1
    requires n < Pow(radix, k)
    ensures |ToRadix(n, radix)| <= k
    decreases k
  {
    if n >= radix {
      assert Pow(radix, 1) == radix;
      assert k >= 2;
      DivShrinks(n, radix);
      DivMod(n, radix);
      DivBelowPow(n, radix, Pow(radix, k - 1));
      ToRadixLength(n / radix, radix, k - 1);
    }
  }

  lemma DivBelowPow(n: nat, d: nat, p: nat)
    requires d > 0 && n < d * p
    ensures n / d < p
  {
    DivMod(n, d);
    if n / d >= p {
      MulMonotone(p, n / d, d);
    }
  }

  lemma {:induction false} BinaryDigitsAreBits(s: string)
    requires IsDigits(s, 2)
    ensures IsBits(s)
  {
    forall i | 0 <= i < |s| ensures s[i] == '0' || s[i] == '1' {
      assert DigitValue(s[i]) < 2;
    }
  }

  lemma {:induction false} ValueOfZeros(k: nat, radix: nat)
    ensures Value(Repeat('0', k), radix) == 0
    decreases k
  {
    if k > 0 {
      assert Repeat('0', k)[..k - 1] == Repeat('0', k - 1);
      ValueOfZeros(k - 1, radix);
    }
  }

  /** Splitting a digit string at `k`: the prefix carries the high-order digits. */
  lemma {:induction false} ValueSplit(s: string, k: nat, radix: nat)
    requires k <= |s|
    ensures Value(s, radix) == Value(s[..k], radix) * Pow(radix, |s| - k) + Value(s[k..], radix)
    decreases |s|
  {
    if k == |s| {
      assert s[..k] == s;
      assert s[k..] == [];
    } else {
      var init := s[..|s| - 1];
      ValueSplit(init, k, radix);
      assert init[..k] == s[..k];
      assert s[k..][..|s[k..]| - 1] == init[k..];
      assert s[k..][|s[k..]| - 1] == s[|s| - 1];
      var x, p, y, d := Value(s[..k], radix), Pow(radix, |init| - k), Value(init[k..], radix), DigitValue(s[|s| - 1]);
      assert Value(s, radix) == (x * p + y) * radix + d;
      MulAddRegroup(x, p, y, radix, d);
      assert Pow(radix, |s| - k) == radix * p;
      assert Value(s[k..], radix) == y * radix + d;
    }
  }

  lemma {:induction false} ValueBound(s: string, radix: nat)
    requires radix >= 1 && IsDigits(s, radix)
    ensures Value(s, radix) < Pow(radix, |s|)
    decreases |s|
  {
    if |s| > 0 {
      var init := s[..|s| - 1];
      assert IsDigits(init, radix);
      ValueBound(init, radix);
      var v, p := Value(init, radix), Pow(radix, |init|);
      DigitAppendBound(v, p, radix, DigitValue(s[|s| - 1]));
      assert Value(s, radix) == v * radix + DigitValue(s[|s| - 1]);
      assert Pow(radix, |s|) == radix * p;
    }
  }

  /** Leading zeros do not change a value. */
  lemma {:induction false} ValueLeadingZeros(k: nat, s: string, radix: nat)
    ensures Value(Repeat('0', k) + s, radix) == Value(s, radix)
  {
    var t := Repeat('0', k) + s;
    ValueSplit(t, k, radix);
    assert t[..k] == Repeat('0', k);
    assert t[k..] == s;
    ValueOfZeros(k, radix);
  }

  /** Two bit strings of equal length and equal value are the same string. */
  lemma {:induction false} BitsInjective(s: string, t: string)
    requires IsBits(s) && IsBits(t) && |s| == |t|
    requires Value(s, 2) == Value(t, 2)
    ensures s == t
    decreases |s|
  {
    if |s| > 0 {
      var n := |s| - 1;
      assert DigitValue(s[n]) < 2 && DigitValue(t[n]) < 2;
      assert DigitValue(s[n]) == Value(s, 2) % 2;
      assert DigitValue(t[n]) == Value(t, 2) % 2;
      assert Value(s[..n], 2) == Value(s, 2) / 2;
      assert Value(t[..n], 2) == Value(t, 2) / 2;
      BitsInjective(s[..n], t[..n]);
      assert s == s[..n] + [s[n]];
      assert t == t[..n] + [t[n]];
    }
  }

  /** `n.toString(2).padStart(width, '0')` for `n` below `2^width` is a binary numeral of
      exactly `width` digits with value `n`. */
  lemma PaddedBinary(n: nat, width: nat)
    requires width >= 1 && n < Pow(2, width)
    ensures var r := PadStart(ToRadix(n, 2), width, '0');
            |r| == width && IsBits(r) && Value(r, 2) == n
  {
    var s := ToRadix(n, 2);
    ToRadixLength(n, 2, width);
    ValueOfToRadix(n, 2);
    BinaryDigitsAreBits(s);
    if |s| < width {
      ValueLeadingZeros(width - |s|, s, 2);
      assert PadStart(s, width, '0') == Repeat('0', width - |s|) + s;
    }
  }
}
