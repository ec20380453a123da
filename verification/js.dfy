/** The JavaScript number, bitwise and string operations the assembler and
    the emulator rely on, written out over unbounded integers and `seq<char>`. */
module Js {
  import opened Base
  import opened Numerals

  /** JavaScript `x % m` for integer operands and positive `m`: the remainder takes
      the sign of the dividend (truncated division), unlike Dafny's `%`. */
  function Rem(x: int, m: int): (r: int)
    requires m > 0
    ensures -m < r < m
    ensures x >= 0 ==> r == x % m
    ensures x < 0 ==> r <= 0
    ensures -m < x < m ==> r == x
  {
    if x >= 0 then ModBelow(x, m); x % m else ModBelow(-x, m); -((-x) % m)
  }

  lemma ModBelow(n: nat, m: nat)
    requires m > 0
    ensures 0 <= n % m < m
    ensures n < m ==> n % m == n
  {
  }

  /** Value stored by a `Uint8Array` element assignment (ToUint8). */
  function ToUint8(x: int): (r: int)
    ensures 0 <= r < 256
    ensures 0 <= x < 256 ==> r == x
  {
    x % 256
  }

  const TWO32: int := 0x1_0000_0000
  const TWO31: int := 0x8000_0000

  /** ToInt32: the 32-bit two's-complement reading of `x`. */
  function ToInt32(x: int): (r: int)
    ensures -TWO31 <= r < TWO31
    ensures -TWO31 <= x < TWO31 ==> r == x
  {
    var u := x % TWO32;
    if u >= TWO31 then u - TWO32 else u
  }

  /** ToUint32: the unsigned 32-bit reading of `x`. */
  function ToUint32(x: int): (u: nat)
    ensures u < TWO32
  {
    x % TWO32
  }

  datatype BitOp = OrOp | AndOp | XorOp

  /** One bit of a bitwise operator, on bits `a` and `b`. */
  function OpBit(op: BitOp, a: nat, b: nat): (r: nat)
    requires a < 2 && b < 2
    ensures r < 2
  {
    match op
    case OrOp => if a == 1 || b == 1 then 1 else 0
    case AndOp => if a == 1 && b == 1 then 1 else 0
    case XorOp => if a != b then 1 else 0
  }

  /** The low `width` bits of `op` applied bit by bit to `x` and `y`. */
  function Bitwise(op: BitOp, x: nat, y: nat, width: nat): nat
    decreases width
  {
    if width == 0 then 0 else Bitwise(op, x / 2, y / 2, width - 1) * 2 + OpBit(op, x % 2, y % 2)
  }

  /** `x | y` */
  function BitOr(x: int, y: int): int
  {
    ToInt32(Bitwise(OrOp, ToUint32(x), ToUint32(y), 32))
  }

  /** `x & y` */
  function BitAnd(x: int, y: int): int
  {
    ToInt32(Bitwise(AndOp, ToUint32(x), ToUint32(y), 32))
  }

  /** `x ^ y` */
  function BitXor(x: int, y: int): int
  {
    ToInt32(Bitwise(XorOp, ToUint32(x), ToUint32(y), 32))
  }

  /** Shift counts are taken modulo 32 (ToUint32(n) & 31). */
  function ShiftCount(n: int): (k: nat)
    ensures k < 32
  {
    ToUint32(n) % 32
  }

  /** `x` doubled `k` times. */
  function Doubled(x: int, k: nat): int
  {
    if k == 0 then x else 2 * Doubled(x, k - 1)
  }

  /** `x` halved `k` times, each time rounding toward negative infinity. */
  function Halved(x: int, k: nat): int
  {
    if k == 0 then x else Halved(x, k - 1) / 2
  }

  /** `x << n`: the 32-bit value shifted left, wrapped to 32 bits. */
  function ShiftLeft(x: int, n: int): int
  {
    ToInt32(Doubled(ToInt32(x), ShiftCount(n)))
  }

  /** `x >> n` (sign-propagating, so it rounds toward negative infinity). */
  function ShiftRight(x: int, n: int): int
  {
    Halved(ToInt32(x), ShiftCount(n))
  }

  /** Doubling `k` times multiplies by `2^k`. */
  lemma {:induction false} DoubledIsProduct(x: int, k: nat)
    ensures Doubled(x, k) == x * Pow(2, k)
  {
    if k > 0 {
      DoubledIsProduct(x, k - 1);
      assert 2 * (x * Pow(2, k - 1)) == x * (2 * Pow(2, k - 1));
    }
  }

  /** Halving a natural number `k` times divides it by `2^k`. */
  lemma {:induction false} HalvedIsQuotient(x: nat, k: nat)
    ensures Pow(2, k) > 0 && Halved(x, k) == x / Pow(2, k)
  {
    PowPositive(2, k);
    if k > 0 {
      HalvedIsQuotient(x, k - 1);
      DivDiv(x, Pow(2, k - 1), 2);
      assert Pow(2, k - 1) * 2 == Pow(2, k);
    }
  }

  lemma {:induction false} BitwiseBound(op: BitOp, x: nat, y: nat, width: nat)
    ensures Bitwise(op, x, y, width) < Pow(2, width)
    decreases width
  {
    if width > 0 {
      BitwiseBound(op, x / 2, y / 2, width - 1);
      DigitAppendBound(Bitwise(op, x / 2, y / 2, width - 1), Pow(2, width - 1), 2, OpBit(op, x % 2, y % 2));
    }
  }

  lemma {:induction false} BitwiseOfZeros(op: BitOp, width: nat)
    ensures Bitwise(op, 0, 0, width) == 0
    decreases width
  {
    if width > 0 {
      BitwiseOfZeros(op, width - 1);
    }
  }

  /** Operands below `2^k` leave every bit above `k` clear. */
  lemma {:induction false} BitwiseNarrow(op: BitOp, x: nat, y: nat, k: nat, width: nat)
    requires k <= width && x < Pow(2, k) && y < Pow(2, k)
    ensures Bitwise(op, x, y, width) == Bitwise(op, x, y, k)
    decreases k
  {
    if k == 0 {
      BitwiseOfZeros(op, width);
    } else {
      DivBelowPow(x, 2, Pow(2, k - 1));
      DivBelowPow(y, 2, Pow(2, k - 1));
      BitwiseNarrow(op, x / 2, y / 2, k - 1, width - 1);
    }
  }

  lemma {:induction false} OrWithZero(x: nat, width: nat)
    requires x < Pow(2, width)
    ensures Bitwise(OrOp, 0, x, width) == x && Bitwise(OrOp, x, 0, width) == x
    decreases width
  {
    if width > 0 {
      DivBelowPow(x, 2, Pow(2, width - 1));
      OrWithZero(x / 2, width - 1);
      DivMod(x, 2);
    }
  }

  lemma {:induction false} XorWithOnes(x: nat, width: nat)
    requires x < Pow(2, width)
    ensures Bitwise(XorOp, x, Pow(2, width) - 1, width) == Pow(2, width) - 1 - x
    decreases width
  {
    if width > 0 {
      var p := Pow(2, width - 1);
      DivBelowPow(x, 2, p);
      PowPositive(2, width - 1);
      assert (Pow(2, width) - 1) / 2 == p - 1;
      assert (Pow(2, width) - 1) % 2 == 1;
      XorWithOnes(x / 2, width - 1);
      DivMod(x, 2);
    }
  }

  lemma BytesAreNarrow(x: int)
    requires 0 <= x < 256
    ensures ToUint32(x) == x && x < Pow(2, 8) && Pow(2, 8) == 256
  {
    assert Pow(2, 8) == 256;
  }

  /** On byte operands the bitwise operators stay within a byte. */
  lemma {:induction false} ByteBitwise(x: int, y: int)
    requires 0 <= x < 256 && 0 <= y < 256
    ensures 0 <= BitOr(x, y) < 256 && 0 <= BitAnd(x, y) < 256 && 0 <= BitXor(x, y) < 256
  {
    BytesAreNarrow(x);
    BytesAreNarrow(y);
    BitwiseNarrow(OrOp, x, y, 8, 32);
    BitwiseNarrow(AndOp, x, y, 8, 32);
    BitwiseNarrow(XorOp, x, y, 8, 32);
    BitwiseBound(OrOp, x, y, 8);
    BitwiseBound(AndOp, x, y, 8);
    BitwiseBound(XorOp, x, y, 8);
  }

  /** OR-ing with zero is the identity on a byte, in either order. */
  lemma {:induction false} OrZero(x: int)
    requires 0 <= x < 256
    ensures BitOr(0, x) == x && BitOr(x, 0) == x
  {
    BytesAreNarrow(x);
    BytesAreNarrow(0);
    BitwiseNarrow(OrOp, 0, x, 8, 32);
    BitwiseNarrow(OrOp, x, 0, 8, 32);
    OrWithZero(x, 8);
  }

  /** Complementing a byte with `^ 0xFF`. */
  lemma {:induction false} XorFF(x: int)
    requires 0 <= x < 256
    ensures BitXor(x, 0xFF) == 255 - x
  {
    BytesAreNarrow(x);
    BytesAreNarrow(0xFF);
    BitwiseNarrow(XorOp, x, 0xFF, 8, 32);
    XorWithOnes(x, 8);
  }

  lemma {:induction false} AndWithZero(x: nat, width: nat)
    ensures Bitwise(AndOp, x, 0, width) == 0
    decreases width
  {
    if width > 0 {
      AndWithZero(x / 2, width - 1);
    }
  }

  /** `x & 1`: the lowest bit of the 32-bit value. */
  function LowBit(x: int): (r: nat)
    ensures r < 2
  {
    ToUint32(x) % 2
  }

  /** `x & 1` computed bit by bit is the lowest bit, whatever `x` is. */
  lemma AndOneIsLowBit(x: int)
    ensures BitAnd(x, 1) == LowBit(x)
  {
    var u := ToUint32(x);
    assert ToUint32(1) == 1;
    AndWithZero(u / 2, 31);
    assert Bitwise(AndOp, u, 1, 32) == OpBit(AndOp, u % 2, 1);
  }

  /** A byte shifted left by at most two places is multiplied, without reaching the sign bit. */
  lemma ShiftLeftByte(x: int, n: int)
    requires 0 <= x < 256 && 0 <= n <= 2
    ensures ShiftLeft(x, n) == x * Pow(2, n)
  {
    ShiftCountSmall(n);
    DoubledIsProduct(x, n);
    var p := Pow(2, n);
    SmallPowerOfTwo(n);
    MulMonotone(x, 255, p);
    MulMonotone(0, x, p);
    var y := x * p;
    assert 0 <= y <= 1020;
    assert ToInt32(y) == y;
  }

  lemma ShiftCountSmall(n: int)
    requires 0 <= n < 32
    ensures ShiftCount(n) == n
  {
    assert ToUint32(n) == n;
  }

  lemma SmallPowerOfTwo(n: nat)
    requires n <= 2
    ensures 1 <= Pow(2, n) <= 4
  {
    if n > 0 {
      SmallPowerOfTwo(n - 1);
    }
  }

  /** A byte shifted right by `n` is divided by `2^(n % 32)`. */
  lemma ShiftRightByte(x: int, n: int)
    requires 0 <= x < 256 && 0 <= n < 256
    ensures Pow(2, n % 32) > 0
    ensures ShiftRight(x, n) == x / Pow(2, n % 32)
  {
    assert ToUint32(n) == n;
    assert ShiftCount(n) == n % 32;
    assert ToInt32(x) == x;
    HalvedIsQuotient(x, n % 32);
  }

  /** `n.toString(2)`; a negative number prints a minus sign before its magnitude. */
  function BinaryString(n: int): (s: string)
    ensures |s| >= 1
  {
    if n >= 0 then ToRadix(n, 2) else "-" + ToRadix(-n, 2)
  }

  /** `s.slice(0, n)` for `n >= 0`: the first `n` characters, or all of `s` if it is shorter. */
  function Prefix(s: string, n: nat): (r: string)
    ensures |r| == if n <= |s| then n else |s|
    ensures r <= s
  {
    if n <= |s| then s[..n] else s
  }

  /** `s.slice(0, -k)` for `k > 0`. */
  function DropLast(s: string, k: nat): (r: string)
    requires k > 0
    ensures r <= s && |r| == if k <= |s| then |s| - k else 0
  {
    if k <= |s| then s[..|s| - k] else []
  }

  /** `s.slice(-k)` for `k > 0`. */
  function TakeLast(s: string, k: nat): (r: string)
    requires k > 0
    ensures |r| == if k <= |s| then k else |s|
    ensures r == s[|s| - |r|..]
  {
    if k <= |s| then s[|s| - k..] else s
  }

  /** `s.indexOf(c)`, with `None` for -1. */
  function IndexOf(s: string, c: char): (r: Option<nat>)
    ensures r.Some? ==> r.value < |s|
    decreases |s|
  {
    if |s| == 0 then None
    else if s[0] == c then Some(0)
    else match IndexOf(s[1..], c)
      case None => None
      case Some(i) => Some(i + 1)
  }

  /** `indexOf` finds the first occurrence, and finds nothing exactly when there is none. */
  lemma {:induction false} IndexOfSpec(s: string, c: char)
    ensures IndexOf(s, c).None? <==> c !in s
    ensures IndexOf(s, c).Some? ==>
              IndexOf(s, c).value < |s| && s[IndexOf(s, c).value] == c && c !in s[..IndexOf(s, c).value]
    decreases |s|
  {
    if |s| > 0 && s[0] != c {
      IndexOfSpec(s[1..], c);
      assert s == [s[0]] + s[1..];
      match IndexOf(s[1..], c)
      case None =>
      case Some(i) =>
        assert s[..i + 1] == [s[0]] + s[1..][..i];
    }
  }

  /** `s.split(sep)` for a one-character separator: the pieces between separators, empty ones included. */
  function Split(s: string, sep: char): (r: seq<string>)
    ensures |r| >= 1
    decreases |s|
  {
    if |s| == 0 then [""]
    else
      var rest := Split(s[1..], sep);
      if s[0] == sep then [""] + rest else [[s[0]] + rest[0]] + rest[1..]
  }

  /** No piece holds the separator, and a character absent from the text is absent from every piece. */
  lemma {:induction false} SplitKeepsOut(s: string, sep: char, c: char)
    requires c !in s || c == sep
    ensures forall k :: 0 <= k < |Split(s, sep)| ==> c !in Split(s, sep)[k]
    decreases |s|
  {
    if |s| > 0 {
      SplitKeepsOut(s[1..], sep, c);
      var rest := Split(s[1..], sep);
      if s[0] != sep {
        assert c !in [s[0]] + rest[0];
      }
    }
  }

  /** `pieces.join(sep)`, the inverse of `Split`. */
  function Join(pieces: seq<string>, sep: char): string
    decreases |pieces|
  {
    if |pieces| == 0 then ""
    else if |pieces| == 1 then pieces[0]
    else pieces[0] + [sep] + Join(pieces[1..], sep)
  }

  lemma {:induction false} JoinSplit(s: string, sep: char)
    ensures Join(Split(s, sep), sep) == s
    decreases |s|
  {
    if |s| > 0 {
      var rest := Split(s[1..], sep);
      JoinSplit(s[1..], sep);
      if s[0] == sep {
        assert Split(s, sep)[1..] == rest;
      } else {
        var r := Split(s, sep);
        assert r[1..] == rest[1..];
        if |rest| == 1 {
        } else {
          assert Join(rest, sep) == rest[0] + [sep] + Join(rest[1..], sep);
        }
      }
    }
  }

  /** Digits of one radix, `None` (NaN) when empty or when a character is not such a digit. */
  function ParseDigits(s: string, radix: nat): (r: Option<nat>)
    ensures r.Some? <==> |s| > 0 && IsDigits(s, radix)
    ensures r.Some? ==> r.value == Value(s, radix)
  {
    if |s| > 0 && IsDigits(s, radix) then Some(Value(s, radix)) else None
  }

  /** Position of the first exponent marker `e` or `E`. */
  function ExponentMarker(s: string): (r: Option<nat>)
    ensures r.Some? ==> r.value < |s| && (s[r.value] == 'e' || s[r.value] == 'E')
    ensures r.None? ==> forall i :: 0 <= i < |s| ==> s[i] != 'e' && s[i] != 'E'
  {
    if |s| == 0 then None
    else if s[0] == 'e' || s[0] == 'E' then Some(0)
    else match ExponentMarker(s[1..])
      case None => None
      case Some(i) => Some(i + 1)
  }

  /** `Number(text)` on texts without whitespace, sign, decimal point or the word Infinity:
      a `0x`/`0X`, `0o`/`0O` or `0b`/`0B` prefix selects radix 16, 8 or 2; otherwise decimal
      digits with an optional `e`/`E` exponent. `None` stands for NaN. Results are exact
      integers, where JavaScript rounds very large values to the nearest double. */
  function Number(text: string): (r: Option<nat>)
  {
    if |text| >= 2 && text[0] == '0' && (text[1] == 'x' || text[1] == 'X') then ParseDigits(text[2..], 16)
    else if |text| >= 2 && text[0] == '0' && (text[1] == 'o' || text[1] == 'O') then ParseDigits(text[2..], 8)
    else if |text| >= 2 && text[0] == '0' && (text[1] == 'b' || text[1] == 'B') then ParseDigits(text[2..], 2)
    else match ExponentMarker(text)
      case None => ParseDigits(text, 10)
      case Some(e) =>
        match (ParseDigits(text[..e], 10), ParseDigits(text[e + 1..], 10))
        case (Some(m), Some(x)) => Some(m * Pow(10, x))
        case _ => None
  }

  /** Decimal digits hold no exponent marker. */
  lemma {:induction false} DecimalHasNoExponent(s: string)
    requires IsDigits(s, 10)
    ensures ExponentMarker(s).None?
    decreases |s|
  {
    if |s| > 0 {
      assert DigitValue(s[0]) < 10;
      DecimalHasNoExponent(s[1..]);
    }
  }

  /** `Number` reads back the decimal rendering of a number. */
  lemma NumberReadsDecimal(n: nat)
    ensures Number(ToRadix(n, 10)) == Some(n)
  {
    var d := ToRadix(n, 10);
    ValueOfToRadix(n, 10);
    DecimalHasNoExponent(d);
    assert ParseDigits(d, 10) == Some(n);
    if |d| >= 2 {
      assert DigitValue(d[1]) < 10;
      assert '0' <= d[1] <= '9';
    }
  }

  /** `Number` reads back the rendering of a number in radix 16 or 2 behind its prefix. */
  lemma NumberReadsPrefixed(n: nat, radix: nat)
    requires radix == 16 || radix == 2
    ensures Number((if radix == 16 then "0x" else "0b") + ToRadix(n, radix)) == Some(n)
  {
    var text := (if radix == 16 then "0x" else "0b") + ToRadix(n, radix);
    ValueOfToRadix(n, radix);
    assert text[2..] == ToRadix(n, radix);
  }
}
