/** Small shared vocabulary: optional values, results, powers and counting. */
module Base {

  /** A value that may be absent; models JavaScript's `undefined` results. */
  datatype Option<+T> = None | Some(value: T)

  /** A computation that either yields a value or throws. */
  datatype Result<+T, +E> = Ok(value: T) | Err(error: E)

  /** `b` raised to the `k`-th power. */
  function Pow(b: nat, k: nat): nat
    decreases k
  {
    if k == 0 then 1 else b * Pow(b, k - 1)
  }

  lemma {:induction false} PowPositive(b: nat, k: nat)
    requires b > 0
    ensures Pow(b, k) > 0
    decreases k
  {
    if k > 0 {
      PowPositive(b, k - 1);
    }
  }

  lemma {:induction false} PowAdd(b: nat, j: nat, k: nat)
    ensures Pow(b, j + k) == Pow(b, j) * Pow(b, k)
    decreases j
  {
    if j > 0 {
      PowAdd(b, j - 1, k);
      assert Pow(b, j + k) == b * Pow(b, j - 1 + k);
    }
  }

  lemma DivMod(n: int, d: nat)
    requires d > 0
    ensures n == (n / d) * d + n % d
    ensures 0 <= n % d < d
  {
  }

  lemma DivShrinks(n: nat, d: nat)
    requires d >= 2 && n >= d
    ensures 1 <= n / d < n
  {
  }

  /** Dividing a natural number by a positive one never enlarges it. */
  lemma DivAtMost(n: nat, d: nat)
    requires d > 0
    ensures 0 <= n / d <= n
  {
    DivMod(n, d);
    MulMonotone(1, d, n / d);
  }

  lemma MulMonotone(x: nat, y: nat, m: nat)
    requires x <= y
    ensures x * m <= y * m
  {
  }

  lemma MulAddRegroup(x: int, p: int, y: int, r: int, d: int)
    ensures (x * p + y) * r + d == x * (p * r) + (y * r + d)
  {
  }

  lemma DigitAppendBound(v: nat, p: nat, r: nat, d: nat)
    requires v < p && d < r
    ensures v * r + d < p * r
  {
    MulMonotone(v + 1, p, r);
    assert (v + 1) * r == v * r + r;
  }

  /** Number of positions of `s` holding `x`. */
  function CountOf<T(==)>(s: seq<T>, x: T): nat
    decreases |s|
  {
    if |s| == 0 then 0 else CountOf(s[..|s| - 1], x) + (if s[|s| - 1] == x then 1 else 0)
  }

  /** The quotient of `x * p + y` by `p`, for `0 <= y < p`. */
  lemma DivOfSplit(x: nat, p: nat, y: nat)
    requires 0 <= y < p
    ensures (x * p + y) / p == x
  {
    var n := x * p + y;
    var q, r := n / p, n % p;
    DivMod(n, p);
    assert (q - x) * p == y - r;
    if q > x {
      MulMonotone(1, q - x, p);
      assert false;
    } else if q < x {
      MulMonotone(1, x - q, p);
      assert false;
    }
  }

  /** Dividing twice is dividing by the product. */
  lemma DivDiv(x: nat, b: nat, c: nat)
    requires b > 0 && c > 0
    ensures b * c > 0 && x / b / c == x / (b * c)
  {
    var q1, r1 := x / b, x % b;
    var q2, r2 := q1 / c, q1 % c;
    DivMod(x, b);
    DivMod(q1, c);
    MulAddRegroup(q2, c, r2, b, r1);
    DigitAppendBound(r2, c, b, r1);
    assert c * b == b * c;
    DivOfSplit(q2, b * c, r2 * b + r1);
  }
}
