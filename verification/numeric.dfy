/** JavaScript number operations the analytics code relies on, stated over `real`:
    `Math.floor`, `Math.ceil`, `Math.round`, `Math.min`/`Math.max`, `toFixed(k)` read
    back with unary `+`, and the running sums written with `reduce`. */
module Numeric {

  function Abs(x: real): (r: real)
    ensures r >= 0.0
    ensures r == x || r == -x
  {
    if x < 0.0 then -x else x
  }

  function Min(a: real, b: real): (r: real)
    ensures r <= a && r <= b
    ensures r == a || r == b
  {
    if a <= b then a else b
  }

  function Max(a: real, b: real): (r: real)
    ensures r >= a && r >= b
    ensures r == a || r == b
  {
    if a >= b then a else b
  }

  /** `Math.floor` */
  function Floor(x: real): (r: int)
    ensures r as real <= x < r as real + 1.0
  {
    x.Floor
  }

  /** `Math.ceil`: the least integer not below `x`. */
  function Ceil(x: real): (r: int)
    ensures x <= r as real < x + 1.0
  {
    -((-x).Floor)
  }

  /** `Math.round`: nearest integer, halves rounded toward +infinity. */
  function Round(x: real): (r: int)
    ensures x - 0.5 < r as real <= x + 0.5
  {
    (x + 0.5).Floor
  }

  /** `10^k`, the scale of the `k`-th decimal place. */
  function Pow10(k: nat): (r: real)
    ensures r >= 1.0
  {
    if k == 0 then 1.0 else 10.0 * Pow10(k - 1)
  }

  /** Half of one unit in the k-th decimal place: the largest error of `ToFixed(_, k)`. */
  function HalfUlp(k: nat): (r: real)
    ensures 0.0 < r <= 0.5
  {
    0.5 / Pow10(k)
  }

  /** A non-negative number counted in units of the `k`-th decimal place, halves rounded up. */
  function Units(x: real, k: nat): (n: int)
    requires x >= 0.0
    ensures n >= 0
    ensures x * Pow10(k) - 0.5 < n as real <= x * Pow10(k) + 0.5
  {
    MulLe(0.0, x, Pow10(k));
    (x * Pow10(k) + 0.5).Floor
  }

  lemma FloorMonotone(a: real, b: real)
    requires a <= b
    ensures a.Floor <= b.Floor
  {
  }

  /** `x` is a whole number of units of the `k`-th decimal place: the numbers
      `toFixed(k)` can print. */
  predicate OnGrid(x: real, k: nat)
  {
    (x * Pow10(k)).Floor as real == x * Pow10(k)
  }

  /** Rounds a non-negative number to `k` decimals, halves rounded up. */
  function RoundUpHalf(x: real, k: nat): (r: real)
    requires x >= 0.0
    ensures r >= 0.0
    ensures Abs(r - x) <= HalfUlp(k)
    ensures x - HalfUlp(k) < r
    ensures OnGrid(r, k)
  {
    var scale := Pow10(k);
    var n := Units(x, k);
    ScaledError(x, scale, n);
    DivLe(0.0, n as real, scale);
    UnitsOnGrid(n, k);
    n as real / scale
  }

  /** A whole number of units, read as a number, lies on the grid. */
  lemma UnitsOnGrid(n: int, k: nat)
    ensures OnGrid(n as real / Pow10(k), k)
  {
    var scale := Pow10(k);
    assert (n as real / scale) * scale == n as real;
  }

  /** The grid is symmetric about zero. */
  lemma NegOnGrid(x: real, k: nat)
    requires OnGrid(x, k)
    ensures OnGrid(-x, k)
  {
    var n := (x * Pow10(k)).Floor;
    assert (-x) * Pow10(k) == (-n) as real;
  }


  /** `+x.toFixed(k)`: `x` rounded to `k` decimals, halves rounded away from zero
      (the sign is split off first, as the number-to-string conversion does). */
  function ToFixed(x: real, k: nat): (r: real)
    ensures OnGrid(r, k)
    ensures Abs(r - x) <= HalfUlp(k)
    ensures Abs(r - x) == HalfUlp(k) ==> Abs(r) > Abs(x)
    ensures x >= 0.0 ==> r >= 0.0
    ensures x <= 0.0 ==> r <= 0.0
  {
    if x >= 0.0 then RoundUpHalf(x, k)
    else
      var m := RoundUpHalf(-x, k);
      NegOnGrid(m, k);
      -m
  }

  /** `ToFixed(x, 1)` of a non-negative number, given its value in tenths. */
  lemma ToFixedTenths(x: real, tenths: int)
    requires x >= 0.0
    requires tenths as real - 0.5 <= x * 10.0 < tenths as real + 0.5
    ensures ToFixed(x, 1) == tenths as real / 10.0
  {
    assert Pow10(1) == 10.0;
    assert Units(x, 1) == tenths;
  }

  /** Rounding to `k` decimals never reverses the order of two numbers. */
  lemma ToFixedMonotone(x: real, y: real, k: nat)
    requires x <= y
    ensures ToFixed(x, k) <= ToFixed(y, k)
  {
    if 0.0 <= x {
      RoundUpHalfMonotone(x, y, k);
    } else if y < 0.0 {
      RoundUpHalfMonotone(-y, -x, k);
    }
  }

  lemma RoundUpHalfMonotone(x: real, y: real, k: nat)
    requires 0.0 <= x <= y
    ensures RoundUpHalf(x, k) <= RoundUpHalf(y, k)
  {
    var scale := Pow10(k);
    MulLe(x, y, scale);
    var a := x * scale + 0.5;
    var b := y * scale + 0.5;
    FloorMonotone(a, b);
    assert Units(x, k) == a.Floor;
    assert Units(y, k) == b.Floor;
    DivLe(a.Floor as real, b.Floor as real, scale);
  }

  /** Dividing the rounding error of a scaled value by the scale. */
  lemma ScaledError(x: real, scale: real, n: int)
    requires scale >= 1.0
    requires x * scale - 0.5 < n as real <= x * scale + 0.5
    ensures Abs(n as real / scale - x) <= 0.5 / scale
    ensures x - 0.5 / scale < n as real / scale
  {
    var e := n as real - x * scale;
    assert n as real / scale - x == e / scale;
    if e >= 0.0 {
      DivLe(e, 0.5, scale);
    } else {
      DivLe(-e, 0.5, scale);
      DivLt(-e, 0.5, scale);
      assert -e / scale == -(e / scale);
    }
  }

  lemma MulLe(a: real, b: real, c: real)
    requires a <= b && c >= 0.0
    ensures a * c <= b * c
  {
  }

  lemma MulLt(a: real, b: real, c: real)
    requires a < b && c > 0.0
    ensures a * c < b * c
  {
  }

  lemma DivLt(a: real, b: real, c: real)
    requires a < b && c > 0.0
    ensures a / c < b / c
  {
  }

  lemma DivLe(a: real, b: real, c: real)
    requires a <= b && c > 0.0
    ensures a / c <= b / c
  {
  }

  lemma DivMul(a: real, x: real)
    requires x > 0.0
    ensures (a / x) * x == a
  {
  }

  lemma DivSelf(x: real)
    requires x > 0.0
    ensures x / x == 1.0
  {
  }

  lemma DivNonNegative(a: real, x: real)
    requires x > 0.0 && a >= 0.0
    ensures a / x >= 0.0
  {
  }

  lemma DivPositive(a: real, x: real)
    requires x > 0.0 && a > 0.0
    ensures a / x > 0.0
  {
  }

  lemma DivNonNegativeOrZero(a: real, x: real)
    requires x > 0.0
    ensures a >= 0.0 ==> a / x >= 0.0
    ensures a == 0.0 ==> a / x == 0.0
  {
  }

  /** A product of non-negative factors grows with each factor. */
  lemma ProductMonotone(a1: real, b1: real, a2: real, b2: real)
    requires 0.0 <= a1 <= a2 && 0.0 <= b1 <= b2
    ensures 0.0 <= a1 * b1 <= a2 * b2
  {
    MulLe(a1, a2, b1);
    MulLe(b1, b2, a2);
  }

  lemma MulPositive(a: real, b: real)
    requires a > 0.0 && b > 0.0
    ensures a * b > 0.0
  {
  }

  lemma CeilMonotone(a: real, b: real)
    requires a <= b
    ensures Ceil(a) <= Ceil(b)
  {
    FloorMonotone(-b, -a);
  }

  lemma CeilDivMonotone(a: real, b: real, c: real)
    requires a <= b && c > 0.0
    ensures Ceil(a / c) <= Ceil(b / c)
  {
    DivLe(a, b, c);
    CeilMonotone(a / c, b / c);
  }

  lemma MulNonNegative(a: real, b: real)
    ensures a >= 0.0 && b >= 0.0 ==> a * b >= 0.0
  {
  }

  /** Dividing a positive number by a larger divisor gives less. */
  lemma DivDecreasing(a: real, x: real, y: real)
    requires a > 0.0 && 0.0 < x < y
    ensures a / x > a / y
  {
    DivMul(a, x);
    DivMul(a, y);
    if a / x <= a / y {
      MulLe(a / x, a / y, x);
      MulLt(x, y, a / y);
    }
  }

  lemma DivMulSwap(s: real, t: real, c: real)
    requires t > 0.0
    ensures (s / t) * c == s * (c / t)
  {
  }

  lemma MulDivCancel(t: real, c: real)
    requires t > 0.0
    ensures t * (c / t) == c
  {
  }

  /** A share `m / (n * m)` of `c` is `c / n`. */
  lemma EvenShare(n: real, m: real, c: real, total: real)
    requires n >= 1.0 && m > 0.0 && total == n * m
    ensures total > 0.0
    ensures (m / total) * c == c / n
  {
    MulLe(1.0, n, m);
  }

  /** `Near` adds up along a chain. */
  lemma NearTrans(a: real, b: real, c: real, e1: real, e2: real)
    requires Near(a, b, e1) && Near(b, c, e2)
    ensures Near(a, c, e1 + e2)
  {
  }

  lemma DivAtMostOne(a: real, x: real)
    requires x > 0.0 && a <= x
    ensures a / x <= 1.0
  {
    DivLe(a, x, x);
    assert x / x == 1.0;
  }

  /** The first index holding the largest value: the loop that keeps the current best
      and replaces it only on a strictly larger value. */
  function ArgMax(xs: seq<real>): (m: nat)
    requires |xs| >= 1
    ensures m < |xs|
    ensures forall j :: 0 <= j < |xs| ==> xs[j] <= xs[m]
    ensures forall j :: 0 <= j < m ==> xs[j] < xs[m]
  {
    if |xs| == 1 then 0
    else
      var best := ArgMax(xs[..|xs| - 1]);
      if xs[|xs| - 1] > xs[best] then |xs| - 1 else best
  }

  /** `xs.reduce((s, v) => s + v, 0)` */
  function Sum(xs: seq<real>): real
  {
    if |xs| == 0 then 0.0 else Sum(xs[..|xs| - 1]) + xs[|xs| - 1]
  }

  /** Scaling every term scales the sum. */
  lemma {:induction false} SumScale(xs: seq<real>, ys: seq<real>, c: real)
    requires |xs| == |ys|
    requires forall i :: 0 <= i < |xs| ==> ys[i] == xs[i] * c
    ensures Sum(ys) == Sum(xs) * c
  {
    if |xs| > 0 {
      SumScale(xs[..|xs| - 1], ys[..|ys| - 1], c);
    }
  }

  /** `y` lies within `tol` of `x`. */
  predicate Near(x: real, y: real, tol: real)
  {
    x - tol <= y <= x + tol
  }

  /** Termwise errors of at most `e` add up to an error of at most `|xs| * e`. */
  lemma {:induction false} SumClose(xs: seq<real>, ys: seq<real>, e: real)
    requires |xs| == |ys|
    requires forall i :: 0 <= i < |xs| ==> -e <= xs[i] - ys[i] <= e
    ensures Near(Sum(xs), Sum(ys), |xs| as real * e)
  {
    if |xs| > 0 {
      var n := |xs| - 1;
      var front, back := xs[..n], ys[..n];
      forall i | 0 <= i < n
        ensures -e <= front[i] - back[i] <= e
      {
        assert front[i] == xs[i] && back[i] == ys[i];
      }
      SumClose(front, back, e);
      AddBounds(Sum(front) - Sum(back), xs[n] - ys[n], n as real, e);
      assert |xs| as real == n as real + 1.0;
    }
  }

  lemma AddBounds(d: real, x: real, n: real, e: real)
    requires -(n * e) <= d <= n * e
    requires -e <= x <= e
    ensures -((n + 1.0) * e) <= d + x <= (n + 1.0) * e
  {
  }

  /** A sum of `n` copies of `c`. */
  lemma {:induction false} SumConstant(xs: seq<real>, c: real)
    requires forall i :: 0 <= i < |xs| ==> xs[i] == c
    ensures Sum(xs) == |xs| as real * c
  {
    if |xs| > 0 {
      SumConstant(xs[..|xs| - 1], c);
    }
  }

  /** A sum of terms each at least `c`. */
  lemma {:induction false} SumAtLeast(xs: seq<real>, c: real)
    requires forall i :: 0 <= i < |xs| ==> xs[i] >= c
    ensures Sum(xs) >= |xs| as real * c
  {
    if |xs| > 0 {
      SumAtLeast(xs[..|xs| - 1], c);
    }
  }

  /** The characterisation of `Math.ceil(a / b)` for a positive divisor: the least
      integer whose multiple of `b` reaches `a`. */
  lemma CeilDivLeast(a: real, b: real)
    requires b > 0.0
    ensures Ceil(a / b) as real * b >= a
    ensures (Ceil(a / b) - 1) as real * b < a
  {
    var c := Ceil(a / b);
    BelowQuotient((c - 1) as real, a, b);
    AboveQuotient(c as real, a, b);
  }

  lemma BelowQuotient(p: real, a: real, b: real)
    requires b > 0.0
    ensures p < a / b ==> p * b < a
  {
    if p < a / b {
      var q := a / b;
      assert q * b == a;
      MulLt(p, q, b);
    }
  }

  lemma AboveQuotient(p: real, a: real, b: real)
    requires b > 0.0
    ensures p >= a / b ==> p * b >= a
  {
    if p >= a / b {
      var q := a / b;
      assert q * b == a;
      MulLe(q, p, b);
    }
  }

  /** Decimal to string conversion of a natural number (as template literals render it). */
  function NatToString(n: nat): (s: string)
    ensures |s| >= 1
    ensures forall i :: 0 <= i < |s| ==> '0' <= s[i] <= '9'
  {
    if n < 10 then [Digit(n)] else NatToString(n / 10) + [Digit(n % 10)]
  }

  function Digit(d: nat): (c: char)
    requires d < 10
    ensures '0' <= c <= '9'
    ensures DigitValue(c) == d
  {
    ('0' as int + d) as char
  }

  function DigitValue(c: char): (d: nat)
    requires '0' <= c <= '9'
    ensures d < 10
  {
    c as int - '0' as int
  }

  /** Reading a string of decimal digits back as a number. */
  function ParseNat(s: string): nat
    requires forall i :: 0 <= i < |s| ==> '0' <= s[i] <= '9'
  {
    if |s| == 0 then 0 else ParseNat(s[..|s| - 1]) * 10 + DigitValue(s[|s| - 1])
  }

  /** The decimal rendering reads back as the number it renders. */
  lemma {:induction false} ParseNatToString(n: nat)
    ensures ParseNat(NatToString(n)) == n
  {
    if n >= 10 {
      ParseNatToString(n / 10);
      var s := NatToString(n);
      assert s[..|s| - 1] == NatToString(n / 10);
    }
  }

  /** Distinct numbers render distinctly. */
  lemma NatToStringInjective(a: nat, b: nat)
    requires NatToString(a) == NatToString(b)
    ensures a == b
  {
    ParseNatToString(a);
    ParseNatToString(b);
  }
}
