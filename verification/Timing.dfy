/** Time bases, and the comparison and rescaling of timestamps (libavutil/mathematics.c). */
module Timing {

  /** A time base: one tick lasts num/den seconds. */
  datatype Rational = Rational(num: int, den: int)
  {
    ghost predicate Positive() { num > 0 && den > 0 }
  }

  type TimeBase = q: Rational | q.Positive() witness Rational(1, 1)

  /** The moment of timestamp `ts`, in seconds. */
  function Seconds(ts: int, tb: TimeBase): real { (ts * tb.num) as real / tb.den as real }

  /** av_compare_ts: the sign of ts_a * tb_a - ts_b * tb_b. */
  function CompareTs(tsA: int, tbA: TimeBase, tsB: int, tbB: TimeBase): int
  {
    var a := tsA * (tbA.num * tbB.den);
    var b := tsB * (tbB.num * tbA.den);
    if a > b then 1 else if a < b then -1 else 0
  }

  /** Rounded division, halves away from zero (AV_ROUND_NEAR_INF). */
  function DivideNear(n: int, c: int): int
    requires c > 0
  {
    if n < 0 then -((-n + c / 2) / c) else (n + c / 2) / c
  }

  /** av_rescale_q: from ticks of `from` to ticks of `to`. */
  function Rescale(ts: int, from: TimeBase, to: TimeBase): int
  {
    var b, c := from.num * to.den, to.num * from.den;
    assert c > 0;
    DivideNear(ts * b, c)
  }

  lemma DivideNearError(n: int, c: int)
    requires c > 0
    ensures -c <= 2 * (c * DivideNear(n, c) - n) <= c
  {
    var m := if n < 0 then -n else n;
    var q := (m + c / 2) / c;
    assert c * q <= m + c / 2 < c * q + c;
    if n < 0 { assert c * -q == -(c * q); }
  }

  /** Of two nearest multiples the one farther from zero is taken. */
  lemma HalvesAwayFromZero(n: int, c: int)
    requires c > 0 && (2 * (c * DivideNear(n, c) - n) == c || 2 * (n - c * DivideNear(n, c)) == c)
    ensures if n >= 0 then c * DivideNear(n, c) > n else c * DivideNear(n, c) < n
  {
    var m := if n < 0 then -n else n;
    var q := (m + c / 2) / c;
    assert c * q <= m + c / 2 < c * q + c;
    if n < 0 { assert c * -q == -(c * q); }
  }

  lemma DivideNearMonotone(m: int, n: int, c: int)
    requires c > 0 && m <= n
    ensures DivideNear(m, c) <= DivideNear(n, c)
  {
    if 0 <= m {
      DivMonotone(m + c / 2, n + c / 2, c);
    } else if n < 0 {
      DivMonotone(-n + c / 2, -m + c / 2, c);
    }
  }

  lemma DivMonotone(m: int, n: int, c: int)
    requires c > 0 && m <= n
    ensures m / c <= n / c
  {
    var a, b := m / c, n / c;
    assert c * a <= m <= n < c * b + c;
    FactorBelowOne(c, a - b);
  }

  lemma FactorBelowOne(c: int, k: int)
    requires c > 0 && c * k < c
    ensures k < 1
  {
  }

  /** Rescaling keeps the order of timestamps. */
  lemma RescaleMonotone(s: int, t: int, from: TimeBase, to: TimeBase)
    requires s <= t
    ensures Rescale(s, from, to) <= Rescale(t, from, to)
  {
    var b := from.num * to.den;
    assert b > 0;
    assert s * b <= t * b;
    DivideNearMonotone(s * b, t * b, to.num * from.den);
  }

  /** Cross-multiplied comparison is the comparison of moments. */
  lemma CompareIsByTime(tsA: int, tbA: TimeBase, tsB: int, tbB: TimeBase)
    ensures CompareTs(tsA, tbA, tsB, tbB) <= 0 <==> Seconds(tsA, tbA) <= Seconds(tsB, tbB)
    ensures CompareTs(tsA, tbA, tsB, tbB) >= 0 <==> Seconds(tsA, tbA) >= Seconds(tsB, tbB)
    ensures -1 <= CompareTs(tsA, tbA, tsB, tbB) <= 1
  {
    var p, q := tsA * tbA.num, tsB * tbB.num;
    var x, y := Seconds(tsA, tbA), Seconds(tsB, tbB);
    var dA, dB := tbA.den as real, tbB.den as real;
    assert tsA * (tbA.num * tbB.den) == p * tbB.den;
    assert tsB * (tbB.num * tbA.den) == q * tbA.den;
    assert x * dA == p as real && y * dB == q as real;
    assert (p * tbB.den) as real == x * dA * dB;
    assert (q * tbA.den) as real == y * dB * dA;
    ScaledOrder(x, y, dA * dB);
    ScaledOrder(y, x, dA * dB);
  }

  lemma ScaledOrder(x: real, y: real, d: real)
    requires d > 0.0
    ensures x <= y <==> x * d <= y * d
  {
    if x <= y { assert (y - x) * d >= 0.0; } else { assert (x - y) * d > 0.0; }
  }

  /** Half a tick, in seconds. */
  function HalfTick(tb: TimeBase): real { Seconds(1, tb) / 2.0 }

  /** A rescaled timestamp stands for the same moment, up to half a tick of the new time base. */
  lemma RescaleIsNear(ts: int, from: TimeBase, to: TimeBase)
    ensures -HalfTick(to) <= Seconds(Rescale(ts, from, to), to) - Seconds(ts, from) <= HalfTick(to)
  {
    var n, k, c := ts * (from.num * to.den), Rescale(ts, from, to), to.num * from.den;
    var d := from.den as real * to.den as real;
    assert c > 0 && d > 0.0;
    DivideNearError(n, c);
    OverProduct(ts, from, to, d);
    OverProduct(k, to, from, d);
    OverProduct(1, to, from, d);
    assert k * c == c * k;
    ScaledNear(Seconds(ts, from), Seconds(k, to), HalfTick(to), d, n, k * c, c);
  }

  lemma OverProduct(ts: int, tb: TimeBase, other: TimeBase, d: real)
    requires d == tb.den as real * other.den as real || d == other.den as real * tb.den as real
    ensures Seconds(ts, tb) * d == (ts * (tb.num * other.den)) as real
  {
    var n, s := ts * tb.num, Seconds(ts, tb);
    assert s * tb.den as real == n as real;
    assert s * d == s * tb.den as real * other.den as real;
    assert ts * (tb.num * other.den) == n * other.den;
  }

  lemma ScaledNear(x: real, y: real, h: real, d: real, n: int, m: int, c: int)
    requires d > 0.0 && x * d == n as real && y * d == m as real && 2.0 * h * d == c as real
    requires -c <= 2 * (m - n) <= c
    ensures -h <= y - x <= h
  {
    ScaledOrder(y, x + h, d);
    ScaledOrder(x, y + h, d);
  }
}
