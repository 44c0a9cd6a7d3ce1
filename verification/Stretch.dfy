/** The stretch of one half-axis, with the factor as an exact fraction and Python's half-even rounding. */
module Stretch {

  /** `numerator / denominator`, at least 1. */
  datatype Fraction = Fraction(numerator: int, denominator: int)
  type Factor = f: Fraction | f.numerator >= f.denominator >= 1 witness Fraction(1, 1)

  function RoundHalfEven(n: int, d: int): int
    requires d >= 1
  {
    var q, r := n / d, n % d;
    if 2 * r < d then q
    else if 2 * r > d then q + 1
    else if q % 2 == 0 then q else q + 1
  }

  /** The result is a nearest integer to n/d, and the even one of two equally near. */
  lemma RoundsToNearest(n: int, d: int)
    requires d >= 1
    ensures var k := RoundHalfEven(n, d);
      && -d <= 2 * (n - k * d) <= d
      && (2 * (n - k * d) == d || 2 * (n - k * d) == -d ==> k % 2 == 0)
  {
    var q, r := n / d, n % d;
    assert n == q * d + r;
    assert (q + 1) * d == q * d + d;
  }

  lemma AtLeastOnce(e: int, d: int)
    requires d >= 0
    ensures e >= 1 ==> e * d >= d
    ensures e <= -1 ==> e * d <= -d
  {
    if e >= 1 {
      assert e * d == (e - 1) * d + d;
    } else if e <= -1 {
      assert e * d == (e + 1) * d - d;
    }
  }

  lemma DivUnique(n: int, d: int, q: int, r: int)
    requires 0 <= r < d && n == q * d + r
    ensures n / d == q && n % d == r
  {
    var e := n / d - q;
    assert n / d * d + n % d == q * d + r;
    assert e * d == r - n % d by {
      assert e * d == n / d * d - q * d;
    }
    AtLeastOnce(e, d);
  }

  lemma RoundsWholeExactly(k: int, d: int)
    requires d >= 1
    ensures RoundHalfEven(k * d, d) == k
  {
    DivUnique(k * d, d, k, 0);
  }

  lemma Quotients(m: int, n: int, d: int)
    requires d >= 1 && m <= n
    ensures m / d <= n / d
    ensures m / d == n / d ==> n % d - m % d == n - m
    ensures m / d + 1 == n / d ==> n % d - m % d == n - m - d
    ensures m + d <= n ==> m / d < n / d
  {
    var e := n / d - m / d;
    assert n - m == e * d + n % d - m % d by {
      assert n == n / d * d + n % d && m == m / d * d + m % d;
      assert e * d == n / d * d - m / d * d;
    }
    AtLeastOnce(e, d);
  }

  /** Rounding never reorders, and numbers more than one apart round to different integers. */
  lemma RoundMonotone(m: int, n: int, d: int)
    requires d >= 1 && m <= n
    ensures RoundHalfEven(m, d) <= RoundHalfEven(n, d)
    ensures m + d < n ==> RoundHalfEven(m, d) < RoundHalfEven(n, d)
  {
    Quotients(m, n, d);
  }

  /** _spread_scale: 1, or the factor that puts the farthest step exactly at the edge of the room. */
  function SpreadScale(farthest: int, room: int): Factor {
    if farthest <= 0 || room <= farthest then Fraction(1, 1) else Fraction(room, farthest)
  }

  function Stretched(step: nat, f: Factor): int {
    RoundHalfEven(step * f.numerator, f.denominator)
  }

  lemma Scaling(s: int, t: int, f: Factor)
    requires s < t
    ensures s * f.numerator + f.numerator <= t * f.numerator
  {
    AtLeastOnce(t - s, f.numerator);
    assert t * f.numerator == s * f.numerator + (t - s) * f.numerator;
  }

  /** Distinct steps of one half-axis stay distinct and keep their order. */
  lemma StretchKeepsOrder(s: nat, t: nat, f: Factor)
    requires s < t
    ensures Stretched(s, f) < Stretched(t, f)
  {
    Scaling(s, t, f);
    if f.numerator > f.denominator {
      RoundMonotone(s * f.numerator, t * f.numerator, f.denominator);
    } else {
      RoundsWholeExactly(s, f.denominator);
      RoundsWholeExactly(t, f.denominator);
    }
  }

  /** No step shrinks; zero stays zero. */
  lemma StretchNeverShrinks(s: nat, f: Factor)
    ensures Stretched(s, f) >= s
    ensures Stretched(0, f) == 0
  {
    assert s * f.denominator <= s * f.numerator by {
      assert s * (f.numerator - f.denominator) >= 0;
    }
    RoundMonotone(s * f.denominator, s * f.numerator, f.denominator);
    RoundsWholeExactly(s, f.denominator);
    RoundsWholeExactly(0, f.denominator);
  }

  /** A stretched half-axis ends exactly at its room; an axis with no room to spare keeps its steps. */
  lemma StretchFits(s: nat, farthest: int, room: int)
    requires s <= farthest
    ensures farthest <= room ==> Stretched(s, SpreadScale(farthest, room)) <= room
    ensures 0 < farthest <= room ==> Stretched(farthest, SpreadScale(farthest, room)) == room
    ensures room <= farthest ==> Stretched(s, SpreadScale(farthest, room)) == s
  {
    var f := SpreadScale(farthest, room);
    if farthest <= 0 || room <= farthest {
      RoundsWholeExactly(s, 1);
      RoundsWholeExactly(farthest, 1);
    } else {
      RoundsWholeExactly(room, farthest);
      assert farthest * room == room * farthest;
      assert s * room <= farthest * room by {
        assert (farthest - s) * room >= 0;
      }
      RoundMonotone(s * room, farthest * room, farthest);
    }
  }
}
