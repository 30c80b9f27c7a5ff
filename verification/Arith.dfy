/** The few facts of non-linear arithmetic that flat image arrays need. */
module Arith {
  lemma {:induction false} MulMonotone(a: nat, b: nat, w: nat)
    requires a <= b
    ensures a * w <= b * w
  {
    MulNonNegative(b - a, w);
    assert b * w == a * w + (b - a) * w;
  }

  lemma MulNonNegative(a: nat, w: nat)
    ensures 0 <= a * w
  {
  }

  lemma MulStep(y: nat, w: nat)
    ensures (y + 1) * w == y * w + w
  {
  }

  /** Row y of an image with h rows of w pixels lies inside its h * w pixels. */
  lemma RowBounds(y: nat, h: nat, w: nat)
    requires y < h
    ensures 0 <= y * w <= (y + 1) * w <= h * w
    ensures (y + 1) * w == y * w + w
  {
    MulStep(y, w);
    MulNonNegative(y, w);
    MulMonotone(y + 1, h, w);
  }

  /** Scaling 0..m down to 0..255 stays in range. */
  lemma ScaledBound(s: nat, m: nat)
    requires 0 < m && s <= m
    ensures 0 <= s * 255 / m <= 255
  {
    var q := s * 255 / m;
    assert s * 255 == q * m + s * 255 % m;
    if q >= 256 {
      MulMonotone(256, q, m);
    }
  }

  /** Quotient and remainder are the only ones. */
  lemma DivModIs(a: int, q: int, r: int, d: int)
    requires d > 0 && 0 <= r < d && a == q * d + r
    ensures a / d == q && a % d == r
  {
    var p, t := a / d, a % d;
    assert a == p * d + t;
    assert (q - p) * d == q * d - p * d && (p - q) * d == p * d - q * d;
    if q > p {
      MulMonotone(1, q - p, d);
    } else if p > q {
      MulMonotone(1, p - q, d);
    }
  }

  lemma QuotientsAscend(a: nat, b: nat, d: nat)
    requires d > 0 && a <= b
    ensures a / d <= b / d
  {
    var p, q := a / d, b / d;
    assert a == p * d + a % d && b == q * d + b % d;
    assert (p - q) * d == p * d - q * d;
    if p > q {
      MulMonotone(1, p - q, d);
    }
  }
}
