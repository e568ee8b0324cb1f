/** The few engine maths helpers the generator calls, written out with the
    behaviour the engine documents for them. */
module Mathf {

  /** `b` raised to the `n`-th power. */
  function Pow(b: real, n: nat): real
  {
    if n == 0 then 1.0 else Pow(b, n - 1) * b
  }

  /** `v` clamped into [0, 1]. */
  function Clamp01(v: real): (r: real)
    ensures 0.0 <= r <= 1.0
    ensures 0.0 <= v <= 1.0 ==> r == v
    ensures v < 0.0 ==> r == 0.0
    ensures v > 1.0 ==> r == 1.0
  {
    if v < 0.0 then 0.0 else if v > 1.0 then 1.0 else v
  }

  /** Where `v` lies between `a` and `b`, as a fraction clamped into [0, 1];
      0 when the two ends coincide. */
  function InverseLerp(a: real, b: real, v: real): (r: real)
    ensures 0.0 <= r <= 1.0
    ensures a == b ==> r == 0.0
    ensures a != b && v == a ==> r == 0.0
    ensures a != b && v == b ==> r == 1.0
    ensures a < b && a <= v <= b ==> r * (b - a) == v - a
    ensures a < b && v <= a ==> r == 0.0
    ensures a < b && b <= v ==> r == 1.0
    ensures b < a && v <= b ==> r == 1.0
    ensures b < a && a <= v ==> r == 0.0
  {
    if a != b then
      var q := (v - a) / (b - a);
      QuotientFacts(v - a, b - a);
      Clamp01(q)
    else 0.0
  }

  /** Sign and scaling facts about `n / d` that the solver does not find alone. */
  lemma QuotientFacts(n: real, d: real)
    requires d != 0.0
    ensures (n / d) * d == n
    ensures n == 0.0 ==> n / d == 0.0
    ensures n == d ==> n / d == 1.0
    ensures d > 0.0 && n <= 0.0 ==> n / d <= 0.0
    ensures d > 0.0 && n >= d ==> n / d >= 1.0
    ensures d > 0.0 && 0.0 <= n <= d ==> 0.0 <= n / d <= 1.0
    ensures d < 0.0 && n <= d ==> n / d >= 1.0
    ensures d < 0.0 && n >= 0.0 ==> n / d <= 0.0
  {
    var q := n / d;
    assert q * d == n;
    if d > 0.0 {
      assert q > 0.0 ==> q * d > 0.0;
      assert q < 1.0 ==> q * d < d;
      assert q < 0.0 ==> q * d < 0.0;
      assert q > 1.0 ==> q * d > d;
    } else {
      assert q < 1.0 ==> q * d > d;
      assert q > 0.0 ==> q * d < 0.0;
    }
  }

  /** With increasing ends, `InverseLerp` never reverses the order of two values. */
  lemma InverseLerpMonotone(a: real, b: real, u: real, v: real)
    requires a < b && u <= v
    ensures InverseLerp(a, b, u) <= InverseLerp(a, b, v)
  {
    var d := b - a;
    var p := (u - a) / d;
    var q := (v - a) / d;
    QuotientFacts(u - a, d);
    QuotientFacts(v - a, d);
    ScaledOrder(p, q, d);
    assert InverseLerp(a, b, u) == Clamp01(p);
    assert InverseLerp(a, b, v) == Clamp01(q);
    Clamp01Monotone(p, q);
  }

  /** Dividing out a positive factor keeps the order. */
  lemma ScaledOrder(p: real, q: real, d: real)
    requires d > 0.0 && p * d <= q * d
    ensures p <= q
  {
    assert (q - p) * d == q * d - p * d;
    assert q - p < 0.0 ==> (q - p) * d < 0.0;
  }

  /** Clamping keeps the order of two values. */
  lemma Clamp01Monotone(p: real, q: real)
    requires p <= q
    ensures Clamp01(p) <= Clamp01(q)
  {
  }
}
