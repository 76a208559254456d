/** The experiment facade of berreman4x4: the incident-light description
    (Jones and Stokes vectors, each derived from the other) and the choice of
    solver by name.  Complex numbers are pairs of exact reals; numpy's square
    root is an uninterpreted oracle `sqrt`, and `IsSqrt(sqrt)` is assumed only
    by the lemmas that need the true root. */
module Berreman {
  import opened Common

  datatype Complex = Complex(re: real, im: real)

  function OfReal(r: real): Complex
  {
    Complex(r, 0.0)
  }

  function Mul(x: Complex, y: Complex): Complex
  {
    Complex(x.re * y.re - x.im * y.im, x.re * y.im + x.im * y.re)
  }

  function Conj(x: Complex): Complex
  {
    Complex(x.re, -x.im)
  }

  /** |x|^2 */
  function AbsSq(x: Complex): real
  {
    x.re * x.re + x.im * x.im
  }

  /** `sqrt` is the true square root on the non-negative reals. */
  ghost predicate IsSqrt(sqrt: real -> real)
  {
    forall x :: 0.0 <= x ==> 0.0 <= sqrt(x) && sqrt(x) * sqrt(x) == x
  }

  /** `np.asarray(vector)`: a one-dimensional array, or an array of any other
      shape (`None` becomes the 0-dimensional array, shape ()). */
  datatype NumArray = Vector(items: seq<Complex>) | OtherShape(shape: seq<nat>)

  /** The value held by the `jonesVector` / `stokesVector` attribute:
      `None`, an array, or an array numpy filled with inf/NaN after a
      division by zero. */
  datatype Slot = Unset | Value(items: seq<Complex>) | NonFinite

  function Reals(s: seq<real>): (r: seq<Complex>)
    ensures |r| == |s| && forall k :: 0 <= k < |s| ==> r[k] == OfReal(s[k])
  {
    seq(|s|, k requires 0 <= k < |s| => OfReal(s[k]))
  }

  // ---------------------------------------------------------------------------
  // Jones -> Stokes

  /** The Stokes vector setVector derives from a Jones vector [a, b]. */
  function StokesOfJones(a: Complex, b: Complex): (s: seq<real>)
    ensures |s| == 4
  {
    var c := Mul(a, Conj(b));
    [AbsSq(a) + AbsSq(b), AbsSq(a) - AbsSq(b), 2.0 * c.re, -2.0 * c.im]
  }

  /** |x|^2 >= 0, with equality exactly at zero. */
  lemma AbsSqNonNegative(x: Complex)
    ensures AbsSq(x) >= 0.0
    ensures AbsSq(x) == 0.0 <==> x.re == 0.0 && x.im == 0.0
  {
    var m, n := x.re * x.re, x.im * x.im;
    SquareSign(x.re, m);
    SquareSign(x.im, n);
    assert AbsSq(x) == m + n;
  }

  // The sign facts about products below are each stated about a name `m`
  // for the product, so that callers can reason about that name linearly.

  /** m == r^2 is non-negative, and positive exactly when r != 0. */
  lemma SquareSign(r: real, m: real)
    requires m == r * r
    ensures m >= 0.0 && (r != 0.0 <==> m > 0.0)
  {
    SquareNonNegative(r, m);
    ProductNonZero(r, r, m);
    ProductOfZero(r, r, m);
  }

  lemma SquareNonNegative(r: real, m: real)
    requires m == r * r
    ensures m >= 0.0
  {
  }

  lemma ProductNonZero(p: real, q: real, m: real)
    requires m == p * q
    ensures p != 0.0 && q != 0.0 ==> m != 0.0
  {
  }

  lemma ProductOfZero(p: real, q: real, m: real)
    requires m == p * q
    ensures p == 0.0 ==> m == 0.0
  {
  }

  /** |x y|^2 == |x|^2 |y|^2 */
  lemma AbsSqMul(x: Complex, y: Complex)
    ensures AbsSq(Mul(x, y)) == AbsSq(x) * AbsSq(y)
  {
    var p := Mul(x, y);
    calc {
      AbsSq(p);
      (x.re * y.re - x.im * y.im) * (x.re * y.re - x.im * y.im)
        + (x.re * y.im + x.im * y.re) * (x.re * y.im + x.im * y.re);
      x.re * x.re * y.re * y.re + x.im * x.im * y.im * y.im
        + x.re * x.re * y.im * y.im + x.im * x.im * y.re * y.re;
      (x.re * x.re + x.im * x.im) * (y.re * y.re + y.im * y.im);
    }
  }

  /** A derived Stokes vector always describes fully polarized light:
      S0 >= 0 and S1^2 + S2^2 + S3^2 == S0^2. */
  lemma StokesOfJonesFullyPolarized(a: Complex, b: Complex)
    ensures var s := StokesOfJones(a, b);
      s[0] >= 0.0 && PolarizedSq(s[1], s[2], s[3]) == s[0] * s[0]
  {
  }

  /** The docstring examples, for any amplitude p: horizontal [p, 0] gives
      p^2 [1, 1, 0, 0] and vertical [0, p] gives p^2 [1, -1, 0, 0]. */
  lemma StokesOfJonesExamples(p: real)
    ensures StokesOfJones(OfReal(p), OfReal(0.0)) == [p * p, p * p, 0.0, 0.0]
    ensures StokesOfJones(OfReal(0.0), OfReal(p)) == [p * p, -(p * p), 0.0, 0.0]
  {
    StokesOfRealJones(p, 0.0);
    StokesOfRealJones(0.0, p);
  }

  /** Equal factors give equal products. */
  lemma Times(p: real, q: real, u: real, v: real)
    requires p == u && q == v
    ensures p * q == u * v
  {
  }

  /** A real Jones vector [p, q] is linearly polarized: its circular
      component S3 is zero. */
  lemma StokesOfRealJones(p: real, q: real)
    ensures StokesOfJones(OfReal(p), OfReal(q)) == [p * p + q * q, p * p - q * q, 2.0 * p * q, 0.0]
  {
    assert AbsSq(OfReal(p)) == p * p;
    assert AbsSq(OfReal(q)) == q * q;
    assert Mul(OfReal(p), Conj(OfReal(q))) == OfReal(p * q);
  }

  /** A Jones vector [p, i r] with a quarter-wave phase between its
      components: S2 is zero and S3 == 2 p r. */
  lemma StokesOfQuarterWave(p: real, r: real)
    ensures StokesOfJones(OfReal(p), Complex(0.0, r)) == [p * p + r * r, p * p - r * r, 0.0, 2.0 * p * r]
  {
    assert AbsSq(OfReal(p)) == p * p;
    assert AbsSq(Complex(0.0, r)) == r * r;
    assert Mul(OfReal(p), Conj(Complex(0.0, r))) == Complex(0.0, -p * r);
  }

  // ---------------------------------------------------------------------------
  // Stokes -> Jones

  /** Q^2 + U^2 + V^2: the squared intensity of the polarized part. */
  function PolarizedSq(q: real, u: real, v: real): real
  {
    q * q + u * u + v * v
  }

  /** The Jones vector setVector derives from a Stokes vector
      [s0, s1, s2, s3].  With p = sqrt(s1^2 + s2^2 + s3^2) / s0 the code
      normalises Q, U, V by s0 * p, which over exact reals is the root itself.
      numpy yields NaN when s0 == 0 (0 * inf) or when the polarized part is
      zero (0 / 0), and inf/NaN wherever the oracle root is zero.
      This is the derivation with the sign of V corrected (see
      JonesOfStokesAsWritten). */
  function JonesOfStokes(s0: real, s1: real, s2: real, s3: real, sqrt: real -> real): (j: Slot)
    ensures j.Value? ==> |j.items| == 2
  {
    var n2 := PolarizedSq(s1, s2, s3);
    if s0 == 0.0 || n2 == 0.0 then NonFinite
    else
      var r := sqrt(n2);
      if r == 0.0 then NonFinite
      else
        var q, u, v := s1 / r, s2 / r, s3 / r;
        if q == -1.0 then Value([OfReal(0.0), OfReal(1.0)])
        else
          var a := sqrt((1.0 + q) / 2.0);
          if a == 0.0 then NonFinite
          else Value([OfReal(a), Complex(u / (2.0 * a), v / (2.0 * a))])
  }

  /** The derivation as the source writes it: b = U/(2a) - iV/(2a). */
  function JonesOfStokesAsWritten(s0: real, s1: real, s2: real, s3: real, sqrt: real -> real): (j: Slot)
    ensures j.Value? ==> |j.items| == 2
  {
    var n2 := PolarizedSq(s1, s2, s3);
    if s0 == 0.0 || n2 == 0.0 then NonFinite
    else
      var r := sqrt(n2);
      if r == 0.0 then NonFinite
      else
        var q, u, v := s1 / r, s2 / r, s3 / r;
        if q == -1.0 then Value([OfReal(0.0), OfReal(1.0)])
        else
          var a := sqrt((1.0 + q) / 2.0);
          if a == 0.0 then NonFinite
          else Value([OfReal(a), Complex(u / (2.0 * a), -v / (2.0 * a))])
  }

  /** Two Jones vectors describe the same polarization state (they differ by a
      complex factor): x0 * y1 == x1 * y0. */
  predicate SameState(x0: Complex, x1: Complex, y0: Complex, y1: Complex)
  {
    Mul(x0, y1) == Mul(x1, y0)
  }

  /** The true root of t * t is t, for t >= 0. */
  lemma SqrtOfSquare(sqrt: real -> real, t: real, m: real)
    requires IsSqrt(sqrt)
    requires t >= 0.0 && m == t * t
    ensures sqrt(m) == t
  {
    SquareNonNegative(t, m);
    RootOfSquare(sqrt(m), t);
  }

  /** Non-negative numbers with equal squares are equal. */
  lemma RootOfSquare(r: real, t: real)
    requires r >= 0.0 && t >= 0.0 && r * r == t * t
    ensures r == t
  {
    var m := (r - t) * (r + t);
    assert m == r * r - t * t;
    ProductNonZero(r - t, r + t, m);
  }

  /** q == p / r means p == q * r. */
  lemma DivisionInverse(p: real, r: real, q: real)
    requires r != 0.0 && q == p / r
    ensures p == q * r
  {
  }

  /** Stokes input with s0 != 0: the code takes the singular "Q == -1" branch,
      and returns exactly [0, 1], if and only if the light is linearly
      polarized along the vertical axis (s1 < 0, s2 == s3 == 0). */
  lemma {:induction false} VerticalStokes(s0: real, s1: real, s2: real, s3: real, sqrt: real -> real)
    requires IsSqrt(sqrt)
    requires s0 != 0.0
    ensures (s1 < 0.0 && s2 == 0.0 && s3 == 0.0)
        <==> JonesOfStokes(s0, s1, s2, s3, sqrt) == Value([OfReal(0.0), OfReal(1.0)])
  {
    if s1 < 0.0 && s2 == 0.0 && s3 == 0.0 {
      VerticalStokesTaken(s0, s1, sqrt);
    }
    if JonesOfStokes(s0, s1, s2, s3, sqrt) == Value([OfReal(0.0), OfReal(1.0)]) {
      VerticalStokesOnly(s0, s1, s2, s3, sqrt);
    }
  }

  lemma VerticalStokesTaken(s0: real, s1: real, sqrt: real -> real)
    requires IsSqrt(sqrt)
    requires s0 != 0.0 && s1 < 0.0
    ensures JonesOfStokes(s0, s1, 0.0, 0.0, sqrt) == Value([OfReal(0.0), OfReal(1.0)])
  {
    var n2 := PolarizedSq(s1, 0.0, 0.0);
    SqrtOfSquare(sqrt, -s1, n2);
    ProductNonZero(s1, s1, n2);
    NegatedDivision(s1, sqrt(n2));
  }

  lemma NegatedDivision(p: real, r: real)
    requires p != 0.0 && r == -p
    ensures p / r == -1.0
  {
  }

  lemma VerticalStokesOnly(s0: real, s1: real, s2: real, s3: real, sqrt: real -> real)
    requires IsSqrt(sqrt)
    requires JonesOfStokes(s0, s1, s2, s3, sqrt) == Value([OfReal(0.0), OfReal(1.0)])
    ensures s1 < 0.0 && s2 == 0.0 && s3 == 0.0
  {
    var m1, m2, m3 := s1 * s1, s2 * s2, s3 * s3;
    SquareSign(s1, m1);
    SquareSign(s2, m2);
    SquareSign(s3, m3);
    var n2 := PolarizedSq(s1, s2, s3);
    assert n2 == m1 + m2 + m3;
    var r := sqrt(n2);
    assert n2 != 0.0 && r != 0.0;
    var q := s1 / r;
    assert q == -1.0;
    DivisionInverse(s1, r, q);
    assert s1 == -r && r > 0.0;
    assert m1 == r * r;
  }

  /** The docstring example: Stokes [1, -1, 0, 0] gives Jones [0, 1]. */
  lemma VerticalStokesExample(sqrt: real -> real)
    requires IsSqrt(sqrt)
    ensures JonesOfStokes(1.0, -1.0, 0.0, 0.0, sqrt) == Value([OfReal(0.0), OfReal(1.0)])
  {
    VerticalStokes(1.0, -1.0, 0.0, 0.0, sqrt);
  }

  /** The source's derivation does not invert its own Jones -> Stokes map:
      the circular part of the light changes handedness.  Jones [3, 4i]
      gives Stokes [25, -7, 0, 24], which the code turns back into
      [3/5, -4i/5], a state that no complex factor relates to [3, 4i]; the
      corrected derivation gives [3/5, 4i/5], which is [3, 4i] / 5. */
  lemma AsWrittenRoundTripFlipsHandedness(a: Complex, b: Complex, sqrt: real -> real)
    requires IsSqrt(sqrt)
    requires a == OfReal(3.0) && b == Complex(0.0, 4.0)
    ensures StokesOfJones(a, b) == [25.0, -7.0, 0.0, 24.0]
    ensures JonesOfStokesAsWritten(25.0, -7.0, 0.0, 24.0, sqrt) == Value([OfReal(0.6), Complex(0.0, -0.8)])
    ensures !SameState(OfReal(0.6), Complex(0.0, -0.8), a, b)
    ensures JonesOfStokes(25.0, -7.0, 0.0, 24.0, sqrt) == Value([OfReal(0.6), Complex(0.0, 0.8)])
    ensures SameState(OfReal(0.6), Complex(0.0, 0.8), a, b)
  {
    ExampleStokes(a, b);
    ExampleJones(sqrt);
    ExampleStates();
  }

  lemma ExampleJones(sqrt: real -> real)
    requires IsSqrt(sqrt)
    ensures JonesOfStokesAsWritten(25.0, -7.0, 0.0, 24.0, sqrt) == Value([OfReal(0.6), Complex(0.0, -0.8)])
    ensures JonesOfStokes(25.0, -7.0, 0.0, 24.0, sqrt) == Value([OfReal(0.6), Complex(0.0, 0.8)])
  {
    ExampleRoots(sqrt);
  }

  lemma ExampleStokes(a: Complex, b: Complex)
    requires a == OfReal(3.0) && b == Complex(0.0, 4.0)
    ensures StokesOfJones(a, b) == [25.0, -7.0, 0.0, 24.0]
  {
    StokesOfQuarterWave(a.re, b.im);
    Times(a.re, a.re, 3.0, 3.0);
    Times(b.im, b.im, 4.0, 4.0);
    Times(a.re, b.im, 3.0, 4.0);
  }

  /** In general the code derives the Jones vector of the mirror-image Stokes
      vector, the one with V negated. */
  lemma AsWrittenNegatesV(s0: real, s1: real, s2: real, s3: real, sqrt: real -> real)
    ensures JonesOfStokesAsWritten(s0, s1, s2, s3, sqrt) == JonesOfStokes(s0, s1, s2, -s3, sqrt)
  {
    assert PolarizedSq(s1, s2, -s3) == PolarizedSq(s1, s2, s3);
    var r := sqrt(PolarizedSq(s1, s2, s3));
    if r != 0.0 {
      assert -s3 / r == -(s3 / r);
    }
  }

  /** [3/5, -4i/5] is not a multiple of [3, 4i]; [3/5, 4i/5] is. */
  lemma ExampleStates()
    ensures !SameState(OfReal(0.6), Complex(0.0, -0.8), OfReal(3.0), Complex(0.0, 4.0))
    ensures SameState(OfReal(0.6), Complex(0.0, 0.8), OfReal(3.0), Complex(0.0, 4.0))
  {
  }

  /** The two roots the example needs: |(-7, 0, 24)| == 25 and
      sqrt((1 - 7/25) / 2) == 3/5. */
  lemma ExampleRoots(sqrt: real -> real)
    requires IsSqrt(sqrt)
    ensures sqrt(PolarizedSq(-7.0, 0.0, 24.0)) == 25.0
    ensures sqrt((1.0 + -7.0 / 25.0) / 2.0) == 0.6
  {
    SqrtOfSquare(sqrt, 25.0, PolarizedSq(-7.0, 0.0, 24.0));
    SqrtOfSquare(sqrt, 0.6, (1.0 + -7.0 / 25.0) / 2.0);
  }

  /** conj(a conj(b)) a == |a|^2 b, component by component. */
  lemma ConjProductTimes(a: Complex, b: Complex)
    ensures var c := Mul(a, Conj(b));
      c.re * a.re + c.im * a.im == AbsSq(a) * b.re
      && c.re * a.im - c.im * a.re == AbsSq(a) * b.im
  {
  }

  /** A product m == p * q with m and q positive has p positive. */
  lemma PositiveFactor(p: real, q: real, m: real)
    requires m == p * q && m > 0.0 && q > 0.0
    ensures p > 0.0
  {
    if p <= 0.0 {
      ProductNonNegative(-p, q, -m);
    }
  }

  lemma ProductNonNegative(p: real, q: real, m: real)
    requires m == p * q && p >= 0.0 && q >= 0.0
    ensures m >= 0.0
  {
  }

  lemma DivTwice(p: real, d: real, e: real)
    requires d != 0.0 && e != 0.0
    ensures (p / d) / (2.0 * e) == (p / 2.0) * (1.0 / (d * e))
  {
  }

  /** The algebra behind the round trip, once the roots are known: with
      t > 0 and t^2 (|a|^2 + |b|^2) == |a|^2 > 0, the vector [t, b'] built
      from the normalised U and V is a multiple of [a, b] of unit intensity. */
  lemma {:induction false} RoundTripAlgebra(a: Complex, b: Complex, t: real)
    requires AbsSq(a) > 0.0 && t > 0.0
    requires t * t * (AbsSq(a) + AbsSq(b)) == AbsSq(a)
    ensures var s := StokesOfJones(a, b);
      var b' := Complex((s[2] / s[0]) / (2.0 * t), (s[3] / s[0]) / (2.0 * t));
      SameState(OfReal(t), b', a, b) && AbsSq(OfReal(t)) + AbsSq(b') == 1.0
  {
    var s := StokesOfJones(a, b);
    var x, y := AbsSq(a), AbsSq(b);
    AbsSqNonNegative(b);
    var s0 := x + y;
    var c := Mul(a, Conj(b));
    var k := 1.0 / (s0 * t);
    ProductNonZero(s0, t, s0 * t);
    DivisionInverse(1.0, s0 * t, k);
    // [t, b'] is [t, conj(c) k], where c == a conj(b) and k == 1 / (s0 t)
    DivTwice(2.0 * c.re, s0, t);
    DivTwice(-2.0 * c.im, s0, t);
    assert Complex((s[2] / s[0]) / (2.0 * t), (s[3] / s[0]) / (2.0 * t)) == Complex(c.re * k, -c.im * k);
    Times(x, k, t * t * s0, k);
    Times(s0 * t * k, t, 1.0, t);
    ScaledConjState(a, b, t, k);
    ScaledConjIntensity(a, b, t, k);
  }

  /** With |a|^2 k == t, the vector [t, conj(a conj(b)) k] is a multiple of
      [a, b]. */
  lemma ScaledConjState(a: Complex, b: Complex, t: real, k: real)
    requires AbsSq(a) * k == t
    ensures var c := Mul(a, Conj(b));
      SameState(OfReal(t), Complex(c.re * k, -c.im * k), a, b)
  {
    var c := Mul(a, Conj(b));
    var x := AbsSq(a);
    ConjProductTimes(a, b);
    Times(c.re * a.re + c.im * a.im, k, x * b.re, k);
    Times(c.re * a.im - c.im * a.re, k, x * b.im, k);
    Times(x * k, b.re, t, b.re);
    Times(x * k, b.im, t, b.im);
    assert (c.re * k) * a.re - (-c.im * k) * a.im == t * b.re;
    assert (c.re * k) * a.im + (-c.im * k) * a.re == t * b.im;
  }

  /** With |a|^2 k == t, the intensity of [t, conj(a conj(b)) k] is
      t^2 + t |b|^2 k. */
  lemma ScaledConjIntensitySum(a: Complex, b: Complex, t: real, k: real)
    requires AbsSq(a) * k == t
    ensures var c := Mul(a, Conj(b));
      AbsSq(OfReal(t)) + AbsSq(Complex(c.re * k, -c.im * k)) == t * t + t * AbsSq(b) * k
  {
    var c := Mul(a, Conj(b));
    var x, y := AbsSq(a), AbsSq(b);
    AbsSqMul(a, Conj(b));
    assert AbsSq(Conj(b)) == y;
    Times(c.re * c.re + c.im * c.im, k * k, x * y, k * k);
    Times(x * k, y * k, t, y * k);
  }

  /** A factor that leaves a non-zero number unchanged is one. */
  lemma UnitFactor(w: real, s: real)
    requires s != 0.0 && w * s == s
    ensures w == 1.0
  {
    ProductOfZero(w - 1.0, s, (w - 1.0) * s);
    ProductNonZero(w - 1.0, s, (w - 1.0) * s);
  }

  /** With |a|^2 k == t, t^2 s0 == |a|^2 and t k s0 == 1, where
      s0 == |a|^2 + |b|^2, the vector [t, conj(a conj(b)) k] has unit
      intensity. */
  lemma ScaledConjIntensity(a: Complex, b: Complex, t: real, k: real)
    requires AbsSq(a) + AbsSq(b) != 0.0
    requires AbsSq(a) * k == t
    requires t * t * (AbsSq(a) + AbsSq(b)) == AbsSq(a)
    requires (AbsSq(a) + AbsSq(b)) * t * k == 1.0
    ensures var c := Mul(a, Conj(b));
      AbsSq(OfReal(t)) + AbsSq(Complex(c.re * k, -c.im * k)) == 1.0
  {
    var x, y := AbsSq(a), AbsSq(b);
    var s0 := x + y;
    ScaledConjIntensitySum(a, b, t, k);
    var w := t * t + t * y * k;
    Times(s0 * t * k, y, 1.0, y);
    Times(w, s0, t * t + t * y * k, s0);
    assert w * s0 == s0;
    UnitFactor(w, s0);
  }

  /** `j` is a unit-intensity Jones vector describing the same state as
      [a, b]. */
  predicate Recovers(j: Slot, a: Complex, b: Complex)
  {
    j.Value? && |j.items| == 2
    && SameState(j.items[0], j.items[1], a, b)
    && AbsSq(j.items[0]) + AbsSq(j.items[1]) == 1.0
  }

  /** Jones -> Stokes -> Jones recovers the original state: the derived Jones
      vector has unit intensity and differs from [a, b] only by a complex
      factor (a positive scale and a global phase). */
  lemma {:induction false} JonesStokesRoundTrip(a: Complex, b: Complex, sqrt: real -> real)
    requires IsSqrt(sqrt)
    requires AbsSq(a) + AbsSq(b) > 0.0
    ensures var s := StokesOfJones(a, b);
      Recovers(JonesOfStokes(s[0], s[1], s[2], s[3], sqrt), a, b)
  {
    AbsSqNonNegative(a);
    AbsSqNonNegative(b);
    if a == OfReal(0.0) {
      RoundTripVertical(b, sqrt);
    } else {
      RoundTripGeneral(a, b, sqrt);
    }
  }

  /** a == 0: the derivation takes the "Q == -1" branch and returns [0, 1]. */
  lemma RoundTripVertical(b: Complex, sqrt: real -> real)
    requires IsSqrt(sqrt)
    requires AbsSq(b) > 0.0
    ensures var s := StokesOfJones(OfReal(0.0), b);
      Recovers(JonesOfStokes(s[0], s[1], s[2], s[3], sqrt), OfReal(0.0), b)
  {
    var s := StokesOfJones(OfReal(0.0), b);
    assert s[2] == 0.0 && s[3] == 0.0;
    VerticalStokesTaken(s[0], s[1], sqrt);
  }

  /** a != 0: the derivation returns [t, b'] with t == sqrt(|a|^2 / S0). */
  lemma RoundTripGeneral(a: Complex, b: Complex, sqrt: real -> real)
    requires IsSqrt(sqrt)
    requires AbsSq(a) > 0.0 && AbsSq(b) >= 0.0
    ensures var s := StokesOfJones(a, b);
      Recovers(JonesOfStokes(s[0], s[1], s[2], s[3], sqrt), a, b)
  {
    var s := StokesOfJones(a, b);
    StokesNorm(a, b, sqrt);
    var q := s[1] / s[0];
    var h := (1.0 + q) / 2.0;
    RoundTripHalf(a, b, q);
    var t := sqrt(h);
    ProductOfZero(t, t, h);
    Times(t * t, s[0], h, s[0]);
    RoundTripAlgebra(a, b, t);
  }

  /** The polarized part of a derived Stokes vector: its norm is S0 > 0. */
  lemma StokesNorm(a: Complex, b: Complex, sqrt: real -> real)
    requires IsSqrt(sqrt)
    requires AbsSq(a) + AbsSq(b) > 0.0
    ensures var s := StokesOfJones(a, b); s[0] == AbsSq(a) + AbsSq(b)
    ensures var s := StokesOfJones(a, b); PolarizedSq(s[1], s[2], s[3]) != 0.0
    ensures var s := StokesOfJones(a, b); sqrt(PolarizedSq(s[1], s[2], s[3])) == s[0]
  {
    var s := StokesOfJones(a, b);
    StokesOfJonesFullyPolarized(a, b);
    SqrtOfSquare(sqrt, s[0], PolarizedSq(s[1], s[2], s[3]));
    ProductNonZero(s[0], s[0], PolarizedSq(s[1], s[2], s[3]));
  }

  /** With a != 0 the argument (1 + Q) / 2 of the second root is
      |a|^2 / S0 > 0. */
  lemma RoundTripHalf(a: Complex, b: Complex, q: real)
    requires AbsSq(a) > 0.0 && AbsSq(b) >= 0.0
    requires var s := StokesOfJones(a, b); q == s[1] / s[0]
    ensures var s := StokesOfJones(a, b);
      var h := (1.0 + q) / 2.0;
      q != -1.0 && h > 0.0 && h * s[0] == AbsSq(a)
  {
    var s := StokesOfJones(a, b);
    DivisionInverse(s[1], s[0], q);
    var m := (q + 1.0) * s[0];
    ProductOfZero(q + 1.0, s[0], m);
    var h := (1.0 + q) / 2.0;
    assert h * s[0] == AbsSq(a);
    PositiveFactor(h, s[0], AbsSq(a));
  }

  // ---------------------------------------------------------------------------
  // The Experiment object

  /** Whether the shape of `v` is (2,) (a Jones vector) or (4,) (a Stokes vector). */
  predicate IsJonesShape(v: NumArray)
  {
    v.Vector? && |v.items| == 2
  }

  predicate IsStokesShape(v: NumArray)
  {
    v.Vector? && |v.items| == 4
  }

  /** A stored Stokes vector that is real and fully polarized. */
  predicate FullyPolarized(st: Slot)
  {
    st.Value? && |st.items| == 4
    && (forall k :: 0 <= k < 4 ==> st.items[k].im == 0.0)
    && st.items[0].re >= 0.0
    && PolarizedSq(st.items[1].re, st.items[2].re, st.items[3].re) == st.items[0].re * st.items[0].re
  }

  /** The experiment object; `sqrt` (numpy's square root) is handed to the
      methods that derive a Jones vector. */
  class Experiment<S> {
    var structure: Option<S>
    var thetaI: Option<real>
    /** (wavelengths, unit): the wavelengths after unit conversion, in metres. */
    var lbda: (seq<real>, string)
    var jonesVector: Slot
    var stokesVector: Slot

    /** `vector` defaults to `None`, i.e. `OtherShape([])`, which leaves both
        light attributes unset. */
    constructor (structure: Option<S>, lbdaMetres: seq<real>, thetaI: Option<real>, vector: NumArray, sqrt: real -> real)
      ensures this.structure == structure && this.thetaI == thetaI && lbda == (lbdaMetres, "m")
      ensures IsJonesShape(vector) ==>
        (jonesVector == Value(vector.items)
         && stokesVector == Value(Reals(StokesOfJones(vector.items[0], vector.items[1])))
         && FullyPolarized(stokesVector))
      ensures IsStokesShape(vector) ==>
        (stokesVector == Value(vector.items)
         && jonesVector == JonesOfStokes(vector.items[0].re, vector.items[1].re, vector.items[2].re, vector.items[3].re, sqrt))
      ensures !IsJonesShape(vector) && !IsStokesShape(vector) ==> jonesVector == Unset && stokesVector == Unset
    {
      this.structure := structure;
      this.thetaI := thetaI;
      lbda := (lbdaMetres, "m");
      jonesVector := Unset;
      stokesVector := Unset;
      new;
      SetVector(vector, sqrt);
    }

    /** Store a Jones vector (shape (2,)) and derive its Stokes vector, or
        store a Stokes vector (shape (4,)) and derive its Jones vector; any
        other shape changes nothing and raises nothing. */
    method SetVector(v: NumArray, sqrt: real -> real)
      modifies this`jonesVector, this`stokesVector
      ensures IsJonesShape(v) ==>
        (jonesVector == Value(v.items)
         && stokesVector == Value(Reals(StokesOfJones(v.items[0], v.items[1])))
         && FullyPolarized(stokesVector))
      ensures IsStokesShape(v) ==>
        (stokesVector == Value(v.items)
         && jonesVector == JonesOfStokes(v.items[0].re, v.items[1].re, v.items[2].re, v.items[3].re, sqrt))
      ensures !IsJonesShape(v) && !IsStokesShape(v) ==>
        jonesVector == old(jonesVector) && stokesVector == old(stokesVector)
    {
      if IsJonesShape(v) {
        jonesVector := Value(v.items);
        var s := StokesOfJones(v.items[0], v.items[1]);
        StokesOfJonesFullyPolarized(v.items[0], v.items[1]);
        stokesVector := Value(Reals(s));
      } else if IsStokesShape(v) {
        stokesVector := Value(v.items);
        jonesVector := JonesOfStokes(v.items[0].re, v.items[1].re, v.items[2].re, v.items[3].re, sqrt);
      }
    }
  }

  // ---------------------------------------------------------------------------
  // Solver selection

  /** The process-wide settings record: option name to value. */
  type Settings = map<string, string>

  /** The settings as shipped: complex128, the pytorch backend, the 4x4 solver. */
  const DefaultSettings: Settings :=
    map["dtype" := "complex128", "ExpmBackend" := "pytorch", "solver" := "berreman4x4"]

  const ValidSolvers: seq<string> := ["berreman4x4", "simple2x2"]

  datatype Solver = SolverExpm | Solver2x2

  /** ValueError("Invalid solver type ... Expected one of: ..."). */
  datatype SolverError = InvalidSolverType(name: string, expected: seq<string>)

  function SolverName(s: Solver): string
  {
    match s
    case SolverExpm => "berreman4x4"
    case Solver2x2 => "simple2x2"
  }

  /** "default" stands for the configured solver when the settings name one. */
  function ResolveSolverName(solver: string, settings: Settings): string
  {
    if solver == "default" && "solver" in settings then settings["solver"] else solver
  }

  /** Experiment.evaluate: the one solver the resolved name selects, or the
      error naming the list of valid names. */
  function Evaluate(solver: string, settings: Settings): (r: Result<Solver, SolverError>)
    ensures r.Ok? <==> ResolveSolverName(solver, settings) in ValidSolvers
    ensures r.Ok? ==> SolverName(r.value) == ResolveSolverName(solver, settings)
    ensures r.Err? ==> r.error == InvalidSolverType(ResolveSolverName(solver, settings), ValidSolvers)
  {
    var name := ResolveSolverName(solver, settings);
    if name !in ValidSolvers then Err(InvalidSolverType(name, ValidSolvers))
    else if name == "berreman4x4" then Ok(SolverExpm)
    else Ok(Solver2x2)
  }

  /** With the shipped settings "default" selects the 4x4 solver; without a
      'solver' key it is rejected as an invalid name. */
  lemma EvaluateDefault()
    ensures Evaluate("default", DefaultSettings) == Ok(SolverExpm)
    ensures Evaluate("default", map[]) == Err(InvalidSolverType("default", ValidSolvers))
  {
  }

  /** Each valid name selects exactly its own solver, whatever the settings. */
  lemma {:induction false} EvaluateByName(settings: Settings)
    ensures Evaluate("berreman4x4", settings) == Ok(SolverExpm)
    ensures Evaluate("simple2x2", settings) == Ok(Solver2x2)
  {
  }
}
