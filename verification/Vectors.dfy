/** Real vectors: the algebra behind the normalised least-mean-squares filter. */
module Vectors {

  function Product(a: real, b: real): real { a * b }

  /** The sum of the first n products, in the order the C loops accumulate them. */
  function Dot(a: seq<real>, b: seq<real>, n: nat): real
    requires n <= |a| && n <= |b|
  {
    if n == 0 then 0.0 else Dot(a, b, n - 1) + Product(a[n - 1], b[n - 1])
  }

  function Inner(a: seq<real>, b: seq<real>): real
    requires |a| == |b|
  {
    Dot(a, b, |a|)
  }

  function NormSq(a: seq<real>): real { Inner(a, a) }

  function AddScaled(w: seq<real>, s: real, x: seq<real>): (r: seq<real>)
    requires |w| == |x|
    ensures |r| == |w|
  {
    seq(|w|, k requires 0 <= k < |w| => w[k] + Product(s, x[k]))
  }

  function Minus(a: seq<real>, b: seq<real>): (r: seq<real>)
    requires |a| == |b|
    ensures |r| == |a|
  {
    seq(|a|, k requires 0 <= k < |a| => a[k] - b[k])
  }

  function Zeros(n: nat): (r: seq<real>)
    ensures |r| == n
  {
    seq(n, _ => 0.0)
  }

  lemma {:induction false} DotAddScaled(w: seq<real>, s: real, x: seq<real>, y: seq<real>, n: nat)
    requires |w| == |x| == |y| && n <= |w|
    ensures Dot(AddScaled(w, s, x), y, n) == Dot(w, y, n) + s * Dot(x, y, n)
  {
    if n > 0 {
      DotAddScaled(w, s, x, y, n - 1);
      var a, b, c := w[n - 1], x[n - 1], y[n - 1];
      assert (a + s * b) * c == a * c + s * (b * c);
    }
  }

  lemma {:induction false} DotMinus(h: seq<real>, w: seq<real>, y: seq<real>, n: nat)
    requires |h| == |w| == |y| && n <= |w|
    ensures Dot(Minus(h, w), y, n) == Dot(h, y, n) - Dot(w, y, n)
  {
    if n > 0 {
      DotMinus(h, w, y, n - 1);
      assert (h[n - 1] - w[n - 1]) * y[n - 1] == h[n - 1] * y[n - 1] - w[n - 1] * y[n - 1];
    }
  }

  lemma {:induction false} NormSqNonNegative(x: seq<real>, n: nat)
    requires n <= |x|
    ensures Dot(x, x, n) >= 0.0
  {
    if n > 0 {
      NormSqNonNegative(x, n - 1);
      assert x[n - 1] * x[n - 1] >= 0.0;
    }
  }

  /** The squared length of d - s x, from |d|^2, <d, x> and |x|^2. */
  function Moved(dd: real, dx: real, xx: real, s: real): real { dd - 2.0 * s * dx + s * s * xx }

  /** |h - (w + s x)|^2 = |h - w|^2 - 2 s <h - w, x> + s^2 |x|^2. */
  lemma {:induction false} DistanceAfterStep(h: seq<real>, w: seq<real>, s: real, x: seq<real>, n: nat)
    requires |h| == |w| == |x| && n <= |w|
    ensures var d, d' := Minus(h, w), Minus(h, AddScaled(w, s, x));
            Dot(d', d', n) == Moved(Dot(d, d, n), Dot(d, x, n), Dot(x, x, n), s)
  {
    if n > 0 {
      hide *;
      var d, d', e := Minus(h, w), Minus(h, AddScaled(w, s, x)), n - 1;
      DistanceAfterStep(h, w, s, x, e);
      LastTerm(d', d', n);
      LastTerm(d, d, n);
      LastTerm(d, x, n);
      LastTerm(x, x, n);
      OneMoreTerm(h[e], w[e], x[e], s, Dot(d, d, e), Dot(d, x, e), Dot(x, x, e));
      StepEntry(h, w, s, x, e);
    }
  }

  lemma LastTerm(a: seq<real>, b: seq<real>, n: nat)
    requires 0 < n <= |a| && n <= |b|
    ensures Dot(a, b, n) == Dot(a, b, n - 1) + Product(a[n - 1], b[n - 1])
  {
  }

  function Difference(h: real, w: real): real { h - w }
  function Step(w: real, s: real, x: real): real { w + s * x }

  lemma StepEntry(h: seq<real>, w: seq<real>, s: real, x: seq<real>, k: nat)
    requires |h| == |w| == |x| && k < |w|
    ensures Minus(h, w)[k] == Difference(h[k], w[k])
    ensures Minus(h, AddScaled(w, s, x))[k] == Difference(h[k], Step(w[k], s, x[k]))
  {
  }

  lemma OneMoreTerm(h: real, w: real, x: real, s: real, dd: real, dx: real, xx: real)
    ensures var d, d' := Difference(h, w), Difference(h, Step(w, s, x));
            var before := Moved(dd, dx, xx, s);
            before + Product(d', d') == Moved(dd + Product(d, d), dx + Product(d, x), xx + Product(x, x), s)
  {
    var d := h - w;
    SquareOfStep(d, s, x);
    Collect(dd, dx, xx, d * d, d * x, x * x, s);
    assert h - (w + s * x) == d - s * x;
  }

  lemma SquareOfStep(d: real, s: real, x: real)
    ensures (d - s * x) * (d - s * x) == d * d - 2.0 * s * (d * x) + s * s * (x * x)
  {
    var y := s * x;
    assert (d - y) * (d - y) == d * d - 2.0 * (d * y) + y * y;
    assert d * y == s * (d * x);
    assert y * y == s * s * (x * x);
  }

  lemma Collect(a: real, b: real, c: real, a': real, b': real, c': real, s: real)
    ensures (a - 2.0 * s * b + s * s * c) + (a' - 2.0 * s * b' + s * s * c')
         == (a + a') - 2.0 * s * (b + b') + s * s * (c + c')
  {
    var q := s * s;
    assert s * (b + b') == s * b + s * b';
    assert q * (c + c') == q * c + q * c';
  }
}
