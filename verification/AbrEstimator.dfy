/** The bandwidth estimator: an exponentially weighted moving average over the reals. */
module AbrEstimator {

  const MIN_SAMPLES: nat := 3

  function Times(a: real, b: real): real { a * b }

  /** The next average from a new sample and the old average. */
  function Mix(alpha: real, sample: real, average: real): real { Times(alpha, sample) + Times(1.0 - alpha, average) }

  /** The average after a list of samples; the first one initialises it. */
  function Ewma(alpha: real, samples: seq<real>): real {
    if samples == [] then 0.0
    else if |samples| == 1 then samples[0]
    else Mix(alpha, samples[|samples| - 1], Ewma(alpha, samples[..|samples| - 1]))
  }

  class Estimator {
    const alpha: real
    var ewma: real
    var count: nat
    /** The samples fed since creation or the last reset. */
    ghost var samples: seq<real>

    ghost predicate Valid() reads this {
      0.0 < alpha < 1.0 && count == |samples| && ewma == Ewma(alpha, samples)
    }

    constructor (alpha: real)
      requires 0.0 < alpha < 1.0
      ensures Valid() && samples == [] && this.alpha == alpha
    {
      this.alpha, ewma, count, samples := alpha, 0.0, 0, [];
    }

    method Update(sample: real)
      requires Valid()
      modifies this
      ensures Valid() && samples == old(samples) + [sample]
    {
      if count == 0 {
        ewma := sample;
      } else {
        ewma := Times(alpha, sample) + Times(1.0 - alpha, ewma);
      }
      count := count + 1;
      samples := samples + [sample];
      assert samples[..|samples| - 1] == old(samples);
    }

    predicate IsReady()
      reads this
      ensures IsReady() <==> count >= 3
    {
      count >= MIN_SAMPLES
    }

    method Reset()
      requires Valid()
      modifies this
      ensures Valid() && samples == []
    {
      ewma, count, samples := 0.0, 0, [];
    }
  }

  /** The average lies between two of the samples. */
  lemma {:induction false} EwmaBetween(alpha: real, samples: seq<real>) returns (lo: nat, hi: nat)
    requires 0.0 < alpha < 1.0 && samples != []
    ensures lo < |samples| && hi < |samples|
    ensures samples[lo] <= Ewma(alpha, samples) <= samples[hi]
  {
    var last := |samples| - 1;
    if last == 0 {
      return 0, 0;
    }
    hide Mix;
    lo, hi := EwmaBetween(alpha, samples[..last]);
    Between(alpha, samples[last], Ewma(alpha, samples[..last]));
    if samples[last] < samples[lo] { lo := last; }
    if samples[last] > samples[hi] { hi := last; }
  }

  lemma Between(alpha: real, x: real, y: real)
    requires 0.0 < alpha < 1.0
    ensures x <= Mix(alpha, x, y) <= y || y <= Mix(alpha, x, y) <= x
  {
    hide Times;
    Partition(alpha, x);
    Partition(alpha, y);
    var lo, hi := if x <= y then x else y, if x <= y then y else x;
    Scale(alpha, lo, hi);
    Scale(1.0 - alpha, lo, hi);
  }

  lemma Scale(c: real, a: real, b: real)
    requires 0.0 <= c && a <= b
    ensures Times(c, a) <= Times(c, b)
  {
  }

  lemma Partition(alpha: real, x: real)
    ensures Times(alpha, x) + Times(1.0 - alpha, x) == x
  {
  }

  /** A constant stream has that constant as its average. */
  lemma {:induction false} EwmaConstant(alpha: real, samples: seq<real>, b: real)
    requires samples != [] && forall i :: 0 <= i < |samples| ==> samples[i] == b
    ensures Ewma(alpha, samples) == b
  {
    var last := |samples| - 1;
    if last > 0 {
      hide Times;
      EwmaConstant(alpha, samples[..last], b);
      Partition(alpha, b);
    }
  }

  /** k samples of the same value. */
  function Constant(b: real, k: nat): (samples: seq<real>)
    ensures |samples| == k && forall i :: 0 <= i < k ==> samples[i] == b
  {
    seq(k, _ => b)
  }

  function Power(r: real, k: nat): real { if k == 0 then 1.0 else Times(r, Power(r, k - 1)) }

  lemma MixDistance(alpha: real, average: real, b: real)
    ensures Mix(alpha, b, average) - b == Times(1.0 - alpha, average - b)
  {
  }

  lemma TimesAssociative(a: real, b: real, c: real)
    ensures Times(a, Times(b, c)) == Times(Times(a, b), c)
  {
  }

  /** Whatever came before, a constant b pulls the average towards b geometrically. */
  lemma {:induction false} EwmaApproaches(alpha: real, samples: seq<real>, b: real, k: nat)
    requires samples != []
    ensures Ewma(alpha, samples + Constant(b, k)) - b == Times(Power(1.0 - alpha, k), Ewma(alpha, samples) - b)
  {
    hide Times, Mix;
    var all := samples + Constant(b, k);
    if k == 0 {
      assert all == samples;
      TimesOne(Ewma(alpha, samples) - b);
    } else {
      EwmaApproaches(alpha, samples, b, k - 1);
      var before := samples + Constant(b, k - 1);
      assert all[..|all| - 1] == before && all[|all| - 1] == b;
      MixDistance(alpha, Ewma(alpha, before), b);
      TimesAssociative(1.0 - alpha, Power(1.0 - alpha, k - 1), Ewma(alpha, samples) - b);
    }
  }

  lemma TimesOne(a: real)
    ensures Times(1.0, a) == a
  {
  }

  lemma {:induction false} PowerPositive(r: real, k: nat)
    requires r > 0.0
    ensures Power(r, k) > 0.0
  {
    if k > 0 { PowerPositive(r, k - 1); }
  }

  /** The average never crosses the constant. */
  lemma SameSide(alpha: real, samples: seq<real>, b: real, k: nat)
    requires samples != [] && 0.0 < alpha < 1.0
    ensures Ewma(alpha, samples) >= b <==> Ewma(alpha, samples + Constant(b, k)) >= b
  {
    hide Ewma, Power;
    EwmaApproaches(alpha, samples, b, k);
    PowerPositive(1.0 - alpha, k);
    SignKept(Power(1.0 - alpha, k), Ewma(alpha, samples) - b);
  }

  lemma SignKept(p: real, x: real)
    requires p > 0.0
    ensures Times(p, x) >= 0.0 <==> x >= 0.0
  {
  }

  /** Bernoulli's inequality, upside down: r^k (1 + k (1 - r)) <= 1. */
  lemma {:induction false} PowerBound(r: real, k: nat)
    requires 0.0 <= r <= 1.0
    ensures 0.0 <= Power(r, k)
    ensures Times(Power(r, k), 1.0 + Times(k as real, 1.0 - r)) <= 1.0
  {
    if k > 0 {
      PowerBound(r, k - 1);
      BoundStep(r, Power(r, k - 1), (k - 1) as real);
    }
  }

  lemma BoundStep(r: real, p: real, n: real)
    requires 0.0 <= r <= 1.0 && 0.0 <= p && 0.0 <= n && p * (1.0 + n * (1.0 - r)) <= 1.0
    ensures 0.0 <= r * p
    ensures (r * p) * (1.0 + (n + 1.0) * (1.0 - r)) <= 1.0
  {
    var d := 1.0 - r;
    var x, y := 1.0 + n * d, 1.0 + (n + 1.0) * d;
    assert y == x + d by { assert (n + 1.0) * d == n * d + d; }
    assert r * y == x - d * (n * d + d) by {
      assert r * y == y - d * y && d * y == d * x + d * d && d * x == d + d * (n * d);
      assert d * (n * d + d) == d * (n * d) + d * d;
    }
    assert 0.0 <= n * d && 0.0 <= d * (n * d + d);
    assert p * (r * y) <= p * x by { Scale(p, r * y, x); }
    assert (r * p) * y == p * (r * y);
  }

  /** After k samples of a constant, `distance` off it at first, the average is nearer than `near`. */
  predicate Near(alpha: real, distance: real, near: real, k: nat) {
    -near < Times(Power(1.0 - alpha, k), distance) < near
  }

  /** So after enough samples the average is as near to the constant as wanted, and stays there. */
  lemma EnoughSamples(alpha: real, distance: real, near: real) returns (enough: nat)
    requires 0.0 < alpha < 1.0 && near > 0.0
    ensures forall k: nat :: k >= enough ==> Near(alpha, distance, near, k)
  {
    var size := if distance < 0.0 then -distance else distance;
    enough := (size / near / alpha).Floor + 1;
    forall k: nat | k >= enough ensures Near(alpha, distance, near, k) {
      PowerBound(1.0 - alpha, k);
      Nearer(Power(1.0 - alpha, k), alpha, k as real, distance, size, near);
    }
  }

  lemma StrictScale(c: real, a: real, b: real)
    requires 0.0 < c && a < b
    ensures Times(c, a) < Times(c, b)
  {
  }

  lemma TimesZero(a: real)
    ensures Times(0.0, a) == 0.0
  {
  }

  lemma SmallProduct(p: real, q: real, m: real)
    requires 0.0 <= p && q < m && Times(p, m) <= 1.0
    ensures Times(p, q) < 1.0
  {
    hide Times;
    if p > 0.0 { StrictScale(p, q, m); } else { TimesZero(q); }
  }

  lemma Quotients(size: real, near: real, alpha: real, k: real)
    requires 0.0 < alpha && near > 0.0 && size / near / alpha < k
    ensures Times(near, size / near) == size && size / near < Times(k, alpha)
  {
    var q := size / near;
    assert (q / alpha) * alpha == q;
    StrictScale(alpha, q / alpha, k);
  }

  lemma Regrouped(p: real, q: real, near: real)
    ensures Times(near, Times(p, q)) == Times(p, Times(near, q)) && Times(near, 1.0) == near
  {
  }

  lemma Nearer(p: real, alpha: real, k: real, distance: real, size: real, near: real)
    requires 0.0 < alpha && near > 0.0 && 0.0 <= p && Times(p, 1.0 + Times(k, 1.0 - (1.0 - alpha))) <= 1.0
    requires size == (if distance < 0.0 then -distance else distance) && size / near / alpha < k
    ensures -near < Times(p, distance) < near
  {
    hide Times;
    var q := size / near;
    Quotients(size, near, alpha, k);
    assert 1.0 - (1.0 - alpha) == alpha;
    SmallProduct(p, q, 1.0 + Times(k, alpha));
    StrictScale(near, Times(p, q), 1.0);
    Regrouped(p, q, near);
    Signs(p, distance, size);
  }

  lemma Signs(p: real, distance: real, size: real)
    requires 0.0 <= p && size == (if distance < 0.0 then -distance else distance)
    ensures 0.0 <= Times(p, size) && (Times(p, distance) == Times(p, size) || Times(p, distance) == -Times(p, size))
  {
  }
}
