/**
 * The adaptive filter of the echo canceller over the reals: what one frame does to the weights, and
 * what that implies for whole runs (src/audio/echo_cancel.c:77-114). Rounding is not modelled.
 */
module Nlms {
  import opened Vectors

  /** The power below which the weights are left alone. */
  const SILENCE: real := 0.0000000001
  const MAX_CHANNELS: nat := 8

  /** `taps` weights per channel, one interleaved reference sample per channel and frame. */
  datatype Shape = Shape(channels: nat, taps: nat, mu: real) {
    predicate Valid() { channels > 0 && taps > 0 && 0.0 < mu <= 1.0 }
    /** The channels that are processed at all. */
    function Active(): (n: nat)
      ensures n <= channels && n <= 8 && (n == channels || n == 8)
    {
      if channels < MAX_CHANNELS then channels else MAX_CHANNELS
    }
  }

  type Samples = seq<real>

  /** The reference sample of channel c, k frames before the last of `refs`; 0 before the start. */
  function Past(refs: seq<Samples>, k: nat, c: nat): real {
    if k < |refs| && c < |refs[|refs| - 1 - k]| then refs[|refs| - 1 - k][c] else 0.0
  }

  function Window(refs: seq<Samples>, c: nat, taps: nat): (w: seq<real>)
    ensures |w| == taps
  {
    seq(taps, k requires 0 <= k => Past(refs, k, c))
  }

  /** The power of the first k taps over the first c channels of tap k, in accumulation order. */
  function Power(refs: seq<Samples>, s: Shape, k: nat, c: nat): real
    requires c <= s.Active()
    decreases k, c
  {
    if c > 0 then Power(refs, s, k, c - 1) + Square(Past(refs, k, c - 1))
    else if k > 0 then Power(refs, s, k - 1, s.Active())
    else 0.0
  }

  function TotalPower(refs: seq<Samples>, s: Shape): real { Power(refs, s, s.taps, 0) }

  function Rate(refs: seq<Samples>, s: Shape): real {
    var power := TotalPower(refs, s);
    if power > SILENCE then s.mu / power else 0.0
  }

  /** The echo-cancelled sample: microphone minus the echo estimated by these weights. */
  function Err(refs: seq<Samples>, w: seq<real>, c: nat, mic: real): real {
    mic - Inner(w, Window(refs, c, |w|))
  }

  /** The scalar that multiplies the reference window in the weight update. */
  function Gain(refs: seq<Samples>, s: Shape, w: seq<real>, c: nat, mic: real): real {
    Product(Rate(refs, s), Err(refs, w, c, mic))
  }

  function Adapt(refs: seq<Samples>, s: Shape, w: seq<real>, c: nat, mic: real): (w': seq<real>)
    requires |w| == s.taps
    ensures |w'| == s.taps
  {
    AddScaled(w, Gain(refs, s, w, c, mic), Window(refs, c, s.taps))
  }

  /** How far the a posteriori error falls short of the error: mu P_c / P, or 0 in silence. */
  function Share(refs: seq<Samples>, s: Shape, c: nat): real {
    Rate(refs, s) * NormSq(Window(refs, c, s.taps))
  }

  function Square(x: real): real { x * x }

  /** An error with a share of itself removed. */
  function Reduced(err: real, share: real): real { err * (1.0 - share) }

  /** After the update, the error of the same sample is err (1 - mu P_c / P). */
  lemma APosterioriError(refs: seq<Samples>, s: Shape, w: seq<real>, c: nat, mic: real)
    requires |w| == s.taps
    ensures Err(refs, Adapt(refs, s, w, c, mic), c, mic) == Reduced(Err(refs, w, c, mic), Share(refs, s, c))
  {
    hide *;
    var x := Window(refs, c, s.taps);
    var gain := Gain(refs, s, w, c, mic);
    AdaptUnfold(refs, s, w, c, mic);
    ErrUnfold(refs, w, c, mic);
    ErrUnfold(refs, Adapt(refs, s, w, c, mic), c, mic);
    DotAddScaled(w, gain, x, x, s.taps);
    Factor(mic, Dot(w, x, s.taps), Rate(refs, s), Dot(x, x, s.taps), gain, Share(refs, s, c));
    assert Err(refs, Adapt(refs, s, w, c, mic), c, mic) == mic - Dot(Adapt(refs, s, w, c, mic), x, s.taps);
  }

  lemma AdaptUnfold(refs: seq<Samples>, s: Shape, w: seq<real>, c: nat, mic: real)
    requires |w| == s.taps
    ensures Adapt(refs, s, w, c, mic) == AddScaled(w, Gain(refs, s, w, c, mic), Window(refs, c, s.taps))
    ensures Gain(refs, s, w, c, mic) == Product(Rate(refs, s), Err(refs, w, c, mic))
    ensures var x := Window(refs, c, s.taps); Share(refs, s, c) == Product(Rate(refs, s), Dot(x, x, s.taps))
  {
  }

  lemma ErrUnfold(refs: seq<Samples>, w: seq<real>, c: nat, mic: real)
    ensures Err(refs, w, c, mic) == mic - Dot(w, Window(refs, c, |w|), |w|)
  {
  }

  lemma Factor(mic: real, dot: real, rate: real, power: real, gain: real, share: real)
    requires gain == Product(rate, mic - dot) && share == Product(rate, power)
    ensures mic - (dot + gain * power) == Reduced(mic - dot, share)
  {
    var err := mic - dot;
    assert (rate * err) * power == err * (rate * power);
  }

  function ChannelPower(refs: seq<Samples>, s: Shape, c: nat): real {
    NormSq(Window(refs, c, s.taps))
  }

  /** The first k taps of channel c hold at most the accumulated power, and all of it if alone. */
  lemma {:induction false} PowerCoversChannel(refs: seq<Samples>, s: Shape, c: nat, k: nat, upto: nat)
    requires c < s.Active() && upto <= s.Active() && k + (if upto > 0 then 1 else 0) <= s.taps
    ensures var x := Window(refs, c, s.taps);
            var mine := Dot(x, x, k + if c < upto then 1 else 0);
            0.0 <= mine <= Power(refs, s, k, upto) && (s.Active() == 1 ==> Power(refs, s, k, upto) == mine)
    decreases k, upto
  {
    var x := Window(refs, c, s.taps);
    if upto > 0 {
      PowerCoversChannel(refs, s, c, k, upto - 1);
      SquareNonNegative(Past(refs, k, upto - 1));
      if upto - 1 == c { LastTerm(x, x, k + 1); }
    } else if k > 0 {
      PowerCoversChannel(refs, s, c, k - 1, s.Active());
    }
  }

  lemma SquareNonNegative(x: real)
    ensures Square(x) >= 0.0
  {
  }

  lemma ChannelPowerBound(refs: seq<Samples>, s: Shape, c: nat)
    requires c < s.Active()
    ensures 0.0 <= ChannelPower(refs, s, c) <= TotalPower(refs, s)
    ensures s.Active() == 1 ==> ChannelPower(refs, s, c) == TotalPower(refs, s)
  {
    PowerCoversChannel(refs, s, c, s.taps, 0);
  }

  /** The a posteriori error never grows; with one channel it is exactly (1 - mu) times the error. */
  lemma ErrorContracts(refs: seq<Samples>, s: Shape, w: seq<real>, c: nat, mic: real)
    requires s.Valid() && |w| == s.taps && c < s.channels && c < 8
    ensures var before, after := Err(refs, w, c, mic), Err(refs, Adapt(refs, s, w, c, mic), c, mic);
            && Square(after) <= Square(before)
            && (s.channels == 1 && TotalPower(refs, s) > 0.0000000001 ==> after == (1.0 - s.mu) * before)
  {
    hide *;
    APosterioriError(refs, s, w, c, mic);
    ShareBound(refs, s, c);
    ScaledSquare(Err(refs, w, c, mic), Share(refs, s, c));
    ReducedIs(Err(refs, w, c, mic), s.mu);
  }

  lemma ReducedIs(err: real, share: real)
    ensures Reduced(err, share) == (1.0 - share) * err
  {
  }

  /** The step per unit of error: mu over the power, and none in silence. */
  lemma RateMeans(refs: seq<Samples>, s: Shape)
    ensures TotalPower(refs, s) > 0.0000000001 ==> Rate(refs, s) * TotalPower(refs, s) == s.mu
    ensures TotalPower(refs, s) <= 0.0000000001 ==> Rate(refs, s) == 0.0
  {
  }

  /** The delay line: a new frame is the most recent one, the others are one frame older, before the start is 0. */
  lemma PastMeans(refs: seq<Samples>, row: Samples, k: nat, c: nat)
    requires c < |row|
    ensures Past(refs + [row], 0, c) == row[c]
    ensures Past(refs + [row], k + 1, c) == Past(refs, k, c) && Past([], k, c) == 0.0
  {
  }

  /** The channel powers of the first c channels, summed. */
  function SumOfPowers(refs: seq<Samples>, s: Shape, c: nat): real {
    if c == 0 then 0.0 else SumOfPowers(refs, s, c - 1) + ChannelPower(refs, s, c - 1)
  }

  /** The first k taps of the first c channels, channel by channel. */
  function ByChannel(refs: seq<Samples>, s: Shape, k: nat, c: nat): real
    requires k <= s.taps
  {
    if c == 0 then 0.0 else
    var x := Window(refs, c - 1, s.taps);
    ByChannel(refs, s, k, c - 1) + Dot(x, x, k)
  }

  lemma {:induction false} OneTapMore(refs: seq<Samples>, s: Shape, k: nat, c: nat)
    requires k < s.taps && c <= s.Active()
    ensures Power(refs, s, k, c) - Power(refs, s, k, 0) == ByChannel(refs, s, k + 1, c) - ByChannel(refs, s, k, c)
    decreases c
  {
    hide Window, Past, Square;
    if c > 0 {
      OneTapMore(refs, s, k, c - 1);
      var x := Window(refs, c - 1, s.taps);
      LastTerm(x, x, k + 1);
      TapSquare(refs, s.taps, k, c - 1);
    }
  }

  lemma TapSquare(refs: seq<Samples>, taps: nat, k: nat, c: nat)
    requires k < taps
    ensures Product(Window(refs, c, taps)[k], Window(refs, c, taps)[k]) == Square(Past(refs, k, c))
  {
  }

  lemma {:induction false} TapsAreChannels(refs: seq<Samples>, s: Shape, k: nat)
    requires k <= s.taps
    ensures Power(refs, s, k, 0) == ByChannel(refs, s, k, s.Active())
    decreases k
  {
    hide Window, Past, Square, Dot;
    if k > 0 {
      TapsAreChannels(refs, s, k - 1);
      OneTapMore(refs, s, k - 1, s.Active());
    } else {
      NoTaps(refs, s, s.Active());
    }
  }

  lemma {:induction false} NoTaps(refs: seq<Samples>, s: Shape, c: nat)
    ensures ByChannel(refs, s, 0, c) == 0.0
  {
    if c > 0 { NoTaps(refs, s, c - 1); }
  }

  lemma {:induction false} AllTaps(refs: seq<Samples>, s: Shape, c: nat)
    ensures ByChannel(refs, s, s.taps, c) == SumOfPowers(refs, s, c)
  {
    if c > 0 { AllTaps(refs, s, c - 1); }
  }

  /** The power that normalises the step is the sum over the first eight channels, tap by tap or channel by channel. */
  lemma {:induction false} PowerIsSum(refs: seq<Samples>, s: Shape)
    ensures TotalPower(refs, s) == SumOfPowers(refs, s, if s.channels < 8 then s.channels else 8)
  {
    TapsAreChannels(refs, s, s.taps);
    AllTaps(refs, s, s.Active());
  }

  lemma ShareBound(refs: seq<Samples>, s: Shape, c: nat)
    requires s.Valid() && c < s.Active()
    ensures 0.0 <= Share(refs, s, c) <= s.mu <= 1.0
    ensures s.Active() == 1 && TotalPower(refs, s) > 0.0000000001 ==> Share(refs, s, c) == s.mu
  {
    ChannelPowerBound(refs, s, c);
    var total, mine := TotalPower(refs, s), ChannelPower(refs, s, c);
    assert Share(refs, s, c) == Rate(refs, s) * mine;
    if total > SILENCE {
      assert Rate(refs, s) == s.mu / total;
      hide *;
      Fraction(s.mu, mine, total);
    }
  }

  lemma MulMono(a: real, b: real, c: real)
    requires a <= b && 0.0 <= c
    ensures a * c <= b * c
  {
  }

  lemma Fraction(mu: real, mine: real, total: real)
    requires 0.0 < mu <= 1.0 && 0.0 <= mine <= total && total > 0.0
    ensures 0.0 <= (mu / total) * mine <= mu
    ensures mine == total ==> (mu / total) * mine == mu
  {
    var r := mu / total;
    assert r * total == mu && r > 0.0;
    MulMono(mine, total, r);
    MulMono(0.0, mine, r);
  }

  lemma ScaledSquare(e: real, share: real)
    requires 0.0 <= share <= 1.0
    ensures Square(Reduced(e, share)) <= Square(e)
  {
    var f := 1.0 - share;
    MulMono(f, 1.0, f);
    SquareNonNegative(e);
    MulMono(f * f, 1.0, e * e);
    Regroup(e, f);
  }

  lemma Regroup(e: real, f: real)
    ensures (e * f) * (e * f) == (f * f) * (e * e)
  {
  }

  /** How far the weights are from an echo path h, squared. */
  function Deviation(h: seq<real>, w: seq<real>): real
    requires |h| == |w|
  {
    NormSq(Minus(h, w))
  }

  /** err^2 / P on a frame that updates the weights, 0 on a silent one. */
  function Energy(refs: seq<Samples>, s: Shape, w: seq<real>, c: nat, mic: real): real {
    var total := TotalPower(refs, s);
    if total > 0.0000000001 then Square(Err(refs, w, c, mic)) / total else 0.0
  }

  /** mu (2 - mu), the least share of err^2 / P by which an update improves the weights. */
  function Progress(mu: real): real { Product(mu, 2.0 - mu) }

  /** The microphone picks up exactly the reference filtered by h. */
  predicate IsEcho(refs: seq<Samples>, h: seq<real>, c: nat, mic: real) {
    mic == Inner(h, Window(refs, c, |h|))
  }

  /** One frame never moves the weights away from the echo path. */
  lemma WeightErrorShrinks(refs: seq<Samples>, s: Shape, w: seq<real>, c: nat, mic: real, h: seq<real>)
    requires s.Valid() && |w| == |h| == s.taps && c < s.channels && c < 8 && IsEcho(refs, h, c, mic)
    ensures var gained := Product(Progress(s.mu), Energy(refs, s, w, c, mic));
            Deviation(h, Adapt(refs, s, w, c, mic)) + gained <= Deviation(h, w)
    ensures TotalPower(refs, s) <= 0.0000000001 ==> Deviation(h, Adapt(refs, s, w, c, mic)) == Deviation(h, w)
  {
    var x, err, gain := Window(refs, c, s.taps), Err(refs, w, c, mic), Gain(refs, s, w, c, mic);
    var d, total := Minus(h, w), TotalPower(refs, s);
    assert total > SILENCE ==> Rate(refs, s) == s.mu / total && Energy(refs, s, w, c, mic) == Square(err) / total;
    assert total <= SILENCE ==> Rate(refs, s) == 0.0 && Energy(refs, s, w, c, mic) == 0.0;
    assert 0.0 < s.mu <= 1.0 && SILENCE > 0.0;
    EchoError(refs, w, c, mic, h);
    NormUnfold(h, w);
    NormUnfold(h, Adapt(refs, s, w, c, mic));
    hide *;
    AdaptUnfold(refs, s, w, c, mic);
    DistanceAfterStep(h, w, gain, x, s.taps);
    ChannelPowerBound(refs, s, c);
    PowerUnfold(refs, s, c);
    if total > SILENCE {
      Drop(Dot(d, d, s.taps), err, Dot(x, x, s.taps), total, s.mu);
    } else {
      NoDrop(Dot(d, d, s.taps), err, Dot(x, x, s.taps), s.mu);
    }
  }

  /** Every frame louder than the threshold pays off, in plain terms. */
  lemma FrameImproves(refs: seq<Samples>, s: Shape, w: seq<real>, c: nat, mic: real, h: seq<real>)
    requires s.Valid() && |w| == |h| == s.taps && c < s.channels && c < 8 && IsEcho(refs, h, c, mic)
    requires TotalPower(refs, s) > 0.0000000001
    ensures var err := Err(refs, w, c, mic);
            var gained := (s.mu * (2.0 - s.mu)) * (err * err / TotalPower(refs, s));
            Deviation(h, Adapt(refs, s, w, c, mic)) + gained <= Deviation(h, w)
  {
    var err := Err(refs, w, c, mic);
    assert Energy(refs, s, w, c, mic) == err * err / TotalPower(refs, s);
    assert Product(Progress(s.mu), Energy(refs, s, w, c, mic))
        == (s.mu * (2.0 - s.mu)) * (err * err / TotalPower(refs, s));
    hide *;
    WeightErrorShrinks(refs, s, w, c, mic, h);
  }

  lemma NormUnfold(h: seq<real>, w: seq<real>)
    requires |h| == |w|
    ensures Deviation(h, w) == Dot(Minus(h, w), Minus(h, w), |w|)
  {
  }

  lemma PowerUnfold(refs: seq<Samples>, s: Shape, c: nat)
    ensures var x := Window(refs, c, s.taps); ChannelPower(refs, s, c) == Dot(x, x, s.taps)
  {
  }

  lemma EchoError(refs: seq<Samples>, w: seq<real>, c: nat, mic: real, h: seq<real>)
    requires |w| == |h| && IsEcho(refs, h, c, mic)
    ensures Err(refs, w, c, mic) == Dot(Minus(h, w), Window(refs, c, |w|), |w|)
  {
    DotMinus(h, w, Window(refs, c, |w|), |w|);
  }

  lemma Drop(dd: real, err: real, mine: real, total: real, mu: real)
    requires 0.0 < mu <= 1.0 && 0.0 <= mine <= total && total > 0.0
    ensures Moved(dd, err, mine, Product(mu / total, err)) + Product(Progress(mu), Square(err) / total) <= dd
  {
    var rate, e := mu / total, err * err;
    var share := rate * mine;
    Fraction(mu, mine, total);
    assert Moved(dd, err, mine, rate * err) == dd - (rate * e) * (2.0 - share) by { MovedBy(dd, err, mine, rate); }
    assert rate * e == mu * (e / total);
    SquareNonNegative(err);
    assert e / total >= 0.0;
    MulMono(2.0 - mu, 2.0 - share, mu * (e / total));
    assert (2.0 - mu) * (mu * (e / total)) == (mu * (2.0 - mu)) * (e / total);
  }

  lemma MovedBy(dd: real, err: real, mine: real, rate: real)
    ensures Moved(dd, err, mine, rate * err) == dd - (rate * (err * err)) * (2.0 - rate * mine)
  {
    var g, e := rate * err, err * err;
    assert g * err == rate * e;
    assert g * g * mine == (rate * e) * (rate * mine);
  }

  lemma NoDrop(dd: real, err: real, mine: real, mu: real)
    ensures Moved(dd, err, mine, Product(0.0, err)) + Product(Progress(mu), 0.0) == dd
    ensures Moved(dd, err, mine, Product(0.0, err)) == dd
  {
  }

  datatype AudioFrame = AudioFrame(mic: Samples, ref: Samples)

  predicate Shaped(frames: seq<AudioFrame>, s: Shape) {
    forall i :: 0 <= i < |frames| ==> |frames[i].mic| == |frames[i].ref| == s.channels
  }

  /** The reference frames seen before and during the first n frames of a run. */
  function History(refs: seq<Samples>, frames: seq<AudioFrame>, n: nat): (r: seq<Samples>)
    requires n <= |frames|
    ensures |r| == |refs| + n
  {
    if n == 0 then refs else History(refs, frames, n - 1) + [frames[n - 1].ref]
  }

  /** The weights of channel c after n frames. */
  function Weights(s: Shape, c: nat, refs: seq<Samples>, w: seq<real>, frames: seq<AudioFrame>, n: nat): (r: seq<real>)
    requires |w| == s.taps && n <= |frames| && Shaped(frames, s) && c < s.channels
    ensures |r| == s.taps
  {
    if n == 0 then w
    else Adapt(History(refs, frames, n), s, Weights(s, c, refs, w, frames, n - 1), c, frames[n - 1].mic[c])
  }

  /** The output sample of channel c at frame n. */
  function Output(s: Shape, c: nat, refs: seq<Samples>, w: seq<real>, frames: seq<AudioFrame>, n: nat): real
    requires |w| == s.taps && n < |frames| && Shaped(frames, s) && c < s.channels
  {
    Err(History(refs, frames, n + 1), Weights(s, c, refs, w, frames, n), c, frames[n].mic[c])
  }

  lemma RunStart(s: Shape, refs: seq<Samples>, frames: seq<AudioFrame>)
    requires Shaped(frames, s)
    ensures History(refs, frames, 0) == refs
    ensures forall c: nat, w: seq<real> :: c < s.channels && |w| == s.taps ==> Weights(s, c, refs, w, frames, 0) == w
  {
  }

  /** One more frame of a run, for any channel and any initial weights. */
  lemma RunStep(s: Shape, refs: seq<Samples>, frames: seq<AudioFrame>, n: nat)
    requires Shaped(frames, s) && n < |frames|
    ensures History(refs, frames, n + 1) == History(refs, frames, n) + [frames[n].ref]
    ensures forall c: nat, w: seq<real> :: c < s.channels && |w| == s.taps ==>
      && Weights(s, c, refs, w, frames, n + 1)
         == Adapt(History(refs, frames, n + 1), s, Weights(s, c, refs, w, frames, n), c, frames[n].mic[c])
      && Output(s, c, refs, w, frames, n)
         == Err(History(refs, frames, n + 1), Weights(s, c, refs, w, frames, n), c, frames[n].mic[c])
  {
    hide Adapt, Err;
  }

  /** The sum of err^2 / P over the updating frames among the first n. */
  function Residual(s: Shape, c: nat, refs: seq<Samples>, w: seq<real>, frames: seq<AudioFrame>, n: nat): real
    requires |w| == s.taps && n <= |frames| && Shaped(frames, s) && c < s.channels
  {
    if n == 0 then 0.0 else
    Residual(s, c, refs, w, frames, n - 1)
    + Energy(History(refs, frames, n), s, Weights(s, c, refs, w, frames, n - 1), c, frames[n - 1].mic[c])
  }

  /** Over a run the residual energy is paid for by the weights getting closer to the echo path. */
  lemma {:induction false} RunBudget(s: Shape, c: nat, refs: seq<Samples>, w: seq<real>, frames: seq<AudioFrame>,
      n: nat, h: seq<real>)
    requires s.Valid() && c < s.channels && c < 8 && |w| == |h| == s.taps && n <= |frames| && Shaped(frames, s)
    requires forall i :: 0 <= i < n ==> IsEcho(History(refs, frames, i + 1), h, c, frames[i].mic[c])
    ensures var paid := Product(Progress(s.mu), Residual(s, c, refs, w, frames, n));
            Deviation(h, Weights(s, c, refs, w, frames, n)) + paid <= Deviation(h, w)
  {
    hide Weights, Residual, Energy, Adapt, Deviation, Progress, IsEcho, History;
    RunUnfold(s, c, refs, w, frames, n);
    if n == 0 {
      NothingYet(Progress(s.mu));
    } else {
      var w', mic, now := Weights(s, c, refs, w, frames, n - 1), frames[n - 1].mic[c], History(refs, frames, n);
      assert IsEcho(History(refs, frames, n - 1 + 1), h, c, mic);
      RunBudget(s, c, refs, w, frames, n - 1, h);
      WeightErrorShrinks(now, s, w', c, mic, h);
      Pay(Progress(s.mu), Deviation(h, w), Deviation(h, w'), Deviation(h, Adapt(now, s, w', c, mic)),
          Residual(s, c, refs, w, frames, n - 1), Energy(now, s, w', c, mic));
    }
  }

  lemma RunUnfold(s: Shape, c: nat, refs: seq<Samples>, w: seq<real>, frames: seq<AudioFrame>, n: nat)
    requires |w| == s.taps && n <= |frames| && Shaped(frames, s) && c < s.channels
    ensures n == 0 ==> Weights(s, c, refs, w, frames, n) == w && Residual(s, c, refs, w, frames, n) == 0.0
    ensures n > 0 ==>
              var w', mic, now := Weights(s, c, refs, w, frames, n - 1), frames[n - 1].mic[c], History(refs, frames, n);
              && Weights(s, c, refs, w, frames, n) == Adapt(now, s, w', c, mic)
              && Residual(s, c, refs, w, frames, n)
                 == Residual(s, c, refs, w, frames, n - 1) + Energy(now, s, w', c, mic)
  {
    hide Adapt, Energy;
  }

  lemma NothingYet(p: real)
    ensures Product(p, 0.0) == 0.0
  {
  }

  lemma Pay(p: real, d0: real, d1: real, d2: real, before: real, gained: real)
    requires d1 + Product(p, before) <= d0 && d2 + Product(p, gained) <= d1
    ensures d2 + Product(p, before + gained) <= d0
  {
    assert p * (before + gained) == p * before + p * gained;
  }

  /** The echo of the reference along a path h of any length. */
  function Echo(refs: seq<Samples>, h: seq<real>, c: nat, n: nat): real
    requires n <= |h|
  {
    if n == 0 then 0.0 else Echo(refs, h, c, n - 1) + h[n - 1] * Past(refs, n - 1, c)
  }

  lemma {:induction false} PaddedEcho(refs: seq<Samples>, h: seq<real>, c: nat, taps: nat, n: nat)
    requires |h| <= taps && n <= taps
    ensures var padded := h + Zeros(taps - |h|);
            Dot(padded, Window(refs, c, taps), n) == Echo(refs, h, c, if n <= |h| then n else |h|)
  {
    if n > 0 { PaddedEcho(refs, h, c, taps, n - 1); }
  }

  lemma {:induction false} PaddedNorm(h: seq<real>, taps: nat, n: nat)
    requires |h| <= taps && n <= taps
    ensures var padded := h + Zeros(taps - |h|);
            && Dot(Minus(padded, Zeros(taps)), Minus(padded, Zeros(taps)), n) == Dot(h, h, if n <= |h| then n else |h|)
  {
    if n > 0 { PaddedNorm(h, taps, n - 1); }
  }

  /**
   * Starting from zero weights, with a microphone that hears only the echo along a path of at most
   * `taps` taps, the total residual energy of any run is at most |h|^2 / (mu (2 - mu)).
   */
  lemma {:induction false} ResidualBound(s: Shape, c: nat, refs: seq<Samples>, frames: seq<AudioFrame>, h: seq<real>)
    requires s.Valid() && c < s.channels && c < 8 && |h| <= s.taps && Shaped(frames, s)
    requires forall i :: 0 <= i < |frames| ==> frames[i].mic[c] == Echo(History(refs, frames, i + 1), h, c, |h|)
    ensures s.mu * (2.0 - s.mu) > 0.0
    ensures Residual(s, c, refs, Zeros(s.taps), frames, |frames|) <= NormSq(h) / (s.mu * (2.0 - s.mu))
  {
    ProgressIs(s.mu);
    hide Weights, Residual, Deviation, NormSq, Progress, IsEcho, Echo, History, Zeros, Shaped;
    var padded, zeros, n := h + Zeros(s.taps - |h|), Zeros(s.taps), |frames|;
    PaddedIsEcho(s, c, refs, frames, h, padded);
    RunBudget(s, c, refs, zeros, frames, n, padded);
    DeviationFacts(h, s.taps, Weights(s, c, refs, zeros, frames, n));
    DivideBudget(Residual(s, c, refs, zeros, frames, n), Deviation(padded, Weights(s, c, refs, zeros, frames, n)),
                 NormSq(h), s.mu);
  }

  lemma ProgressIs(mu: real)
    ensures Progress(mu) == mu * (2.0 - mu)
  {
  }

  /** What the residual counts: err^2 / P of every frame louder than the threshold, and nothing else. */
  lemma ResidualCounts(s: Shape, c: nat, refs: seq<Samples>, w: seq<real>, frames: seq<AudioFrame>, n: nat)
    requires |w| == s.taps && n < |frames| && Shaped(frames, s) && c < s.channels
    ensures var power := TotalPower(History(refs, frames, n + 1), s);
            var err := Output(s, c, refs, w, frames, n);
            Residual(s, c, refs, w, frames, n + 1) - Residual(s, c, refs, w, frames, n)
            == if power > 0.0000000001 then err * err / power else 0.0
  {
    hide TotalPower, Err, Weights, History;
  }

  lemma DeviationFacts(h: seq<real>, taps: nat, w: seq<real>)
    requires |h| <= taps == |w|
    ensures var padded := h + Zeros(taps - |h|);
            Deviation(padded, w) >= 0.0 && Deviation(padded, Zeros(taps)) == NormSq(h)
  {
    PaddedNorm(h, taps, taps);
    NormSqNonNegative(Minus(h + Zeros(taps - |h|), w), taps);
  }

  lemma PaddedIsEcho(s: Shape, c: nat, refs: seq<Samples>, frames: seq<AudioFrame>, h: seq<real>, padded: seq<real>)
    requires c < s.channels && |h| <= s.taps && Shaped(frames, s) && padded == h + Zeros(s.taps - |h|)
    requires forall i :: 0 <= i < |frames| ==> frames[i].mic[c] == Echo(History(refs, frames, i + 1), h, c, |h|)
    ensures forall i :: 0 <= i < |frames| ==> IsEcho(History(refs, frames, i + 1), padded, c, frames[i].mic[c])
  {
    forall i | 0 <= i < |frames| ensures IsEcho(History(refs, frames, i + 1), padded, c, frames[i].mic[c]) {
      PaddedEcho(History(refs, frames, i + 1), h, c, s.taps, s.taps);
      hide Echo, History, Dot;
    }
  }

  lemma DivideBudget(residual: real, left: real, norm: real, mu: real)
    requires 0.0 < mu <= 1.0 && left >= 0.0 && left + Product(Progress(mu), residual) <= norm
    ensures Progress(mu) > 0.0 && residual <= norm / Progress(mu)
  {
    ProgressPositive(mu);
    hide Progress;
    var p := Progress(mu);
    var q := norm / p;
    assert q * p == norm;
    if residual > q { MulLess(q, residual, p); }
  }

  lemma MulLess(a: real, b: real, c: real)
    requires a < b && 0.0 < c
    ensures a * c < b * c
  {
  }

  lemma ProgressPositive(mu: real)
    requires 0.0 < mu <= 1.0
    ensures Progress(mu) > 0.0
  {
    hide Product;
    ProductPositive(mu, 2.0 - mu);
  }

  lemma ProductPositive(a: real, b: real)
    requires a > 0.0 && b > 0.0
    ensures Product(a, b) > 0.0
  {
  }
}
