/** The echo canceller in place: interleaved buffers, a circular delay line and flat weights. */
module EchoCanceller {
  import opened Vectors
  import opened Nlms

  /** The place of channel c of row r in an interleaved buffer. */
  function Flat(r: nat, c: nat, channels: nat): nat { r * channels + c }

  /** Rows do not overlap, and the first `rows` rows fill a buffer of Flat(rows, 0, channels). */
  ghost predicate Layout(rows: nat, channels: nat) {
    && (forall r: nat, c: nat :: r < rows && c < channels ==> Flat(r, c, channels) < Flat(rows, 0, channels))
    && Separate(channels)
  }

  ghost predicate Separate(channels: nat) {
    forall r: nat, c: nat, r': nat, c': nat ::
      c < channels && c' < channels && Flat(r, c, channels) == Flat(r', c', channels) ==> r == r' && c == c'
  }

  lemma FlatLess(r: nat, c: nat, r': nat, c': nat, channels: nat)
    requires r < r' && c < channels
    ensures Flat(r, c, channels) < Flat(r', c', channels)
  {
    var gap := r' - r;
    assert gap * channels >= channels;
    assert (r + gap) * channels == r * channels + gap * channels;
  }

  lemma LayoutHolds(rows: nat, channels: nat)
    ensures Layout(rows, channels)
  {
    forall r: nat, c: nat | r < rows && c < channels ensures Flat(r, c, channels) < Flat(rows, 0, channels) {
      FlatLess(r, c, rows, 0, channels);
    }
    forall r: nat, c: nat, r': nat, c': nat |
      c < channels && c' < channels && Flat(r, c, channels) == Flat(r', c', channels)
      ensures r == r' && c == c'
    {
      if r < r' { FlatLess(r, c, r', c', channels); }
      if r' < r { FlatLess(r', c', r, c, channels); }
    }
  }

  /** The row k frames back from the row `pos` that holds the current frame. */
  function Slot(pos: nat, k: nat, taps: nat): nat
    requires k < taps
  {
    (pos - k + taps) % taps
  }

  /** The row of the k-th most recent frame when `next` is the row to be written next. */
  function Before(next: nat, k: nat, taps: nat): nat
    requires k < taps
  {
    (next - 1 - k + taps) % taps
  }

  /** How the delay line turns when row `pos` is overwritten and `next` comes after it. */
  ghost predicate Turns(pos: nat, next: nat, taps: nat) {
    forall k: nat {:trigger Slot(pos, k, taps)} :: k < taps ==>
      && Slot(pos, k, taps) < taps
      && Before(next, k, taps) == Slot(pos, k, taps)
      && (if k == 0 then Slot(pos, k, taps) == pos
          else Slot(pos, k, taps) != pos && Slot(pos, k, taps) == Before(pos, k - 1, taps))
  }

  lemma ModOnce(a: nat, n: nat)
    requires 0 < n && a < 2 * n
    ensures a % n == if a < n then a else a - n
  {
    if a >= n { assert a == n * 1 + (a - n); }
  }

  lemma {:induction false} TurnsHolds(pos: nat, taps: nat)
    requires pos < taps
    ensures Turns(pos, (pos + 1) % taps, taps)
  {
    ModOnce(pos + 1, taps);
    var next := (pos + 1) % taps;
    forall k: nat {:trigger Slot(pos, k, taps)} | k < taps
      ensures Slot(pos, k, taps) < taps
      ensures Before(next, k, taps) == Slot(pos, k, taps)
      ensures if k == 0 then Slot(pos, k, taps) == pos
              else Slot(pos, k, taps) != pos && Slot(pos, k, taps) == Before(pos, k - 1, taps)
    {
      ModOnce(pos - k + taps, taps);
      ModOnce(next - 1 - k + taps, taps);
    }
  }

  function At(s: seq<real>, i: nat): real { if i < |s| then s[i] else 0.0 }

  /** Index i is a processed cell of the rows from..to. */
  ghost predicate Touched(i: nat, from: nat, to: nat, s: Shape) {
    exists r: nat, c: nat :: from <= r < to && c < s.Active() && i == Flat(r, c, s.channels)
  }

  /** Frame f of an interleaved buffer. */
  function Row(a: seq<real>, f: nat, channels: nat): (r: Samples)
    ensures |r| == channels
  {
    seq(channels, c requires 0 <= c => At(a, Flat(f, c, channels)))
  }

  function FramesOf(mic: seq<real>, ref: seq<real>, s: Shape, n: nat): (frames: seq<AudioFrame>)
    ensures |frames| == n && Shaped(frames, s)
  {
    seq(n, f requires 0 <= f => AudioFrame(Row(mic, f, s.channels), Row(ref, f, s.channels)))
  }

  /** The state and buffers at the start of a call. */
  datatype Start = Start(refs: seq<Samples>, weights: seq<seq<real>>, mic: seq<real>, ref: seq<real>, out: seq<real>) {
    ghost predicate Fits(s: Shape) {
      |weights| == s.channels && forall c: nat :: c < s.channels ==> |weights[c]| == s.taps
    }
  }

  class Aec {
    const shape: Shape
    const weights: array<real>
    const delayLine: array<real>
    var delayPos: nat
    /** Every reference frame inserted so far, oldest first. */
    ghost var refs: seq<Samples>

    ghost predicate Room() {
      && shape.Valid() && Layout(shape.taps, shape.channels)
      && weights.Length == delayLine.Length == Flat(shape.taps, 0, shape.channels)
      && weights != delayLine
    }

    ghost predicate Sized()
      reads this
    {
      && Room() && delayPos < shape.taps
      && Turns(delayPos, (delayPos + 1) % shape.taps, shape.taps)
    }

    /** Between frames: the row to be written next is delayPos. */
    ghost predicate Valid()
      reads this, delayLine
    {
      && Sized()
      && (forall k: nat :: k < shape.taps ==> Before(delayPos, k, shape.taps) < shape.taps)
      && (forall k: nat, c: nat :: k < shape.taps && c < shape.channels ==>
            delayLine[Flat(Before(delayPos, k, shape.taps), c, shape.channels)] == Past(refs, k, c))
    }

    /** Within a frame: row delayPos holds the current reference frame, k rows back the one k frames ago. */
    ghost predicate Loaded()
      reads this, delayLine
    {
      && Sized()
      && (forall k: nat :: k < shape.taps ==> Slot(delayPos, k, shape.taps) < shape.taps)
      && (forall k: nat, c: nat :: k < shape.taps && c < shape.channels ==>
            delayLine[Flat(Slot(delayPos, k, shape.taps), c, shape.channels)] == Past(refs, k, c))
    }

    /** The weights of channel c. */
    ghost function W(c: nat): (w: seq<real>)
      requires Room() && c < shape.channels
      reads weights
      ensures |w| == shape.taps
    {
      seq(shape.taps, k requires 0 <= k < shape.taps reads weights => weights[Flat(k, c, shape.channels)])
    }

    constructor (sampleRate: int, channels: nat, filterLengthMs: int, stepSize: real)
      requires sampleRate > 0 && channels > 0
      ensures Valid() && fresh(weights) && fresh(delayLine)
      ensures shape.channels == channels
      ensures shape.taps == if filterLengthMs * sampleRate / 1000 <= 0 then 256 else filterLengthMs * sampleRate / 1000
      ensures shape.mu == if 0.0 < stepSize <= 1.0 then stepSize else 0.5
      ensures refs == [] && delayPos == 0
      ensures forall c: nat :: c < channels ==> W(c) == Zeros(shape.taps)
    {
      var taps := filterLengthMs * sampleRate / 1000;
      if taps <= 0 { taps := 256; }
      shape := Shape(channels, taps, if 0.0 < stepSize <= 1.0 then stepSize else 0.5);
      weights := new real[Flat(taps, 0, channels)](_ => 0.0);
      delayLine := new real[Flat(taps, 0, channels)](_ => 0.0);
      delayPos := 0;
      refs := [];
      LayoutHolds(taps, channels);
      TurnsHolds(0, taps);
      FirstRows(taps);
      new;
      hide *;
      FreshState();
    }

    /** The state right after allocation. */
    lemma FreshState()
      requires Sized() && delayPos == 0 && refs == []
      requires forall k: nat :: k < shape.taps ==> Before(0, k, shape.taps) < shape.taps
      requires forall i: nat :: i < weights.Length ==> weights[i] == 0.0 && delayLine[i] == 0.0
      ensures Valid()
      ensures forall c: nat :: c < shape.channels ==> W(c) == Zeros(shape.taps)
    {
      hide Flat, Before, Slot, Turns, Separate;
      forall c: nat | c < shape.channels ensures W(c) == Zeros(shape.taps) {}
    }

    /** aec_create; memory is taken to be available. */
    static method Create(sampleRate: int, channels: int, filterLengthMs: int, stepSize: real) returns (aec: Aec?)
      ensures aec == null <==> sampleRate <= 0 || channels <= 0
      ensures aec != null ==> fresh(aec) && aec.Valid() && aec.refs == [] && aec.shape.channels == channels
      ensures var taps := filterLengthMs * sampleRate / 1000;
              aec != null ==> aec.shape.taps == if taps <= 0 then 256 else taps
      ensures aec != null ==> aec.shape.mu == if 0.0 < stepSize <= 1.0 then stepSize else 0.5
      ensures aec != null ==> forall c: nat :: c < channels ==> aec.W(c) == Zeros(aec.shape.taps)
    {
      if sampleRate <= 0 || channels <= 0 { return null; }
      aec := new Aec(sampleRate, channels, filterLengthMs, stepSize);
    }

    /** The copy of one reference frame into row delayPos. */
    method WriteRow(ref: array<real>, f: nat)
      requires Sized() && ref != delayLine
      requires Layout(f + 1, shape.channels) && Flat(f + 1, 0, shape.channels) <= ref.Length
      modifies delayLine
      ensures forall c: nat :: c < shape.channels ==>
        delayLine[Flat(delayPos, c, shape.channels)] == Row(ref[..], f, shape.channels)[c]
      ensures forall r: nat, c: nat :: r < shape.taps && c < shape.channels && r != delayPos ==>
        delayLine[Flat(r, c, shape.channels)] == old(delayLine[Flat(r, c, shape.channels)])
    {
      hide Flat, Turns;
      ghost var was := delayLine[..];
      var c := 0;
      while c < shape.channels
        invariant c <= shape.channels && ref[..] == old(ref[..])
        invariant forall c': nat :: c' < c ==>
          delayLine[Flat(delayPos, c', shape.channels)] == ref[Flat(f, c', shape.channels)]
        invariant forall r: nat, c': nat :: r < shape.taps && c' < shape.channels && r != delayPos ==>
          delayLine[Flat(r, c', shape.channels)] == was[Flat(r, c', shape.channels)]
      {
        delayLine[Flat(delayPos, c, shape.channels)] := ref[Flat(f, c, shape.channels)];
        c := c + 1;
      }
    }

    /** Writing one reference frame over the oldest one. */
    method InsertFrame(ref: array<real>, f: nat)
      requires Valid() && ref != delayLine
      requires Layout(f + 1, shape.channels) && Flat(f + 1, 0, shape.channels) <= ref.Length
      modifies delayLine, this`refs
      ensures Loaded() && delayPos == old(delayPos)
      ensures refs == old(refs) + [Row(ref[..], f, shape.channels)]
    {
      hide Flat, Before, Slot, Row, Past;
      ghost var row, was := Row(ref[..], f, shape.channels), delayLine[..];
      WriteRow(ref, f);
      OneFrameOn(was, delayLine[..], refs, row, delayPos, shape.taps, shape.channels);
      refs := refs + [row];
    }

    /** The dot products over the delay line, all channels at once. */
    method EchoEstimate() returns (echo: array<real>)
      requires Loaded()
      ensures fresh(echo) && echo.Length == MAX_CHANNELS
      ensures forall c: nat :: c < shape.Active() ==> echo[c] == Inner(W(c), Window(refs, c, shape.taps))
    {
      hide Flat, Slot, Product, Separate, Turns;
      ghost var w, d := weights[..], delayLine[..];
      echo := new real[MAX_CHANNELS](_ => 0.0);
      var k := 0;
      while k < shape.taps
        invariant k <= shape.taps
        invariant forall c: nat :: c < shape.Active() ==> echo[c] == FlatDot(shape, w, d, delayPos, c, k)
      {
        var row := Slot(delayPos, k, shape.taps);
        var c := 0;
        while c < shape.Active()
          invariant c <= shape.Active()
          invariant forall c': nat :: c' < shape.Active() ==>
            echo[c'] == FlatDot(shape, w, d, delayPos, c', if c' < c then k + 1 else k)
        {
          echo[c] := echo[c] + Product(weights[Flat(k, c, shape.channels)], delayLine[Flat(row, c, shape.channels)]);
          c := c + 1;
        }
        k := k + 1;
      }
      forall c: nat | c < shape.Active() ensures echo[c] == Inner(W(c), Window(refs, c, shape.taps)) {
        FlatDotIsDot(shape, w, d, delayPos, refs, c, W(c), shape.taps);
      }
    }

    /** The power of the delay line over all processed channels. */
    method ReferencePower() returns (power: real)
      requires Loaded()
      ensures power == TotalPower(refs, shape)
    {
      hide Flat, Slot, Square, Separate, Turns;
      power := 0.0;
      var k := 0;
      while k < shape.taps
        invariant k <= shape.taps && power == Power(refs, shape, k, 0)
      {
        var row := Slot(delayPos, k, shape.taps);
        var c := 0;
        while c < shape.Active()
          invariant c <= shape.Active() && power == Power(refs, shape, k, c)
        {
          power := power + Square(delayLine[Flat(row, c, shape.channels)]);
          c := c + 1;
        }
        k := k + 1;
      }
    }

    /** The weight update loop of one channel, cell by cell. */
    method UpdateCells(c: nat, gain: real)
      requires Loaded() && c < shape.Active()
      modifies weights
      ensures forall r: nat, c': nat :: r < shape.taps && c' < shape.channels ==>
        weights[Flat(r, c', shape.channels)]
        == old(weights[Flat(r, c', shape.channels)]) + if c' == c then Product(gain, Past(refs, r, c)) else 0.0
    {
      hide Flat, Slot, Product, Turns, Separate, Past;
      ghost var was := weights[..];
      var k := 0;
      while k < shape.taps
        invariant k <= shape.taps
        invariant forall r: nat, c': nat :: r < shape.taps && c' < shape.channels ==>
          weights[Flat(r, c', shape.channels)]
          == was[Flat(r, c', shape.channels)] + if c' == c && r < k then Product(gain, Past(refs, r, c)) else 0.0
      {
        var row := Slot(delayPos, k, shape.taps);
        OnlyCell(k, c, shape.channels);
        weights[Flat(k, c, shape.channels)] :=
            weights[Flat(k, c, shape.channels)] + Product(gain, delayLine[Flat(row, c, shape.channels)]);
        k := k + 1;
      }
    }

    method UpdateChannel(c: nat, gain: real)
      requires Loaded() && c < shape.Active()
      modifies weights
      ensures Loaded()
      ensures W(c) == AddScaled(old(W(c)), gain, Window(refs, c, shape.taps))
      ensures forall c': nat :: c' < shape.channels && c' != c ==> W(c') == old(W(c'))
    {
      hide Flat, Slot, Product, Turns, Separate, Past;
      UpdateCells(c, gain);
      assert W(c) == AddScaled(old(W(c)), gain, Window(refs, c, shape.taps));
      forall c': nat | c' < shape.channels && c' != c ensures W(c') == old(W(c')) {}
    }

    /** The buffers of a call: large enough, and apart from the state; `out` may be `mic`. */
    ghost predicate Buffers(mic: array<real>, ref: array<real>, out: array<real>, frameCount: nat)
      reads this
    {
      && Layout(frameCount, shape.channels)
      && Flat(frameCount, 0, shape.channels) <= mic.Length
      && Flat(frameCount, 0, shape.channels) <= ref.Length
      && Flat(frameCount, 0, shape.channels) <= out.Length
      && out != ref && {mic, ref, out} !! {weights, delayLine}
    }

    /** The channels of one frame: output the error, then adapt. */
    method CancelFrame(mic: array<real>, out: array<real>, f: nat, echo: array<real>, rate: real)
      requires Loaded() && echo != out && echo != weights && echo.Length == MAX_CHANNELS
      requires out != delayLine && out != weights && mic != weights && mic != delayLine
      requires Layout(f + 1, shape.channels)
      requires Flat(f + 1, 0, shape.channels) <= mic.Length && Flat(f + 1, 0, shape.channels) <= out.Length
      requires rate == Rate(refs, shape)
      requires forall c: nat :: c < shape.Active() ==> echo[c] == Inner(W(c), Window(refs, c, shape.taps))
      modifies weights, out
      ensures Loaded()
      ensures forall c: nat :: c < shape.Active() ==>
        && W(c) == Adapt(refs, shape, old(W(c)), c, old(mic[Flat(f, c, shape.channels)]))
        && out[Flat(f, c, shape.channels)] == Err(refs, old(W(c)), c, old(mic[Flat(f, c, shape.channels)]))
      ensures forall c: nat :: shape.Active() <= c < shape.channels ==> W(c) == old(W(c))
      ensures forall i: nat :: i < out.Length && !Touched(i, f, f + 1, shape) ==> out[i] == old(out[i])
    {
      hide Flat, Slot, Product, Turns, Past, Rate, Separate, Window, Inner;
      var c := 0;
      while c < shape.Active()
        invariant c <= shape.Active() && Loaded()
        invariant forall c': nat :: c' < c ==>
          && W(c') == Adapt(refs, shape, old(W(c')), c', old(mic[Flat(f, c', shape.channels)]))
          && out[Flat(f, c', shape.channels)] == Err(refs, old(W(c')), c', old(mic[Flat(f, c', shape.channels)]))
        invariant forall c': nat :: c <= c' < shape.channels ==> W(c') == old(W(c'))
        invariant forall c': nat :: c <= c' < shape.channels ==>
          mic[Flat(f, c', shape.channels)] == old(mic[Flat(f, c', shape.channels)])
        invariant forall i: nat :: i < out.Length && (forall c': nat :: c' < c ==> i != Flat(f, c', shape.channels)) ==>
          out[i] == old(out[i])
      {
        OnlyCell(f, c, shape.channels);
        var err := mic[Flat(f, c, shape.channels)] - echo[c];
        out[Flat(f, c, shape.channels)] := err;
        UpdateChannel(c, Product(rate, err));
        c := c + 1;
      }
    }

    /** One frame: insert the reference, estimate the echo, measure the power, cancel, advance. */
    method ProcessFrame(mic: array<real>, ref: array<real>, out: array<real>, f: nat)
      requires Valid() && Buffers(mic, ref, out, f + 1)
      modifies weights, delayLine, this`delayPos, this`refs, out
      ensures Valid()
      ensures refs == old(refs) + [old(Row(ref[..], f, shape.channels))]
      ensures forall c: nat :: c < shape.Active() ==>
        && W(c) == Adapt(refs, shape, old(W(c)), c, old(mic[Flat(f, c, shape.channels)]))
        && out[Flat(f, c, shape.channels)] == Err(refs, old(W(c)), c, old(mic[Flat(f, c, shape.channels)]))
      ensures forall c: nat :: shape.Active() <= c < shape.channels ==> W(c) == old(W(c))
      ensures forall i: nat :: i < out.Length && !Touched(i, f, f + 1, shape) ==> out[i] == old(out[i])
    {
      hide Flat, Slot, Before, Separate, Past, Window, Inner;
      InsertFrame(ref, f);
      var echo := EchoEstimate();
      var power := ReferencePower();
      var rate := if power > SILENCE then shape.mu / power else 0.0;
      CancelFrame(mic, out, f, echo, rate);
      Advance();
    }

    /** The state after f frames of a call that began in state `start`, against the specification. */
    ghost predicate Done(start: Start, mic: array<real>, ref: array<real>, out: array<real>, n: nat, f: nat)
      requires Room() && f <= n && start.Fits(shape) && out.Length == |start.out|
      requires Layout(n, shape.channels)
      requires Flat(n, 0, shape.channels) <= mic.Length && Flat(n, 0, shape.channels) <= out.Length
      reads this, weights, mic, ref, out
    {
      var frames := FramesOf(start.mic, start.ref, shape, n);
      && refs == History(start.refs, frames, f) && ref[..] == start.ref
      && (forall c: nat :: c < shape.channels ==>
            var w := start.weights[c];
            W(c) == if c < shape.Active() then Weights(shape, c, start.refs, w, frames, f) else w)
      && (forall c: nat, r: nat :: c < shape.Active() && r < f ==>
            out[Flat(r, c, shape.channels)] == Output(shape, c, start.refs, start.weights[c], frames, r))
      && (forall c: nat, r: nat :: c < shape.channels && f <= r < n ==>
            mic[Flat(r, c, shape.channels)] == At(start.mic, Flat(r, c, shape.channels)))
      && (forall i: nat :: i < out.Length && !Touched(i, 0, f, shape) ==> out[i] == start.out[i])
    }

    method ProcessNext(mic: array<real>, ref: array<real>, out: array<real>, n: nat, f: nat, ghost start: Start)
      requires Valid() && Buffers(mic, ref, out, n) && f < n && start.Fits(shape) && out.Length == |start.out|
      requires Done(start, mic, ref, out, n, f)
      modifies weights, delayLine, this`delayPos, this`refs, out
      ensures Valid() && Done(start, mic, ref, out, n, f + 1)
    {
      hide Flat, Slot, Before, Past, Window, Inner, Adapt, Err, FramesOf, Row, Turns, Touched, Separate, Weights,
          Output, History;
      FrameFits(mic, ref, out, f, n);
      FrameRow(start.mic, start.ref, shape, n, f);
      TouchedRows(f, shape);
      RunStep(shape, start.refs, FramesOf(start.mic, start.ref, shape, n), f);
      ProcessFrame(mic, ref, out, f);
    }

    method ProcessAll(mic: array<real>, ref: array<real>, out: array<real>, n: nat, ghost start: Start)
      requires Valid() && Buffers(mic, ref, out, n) && start.Fits(shape) && out.Length == |start.out|
      requires Done(start, mic, ref, out, n, 0)
      modifies weights, delayLine, this`delayPos, this`refs, out
      ensures Valid() && Done(start, mic, ref, out, n, n)
    {
      hide Done, Turns, Separate;
      var f := 0;
      while f < n
        invariant f <= n && Valid() && Done(start, mic, ref, out, n, f)
      {
        ProcessNext(mic, ref, out, n, f, start);
        f := f + 1;
      }
    }

    /** aec_process: every processed channel runs the filter of the specification over the call's frames. */
    method Process(mic: array<real>, ref: array<real>, out: array<real>, frameCount: nat)
      requires Valid() && Buffers(mic, ref, out, frameCount)
      modifies weights, delayLine, this`delayPos, this`refs, out
      ensures Valid()
      ensures var frames := FramesOf(old(mic[..]), old(ref[..]), shape, frameCount);
              && refs == History(old(refs), frames, frameCount)
              && (forall c: nat :: c < shape.channels && c < 8 ==>
                    && W(c) == Weights(shape, c, old(refs), old(W(c)), frames, frameCount)
                    && forall f: nat :: f < frameCount ==>
                         out[Flat(f, c, shape.channels)] == Output(shape, c, old(refs), old(W(c)), frames, f))
      ensures forall c: nat :: 8 <= c < shape.channels ==> W(c) == old(W(c))
      ensures forall i: nat :: i < out.Length && !Touched(i, 0, frameCount, shape) ==> out[i] == old(out[i])
    {
      ghost var start := Start(refs, seq(shape.channels, c requires 0 <= c < shape.channels reads weights => W(c)),
          mic[..], ref[..], out[..]);
      hide Flat, Slot, Before, Past, FramesOf, Turns, Touched, Separate, Weights, Output, History;
      DoneAtStart(mic, ref, out, frameCount, start);
      ProcessAll(mic, ref, out, frameCount, start);
    }

    lemma DoneAtStart(mic: array<real>, ref: array<real>, out: array<real>, n: nat, start: Start)
      requires Room() && Buffers(mic, ref, out, n) && start.Fits(shape)
      requires start.refs == refs && start.mic == mic[..] && start.ref == ref[..] && start.out == out[..]
      requires forall c: nat :: c < shape.channels ==> start.weights[c] == W(c)
      ensures Done(start, mic, ref, out, n, 0)
    {
      hide Flat, Touched, Separate, FramesOf;
      RunStart(shape, refs, FramesOf(start.mic, start.ref, shape, n));
    }

    lemma FrameFits(mic: array<real>, ref: array<real>, out: array<real>, f: nat, frameCount: nat)
      requires Buffers(mic, ref, out, frameCount) && f < frameCount
      ensures Buffers(mic, ref, out, f + 1)
    {
      LayoutHolds(f + 1, shape.channels);
      assert (f + 1) * shape.channels <= frameCount * shape.channels;
    }

    method Advance()
      requires Loaded()
      modifies this`delayPos
      ensures Valid()
    {
      TurnsHolds((delayPos + 1) % shape.taps, shape.taps);
      hide Flat, Slot, Before, Separate, Past;
      delayPos := (delayPos + 1) % shape.taps;
    }
  }

  /** The cells of frame f are apart from those of every other frame. */
  lemma TouchedRows(f: nat, s: Shape)
    requires Separate(s.channels)
    ensures forall i: nat {:trigger Touched(i, 0, f + 1, s)} :: !Touched(i, 0, f + 1, s) ==>
      !Touched(i, 0, f, s) && !Touched(i, f, f + 1, s)
    ensures forall r: nat, c: nat :: r != f && c < s.channels ==> !Touched(Flat(r, c, s.channels), f, f + 1, s)
  {
    hide Flat;
  }

  lemma FrameRow(mic: seq<real>, ref: seq<real>, s: Shape, n: nat, f: nat)
    requires f < n
    ensures FramesOf(mic, ref, s, n)[f] == AudioFrame(Row(mic, f, s.channels), Row(ref, f, s.channels))
    ensures forall c: nat :: c < s.channels ==> Row(mic, f, s.channels)[c] == At(mic, Flat(f, c, s.channels))
  {
  }

  lemma OnlyCell(k: nat, c: nat, channels: nat)
    requires Separate(channels) && c < channels
    ensures forall r: nat, c': nat :: c' < channels && (r != k || c' != c) ==>
      Flat(r, c', channels) != Flat(k, c, channels)
  {
  }

  /** The sum the echo loop accumulates for channel c over the first k taps. */
  function FlatDot(s: Shape, w: seq<real>, d: seq<real>, pos: nat, c: nat, k: nat): real
    requires k <= s.taps
  {
    if k == 0 then 0.0 else
    FlatDot(s, w, d, pos, c, k - 1)
    + Product(At(w, Flat(k - 1, c, s.channels)), At(d, Flat(Slot(pos, k - 1, s.taps), c, s.channels)))
  }

  lemma {:induction false} FlatDotIsDot(s: Shape, w: seq<real>, d: seq<real>, pos: nat, refs: seq<Samples>, c: nat,
      wc: seq<real>, k: nat)
    requires k <= s.taps == |wc| && c < s.channels
    requires forall k: nat :: k < s.taps ==> wc[k] == At(w, Flat(k, c, s.channels))
    requires forall k: nat :: k < s.taps ==> At(d, Flat(Slot(pos, k, s.taps), c, s.channels)) == Past(refs, k, c)
    ensures FlatDot(s, w, d, pos, c, k) == Dot(wc, Window(refs, c, s.taps), k)
  {
    hide Flat, Slot, Product, At, Past;
    if k > 0 { FlatDotIsDot(s, w, d, pos, refs, c, wc, k - 1); }
  }

  /** Every row is one frame older, except row `pos`, which holds the new one. */
  lemma OneFrameOn(was: seq<real>, now: seq<real>, refs: seq<Samples>, row: Samples, pos: nat, taps: nat, channels: nat)
    requires 0 < taps && pos < taps && Turns(pos, (pos + 1) % taps, taps) && Layout(taps, channels)
    requires |was| == |now| == Flat(taps, 0, channels) && |row| == channels
    requires forall k: nat :: k < taps ==> Before(pos, k, taps) < taps
    requires forall k: nat, c: nat :: k < taps && c < channels ==>
      was[Flat(Before(pos, k, taps), c, channels)] == Past(refs, k, c)
    requires forall c: nat :: c < channels ==> now[Flat(pos, c, channels)] == row[c]
    requires forall r: nat, c: nat :: r < taps && c < channels && r != pos ==>
      now[Flat(r, c, channels)] == was[Flat(r, c, channels)]
    ensures forall k: nat, c: nat :: k < taps && c < channels ==>
      now[Flat(Slot(pos, k, taps), c, channels)] == Past(refs + [row], k, c)
  {
    hide Flat, Before, Slot;
    forall k: nat, c: nat | k < taps && c < channels
      ensures now[Flat(Slot(pos, k, taps), c, channels)] == Past(refs + [row], k, c)
    {
      if k > 0 {
        assert was[Flat(Before(pos, k - 1, taps), c, channels)] == Past(refs, k - 1, c) == Past(refs + [row], k, c);
      }
    }
  }

  lemma FirstRows(taps: nat)
    requires taps > 0
    ensures forall k: nat :: k < taps ==> Before(0, k, taps) < taps
  {
  }
}
