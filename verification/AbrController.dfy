/** The bitrate decision engine, and what it guarantees over whole runs (src/abr/abr_controller.c). */
module AbrController {
  import opened AbrEstimator
  import opened AbrLadder

  /** ABR_SAFETY_MARGIN, taken as the decimal it is written as. */
  const SAFETY_MARGIN: real := 0.85
  const HOLD_TICKS: nat := 3

  datatype Decision = Decision(level: int, changed: bool, isDowngrade: bool)

  /** The controller's fields; forced is -1 in automatic mode. */
  datatype Ctrl = Ctrl(current: nat, stable: nat, forced: int)

  /** One tick of a ladder with n levels; `target` is the selected level. */
  function Tick(c: Ctrl, n: nat, ready: bool, target: nat): Ctrl
    requires n > 0
  {
    if c.forced >= 0 then c.(current := c.forced)
    else if !ready then c.(current := 0)
    else if target < c.current then c.(current := target, stable := 0)
    else if target > c.current then
      if c.stable + 1 >= HOLD_TICKS
      then c.(current := if c.current + 1 >= n then n - 1 else c.current + 1, stable := 0)
      else c.(stable := c.stable + 1)
    else c.(stable := c.stable + 1)
  }

  /** The level the ladder search returns: the count of the leading levels that fit, less one. */
  function Best(levels: seq<Level>, budget: real, i: nat): (best: nat)
    requires i < |levels| && Ascending(levels)
    requires i > 0 ==> Fits(levels, i, budget)
    ensures IsBest(levels, budget, best)
    decreases |levels| - i
  {
    if i + 1 < |levels| && Fits(levels, i + 1, budget) then Best(levels, budget, i + 1) else i
  }

  class Controller {
    const estimator: Estimator
    const ladder: Ladder
    var currentIdx: nat
    var stableTicks: nat
    var forcedIdx: int

    ghost predicate Valid()
      reads this, estimator, ladder, ladder.levels
    {
      && estimator.Valid() && ladder.Valid()
      && currentIdx < ladder.count && -1 <= forcedIdx < ladder.count
    }

    function Value(): Ctrl reads this { Ctrl(currentIdx, stableTicks, forcedIdx) }

    constructor (estimator: Estimator, ladder: Ladder)
      requires estimator.Valid() && ladder.Valid()
      ensures Valid() && Value() == Ctrl(0, 0, -1) && this.estimator == estimator && this.ladder == ladder
    {
      this.estimator, this.ladder := estimator, ladder;
      currentIdx, stableTicks, forcedIdx := 0, 0, -1;
    }

    method ForceLevel(level: int) returns (result: int)
      requires Valid()
      modifies this
      ensures Valid()
      ensures result == (if -1 <= level < ladder.count then 0 else -1)
      ensures result == -1 ==> Value() == old(Value())
      ensures result == 0 ==>
                Value() == Ctrl(if level >= 0 then level else old(currentIdx), old(stableTicks), level)
    {
      if level < -1 || level >= ladder.count { return -1; }
      forcedIdx := level;
      if level >= 0 { currentIdx := level; }
      return 0;
    }

    method DoTick() returns (out: Decision)
      requires Valid()
      modifies this
      ensures Valid()
      ensures Value() == Tick(old(Value()), ladder.count, estimator.IsReady(),
                              Best(ladder.levels[..ladder.count], estimator.ewma * SAFETY_MARGIN, 0))
      ensures out == Decision(currentIdx, currentIdx != old(currentIdx), currentIdx < old(currentIdx))
    {
      var prev := currentIdx;
      if forcedIdx >= 0 {
        currentIdx := forcedIdx;
        return Decision(forcedIdx, forcedIdx != prev, forcedIdx < prev);
      }
      var ready := estimator.IsReady();
      if !ready {
        currentIdx := 0;
        return Decision(0, 0 != prev, 0 < prev);
      }
      var budget := estimator.ewma * SAFETY_MARGIN;
      var target := ladder.Select(budget);
      BestIsUnique(ladder.levels[..ladder.count], budget, target, Best(ladder.levels[..ladder.count], budget, 0));
      var n: int := ladder.count;
      var newIdx: int;
      if target < currentIdx {
        newIdx := target;
        stableTicks := 0;
      } else if target > currentIdx {
        stableTicks := stableTicks + 1;
        if stableTicks >= HOLD_TICKS {
          newIdx := currentIdx + 1;
          if newIdx >= n { newIdx := n - 1; }
          stableTicks := 0;
        } else {
          newIdx := currentIdx;
        }
      } else {
        stableTicks := stableTicks + 1;
        newIdx := currentIdx;
      }
      out := Decision(newIdx, newIdx != prev, newIdx < prev);
      currentIdx := newIdx;
    }
  }

  /** What may happen to a stream: bandwidth samples, a reset, a level forced or released, ticks. */
  datatype Event = Sample(bps: real) | ResetEstimate | Force(level: int) | TickNow

  /** A run on a fixed ladder, with its counters. */
  datatype World = World(samples: seq<real>, ctrl: Ctrl, ticks: nat, upgrades: nat)

  function Budget(alpha: real, samples: seq<real>): real { Ewma(alpha, samples) * SAFETY_MARGIN }

  function Step(levels: seq<Level>, alpha: real, w: World, e: Event): World
    requires levels != [] && Ascending(levels)
  {
    match e
    case Sample(bps) => w.(samples := w.samples + [bps])
    case ResetEstimate => w.(samples := [])
    case Force(level) =>
      if level < -1 || level >= |levels| then w
      else w.(ctrl := w.ctrl.(forced := level, current := if level >= 0 then level else w.ctrl.current))
    case TickNow =>
      var ctrl := Tick(w.ctrl, |levels|, |w.samples| >= MIN_SAMPLES, Best(levels, Budget(alpha, w.samples), 0));
      World(w.samples, ctrl, w.ticks + 1,
            w.upgrades + if ctrl.current > w.ctrl.current && w.ctrl.forced < 0 then 1 else 0)
  }

  function Exec(levels: seq<Level>, alpha: real, w: World, events: seq<Event>): World
    requires levels != [] && Ascending(levels)
    decreases |events|
  {
    if events == [] then w else Exec(levels, alpha, Step(levels, alpha, w, events[0]), events[1..])
  }

  const START := World([], Ctrl(0, 0, -1), 0, 0)

  ghost predicate Inv(levels: seq<Level>, w: World) {
    && w.ctrl.current < |levels| && -1 <= w.ctrl.forced < |levels|
    && (w.ctrl.forced >= 0 ==> w.ctrl.current == w.ctrl.forced)
    && HOLD_TICKS * w.upgrades + w.ctrl.stable <= w.ticks
  }

  lemma {:induction false} ExecKeeps(levels: seq<Level>, alpha: real, w: World, events: seq<Event>)
    requires levels != [] && Ascending(levels) && Inv(levels, w)
    ensures Inv(levels, Exec(levels, alpha, w, events))
    decreases |events|
  {
    if events != [] { ExecKeeps(levels, alpha, Step(levels, alpha, w, events[0]), events[1..]); }
  }

  /** Over every run the level exists, and three ticks are spent for each automatic upgrade. */
  lemma UpgradesAreEarned(levels: seq<Level>, alpha: real, events: seq<Event>)
    requires levels != [] && Ascending(levels)
    ensures var w := Exec(levels, alpha, START, events);
            w.ctrl.current < |levels| && 3 * w.upgrades + w.ctrl.stable <= w.ticks
  {
    ExecKeeps(levels, alpha, START, events);
  }

  /**
   * After an automatic tick with a ready estimate, the chosen level is the lowest or needs at most
   * 0.85 times the average, hence at most 0.85 times some sample since the last reset.
   */
  lemma TickWithinBudget(levels: seq<Level>, alpha: real, events: seq<Event>) returns (top: nat)
    requires levels != [] && Ascending(levels) && 0.0 < alpha < 1.0
    requires var w := Exec(levels, alpha, START, events); |w.samples| >= MIN_SAMPLES && w.ctrl.forced < 0
    ensures var w := Exec(levels, alpha, START, events);
            var level := Step(levels, alpha, w, TickNow).ctrl.current;
            && level < |levels| && top < |w.samples|
            && (level > 0 ==>
                  && levels[level].bitrate as real <= 0.85 * Ewma(alpha, w.samples)
                  && levels[level].bitrate as real <= 0.85 * w.samples[top])
  {
    ExecKeeps(levels, alpha, START, events);
    var w := Exec(levels, alpha, START, events);
    var lo;
    lo, top := EwmaBetween(alpha, w.samples);
    var best := Best(levels, Budget(alpha, w.samples), 0);
    if best > 0 { assert Fits(levels, best, Budget(alpha, w.samples)); }
  }

  /** k ticks while the ready estimate, and so the target, stays the same. */
  function Ticks(c: Ctrl, n: nat, target: nat, k: nat): Ctrl
    requires n > 0
  {
    if k == 0 then c else Tick(Ticks(c, n, target, k - 1), n, true, target)
  }

  lemma {:induction false} ApproachFromBelow(c: Ctrl, n: nat, target: nat, k: nat)
    requires c.forced < 0 && c.current <= target < n
    ensures var c' := Ticks(c, n, target, k);
            && c'.forced == c.forced && c.current <= c'.current <= target
            && (k > 0 && c'.current < target ==> c'.stable < HOLD_TICKS)
            && (c'.current < target ==> HOLD_TICKS * (c'.current - c.current) + c'.stable >= k)
  {
    if k > 0 { ApproachFromBelow(c, n, target, k - 1); }
  }

  lemma {:induction false} DownAtOnce(c: Ctrl, n: nat, target: nat, k: nat)
    requires c.forced < 0 && target <= c.current && target < n && k > 0
    ensures Ticks(c, n, target, k).current == target && Ticks(c, n, target, k).forced == c.forced
  {
    if k > 1 { DownAtOnce(c, n, target, k - 1); }
  }

  /**
   * Under a constant ready estimate the level never moves away from its target: it is there within
   * one tick from above and 3 (target - current) ticks from below, and stays.
   */
  lemma Converges(c: Ctrl, n: nat, target: nat, k: nat)
    requires c.forced < 0 && c.current < n && target < n
    ensures c.current >= target && k >= 1 ==> Ticks(c, n, target, k).current == target
    ensures c.current <= target && k >= 3 * (target - c.current) ==> Ticks(c, n, target, k).current == target
    ensures c.current <= target ==>
              c.current <= Ticks(c, n, target, k).current <= Ticks(c, n, target, k + 1).current <= target
  {
    if c.current <= target {
      ApproachFromBelow(c, n, target, k);
      ApproachFromBelow(c, n, target, k + 1);
    }
    if c.current >= target && k > 0 { DownAtOnce(c, n, target, k); }
  }

  /** k rounds of a sample of b followed by a tick. */
  function Rounds(b: real, k: nat): seq<Event> { if k == 0 then [] else [Sample(b), TickNow] + Rounds(b, k - 1) }

  /** A stream that has shown nothing but b since the last reset, long enough to be ready. */
  ghost predicate Steady(w: World, b: real) {
    |w.samples| >= MIN_SAMPLES && forall i :: 0 <= i < |w.samples| ==> w.samples[i] == b
  }

  /** One round of a steady stream is one tick towards the level for b. */
  lemma {:induction false} RoundIsTick(levels: seq<Level>, alpha: real, w: World, b: real)
    requires levels != [] && Ascending(levels) && Steady(w, b)
    ensures var w' := Step(levels, alpha, Step(levels, alpha, w, Sample(b)), TickNow);
            Steady(w', b) && w'.ctrl == Tick(w.ctrl, |levels|, true, Best(levels, b * SAFETY_MARGIN, 0))
  {
    hide Tick, Best, Ascending;
    EwmaConstant(alpha, w.samples + [b], b);
  }

  lemma {:induction false} RoundsAreTicks(levels: seq<Level>, alpha: real, w: World, b: real, k: nat)
    requires levels != [] && Ascending(levels) && Steady(w, b)
    ensures Exec(levels, alpha, w, Rounds(b, k)).ctrl
         == Ticks(w.ctrl, |levels|, Best(levels, b * SAFETY_MARGIN, 0), k)
    decreases k
  {
    hide Tick, Best, Ascending, Step, Steady;
    if k > 0 {
      var e := Rounds(b, k);
      var w1 := Step(levels, alpha, w, e[0]);
      var w2 := Step(levels, alpha, w1, e[1]);
      assert e[1..][0] == e[1] && e[1..][1..] == Rounds(b, k - 1) && e[0] == Sample(b) && e[1] == TickNow;
      RoundIsTick(levels, alpha, w, b);
      RoundsAreTicks(levels, alpha, w2, b, k - 1);
      TicksFirst(w.ctrl, |levels|, Best(levels, b * SAFETY_MARGIN, 0), k);
    }
  }

  /** The first of k ticks. */
  lemma {:induction false} TicksFirst(c: Ctrl, n: nat, target: nat, k: nat)
    requires n > 0 && k > 0
    ensures Ticks(c, n, target, k) == Ticks(Tick(c, n, true, target), n, target, k - 1)
  {
    hide Tick;
    if k > 1 { TicksFirst(c, n, target, k - 1); }
  }

  /**
   * A constant bandwidth b, as the estimator, the ladder and the controller see it together: from
   * any automatic state the level moves towards the best level for 0.85 b, is there within one round
   * from above and 3 (best - current) rounds from below, and stays.
   */
  lemma {:induction false} SteadyStreamConverges(levels: seq<Level>, alpha: real, w: World, b: real, best: nat, k: nat)
    requires levels != [] && Ascending(levels) && Steady(w, b)
    requires w.ctrl.forced < 0 && w.ctrl.current < |levels| && IsBest(levels, b * SAFETY_MARGIN, best)
    ensures var level := Exec(levels, alpha, w, Rounds(b, k)).ctrl.current;
            var next := Exec(levels, alpha, w, Rounds(b, k + 1)).ctrl.current;
            && (w.ctrl.current >= best && k >= 1 ==> level == best)
            && (w.ctrl.current <= best && k >= 3 * (best - w.ctrl.current) ==> level == best)
            && (w.ctrl.current <= best ==> w.ctrl.current <= level <= next <= best)
            && (w.ctrl.current >= best ==> w.ctrl.current >= level >= next >= best)
  {
    hide Exec, Tick, Steady, Ascending;
    BestIsUnique(levels, b * SAFETY_MARGIN, best, Best(levels, b * SAFETY_MARGIN, 0));
    RoundsAreTicks(levels, alpha, w, b, k);
    RoundsAreTicks(levels, alpha, w, b, k + 1);
    Converges(w.ctrl, |levels|, best, k);
    Converges(w.ctrl, |levels|, best, k + 1);
  }

  /** The last of k rounds. */
  lemma {:induction false} LastRound(levels: seq<Level>, alpha: real, w: World, b: real, k: nat)
    requires levels != [] && Ascending(levels)
    ensures var before := Exec(levels, alpha, w, Rounds(b, k));
            var sampled := Step(levels, alpha, before, Sample(b));
            Exec(levels, alpha, w, Rounds(b, k + 1)) == Step(levels, alpha, sampled, TickNow)
    decreases k
  {
    hide Ascending, Step;
    FirstRound(levels, alpha, w, b, k + 1);
    if k > 0 {
      FirstRound(levels, alpha, w, b, k);
      LastRound(levels, alpha, Step(levels, alpha, Step(levels, alpha, w, Sample(b)), TickNow), b, k - 1);
    }
  }

  lemma FirstRound(levels: seq<Level>, alpha: real, w: World, b: real, k: nat)
    requires levels != [] && Ascending(levels) && k > 0
    ensures var after := Step(levels, alpha, Step(levels, alpha, w, Sample(b)), TickNow);
            Exec(levels, alpha, w, Rounds(b, k)) == Exec(levels, alpha, after, Rounds(b, k - 1))
    ensures Exec(levels, alpha, w, Rounds(b, 0)) == w
  {
    hide Ascending, Step;
    var e := Rounds(b, k);
    assert e[1..][1..] == Rounds(b, k - 1);
  }

  /** The samples after k rounds, in a run that stays automatic. */
  lemma {:induction false} AfterRounds(levels: seq<Level>, alpha: real, w: World, b: real, k: nat)
    requires levels != [] && Ascending(levels) && w.ctrl.forced < 0 && w.ctrl.current < |levels|
    ensures var after := Exec(levels, alpha, w, Rounds(b, k));
            && after.samples == w.samples + Constant(b, k)
            && after.ctrl.forced < 0 && after.ctrl.current < |levels|
    decreases k
  {
    hide Ascending, Exec, Best;
    FirstRound(levels, alpha, w, b, k + 1);
    if k > 0 {
      AfterRounds(levels, alpha, w, b, k - 1);
      LastRound(levels, alpha, w, b, k - 1);
      assert Constant(b, k) == Constant(b, k - 1) + [b];
    } else {
      assert w.samples + Constant(b, 0) == w.samples;
    }
  }

  /** The least distance from a budget to the bitrate of a level that is not the budget itself. */
  function Gap(levels: seq<Level>, budget: real): (gap: real)
    ensures gap > 0.0
    ensures forall i :: 0 <= i < |levels| ==> Apart(levels[i].bitrate as real, budget, gap)
  {
    if levels == [] then 1.0 else
    var last := levels[|levels| - 1].bitrate as real;
    var rest, own := Gap(levels[..|levels| - 1], budget), if last < budget then budget - last else last - budget;
    if 0.0 < own < rest then own else rest
  }

  predicate Apart(a: real, b: real, gap: real) { a <= b - gap || a == b || a >= b + gap }

  /** A budget nearer than the gap selects the same level, unless it falls short of that level's bitrate. */
  lemma SameBest(levels: seq<Level>, budget: real, other: real, best: nat)
    requires budget - Gap(levels, budget) < other < budget + Gap(levels, budget)
    requires IsBest(levels, budget, best)
    requires best == 0 || levels[best].bitrate as real != budget || other >= budget
    ensures IsBest(levels, other, best)
  {
    hide Gap;
    assert Apart(levels[best].bitrate as real, budget, Gap(levels, budget));
    forall i | best < i < |levels| ensures !Fits(levels, i, other) {
      assert !Fits(levels, i, budget);
      assert Apart(levels[i].bitrate as real, budget, Gap(levels, budget));
    }
  }

  /**
   * The average can reach what the best level needs: that level is the lowest, or 0.85 b is not
   * exactly its bitrate, or the average does not come from below.
   */
  predicate Reaches(levels: seq<Level>, alpha: real, samples: seq<real>, b: real, best: nat)
    requires best < |levels|
  {
    best == 0 || levels[best].bitrate as real != b * SAFETY_MARGIN || samples == [] || Ewma(alpha, samples) >= b
  }

  /** Once the average is near b, the budget of a further round selects the level for b. */
  lemma NearRound(levels: seq<Level>, alpha: real, samples: seq<real>, b: real, best: nat, k: nat)
    requires levels != [] && Ascending(levels) && 0.0 < alpha < 1.0 && k > 0
    requires IsBest(levels, b * SAFETY_MARGIN, best) && Reaches(levels, alpha, samples, b, best)
    requires samples != [] ==> Near(alpha, Ewma(alpha, samples) - b, Gap(levels, b * SAFETY_MARGIN), k)
    ensures Best(levels, Budget(alpha, samples + Constant(b, k)), 0) == best
  {
    hide Ascending, Best, Gap, Power, Times, Ewma;
    if samples == [] {
      EwmaConstant(alpha, samples + Constant(b, k), b);
    } else {
      EwmaApproaches(alpha, samples, b, k);
      SameSide(alpha, samples, b, k);
    }
    var budget := Budget(alpha, samples + Constant(b, k));
    BudgetNear(Ewma(alpha, samples + Constant(b, k)), b, Gap(levels, b * SAFETY_MARGIN));
    SameBest(levels, b * SAFETY_MARGIN, budget, best);
    BestIsUnique(levels, budget, best, Best(levels, budget, 0));
  }

  /** From below, the budget never pays for a level that needs exactly 0.85 b. */
  lemma ShortRound(levels: seq<Level>, alpha: real, samples: seq<real>, b: real, best: nat, k: nat)
    requires levels != [] && Ascending(levels) && 0.0 < alpha < 1.0 && best < |levels|
    requires !Reaches(levels, alpha, samples, b, best)
    ensures Best(levels, Budget(alpha, samples + Constant(b, k)), 0) < best
  {
    hide Best, Ewma;
    SameSide(alpha, samples, b, k);
    var budget := Budget(alpha, samples + Constant(b, k));
    assert budget < b * 0.85;
    assert forall i :: best <= i < |levels| ==> !Fits(levels, i, budget);
  }

  lemma BudgetNear(average: real, b: real, gap: real)
    requires gap > 0.0 && -gap < average - b < gap
    ensures b * SAFETY_MARGIN - gap < average * SAFETY_MARGIN < b * SAFETY_MARGIN + gap
  {
    assert average * 0.85 - b * 0.85 == (average - b) * 0.85;
  }

  /** From round m on the target stays. */
  lemma {:induction false} LaterRounds(levels: seq<Level>, alpha: real, w: World, b: real, best: nat, m: nat, j: nat)
    requires levels != [] && Ascending(levels) && w.ctrl.forced < 0 && w.ctrl.current < |levels| && m >= MIN_SAMPLES
    requires forall k: nat :: k > m ==> Best(levels, Budget(alpha, w.samples + Constant(b, k)), 0) == best
    ensures Exec(levels, alpha, w, Rounds(b, m + j)).ctrl
         == Ticks(Exec(levels, alpha, w, Rounds(b, m)).ctrl, |levels|, best, j)
    decreases j
  {
    hide Ascending, Best, Exec, Tick, Budget;
    if j > 0 {
      LaterRounds(levels, alpha, w, b, best, m, j - 1);
      AfterRounds(levels, alpha, w, b, m + j - 1);
      LastRound(levels, alpha, w, b, m + j - 1);
      assert Constant(b, m + j) == Constant(b, m + j - 1) + [b];
      assert w.samples + Constant(b, m + j) == (w.samples + Constant(b, m + j - 1)) + [b];
    }
  }

  /** After this many rounds of b the level is the best one for 0.85 b. */
  ghost predicate SettledAfter(levels: seq<Level>, alpha: real, w: World, b: real, best: nat, rounds: nat)
    requires levels != [] && Ascending(levels)
  {
    forall k: nat :: k >= rounds ==> Exec(levels, alpha, w, Rounds(b, k)).ctrl.current == best
  }

  lemma {:induction false} StreamSettles(levels: seq<Level>, alpha: real, w: World, b: real, best: nat)
    returns (rounds: nat)
    requires levels != [] && Ascending(levels) && 0.0 < alpha < 1.0
    requires w.ctrl.forced < 0 && w.ctrl.current < |levels|
    requires IsBest(levels, b * SAFETY_MARGIN, best) && Reaches(levels, alpha, w.samples, b, best)
    ensures SettledAfter(levels, alpha, w, b, best, rounds)
  {
    hide Ascending, Exec, Tick, Best, Gap, Near, Ewma, Ticks, Budget, IsBest, Reaches;
    BestInside(levels, b * SAFETY_MARGIN, best);
    var distance := Ewma(alpha, w.samples) - b;
    var enough := EnoughSamples(alpha, distance, Gap(levels, b * SAFETY_MARGIN));
    var m := if enough < MIN_SAMPLES then MIN_SAMPLES else enough;
    forall k: nat | k > m ensures Best(levels, Budget(alpha, w.samples + Constant(b, k)), 0) == best {
      NearRound(levels, alpha, w.samples, b, best, k);
    }
    rounds := m + 3 * |levels| + 1;
    AfterRounds(levels, alpha, w, b, m);
    var c := Exec(levels, alpha, w, Rounds(b, m)).ctrl;
    forall k: nat | k >= rounds ensures Exec(levels, alpha, w, Rounds(b, k)).ctrl.current == best {
      LaterRounds(levels, alpha, w, b, best, m, k - m);
      Converges(c, |levels|, best, k - m);
    }
  }

  lemma {:induction false} StreamMisses(levels: seq<Level>, alpha: real, w: World, b: real, best: nat, k: nat)
    requires levels != [] && Ascending(levels) && 0.0 < alpha < 1.0 && k >= MIN_SAMPLES
    requires w.ctrl.forced < 0 && w.ctrl.current < |levels| && best < |levels|
    requires !Reaches(levels, alpha, w.samples, b, best)
    ensures Exec(levels, alpha, w, Rounds(b, k)).ctrl.current < best
  {
    hide Ascending, Exec, Best, Budget, Ewma, Reaches;
    AfterRounds(levels, alpha, w, b, k - 1);
    LastRound(levels, alpha, w, b, k - 1);
    ShortRound(levels, alpha, w.samples, b, best, k);
    assert Constant(b, k) == Constant(b, k - 1) + [b];
    assert w.samples + Constant(b, k) == (w.samples + Constant(b, k - 1)) + [b];
  }

  /**
   * Under a constant bandwidth b, whatever was measured before, the level settles on the best one for
   * 0.85 b if and only if that is the lowest level, or does not need exactly 0.85 b, or the average
   * is not below b to begin with.
   */
  lemma {:induction false} StreamSettlesIff(levels: seq<Level>, alpha: real, w: World, b: real, best: nat)
    requires levels != [] && Ascending(levels) && 0.0 < alpha < 1.0
    requires w.ctrl.forced < 0 && w.ctrl.current < |levels| && IsBest(levels, b * SAFETY_MARGIN, best)
    ensures (exists rounds: nat :: SettledAfter(levels, alpha, w, b, best, rounds))
       <==> Reaches(levels, alpha, w.samples, b, best)
  {
    hide Ascending, Exec, Reaches;
    if Reaches(levels, alpha, w.samples, b, best) {
      var rounds := StreamSettles(levels, alpha, w, b, best);
    }
    if rounds: nat :| SettledAfter(levels, alpha, w, b, best, rounds) && !Reaches(levels, alpha, w.samples, b, best) {
      assert Exec(levels, alpha, w, Rounds(b, rounds + MIN_SAMPLES)).ctrl.current == best;
      StreamMisses(levels, alpha, w, b, best, rounds + MIN_SAMPLES);
    }
  }

  lemma BestInside(levels: seq<Level>, budget: real, best: nat)
    requires IsBest(levels, budget, best)
    ensures best < |levels|
  {
  }

  /** Before the third sample since a reset an automatic tick falls back to the lowest level and counts nothing. */
  lemma NotReadyTick(levels: seq<Level>, alpha: real, w: World)
    requires levels != [] && Ascending(levels) && |w.samples| < 3 && w.ctrl.forced < 0
    ensures var after := Step(levels, alpha, w, TickNow);
            after.ctrl == Ctrl(0, w.ctrl.stable, w.ctrl.forced) && after.upgrades == w.upgrades
  {
  }

  /** A forced level holds whatever is measured, and is left as soon as it is released. */
  lemma ForcedTick(levels: seq<Level>, alpha: real, w: World)
    requires levels != [] && Ascending(levels) && 0 <= w.ctrl.forced < |levels|
    ensures Step(levels, alpha, w, TickNow).ctrl == Ctrl(w.ctrl.forced, w.ctrl.stable, w.ctrl.forced)
    ensures Step(levels, alpha, w, Force(-1)).ctrl == Ctrl(w.ctrl.current, w.ctrl.stable, -1)
  {
  }

  /** From the third sample on: down at once, up one level at the third tick in a row that allows it. */
  lemma ReadyTick(levels: seq<Level>, alpha: real, w: World, best: nat)
    requires levels != [] && Ascending(levels) && |w.samples| >= 3 && w.ctrl.forced < 0 && w.ctrl.current < |levels|
    requires IsBest(levels, 0.85 * Ewma(alpha, w.samples), best)
    ensures var after := Step(levels, alpha, w, TickNow).ctrl;
            && (best < w.ctrl.current ==> after.current == best && after.stable == 0)
            && (best == w.ctrl.current ==> after.current == best && after.stable == w.ctrl.stable + 1)
            && (best > w.ctrl.current && w.ctrl.stable < 2 ==>
                after.current == w.ctrl.current && after.stable == w.ctrl.stable + 1)
            && (best > w.ctrl.current && w.ctrl.stable >= 2 ==>
                after.current == w.ctrl.current + 1 && after.stable == 0)
  {
    var budget := Budget(alpha, w.samples);
    assert budget == 0.85 * Ewma(alpha, w.samples);
    BestIsUnique(levels, budget, best, Best(levels, budget, 0));
  }
}
