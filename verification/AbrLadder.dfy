/** The bitrate ladder: levels sorted by bitrate once, then searched (src/abr/abr_ladder.c). */
module AbrLadder {
  const MAX_LEVELS: nat := 8

  datatype Level = Level(width: int, height: int, fps: int, bitrate: nat, quality: int, name: string)

  ghost predicate Ascending(levels: seq<Level>) {
    forall i, j :: 0 <= i <= j < |levels| ==> levels[i].bitrate <= levels[j].bitrate
  }

  /** What the C standard promises of qsort with cmp_levels; the order of equal bitrates is open. */
  ghost predicate QSorted(levels: seq<Level>, sorted: seq<Level>) {
    multiset(levels) == multiset(sorted) && Ascending(sorted)
  }

  predicate Fits(levels: seq<Level>, i: nat, budget: real)
    requires i < |levels|
  {
    levels[i].bitrate as real <= budget
  }

  /** The level the ladder search is for: the highest that fits, or the lowest if none does. */
  ghost predicate IsBest(levels: seq<Level>, budget: real, best: nat) {
    && best < |levels|
    && (best > 0 ==> Fits(levels, best, budget))
    && (forall i :: best < i < |levels| ==> !Fits(levels, i, budget))
  }

  class Ladder {
    const levels: array<Level>
    var count: nat

    ghost predicate Valid() reads this, levels {
      1 <= count <= MAX_LEVELS == levels.Length && Ascending(levels[..count])
    }

    /** `sorted` is the result of qsort; `filler` stands for the slots left as malloc gave them. */
    constructor (given: seq<Level>, sorted: seq<Level>, filler: Level)
      requires 1 <= |given| <= MAX_LEVELS && QSorted(given, sorted)
      ensures Valid() && levels[..count] == sorted && fresh(levels)
    {
      SameLength(given, sorted);
      count := |given|;
      levels := new Level[MAX_LEVELS](i requires 0 <= i => if i < |sorted| then sorted[i] else filler);
    }

    /** The scan stops at the first level that does not fit; on a sorted ladder that finds the best. */
    method Select(budget: real) returns (best: nat)
      requires Valid()
      ensures IsBest(levels[..count], budget, best)
    {
      best := 0;
      var i := 0;
      while i < count
        invariant i <= count && best < count
        invariant forall j :: 0 <= j < i ==> levels[j].bitrate as real <= budget
        invariant best == if i == 0 then 0 else i - 1
      {
        if levels[i].bitrate as real <= budget {
          best := i;
        } else {
          break;
        }
        i := i + 1;
      }
    }
  }

  lemma SameLength(a: seq<Level>, b: seq<Level>)
    requires multiset(a) == multiset(b)
    ensures |a| == |b|
  {
    assert |multiset(a)| == |a| && |multiset(b)| == |b|;
  }

  /** There is exactly one best level for a budget. */
  lemma BestIsUnique(levels: seq<Level>, budget: real, a: nat, b: nat)
    requires Ascending(levels) && IsBest(levels, budget, a) && IsBest(levels, budget, b)
    ensures a == b
  {
  }

  /** A larger budget never selects a lower level. */
  lemma BestIsMonotone(levels: seq<Level>, small: real, large: real, a: nat, b: nat)
    requires Ascending(levels) && small <= large && IsBest(levels, small, a) && IsBest(levels, large, b)
    ensures a <= b
  {
    if a > b { assert Fits(levels, a, large); }
  }
}
