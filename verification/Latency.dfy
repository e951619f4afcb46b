/** The latency ring and its nearest-rank percentiles (src/latency.c). */
module Latency {

  datatype Sample = Sample(capture: nat, encode: nat, send: nat, total: nat)

  /** The ring slot of the j-th sample ever recorded. */
  function Slot(j: nat, n: nat): nat
    requires n > 0
  {
    j % n
  }

  lemma ModOf(a: nat, q: nat, r: nat, n: nat)
    requires n > 0 && r < n && a == q * n + r
    ensures a % n == r
  {
    var d := a / n - q;
    assert a == (a / n) * n + a % n;
    assert (a / n) * n == q * n + d * n;
  }

  /** Going on by i < n slots wraps at most once. */
  lemma SlotAdd(a: nat, i: nat, n: nat)
    requires n > 0 && i < n
    ensures Slot(a, n) < n
    ensures Slot(a + i, n) == if Slot(a, n) + i < n then Slot(a, n) + i else Slot(a, n) + i - n
    ensures (Slot(a, n) + i) % n == Slot(a + i, n)
  {
    var q, r := a / n, a % n;
    assert a == q * n + r;
    if r + i < n {
      ModOf(a + i, q, r + i, n);
      ModOf(r + i, 0, r + i, n);
    } else {
      assert a + i == (q + 1) * n + (r + i - n);
      ModOf(a + i, q + 1, r + i - n, n);
      ModOf(r + i, 1, r + i - n, n);
    }
  }

  /** The next slot, and that no sample of the last n - 1 lies in the slot of sample h. */
  lemma SlotsApart(h: nat, n: nat)
    requires n > 0
    ensures Slot(h, n) < n
    ensures Slot(h + 1, n) == (Slot(h, n) + 1) % n
    ensures forall j: nat :: h - n < j < h ==> Slot(j, n) != Slot(h, n)
  {
    SlotAdd(h, 0, n);
    if n > 1 { SlotAdd(h, 1, n); }
    forall j: nat | h - n < j < h ensures Slot(j, n) != Slot(h, n) {
      SlotAdd(j, h - j, n);
    }
  }

  /** The slot the report loop reads for its i-th sample. */
  lemma SlotInOrder(h: nat, i: nat, n: nat)
    requires n > 0 && i < n
    ensures h >= n ==> Slot(h - n + i, n) == (Slot(h, n) + i) % n
    ensures h < n && i < h ==> Slot(i, n) == i
  {
    if h >= n {
      SlotAdd(h, i, n);
      var q, r := (h - n + i) / n, (h - n + i) % n;
      assert h - n + i == q * n + r;
      assert h + i == (q + 1) * n + r;
      ModOf(h + i, q + 1, r, n);
    } else if i < h {
      ModOf(i, 0, i, n);
    }
  }

  class LatencyStats {
    const capacity: nat
    const samples: array<Sample>
    var count: nat
    var cursor: nat
    /** Every sample recorded, oldest first. */
    ghost var history: seq<Sample>

    ghost predicate Valid()
      reads this, samples
    {
      && capacity > 0 && samples.Length == capacity
      && count == (if |history| < capacity then |history| else capacity)
      && cursor == Slot(|history|, capacity)
      && (forall j: nat :: |history| - count <= j < |history| ==>
            Slot(j, capacity) < capacity && samples[Slot(j, capacity)] == history[j])
    }

    /** The samples a report is about. */
    ghost function Recent(): seq<Sample>
      requires Valid()
      reads this, samples
    {
      history[|history| - count..]
    }

    constructor (capacity: nat)
      ensures Valid() && history == [] && this.capacity == (if capacity > 0 then capacity else 1)
    {
      this.capacity := if capacity > 0 then capacity else 1;
      samples := new Sample[if capacity > 0 then capacity else 1](_ => Sample(0, 0, 0, 0));
      count, cursor, history := 0, 0, [];
    }

    method Record(sample: Sample)
      requires Valid()
      modifies this, samples
      ensures Valid() && history == old(history) + [sample]
    {
      SlotsApart(|history|, capacity);
      hide Slot;
      samples[cursor] := sample;
      cursor := (cursor + 1) % capacity;
      if count < capacity { count := count + 1; }
      history := history + [sample];
    }

    /** Unrolling the ring, oldest sample first, into one array per metric. */
    method FillMetricSamples(capture: array<nat>, encode: array<nat>, send: array<nat>, total: array<nat>)
      requires Valid()
      requires capture.Length == encode.Length == send.Length == total.Length == count
      requires capture != encode && capture != send && capture != total
      requires encode != send && encode != total && send != total
      modifies capture, encode, send, total
      ensures |Recent()| == count
      ensures forall i :: 0 <= i < count ==>
        Recent()[i] == Sample(capture[i], encode[i], send[i], total[i])
    {
      hide Slot, Valid, Recent;
      RecentLength();
      ghost var recent := Recent();
      var i := 0;
      while i < count
        invariant i <= count && Valid() && Recent() == recent && |recent| == count
        invariant forall k :: 0 <= k < i ==> capture[k] == recent[k].capture && encode[k] == recent[k].encode
        invariant forall k :: 0 <= k < i ==> send[k] == recent[k].send && total[k] == recent[k].total
      {
        var sample := ReadSample(i);
        capture[i] := sample.capture;
        encode[i] := sample.encode;
        send[i] := sample.send;
        total[i] := sample.total;
        i := i + 1;
      }
    }

    lemma RecentLength()
      requires Valid()
      ensures |Recent()| == count
    {
    }

    /** The i-th sample of a report, oldest first: from the cursor on once the ring has wrapped. */
    method ReadSample(i: nat) returns (sample: Sample)
      requires Valid() && i < count
      ensures |Recent()| == count && sample == Recent()[i]
    {
      hide Slot;
      var wrapped := count >= capacity;
      SlotInOrder(|history|, i, capacity);
      var index := if wrapped then (cursor + i) % capacity else i;
      assert index == Slot(|history| - count + i, capacity);
      sample := samples[index];
    }
  }

  ghost predicate Ascending(s: seq<nat>) { forall i, j :: 0 <= i <= j < |s| ==> s[i] <= s[j] }

  function Ceil(x: real): int { -(-x).Floor }

  /** p times m; m is the sample count. */
  function Target(p: real, m: nat): real { p * m as real }

  /** percentile_value on sorted values; the percentile is taken as an exact real. */
  function Percentile(values: seq<nat>, percentile: real): nat {
    var count := |values|;
    if count == 0 then 0
    else if percentile <= 0.0 then values[0]
    else if percentile >= 1.0 then values[count - 1]
    else
      var rank := Rank(percentile, count);
      if rank >= count then values[count - 1] else values[rank]
  }

  /** (size_t)ceil(p * count) - 1, for 0 < p < 1 and count > 0. */
  function Rank(p: real, count: nat): (rank: nat)
    requires 0.0 < p < 1.0 && count > 0
    ensures rank < count
    ensures rank as real < Target(p, count) <= rank as real + 1.0
  {
    TargetBounds(p, count);
    Ceil(Target(p, count)) - 1
  }

  lemma TargetBounds(p: real, m: nat)
    requires 0.0 < p < 1.0 && m > 0
    ensures 0.0 < Target(p, m) < m as real
  {
    var r := m as real;
    assert p * r < 1.0 * r;
  }

  lemma TargetMonotone(p: real, q: real, m: nat)
    requires p <= q
    ensures Target(p, m) <= Target(q, m)
  {
    var r := m as real;
    assert p * r <= q * r;
  }

  function CountBelow(s: seq<nat>, v: int): nat {
    if s == [] then 0 else CountBelow(s[..|s| - 1], v) + if s[|s| - 1] < v then 1 else 0
  }

  lemma {:induction false} CountConcat(a: seq<nat>, b: seq<nat>, v: int)
    ensures CountBelow(a + b, v) == CountBelow(a, v) + CountBelow(b, v)
  {
    if b == [] {
      assert a + b == a;
    } else {
      CountConcat(a, b[..|b| - 1], v);
      assert (a + b)[..|a + b| - 1] == a + b[..|b| - 1];
    }
  }

  /** Sorting does not change how many samples lie below a value. */
  lemma {:induction false} CountPermutes(a: seq<nat>, b: seq<nat>, v: int)
    requires multiset(a) == multiset(b)
    ensures CountBelow(a, v) == CountBelow(b, v)
    decreases |a|
  {
    hide CountBelow;
    if a == [] {
      assert |multiset(a)| == |a| && |multiset(b)| == |b|;
    } else {
      var x, rest := a[|a| - 1], a[..|a| - 1];
      assert a == rest + [x];
      assert x in multiset(b);
      var i :| 0 <= i < |b| && b[i] == x;
      var others := b[..i] + b[i + 1..];
      RemoveOne(a, b, i);
      CountPermutes(rest, others, v);
      CountConcat(b[..i], [x] + b[i + 1..], v);
      CountConcat([x], b[i + 1..], v);
      CountConcat(b[..i], b[i + 1..], v);
      assert b == b[..i] + ([x] + b[i + 1..]);
      CountConcat(rest, [x], v);
    }
  }

  lemma RemoveOne(a: seq<nat>, b: seq<nat>, i: nat)
    requires a != [] && i < |b| && b[i] == a[|a| - 1] && multiset(a) == multiset(b)
    ensures multiset(a[..|a| - 1]) == multiset(b[..i] + b[i + 1..])
  {
    var x := b[i];
    assert a == a[..|a| - 1] + [x];
    assert b == b[..i] + [x] + b[i + 1..];
    var m, m' := multiset(a[..|a| - 1]), multiset(b[..i] + b[i + 1..]);
    assert multiset(b) == m' + multiset{x};
    assert multiset(a) == m + multiset{x};
    assert m == (m + multiset{x}) - multiset{x} && m' == (m' + multiset{x}) - multiset{x};
  }

  /** In a sorted list the elements before the first one not below v are the ones counted. */
  lemma {:induction false} CountSorted(s: seq<nat>, v: int, k: nat)
    requires Ascending(s) && k <= |s|
    ensures k > 0 && s[k - 1] < v ==> CountBelow(s, v) >= k
    ensures k < |s| && s[k] >= v ==> CountBelow(s, v) <= k
    decreases |s|
  {
    if s != [] {
      var shorter := s[..|s| - 1];
      if k < |s| {
        CountSorted(shorter, v, k);
        AllAbove(s, v, k);
      } else {
        CountSorted(shorter, v, k - 1);
      }
    }
  }

  lemma {:induction false} AllAbove(s: seq<nat>, v: int, k: nat)
    requires Ascending(s) && k < |s|
    ensures s[k] >= v ==> CountBelow(s, v) <= k
    decreases |s|
  {
    var shorter := s[..|s| - 1];
    if k < |shorter| { AllAbove(shorter, v, k); } else { CountAtMost(shorter, v); }
  }

  lemma {:induction false} CountAtMost(s: seq<nat>, v: int)
    ensures CountBelow(s, v) <= |s|
  {
    if s != [] { CountAtMost(s[..|s| - 1], v); }
  }

  /**
   * Nearest rank: of the m samples, at least p m are at most the reported value and fewer than p m
   * are below it, whatever order qsort received them in.
   */
  lemma NearestRank(samples: seq<nat>, sorted: seq<nat>, p: real)
    requires samples != [] && multiset(samples) == multiset(sorted) && Ascending(sorted) && 0.0 < p < 1.0
    ensures var v := Percentile(sorted, p);
            CountBelow(samples, v + 1) as real >= p * |samples| as real > CountBelow(samples, v) as real
  {
    assert |multiset(samples)| == |samples| && |multiset(sorted)| == |sorted|;
    assert Target(p, |samples|) == p * |samples| as real;
    hide Target, Rank, CountBelow;
    var v, rank := Percentile(sorted, p), Rank(p, |sorted|);
    CountPermutes(samples, sorted, v);
    CountPermutes(samples, sorted, v + 1);
    CountSorted(sorted, v + 1, rank + 1);
    CountSorted(sorted, v, rank);
  }

  /** A larger percentile is never a smaller value: p50 <= p95 <= p99. */
  lemma PercentilesOrdered(sorted: seq<nat>, p: real, q: real)
    requires Ascending(sorted) && 0.0 < p <= q < 1.0
    ensures Percentile(sorted, p) <= Percentile(sorted, q)
  {
    if sorted != [] {
      TargetMonotone(p, q, |sorted|);
      hide Target, Rank;
      assert Rank(p, |sorted|) <= Rank(q, |sorted|);
    }
  }

  /** The percentiles at and beyond the ends, and of nothing. */
  lemma PercentileEnds(sorted: seq<nat>, p: real)
    ensures sorted == [] ==> Percentile(sorted, p) == 0
    ensures sorted != [] && p <= 0.0 ==> Percentile(sorted, p) == sorted[0]
    ensures sorted != [] && p >= 1.0 ==> Percentile(sorted, p) == sorted[|sorted| - 1]
    ensures sorted != [] ==> Percentile(sorted, p) in sorted
  {
  }
}
