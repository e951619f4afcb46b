/**
 * What repeated chunks do. The receiver counts bytes, not chunks, so a repeat brings completion
 * forward; and every chunk after completion shows the frame again. Bytes that were counted before
 * a peer timeout took the buffer away (src/network.c:832-836) weigh like repeats.
 */
module VideoRepeats {
  import opened Bytes
  import opened Lists
  import opened Wrappers
  import opened VideoSender
  import opened VideoReceiver
  import opened VideoRuns

  /** The receiver and what it shows after chunks of one frame arrive in this order, repeats and all. */
  function Play(rx: Rx, id: nat, frame: Frame, order: seq<nat>, memory: Memory): (Rx, seq<Delivery>)
    requires OfFrame(frame, order)
  {
    if order == [] then (rx, []) else
    var (before, log) := Play(rx, id, frame, order[..|order| - 1], memory);
    match OnChunk(before, ChunkOf(id, frame, order[|order| - 1]), memory)
    case OutOfBounds => (before, log)
    case Next(after, delivery) => (after, log + if delivery.Some? then [delivery.value] else [])
  }

  predicate OfFrame(frame: Frame, order: seq<nat>) {
    forall a :: 0 <= a < |order| ==> HasChunk(|frame.data|, order[a])
  }

  /** The bytes these chunks add to the counter. */
  function Counted(data: seq<byte>, order: seq<nat>): nat
    requires OfFrame(Frame(data, 0), order)
  {
    if order == [] then 0 else Counted(data, order[..|order| - 1]) + |Slice(data, order[|order| - 1])|
  }

  /** A receiver that is about to collect the frame with `already` bytes counted, none of them kept. */
  ghost predicate Ready(rx: Rx, id: nat, frame: Frame, already: nat) {
    if rx.frameId == id then rx.expected == |frame.data| && rx.received == already else already == 0
  }

  /** The buffer from the first chunk on: what is not written yet is old or fresh memory. */
  function Background(rx: Rx, size: nat, memory: Memory): (buffer: seq<byte>)
    requires memory.Granted?
    ensures |buffer| >= size
  {
    Grow(rx.buffer, size, memory).value
  }

  /** The buffer holds the frame where chunks of `order` were written and the background elsewhere. */
  ghost predicate Filled(buffer: seq<byte>, data: seq<byte>, order: seq<nat>, background: seq<byte>) {
    && |buffer| == |background| >= |data|
    && forall b :: 0 <= b < |data| ==> buffer[b] == if b / 1326 in order then data[b] else background[b]
  }

  /** The receiver's fields after the chunks of `order`. */
  ghost predicate Collected(rx: Rx, id: nat, frame: Frame, already: nat, order: seq<nat>, background: seq<byte>)
    requires OfFrame(frame, order)
  {
    && rx.frameId == id && rx.expected == |frame.data|
    && rx.received == already + Counted(frame.data, order)
    && Filled(rx.buffer, frame.data, order, background)
  }

  /** What an arrival after these chunks shows. */
  function Seen(rx: Rx, id: nat, frame: Frame): seq<Delivery> {
    if rx.received >= |frame.data| && |frame.data| <= |rx.buffer|
    then [Delivery(id, rx.buffer[..|frame.data|], frame.timestamp)] else []
  }

  lemma FillOneMore(buffer: seq<byte>, data: seq<byte>, order: seq<nat>, k: nat, background: seq<byte>)
    requires HasChunk(|data|, k) && Filled(buffer, data, order, background)
    ensures Cut(|data|, k) + |Slice(data, k)| <= |data|
    ensures Filled(Splice(buffer, Cut(|data|, k), Slice(data, k)), data, order + [k], background)
  {
    var buffer' := Splice(buffer, Cut(|data|, k), Slice(data, k));
    ChunksTile(|data|, k);
    hide Splice;
    forall b | 0 <= b < |data| ensures buffer'[b] == if b / 1326 in order + [k] then data[b] else background[b] {
      assert Cut(|data|, k) <= b < Cut(|data|, k + 1) <==> b / 1326 == k;
      assert b / 1326 in order + [k] <==> b / 1326 in order || b / 1326 == k;
    }
  }

  lemma CountOneMore(data: seq<byte>, order: seq<nat>, k: nat)
    requires OfFrame(Frame(data, 0), order) && HasChunk(|data|, k)
    ensures OfFrame(Frame(data, 0), order + [k])
    ensures Counted(data, order + [k]) == Counted(data, order) + |Slice(data, k)|
  {
    assert (order + [k])[..|order|] == order;
  }

  /** One arrival; `start` is the receiver's state with the frame's id, size and buffer in place. */
  lemma OneArrival(rx: Rx, start: Rx, id: nat, frame: Frame, already: nat, order: seq<nat>, k: nat,
      background: seq<byte>, memory: Memory)
    requires frame.data != [] && HasChunk(|frame.data|, k) && OfFrame(frame, order)
    requires Collected(start, id, frame, already, order, background)
    requires var selected := Select(rx, ChunkOf(id, frame, k));
             && Grow(selected.buffer, selected.expected, memory) == Some(start.buffer)
             && selected.(buffer := start.buffer) == start
    ensures OfFrame(frame, order + [k])
    ensures var outcome := OnChunk(rx, ChunkOf(id, frame, k), memory);
            && outcome.Next?
            && Collected(outcome.rx, id, frame, already, order + [k], background)
            && Seen(outcome.rx, id, frame) == if outcome.delivery.Some? then [outcome.delivery.value] else []
  {
    hide Filled, Splice, Grow, Slice, Counted;
    FilledLength(start.buffer, frame.data, order, background);
    FillOneMore(start.buffer, frame.data, order, k, background);
    CountOneMore(frame.data, order, k);
    var buffer' := Splice(start.buffer, Cut(|frame.data|, k), Slice(frame.data, k));
    FilledLength(buffer', frame.data, order + [k], background);
  }

  lemma FilledLength(buffer: seq<byte>, data: seq<byte>, order: seq<nat>, background: seq<byte>)
    requires Filled(buffer, data, order, background)
    ensures |buffer| == |background| >= |data|
  {
  }

  lemma FirstArrival(rx: Rx, id: nat, frame: Frame, already: nat, k: nat, memory: Memory)
    requires frame.data != [] && HasChunk(|frame.data|, k) && memory.Granted? && Ready(rx, id, frame, already)
    ensures var outcome := OnChunk(rx, ChunkOf(id, frame, k), memory);
            && outcome.Next?
            && Collected(outcome.rx, id, frame, already, [k], Background(rx, |frame.data|, memory))
            && Seen(outcome.rx, id, frame) == if outcome.delivery.Some? then [outcome.delivery.value] else []
  {
    hide OnChunk;
    var background := Background(rx, |frame.data|, memory);
    var start := Rx(id, background, |frame.data|, already);
    assert Collected(start, id, frame, already, [], background);
    OneArrival(rx, start, id, frame, already, [], k, background, memory);
    assert [] + [k] == [k];
  }

  lemma LaterArrival(rx: Rx, id: nat, frame: Frame, already: nat, order: seq<nat>, k: nat, background: seq<byte>,
      memory: Memory)
    requires frame.data != [] && HasChunk(|frame.data|, k) && OfFrame(frame, order)
    requires Collected(rx, id, frame, already, order, background)
    ensures OfFrame(frame, order + [k])
    ensures var outcome := OnChunk(rx, ChunkOf(id, frame, k), memory);
            && outcome.Next?
            && Collected(outcome.rx, id, frame, already, order + [k], background)
            && Seen(outcome.rx, id, frame) == if outcome.delivery.Some? then [outcome.delivery.value] else []
  {
    hide OnChunk;
    OneArrival(rx, rx, id, frame, already, order, k, background, memory);
  }

  /** Chunk by chunk: the fields follow the order, and each arrival shows what is then complete by count. */
  lemma {:induction false} Plays(rx: Rx, id: nat, frame: Frame, already: nat, order: seq<nat>, memory: Memory)
    requires frame.data != [] && OfFrame(frame, order) && order != []
    requires memory.Granted? && Ready(rx, id, frame, already)
    ensures var (after, log) := Play(rx, id, frame, order, memory);
            && Collected(after, id, frame, already, order, Background(rx, |frame.data|, memory))
            && log == Play(rx, id, frame, order[..|order| - 1], memory).1 + Seen(after, id, frame)
    decreases |order|
  {
    hide OnChunk, Collected, Seen, Background, Ready, HasChunk;
    var before, k := order[..|order| - 1], order[|order| - 1];
    assert order == before + [k];
    if before == [] {
      assert order == [k];
      FirstArrival(rx, id, frame, already, k, memory);
    } else {
      Plays(rx, id, frame, already, before, memory);
      LaterArrival(Play(rx, id, frame, before, memory).0, id, frame, already, before, k,
          Background(rx, |frame.data|, memory), memory);
    }
  }

  /** The bytes that arrived more than once. */
  function Repeated(data: seq<byte>, order: seq<nat>): nat
    requires OfFrame(Frame(data, 0), order)
  {
    if order == [] then 0 else
    var before, k := order[..|order| - 1], order[|order| - 1];
    Repeated(data, before) + if k in before then |Slice(data, k)| else 0
  }

  /** Counted bytes are covered bytes and repeated ones. */
  lemma {:induction false} CountSplits(data: seq<byte>, order: seq<nat>)
    requires OfFrame(Frame(data, 0), order)
    ensures Counted(data, order) == |Covered(|data|, Elements(order))| + Repeated(data, order)
    decreases |order|
  {
    hide Slice;
    if order == [] {
      assert Covered(|data|, Elements(order)) == {};
    } else {
      var before, k := order[..|order| - 1], order[|order| - 1];
      CountSplits(data, before);
      AddChunk(data, Elements(before), k);
      assert order == before + [k];
      assert Elements(order) == Elements(before) + {k};
    }
  }

  lemma {:induction false} CountGrows(data: seq<byte>, order: seq<nat>, m: nat, n: nat)
    requires OfFrame(Frame(data, 0), order) && m <= n <= |order|
    ensures Counted(data, order[..m]) <= Counted(data, order[..n])
    decreases n
  {
    hide Slice;
    if m < n {
      assert order[..n][..n - 1] == order[..n - 1];
      CountGrows(data, order, m, n - 1);
    }
  }

  /** The first n arrivals bring the counter to the size of the frame. */
  predicate Full(frame: Frame, already: nat, order: seq<nat>, n: nat)
    requires OfFrame(frame, order) && n <= |order|
  {
    already + Counted(frame.data, order[..n]) >= |frame.data|
  }

  /** Something is shown first at the n-th arrival. */
  predicate FirstAt(frame: Frame, already: nat, order: seq<nat>, n: nat)
    requires OfFrame(frame, order)
  {
    0 < n <= |order| && Full(frame, already, order, n) && (n == 1 || !Full(frame, already, order, n - 1))
  }

  /** Nothing is shown before the counter is full. */
  lemma {:induction false} NothingBefore(rx: Rx, id: nat, frame: Frame, already: nat, order: seq<nat>, memory: Memory,
      n: nat)
    requires frame.data != [] && OfFrame(frame, order) && memory.Granted? && Ready(rx, id, frame, already)
    requires n <= |order| && (n == 0 || !Full(frame, already, order, n))
    ensures Play(rx, id, frame, order[..n], memory).1 == []
    decreases n
  {
    hide OnChunk, Seen, Collected, Ready, HasChunk, Counted;
    if n > 0 {
      Plays(rx, id, frame, already, order[..n], memory);
      assert order[..n][..n - 1] == order[..n - 1];
      CountGrows(frame.data, order, n - 1, n);
      NothingBefore(rx, id, frame, already, order, memory, n - 1);
      SeenIff(Play(rx, id, frame, order[..n], memory).0, id, frame, already, order[..n],
          Background(rx, |frame.data|, memory));
    }
  }

  lemma SeenIff(rx: Rx, id: nat, frame: Frame, already: nat, order: seq<nat>, background: seq<byte>)
    requires OfFrame(frame, order) && Collected(rx, id, frame, already, order, background)
    ensures |Seen(rx, id, frame)| == if already + Counted(frame.data, order) >= |frame.data| then 1 else 0
    ensures Seen(rx, id, frame) != [] ==> Seen(rx, id, frame)[0].data == rx.buffer[..|frame.data|]
  {
  }

  /** The entry for this frame. */
  function Right(id: nat, frame: Frame): Delivery { Delivery(id, frame.data, frame.timestamp) }

  /** A buffer whose chunks have all been written shows the frame; one that never held it may not. */
  lemma FilledRight(rx: Rx, id: nat, frame: Frame, already: nat, order: seq<nat>, background: seq<byte>)
    requires OfFrame(frame, order) && Collected(rx, id, frame, already, order, background)
    ensures Complete(|frame.data|, Elements(order)) && Seen(rx, id, frame) != [] ==>
      Seen(rx, id, frame)[0] == Right(id, frame)
  {
    if Complete(|frame.data|, Elements(order)) {
      forall b | 0 <= b < |frame.data| ensures rx.buffer[b] == frame.data[b] {
        ChunkOfByte(|frame.data|, b);
        assert b / 1326 in Elements(order);
      }
      assert rx.buffer[..|frame.data|] == frame.data;
    }
  }

  lemma ChunkOfByte(size: nat, b: nat)
    requires b < size
    ensures 0 <= b / 1326 && HasChunk(size, b / 1326)
  {
  }

  /**
   * From the arrival that fills the counter on, every arrival shows the frame once more; if all its
   * chunks had been written by then, it is right every time.
   */
  lemma {:induction false} ShownEachTime(rx: Rx, id: nat, frame: Frame, already: nat, order: seq<nat>, memory: Memory,
      n: nat, m: nat)
    requires frame.data != [] && OfFrame(frame, order) && memory.Granted? && Ready(rx, id, frame, already)
    requires FirstAt(frame, already, order, n) && n <= m <= |order|
    ensures var log := Play(rx, id, frame, order[..m], memory).1;
            && |log| == m - n + 1
            && [log[0]] == Seen(Play(rx, id, frame, order[..n], memory).0, id, frame)
            && (Complete(|frame.data|, Elements(order[..n])) ==> forall a :: 0 <= a < |log| ==>
                log[a] == Right(id, frame))
    decreases m
  {
    hide OnChunk, Seen, Collected, Ready, HasChunk, Counted, Complete, Right;
    var background, after := Background(rx, |frame.data|, memory), Play(rx, id, frame, order[..m], memory).0;
    Plays(rx, id, frame, already, order[..m], memory);
    assert order[..m][..m - 1] == order[..m - 1];
    CountGrows(frame.data, order, n, m);
    SeenIff(after, id, frame, already, order[..m], background);
    FilledRight(after, id, frame, already, order[..m], background);
    StillComplete(|frame.data|, order, n, m);
    if m == n {
      NothingBefore(rx, id, frame, already, order, memory, n - 1);
    } else {
      ShownEachTime(rx, id, frame, already, order, memory, n, m - 1);
    }
  }

  lemma StillComplete(size: nat, order: seq<nat>, n: nat, m: nat)
    requires n <= m <= |order|
    ensures Complete(size, Elements(order[..n])) ==> Complete(size, Elements(order[..m]))
  {
    assert order[..n] <= order[..m];
    assert forall k :: k in order[..n] ==> k in order[..m];
  }

  /** The n-th arrival is the one that brings the last missing chunk. */
  ghost predicate CompletesAt(size: nat, order: seq<nat>, n: nat) {
    && 0 < n <= |order|
    && Complete(size, Elements(order[..n])) && !Complete(size, Elements(order[..n - 1]))
  }

  /** The bytes counted without being kept, before the last missing chunk, are fewer than that chunk's. */
  ghost predicate InTime(frame: Frame, already: nat, order: seq<nat>, n: nat)
    requires OfFrame(frame, order) && 0 < n <= |order|
  {
    n == 1 || already + Repeated(frame.data, order[..n - 1]) < |Slice(frame.data, order[n - 1])|
  }

  /** The last missing chunk fills the counter, and does so first exactly when it comes in time. */
  lemma {:induction false} CompletionFills(frame: Frame, already: nat, order: seq<nat>, n: nat)
    requires OfFrame(frame, order) && CompletesAt(|frame.data|, order, n)
    ensures Full(frame, already, order, n)
    ensures FirstAt(frame, already, order, n) <==> InTime(frame, already, order, n)
  {
    hide Slice, Covered, Repeated, HasChunk, Elements, Complete;
    var before, k := order[..n - 1], order[n - 1];
    assert order[..n] == before + [k] && order[..n][..n - 1] == before;
    CountSplits(frame.data, order[..n]);
    CountSplits(frame.data, before);
    FullCount(|frame.data|, Elements(order[..n]));
    FullCount(|frame.data|, Elements(before));
    CompleteUnfold(|frame.data|, Elements(order[..n]));
    CompleteUnfold(|frame.data|, Elements(before));
    ElementsOneMore(before, k);
    AddChunk(frame.data, Elements(before), k);
  }

  lemma CompleteUnfold(size: nat, chunks: set<nat>)
    ensures Complete(size, chunks) <==> |Covered(size, chunks)| == size
  {
    FullCount(size, chunks);
  }

  lemma ElementsOneMore(order: seq<nat>, k: nat)
    ensures Elements(order + [k]) == Elements(order) + {k}
  {
  }

  /** Some arrival fills the counter first, once it is filled at all. */
  lemma {:induction false} FirstExists(frame: Frame, already: nat, order: seq<nat>, n: nat) returns (first: nat)
    requires OfFrame(frame, order) && 0 < n <= |order| && Full(frame, already, order, n)
    ensures first <= n && FirstAt(frame, already, order, first)
    decreases n
  {
    if n == 1 || !Full(frame, already, order, n - 1) {
      first := n;
    } else {
      first := FirstExists(frame, already, order, n - 1);
    }
  }

  lemma {:induction false} CompletionExists(size: nat, order: seq<nat>, n: nat) returns (first: nat)
    requires size > 0 && 0 < n <= |order| && Complete(size, Elements(order[..n]))
    ensures first <= n && CompletesAt(size, order, first)
    decreases n
  {
    assert HasChunk(size, 0) && 0 !in Elements(order[..0]);
    if n > 1 && Complete(size, Elements(order[..n - 1])) {
      first := CompletionExists(size, order, n - 1);
    } else {
      first := n;
    }
  }

  function Another(b: byte): byte { if b == 0 then 1 else 0 }

  /** Memory that differs from the frame in every byte. */
  function Wrong(data: seq<byte>): Memory { Granted((i: nat) => if i < |data| then Another(data[i]) else 0) }

  /** What the first arrival that shows anything shows. */
  ghost predicate ShowsRight(rx: Rx, id: nat, frame: Frame, order: seq<nat>, memory: Memory)
    requires OfFrame(frame, order)
  {
    var log := Play(rx, id, frame, order, memory).1;
    log != [] && log[0] == Right(id, frame)
  }

  /** In time, the frame is shown right whatever the memory held before. */
  lemma {:induction false} InTimeShowsRight(rx: Rx, id: nat, frame: Frame, already: nat, order: seq<nat>,
      memory: Memory, n: nat)
    requires frame.data != [] && OfFrame(frame, order) && memory.Granted? && Ready(rx, id, frame, already)
    requires CompletesAt(|frame.data|, order, n) && InTime(frame, already, order, n)
    ensures ShowsRight(rx, id, frame, order, memory)
  {
    hide Play, Complete, Right, Seen, InTime, FirstAt, Full;
    CompletionFills(frame, already, order, n);
    ShownEachTime(rx, id, frame, already, order, memory, n, |order|);
    assert order[..|order|] == order;
  }

  /** With an empty buffer and memory that is wrong everywhere, nothing else is shown right. */
  lemma OnlyInTime(rx: Rx, id: nat, frame: Frame, already: nat, order: seq<nat>) returns (n: nat)
    requires frame.data != [] && OfFrame(frame, order) && Ready(rx, id, frame, already) && rx.buffer == []
    requires ShowsRight(rx, id, frame, order, Wrong(frame.data))
    ensures CompletesAt(|frame.data|, order, n) && InTime(frame, already, order, n)
  {
    hide Play, Complete, Seen, InTime, Full, Counted, Elements, Collected;
    var memory := Wrong(frame.data);
    assert order[..|order|] == order;
    if order == [] || !Full(frame, already, order, |order|) {
      NothingBefore(rx, id, frame, already, order, memory, |order|);
    }
    var first := FirstExists(frame, already, order, |order|);
    ShownEachTime(rx, id, frame, already, order, memory, first, |order|);
    Plays(rx, id, frame, already, order[..first], memory);
    WrongUnlessWritten(Play(rx, id, frame, order[..first], memory).0, rx, id, frame, already, order[..first]);
    n := CompletionExists(|frame.data|, order, first);
    CompletionFills(frame, already, order, n);
    CountGrows(frame.data, order, n, if first > n then first - 1 else n);
    FullGrows(frame, already, order, n, first);
  }

  lemma FullGrows(frame: Frame, already: nat, order: seq<nat>, n: nat, first: nat)
    requires OfFrame(frame, order) && FirstAt(frame, already, order, first)
    requires 0 < n <= first && Full(frame, already, order, n)
    ensures n == first
  {
    if n < first { CountGrows(frame.data, order, n, first - 1); }
  }

  lemma WrongUnlessWritten(after: Rx, rx: Rx, id: nat, frame: Frame, already: nat, order: seq<nat>)
    requires OfFrame(frame, order) && rx.buffer == []
    requires Collected(after, id, frame, already, order, Background(rx, |frame.data|, Wrong(frame.data)))
    requires Seen(after, id, frame) == [Right(id, frame)]
    ensures Complete(|frame.data|, Elements(order))
  {
    var data, background := frame.data, Background(rx, |frame.data|, Wrong(frame.data));
    forall k | 0 <= k && HasChunk(|data|, k) ensures k in Elements(order) {
      var b := k * 1326;
      assert after.buffer[..|data|][b] == data[b];
      assert background[b] != data[b];
      assert b / 1326 == k;
    }
  }

  /** Whatever the old buffer and fresh memory hold, the first thing shown is the frame. */
  ghost predicate AlwaysRight(id: nat, frame: Frame, already: nat, order: seq<nat>)
    requires OfFrame(frame, order)
  {
    forall rx: Rx, memory: Memory :: Ready(rx, id, frame, already) && memory.Granted? ==>
      ShowsRight(rx, id, frame, order, memory)
  }

  /**
   * Repeats, exactly: chunks of a frame arriving in any order, any number of times, show that frame
   * first if and only if they include all of its chunks and, before the last missing one, fewer
   * bytes were repeated, or had been counted before the buffer was taken away, than that chunk has.
   */
  lemma {:induction false} FirstFrameRightIff(id: nat, frame: Frame, already: nat, order: seq<nat>)
    requires frame.data != [] && OfFrame(frame, order)
    ensures AlwaysRight(id, frame, already, order) <==>
              exists n :: CompletesAt(|frame.data|, order, n) && InTime(frame, already, order, n)
  {
    hide ShowsRight, Complete, InTime;
    if AlwaysRight(id, frame, already, order) {
      var rx := Rx(if already == 0 then id + 1 else id, [], |frame.data|, already);
      var n := OnlyInTime(rx, id, frame, already, order);
    }
    if n :| CompletesAt(|frame.data|, order, n) && InTime(frame, already, order, n) {
      forall rx: Rx, memory: Memory | Ready(rx, id, frame, already) && memory.Granted?
        ensures ShowsRight(rx, id, frame, order, memory)
      {
        InTimeShowsRight(rx, id, frame, already, order, memory, n);
      }
    }
  }

  /** Without repeats and with nothing counted before, every order that has all chunks is in time. */
  lemma {:induction false} DistinctIsInTime(frame: Frame, order: seq<nat>, n: nat)
    requires OfFrame(frame, order) && Distinct(order) && 0 < n <= |order|
    ensures InTime(frame, 0, order, n)
  {
    NoRepeats(frame.data, order, n - 1);
    ChunksTile(|frame.data|, order[n - 1]);
  }

  lemma {:induction false} NoRepeats(data: seq<byte>, order: seq<nat>, n: nat)
    requires OfFrame(Frame(data, 0), order) && Distinct(order) && n <= |order|
    ensures Repeated(data, order[..n]) == 0
    decreases n
  {
    if n > 0 {
      assert order[..n][..n - 1] == order[..n - 1];
      NoRepeats(data, order, n - 1);
    }
  }

  /**
   * After a timeout in mid-frame, with some bytes counted and the buffer gone, the rest of the chunks
   * alone never show the frame right: memory can always be such that what is shown, if anything, is
   * another frame.
   */
  lemma {:induction false} TimeoutLosesFrame(rx: Rx, id: nat, frame: Frame, order: seq<nat>)
    requires frame.data != [] && OfFrame(frame, order) && rx.buffer == []
    requires rx.frameId == id && rx.expected == |frame.data| && !Complete(|frame.data|, Elements(order))
    ensures !ShowsRight(rx, id, frame, order, Wrong(frame.data))
  {
    if ShowsRight(rx, id, frame, order, Wrong(frame.data)) {
      var n := OnlyInTime(rx, id, frame, rx.received, order);
    }
  }
}
