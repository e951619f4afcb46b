/**
 * Every run of one sender, one receiver and a datagram channel that loses and reorders chunks,
 * even across frames, but does not duplicate them. The receiver's only evidence is a byte count.
 */
module VideoRuns {
  import opened Bytes
  import opened Lists
  import opened Wrappers
  import opened VideoSender
  import opened VideoReceiver

  /** A chunk in flight: the frame's position in the order of sending, and the chunk's number. */
  datatype Datagram = Datagram(frame: nat, chunk: nat)

  /**
   * `frames` are those sent so far (the frame at i has id i + 1), `log` what current_frame has
   * shown, `stored` the chunks written since the receiver last switched frames, and `overrun`
   * records a copy outside the buffer.
   */
  datatype Net = Net(frames: seq<Frame>, flight: set<Datagram>, rx: Rx, stored: set<nat>, log: seq<Delivery>,
      overrun: bool)

  /**
   * One step: a frame of which some chunks leave, a loss, an arrival, or a payload that is dropped;
   * VideoBounds takes any payload.
   */
  datatype Event =
    | Send(frame: Frame, emitted: nat)
    | Lose(datagram: Datagram)
    | Deliver(datagram: Datagram, memory: Memory)
    | Junk(payload: seq<byte>, memory: Memory)

  const START := Net([], {}, Rx(0, [], 0, 0), {}, [], false)

  /** Frames of 1 byte to 16 MiB, and fewer of them than a 32-bit id can count. */
  predicate Sendable(n: Net, frame: Frame) {
    && 1 <= |frame.data| <= MAX_FRAME
    && frame.timestamp < U64
    && |n.frames| + 1 < U32
  }

  predicate Sent(n: Net, d: Datagram) {
    d.frame < |n.frames| && HasChunk(|n.frames[d.frame].data|, d.chunk)
  }

  function Step(n: Net, e: Event): Net {
    match e
    case Send(frame, emitted) =>
      if Sendable(n, frame) && emitted <= ChunkCount(|frame.data|)
      then n.(frames := n.frames + [frame],
              flight := n.flight + set k: nat | 0 <= k < emitted :: Datagram(|n.frames|, k))
      else n
    case Lose(d) => n.(flight := n.flight - {d})
    case Deliver(d, memory) => if d in n.flight && Sent(n, d) then Arrive(n, d, memory) else n
    case Junk(payload, memory) =>
      if Parse(payload).None? then Take(n, OnPayload(n.rx, payload, memory), n.stored) else n
  }

  function Take(n: Net, outcome: Outcome, stored: set<nat>): Net {
    match outcome
    case OutOfBounds => n.(overrun := true)
    case Next(rx, delivery) =>
      n.(rx := rx, stored := stored, log := if delivery.Some? then n.log + [delivery.value] else n.log)
  }

  function Arrive(n: Net, d: Datagram, memory: Memory): Net
    requires Sent(n, d)
  {
    var frame := n.frames[d.frame];
    var stored := if n.rx.frameId == d.frame + 1 then n.stored else {};
    var room := |n.rx.buffer| >= |frame.data| || memory.Granted?;
    Take(n.(flight := n.flight - {d}), OnChunk(n.rx, ChunkOf(d.frame + 1, frame, d.chunk), memory),
         if room then stored + {d.chunk} else stored)
  }

  function Exec(n: Net, events: seq<Event>): Net
    decreases |events|
  {
    if events == [] then n else Exec(Step(n, events[0]), events[1..])
  }

  /** The bytes of a frame that a set of chunks covers. */
  function Covered(size: nat, chunks: set<nat>): set<int> {
    set b | 0 <= b < size && b / 1326 in chunks
  }

  function Span(lo: int, hi: int): (s: set<int>)
    requires lo <= hi
    ensures forall b :: b in s <==> lo <= b < hi
    ensures |s| == hi - lo
    decreases hi - lo
  {
    if lo == hi then {} else Span(lo, hi - 1) + {hi - 1}
  }

  lemma SubsetSize<T>(a: set<T>, b: set<T>)
    requires a <= b
    ensures |a| <= |b|
    ensures |a| == |b| ==> a == b
  {
    assert b == a + (b - a);
  }

  /** A chunk not stored yet adds exactly its own length to the covered bytes; a stored one adds none. */
  lemma AddChunk(data: seq<byte>, chunks: set<nat>, k: nat)
    requires HasChunk(|data|, k)
    ensures |Covered(|data|, chunks + {k})| == |Covered(|data|, chunks)| + if k in chunks then 0 else |Slice(data, k)|
  {
    var size := |data|;
    ChunksTile(size, k);
    if k in chunks {
      assert chunks + {k} == chunks;
    } else {
      var span := Span(Cut(size, k), Cut(size, k + 1));
      assert Covered(size, chunks + {k}) == Covered(size, chunks) + span;
      assert Covered(size, chunks) !! span;
    }
  }

  /** Every byte is covered as soon as the count says so; then every chunk has been stored. */
  lemma FullCount(size: nat, chunks: set<nat>)
    ensures |Covered(size, chunks)| <= size
    ensures |Covered(size, chunks)| == size <==> forall k :: 0 <= k && HasChunk(size, k) ==> k in chunks
    ensures |Covered(size, chunks)| == size ==> Covered(size, chunks) == Span(0, size)
  {
    SubsetSize(Covered(size, chunks), Span(0, size));
    if |Covered(size, chunks)| == size {
      forall k | 0 <= k && HasChunk(size, k) ensures k in chunks {
        ChunksTile(size, k);
        assert Cut(size, k) in Span(0, size);
      }
    }
    if forall k :: 0 <= k && HasChunk(size, k) ==> k in chunks {
      forall b | 0 <= b < size ensures b in Covered(size, chunks) {
        assert 0 <= b / 1326 < ChunkCount(size);
      }
      assert Covered(size, chunks) == Span(0, size);
    }
  }

  /** The buffer agrees with the frame wherever a stored chunk was written. */
  ghost predicate Agrees(buffer: seq<byte>, data: seq<byte>, chunks: set<nat>) {
    forall b :: b in Covered(|data|, chunks) ==> b < |buffer| && buffer[b] == data[b]
  }

  /** What the receiver's fields mean while it is collecting the frame at position i. */
  ghost predicate Collecting(n: Net, i: nat)
    requires i < |n.frames|
  {
    var data := n.frames[i].data;
    && n.rx.expected == |data|
    && n.rx.received == |Covered(|data|, n.stored)|
    && Agrees(n.rx.buffer, data, n.stored)
    && (forall k :: k in n.stored ==> HasChunk(|data|, k) && Datagram(i, k) !in n.flight)
  }

  ghost predicate Genuine(n: Net, entry: Delivery) {
    && 1 <= entry.frameId <= |n.frames|
    && n.frames[entry.frameId - 1] == Frame(entry.data, entry.timestamp)
    && (forall d :: d in n.flight ==> d.frame != entry.frameId - 1)
  }

  ghost predicate Inv(n: Net) {
    && !n.overrun
    && |n.frames| < U32
    && (forall i :: 0 <= i < |n.frames| ==> 1 <= |n.frames[i].data| <= MAX_FRAME && n.frames[i].timestamp < U64)
    && (forall d :: d in n.flight ==> Sent(n, d))
    && n.rx.frameId <= |n.frames|
    && (if n.rx.frameId == 0 then n.rx == START.rx else Collecting(n, n.rx.frameId - 1))
    && (forall a :: 0 <= a < |n.log| ==> Genuine(n, n.log[a]))
    && (forall a, b :: 0 <= a < b < |n.log| ==> n.log[a].frameId != n.log[b].frameId)
  }

  /** The arrival step is what the receiver does with the bytes that the sender put in the payload. */
  lemma ArriveOnBytes(n: Net, d: Datagram, memory: Memory)
    requires Inv(n) && d in n.flight
    ensures OnPayload(n.rx, Payload(d.frame + 1, n.frames[d.frame], d.chunk), memory)
         == OnChunk(n.rx, ChunkOf(d.frame + 1, n.frames[d.frame], d.chunk), memory)
  {
    FieldWidths();
    SentChunkParses(d.frame + 1, n.frames[d.frame], d.chunk);
  }

  /** Writing a chunk at its offset keeps what was right and makes its own bytes right. */
  lemma StoreAgrees(buffer: seq<byte>, data: seq<byte>, stored: set<nat>, k: nat)
    requires HasChunk(|data|, k) && |data| <= |buffer| && Agrees(buffer, data, stored)
    ensures Agrees(Splice(buffer, Cut(|data|, k), Slice(data, k)), data, stored + {k})
  {
    ChunksTile(|data|, k);
  }

  /** The frame completes exactly when its last missing chunk is stored, and then it is right. */
  ghost predicate Complete(size: nat, stored: set<nat>) {
    forall k :: 0 <= k && HasChunk(size, k) ==> k in stored
  }

  /** One write: the count grows by the chunk, and reaches the frame's size exactly on completion. */
  lemma StoreBytes(buffer: seq<byte>, data: seq<byte>, stored: set<nat>, k: nat)
    requires HasChunk(|data|, k) && k !in stored && |data| <= |buffer| && Agrees(buffer, data, stored)
    ensures var buffer', stored' := Splice(buffer, Cut(|data|, k), Slice(data, k)), stored + {k};
            && Agrees(buffer', data, stored')
            && |Covered(|data|, stored')| == |Covered(|data|, stored)| + |Slice(data, k)|
            && (|Covered(|data|, stored')| >= |data| <==> Complete(|data|, stored'))
            && (Complete(|data|, stored') ==> buffer'[..|data|] == data)
  {
    AddChunk(data, stored, k);
    FullCount(|data|, stored + {k});
    StoreAgrees(buffer, data, stored, k);
    var buffer' := Splice(buffer, Cut(|data|, k), Slice(data, k));
    if Complete(|data|, stored + {k}) {
      assert forall b :: 0 <= b < |data| ==> b in Covered(|data|, stored + {k});
      assert buffer'[..|data|] == data;
    }
  }

  /** The fields after `stored` chunks of the frame under this id have been counted and written. */
  ghost predicate Holds(rx: Rx, id: nat, data: seq<byte>, stored: set<nat>) {
    && rx.frameId == id && rx.expected == |data|
    && rx.received == |Covered(|data|, stored)|
    && Agrees(rx.buffer, data, stored)
  }

  /** One more chunk, not stored before: it is counted and written, and completion is exact. */
  lemma StoreChunk(rx: Rx, id: nat, frame: Frame, k: nat, stored: set<nat>, memory: Memory)
    requires frame.data != [] && HasChunk(|frame.data|, k) && k !in stored
    requires if rx.frameId == id then Holds(rx, id, frame.data, stored) else stored == {}
    ensures var outcome := OnChunk(rx, ChunkOf(id, frame, k), memory);
            var stored' := if |rx.buffer| >= |frame.data| || memory.Granted? then stored + {k} else stored;
            && outcome.Next? && Holds(outcome.rx, id, frame.data, stored')
            && outcome.delivery == if Complete(|frame.data|, stored')
                                   then Some(Delivery(id, frame.data, frame.timestamp)) else None
  {
    assert Covered(|frame.data|, {}) == {};
    ChunksTile(|frame.data|, k);
    var grown := Grow(rx.buffer, |frame.data|, memory);
    if grown.Some? { StoreBytes(grown.value, frame.data, stored, k); }
  }

  /** The chunks of frame i that count at this moment: none unless it is the frame being collected. */
  function Current(n: Net, i: nat): set<nat> { if n.rx.frameId == i + 1 then n.stored else {} }

  /** What current_frame gains once these chunks of frame i are stored. */
  ghost function Shown(n: Net, i: nat, stored: set<nat>): seq<Delivery>
    requires i < |n.frames|
  {
    var frame := n.frames[i];
    if Complete(|frame.data|, stored) then [Delivery(i + 1, frame.data, frame.timestamp)] else []
  }

  /** What one arrival does, told without the receiver's code. */
  ghost predicate Arrived(n: Net, d: Datagram, n': Net)
    requires Sent(n, d)
  {
    var frame := n.frames[d.frame];
    && !n'.overrun && n'.frames == n.frames && n'.flight == n.flight - {d}
    && n'.rx.frameId == d.frame + 1 && Collecting(n', d.frame)
    && n'.log == n.log + Shown(n, d.frame, n'.stored)
  }

  /** The part of the invariant that an arrival rests on. */
  ghost predicate Expected(n: Net, d: Datagram) {
    && !n.overrun && d in n.flight && Sent(n, d) && n.frames[d.frame].data != []
    && (n.rx.frameId == d.frame + 1 ==> Collecting(n, d.frame))
  }

  lemma ArriveShape(n: Net, d: Datagram, memory: Memory)
    requires Expected(n, d)
    ensures Arrived(n, d, Arrive(n, d, memory))
    ensures memory.Granted? ==> Arrive(n, d, memory).stored == Current(n, d.frame) + {d.chunk}
  {
    hide OnChunk, ChunkOf, Covered, Agrees, Complete;
    StoreChunk(n.rx, d.frame + 1, n.frames[d.frame], d.chunk, Current(n, d.frame), memory);
  }

  lemma ArriveKeeps(n: Net, d: Datagram, n': Net)
    requires Inv(n) && d in n.flight && Arrived(n, d, n')
    ensures Inv(n')
  {
    forall a | 0 <= a < |n.log| ensures Genuine(n', n.log[a]) && n.log[a].frameId != d.frame + 1 {
      assert Genuine(n, n.log[a]);
    }
    hide Agrees, Covered;
  }

  lemma SendKeeps(n: Net, frame: Frame, emitted: nat)
    requires Inv(n)
    ensures Inv(Step(n, Send(frame, emitted)))
  {
    var n' := Step(n, Send(frame, emitted));
    if n.rx.frameId != 0 { assert Collecting(n, n.rx.frameId - 1); }
    forall a | 0 <= a < |n.log| ensures Genuine(n', n.log[a]) {
      assert Genuine(n, n.log[a]);
    }
  }

  lemma {:induction false} StepKeeps(n: Net, e: Event)
    requires Inv(n)
    ensures Inv(Step(n, e))
  {
    match e
    case Send(frame, emitted) => SendKeeps(n, frame, emitted);
    case Lose(d) =>
      forall a | 0 <= a < |n.log| ensures Genuine(Step(n, e), n.log[a]) { assert Genuine(n, n.log[a]); }
    case Deliver(d, memory) =>
      if d in n.flight {
        ArriveShape(n, d, memory);
        ArriveKeeps(n, d, Arrive(n, d, memory));
      }
    case Junk(_, _) =>
  }

  lemma {:induction false} ExecKeeps(n: Net, events: seq<Event>)
    requires Inv(n)
    ensures Inv(Exec(n, events))
    decreases |events|
  {
    if events != [] {
      StepKeeps(n, events[0]);
      ExecKeeps(Step(n, events[0]), events[1..]);
    }
  }

  /**
   * Reassembly safety: whatever is lost or reordered, no copy leaves the buffer, every frame shown
   * is byte for byte a frame that was sent, with its timestamp, and none is shown twice.
   */
  lemma ReassemblySafety(events: seq<Event>)
    ensures var n := Exec(START, events);
            && !n.overrun
            && (forall a :: 0 <= a < |n.log| ==>
                  && 1 <= n.log[a].frameId <= |n.frames|
                  && n.frames[n.log[a].frameId - 1] == Frame(n.log[a].data, n.log[a].timestamp))
            && (forall a, b :: 0 <= a < b < |n.log| ==> n.log[a].frameId != n.log[b].frameId)
  {
    FieldWidths();
    ExecKeeps(START, events);
    var n := Exec(START, events);
    forall a | 0 <= a < |n.log|
      ensures 1 <= n.log[a].frameId <= |n.frames|
      ensures n.frames[n.log[a].frameId - 1] == Frame(n.log[a].data, n.log[a].timestamp)
    {
      assert Genuine(n, n.log[a]);
    }
  }

  /** Delivering chunks of frame i in the given order, with memory whenever it is needed. */
  function Deliveries(i: nat, order: seq<nat>, memory: Memory): seq<Event> {
    if order == [] then [] else [Deliver(Datagram(i, order[0]), memory)] + Deliveries(i, order[1..], memory)
  }

  ghost predicate InFlight(n: Net, i: nat, order: seq<nat>) {
    && Distinct(order)
    && (forall a :: 0 <= a < |order| ==> Datagram(i, order[a]) in n.flight)
  }

  function Elements(order: seq<nat>): (s: set<nat>)
    ensures forall k :: k in s <==> k in order
  {
    if order == [] then {} else {order[0]} + Elements(order[1..])
  }

  lemma FirstOfOrder(n: Net, i: nat, order: seq<nat>, memory: Memory)
    requires Inv(n) && i < |n.frames| && memory.Granted? && InFlight(n, i, order) && order != []
    ensures var n' := Step(n, Deliver(Datagram(i, order[0]), memory));
            && Inv(n') && n'.frames == n.frames && InFlight(n', i, order[1..])
            && Current(n', i) == Current(n, i) + {order[0]}
            && n'.log == n.log + Shown(n, i, Current(n', i))
            && (Shown(n, i, Current(n', i)) != [] ==> |order| == 1)
  {
    var d := Datagram(i, order[0]);
    ArriveShape(n, d, memory);
    hide Arrive;
    var n' := Arrive(n, d, memory);
    ArriveKeeps(n, d, n');
    RestInFlight(n, n', i, order);
    if |order| > 1 { assert Datagram(i, order[1]) in n'.flight; }
  }

  lemma RestInFlight(n: Net, n': Net, i: nat, order: seq<nat>)
    requires InFlight(n, i, order) && order != [] && n'.flight == n.flight - {Datagram(i, order[0])}
    ensures InFlight(n', i, order[1..])
  {
  }

  lemma {:induction false} AnyOrderFrom(n: Net, i: nat, order: seq<nat>, memory: Memory, stored: set<nat>)
    requires Inv(n) && i < |n.frames| && memory.Granted? && InFlight(n, i, order)
    requires stored == Current(n, i) && Shown(n, i, stored) == []
    ensures Exec(n, Deliveries(i, order, memory)).log == n.log + Shown(n, i, stored + Elements(order))
    decreases |order|
  {
    hide Step, Inv, InFlight;
    if order == [] {
      assert stored + Elements(order) == stored;
    } else {
      FirstOfOrder(n, i, order, memory);
      var n', rest, stored' := Step(n, Deliver(Datagram(i, order[0]), memory)), order[1..], stored + {order[0]};
      assert stored + Elements(order) == stored' + Elements(rest);
      assert Exec(n, Deliveries(i, order, memory)) == Exec(n', Deliveries(i, rest, memory)) by {
        assert Deliveries(i, order, memory)[1..] == Deliveries(i, rest, memory);
      }
      if Shown(n, i, stored') == [] {
        AnyOrderFrom(n', i, rest, memory, stored');
      } else {
        assert stored' + Elements(rest) == stored';
      }
    }
  }

  /**
   * Any order works: with all chunks of a frame in flight and none counted yet, delivering them in
   * any order shows the frame exactly at the last one, and shows nothing before it.
   */
  lemma {:induction false} AnyOrder(n: Net, i: nat, order: seq<nat>, memory: Memory, j: nat)
    requires Inv(n) && i < |n.frames| && memory.Granted? && n.rx.frameId != i + 1
    requires InFlight(n, i, order) && |order| == ChunkCount(|n.frames[i].data|)
    requires j <= |order|
    ensures Exec(n, Deliveries(i, order[..j], memory)).log
         == n.log + if j == |order| then [Delivery(i + 1, n.frames[i].data, n.frames[i].timestamp)] else []
  {
    var frame, given := n.frames[i], order[..j];
    hide Step, Inv, Exec, InFlight, Deliveries, HasChunk, ChunkCount;
    FlightChunks(n, i, order);
    CompleteAtLast(|frame.data|, order, j);
    CompleteAtLast(|frame.data|, order, 0);
    assert order[..0] == [] && {} + Elements(given) == Elements(given);
    PrefixInFlight(n, i, order, j);
    AnyOrderFrom(n, i, given, memory, {});
  }

  lemma PrefixInFlight(n: Net, i: nat, order: seq<nat>, j: nat)
    requires InFlight(n, i, order) && j <= |order|
    ensures InFlight(n, i, order[..j])
  {
  }

  lemma FlightChunks(n: Net, i: nat, order: seq<nat>)
    requires Inv(n) && i < |n.frames| && InFlight(n, i, order)
    ensures ChunkCount(|n.frames[i].data|) > 0 && Distinct(order)
    ensures forall a :: 0 <= a < |order| ==> HasChunk(|n.frames[i].data|, order[a])
  {
    forall a | 0 <= a < |order| ensures HasChunk(|n.frames[i].data|, order[a]) {
      assert Sent(n, Datagram(i, order[a]));
    }
  }

  /** Of as many distinct chunks as the frame has, only all of them complete it. */
  lemma CompleteAtLast(size: nat, order: seq<nat>, j: nat)
    requires Distinct(order)
    requires forall a :: 0 <= a < |order| ==> HasChunk(size, order[a])
    requires j <= |order| == ChunkCount(size)
    ensures Complete(size, Elements(order[..j])) <==> j == |order|
  {
    hide HasChunk, ChunkCount, Distinct;
    ChunkNumbers(size);
    if j == |order| {
      AllDistinct(order, ChunkCount(size));
      assert order[..j] == order;
    } else {
      NotBefore(order, j);
      assert HasChunk(size, order[j]);
    }
  }

  lemma ChunkNumbers(size: nat)
    ensures forall k: nat :: HasChunk(size, k) <==> k < ChunkCount(size)
  {
  }

  lemma NotBefore(order: seq<nat>, j: nat)
    requires Distinct(order) && j < |order|
    ensures order[j] !in Elements(order[..j])
  {
  }

  function Below(count: nat): (s: set<nat>)
    ensures |s| == count && forall k: nat :: k in s <==> k < count
  {
    if count == 0 then {} else Below(count - 1) + {count - 1}
  }

  /** As many distinct chunk numbers as there are chunks are all of them. */
  lemma AllDistinct(order: seq<nat>, count: nat)
    requires |order| == count
    requires Distinct(order)
    requires forall a :: 0 <= a < |order| ==> order[a] < count
    ensures Elements(order) == Below(count)
  {
    ElementsSize(order);
    SubsetSize(Elements(order), Below(count));
  }

  lemma {:induction false} ElementsSize(order: seq<nat>)
    requires Distinct(order)
    ensures |Elements(order)| == |order|
  {
    if order == [] {
      assert Elements(order) == {};
    } else {
      var last := |order| - 1;
      ElementsSize(order[..last]);
      assert Elements(order) == Elements(order[..last]) + {order[last]};
    }
  }

  /**
   * Duplication is what the count cannot see: a chunk of the frame being collected keeps the count
   * equal to the number of bytes written if and only if that chunk was not stored before.
   */
  lemma CountExactIff(rx: Rx, frame: Frame, k: nat, stored: set<nat>, memory: Memory)
    requires 1 <= |frame.data| && HasChunk(|frame.data|, k) && |rx.buffer| >= |frame.data|
    requires Holds(rx, rx.frameId, frame.data, stored)
    ensures var outcome := OnChunk(rx, ChunkOf(rx.frameId, frame, k), memory);
            outcome.Next? && (Holds(outcome.rx, rx.frameId, frame.data, stored + {k}) <==> k !in stored)
  {
    ChunksTile(|frame.data|, k);
    AddChunk(frame.data, stored, k);
    if k !in stored { StoreChunk(rx, rx.frameId, frame, k, stored, memory); }
  }

  /** A two-chunk frame whose first chunk arrives twice is shown with a second half nobody sent. */
  lemma {:induction false} DuplicateShowsWrongFrame()
    ensures var frame := Frame(seq(2652, _ => 7), 0);
            var memory := Granted(_ => 0);
            var first := OnPayload(START.rx, Payload(1, frame, 0), memory);
            && first.Next? && first.delivery == None
            && var second := OnPayload(first.rx, Payload(1, frame, 0), memory);
            && second.Next? && second.delivery.Some? && second.delivery.value.data != frame.data
  {
    var frame := Frame(seq(2652, _ => 7), 0);
    var memory := Granted(_ => 0);
    FieldWidths();
    SentChunkParses(1, frame, 0);
    var chunk := ChunkOf(1, frame, 0);
    assert |chunk.data| == 1326;
    var first := OnChunk(START.rx, chunk, memory);
    assert first.rx.buffer[2000] == 0;
    var second := OnChunk(first.rx, chunk, memory);
    assert second.delivery.value.data[2000] == 0 && frame.data[2000] == 7;
  }
}
