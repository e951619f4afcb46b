/**
 * Chunks of many frames in any mixture: lost, reordered, repeated and interleaved. The receiver
 * forgets its count whenever the frame id changes but keeps the buffer, so a run falls into segments
 * of arrivals with one id (src/network.c:636-663).
 */
module VideoSegments {
  import opened Bytes
  import opened Lists
  import opened Wrappers
  import opened VideoSender
  import opened VideoReceiver
  import opened VideoRuns
  import opened VideoRepeats

  /** Every arrival is a chunk of one of the frames; the frame at i has id i + 1. */
  predicate Known(frames: seq<Frame>, arrivals: seq<Datagram>) {
    forall a :: 0 <= a < |arrivals| ==> IsChunk(frames, arrivals[a])
  }

  predicate IsChunk(frames: seq<Frame>, d: Datagram) {
    d.frame < |frames| && HasChunk(|frames[d.frame].data|, d.chunk)
  }

  function Sent(frames: seq<Frame>, d: Datagram): Chunk
    requires IsChunk(frames, d)
  {
    ChunkOf(d.frame + 1, frames[d.frame], d.chunk)
  }

  /** The receiver and what it shows. */
  function Watch(rx: Rx, frames: seq<Frame>, arrivals: seq<Datagram>, memory: Memory): (Rx, seq<Delivery>)
    requires Known(frames, arrivals)
  {
    if arrivals == [] then (rx, []) else
    var (before, log) := Watch(rx, frames, arrivals[..|arrivals| - 1], memory);
    match OnChunk(before, Sent(frames, arrivals[|arrivals| - 1]), memory)
    case OutOfBounds => (before, log)
    case Next(after, delivery) => (after, log + if delivery.Some? then [delivery.value] else [])
  }

  /** The chunks that arrived since the frame last changed. */
  function Segment(arrivals: seq<Datagram>): (order: seq<nat>)
    ensures arrivals != [] ==> order != [] && order[|order| - 1] == arrivals[|arrivals| - 1].chunk
  {
    if arrivals == [] then [] else
    var before, last := arrivals[..|arrivals| - 1], arrivals[|arrivals| - 1];
    (if before != [] && before[|before| - 1].frame == last.frame then Segment(before) else []) + [last.chunk]
  }

  /** The frame of the last arrival. */
  function Latest(frames: seq<Frame>, arrivals: seq<Datagram>): Frame
    requires Known(frames, arrivals) && arrivals != []
  {
    frames[arrivals[|arrivals| - 1].frame]
  }

  lemma {:induction false} SegmentOfFrame(frames: seq<Frame>, arrivals: seq<Datagram>)
    requires Known(frames, arrivals) && arrivals != []
    ensures OfFrame(Latest(frames, arrivals), Segment(arrivals))
  {
    var before := arrivals[..|arrivals| - 1];
    if before != [] { SegmentOfFrame(frames, before); }
  }

  /** The last byte that any arrival wrote to a place of the buffer. */
  function Written(frames: seq<Frame>, arrivals: seq<Datagram>, b: nat): Option<byte>
    requires Known(frames, arrivals)
  {
    if arrivals == [] then None else
    var last := arrivals[|arrivals| - 1];
    if b < |frames[last.frame].data| && b / 1326 == last.chunk then Some(frames[last.frame].data[b])
    else Written(frames, arrivals[..|arrivals| - 1], b)
  }

  /** The count since the frame last changed has reached its size. */
  ghost predicate Counts(frames: seq<Frame>, arrivals: seq<Datagram>)
    requires Known(frames, arrivals)
  {
    && arrivals != [] && OfFrame(Latest(frames, arrivals), Segment(arrivals))
    && Counted(Latest(frames, arrivals).data, Segment(arrivals)) >= |Latest(frames, arrivals).data|
  }

  /** The frame of the last arrival is what was last written to its part of the buffer. */
  ghost predicate Covers(frames: seq<Frame>, arrivals: seq<Datagram>)
    requires Known(frames, arrivals) && arrivals != []
  {
    var data := Latest(frames, arrivals).data;
    forall b :: 0 <= b < |data| ==> Written(frames, arrivals, b) == Some(data[b])
  }

  /** The bytes written so far are in the buffer. */
  ghost predicate Kept(buffer: seq<byte>, frames: seq<Frame>, arrivals: seq<Datagram>)
    requires Known(frames, arrivals)
  {
    forall b: nat :: Written(frames, arrivals, b).Some? ==>
      b < |buffer| && buffer[b] == Written(frames, arrivals, b).value
  }

  /** The receiver's fields after some arrivals; a fresh receiver has id 0 and any buffer. */
  ghost predicate Tracks(rx: Rx, frames: seq<Frame>, arrivals: seq<Datagram>)
    requires Known(frames, arrivals)
  {
    && Kept(rx.buffer, frames, arrivals)
    && if arrivals == [] then rx.frameId == 0 else
       && OfFrame(Latest(frames, arrivals), Segment(arrivals))
       && rx.frameId == arrivals[|arrivals| - 1].frame + 1
       && rx.expected == |Latest(frames, arrivals).data| <= |rx.buffer|
       && rx.received == Counted(Latest(frames, arrivals).data, Segment(arrivals))
  }

  lemma WrittenOneMore(frames: seq<Frame>, arrivals: seq<Datagram>, d: Datagram, b: nat)
    requires Known(frames, arrivals) && IsChunk(frames, d)
    ensures Known(frames, arrivals + [d])
    ensures Written(frames, arrivals + [d], b)
         == if b < |frames[d.frame].data| && b / 1326 == d.chunk then Some(frames[d.frame].data[b])
            else Written(frames, arrivals, b)
  {
    assert (arrivals + [d])[..|arrivals|] == arrivals;
  }

  lemma KeptOneMore(buffer: seq<byte>, frames: seq<Frame>, arrivals: seq<Datagram>, d: Datagram)
    requires Known(frames, arrivals) && IsChunk(frames, d) && Kept(buffer, frames, arrivals)
    requires |frames[d.frame].data| <= |buffer|
    ensures Known(frames, arrivals + [d])
    ensures var data := frames[d.frame].data;
            && Cut(|data|, d.chunk) + |Slice(data, d.chunk)| <= |buffer|
            && Kept(Splice(buffer, Cut(|data|, d.chunk), Slice(data, d.chunk)), frames, arrivals + [d])
  {
    var data := frames[d.frame].data;
    ChunksTile(|data|, d.chunk);
    hide Written;
    var buffer' := Splice(buffer, Cut(|data|, d.chunk), Slice(data, d.chunk));
    forall b: nat | Written(frames, arrivals + [d], b).Some?
      ensures b < |buffer'| && buffer'[b] == Written(frames, arrivals + [d], b).value
    {
      WrittenOneMore(frames, arrivals, d, b);
    }
  }

  /** The count of the segment after one more arrival, from the count before if the frame is the same. */
  lemma SegmentOneMore(frames: seq<Frame>, arrivals: seq<Datagram>, d: Datagram)
    requires Known(frames, arrivals) && IsChunk(frames, d)
    requires arrivals != [] ==> OfFrame(Latest(frames, arrivals), Segment(arrivals))
    ensures Known(frames, arrivals + [d])
    ensures var all, frame := arrivals + [d], frames[d.frame];
            var same := arrivals != [] && arrivals[|arrivals| - 1].frame == d.frame;
            && Latest(frames, all) == frame && OfFrame(frame, Segment(all))
            && Counted(frame.data, Segment(all))
            == (if same then Counted(frame.data, Segment(arrivals)) else 0) + |Slice(frame.data, d.chunk)|
  {
    hide Segment, HasChunk, Slice, OfFrame, Known, Counted;
    var frame := frames[d.frame];
    SegmentIs(arrivals, d);
    KnownOneMore(frames, arrivals, d);
    var same := arrivals != [] && arrivals[|arrivals| - 1].frame == d.frame;
    var before: seq<nat> := if same then Segment(arrivals) else [];
    OfFrameByData(frame, before);
    CountOneMore(frame.data, before, d.chunk);
    OfFrameByData(frame, before + [d.chunk]);
    NothingCounted(frame.data);
  }

  lemma KnownOneMore(frames: seq<Frame>, arrivals: seq<Datagram>, d: Datagram)
    requires Known(frames, arrivals) && IsChunk(frames, d)
    ensures Known(frames, arrivals + [d])
  {
  }

  lemma OfFrameByData(frame: Frame, order: seq<nat>)
    ensures OfFrame(frame, order) <==> OfFrame(Frame(frame.data, 0), order)
    ensures OfFrame(frame, [])
  {
  }

  lemma NothingCounted(data: seq<byte>)
    ensures Counted(data, []) == 0
  {
  }

  lemma SegmentIs(arrivals: seq<Datagram>, d: Datagram)
    ensures Segment(arrivals + [d])
         == (if arrivals != [] && arrivals[|arrivals| - 1].frame == d.frame then Segment(arrivals) else []) + [d.chunk]
  {
    assert (arrivals + [d])[..|arrivals|] == arrivals;
  }

  /** What the last arrival shows, if the count is there. */
  function Entry(rx: Rx, frames: seq<Frame>, arrivals: seq<Datagram>): Delivery
    requires Known(frames, arrivals) && arrivals != []
  {
    var frame := Latest(frames, arrivals);
    Delivery(arrivals[|arrivals| - 1].frame + 1,
             if |frame.data| <= |rx.buffer| then rx.buffer[..|frame.data|] else [], frame.timestamp)
  }

  /** One arrival: it never leaves the buffer, and shows something exactly when the count is there. */
  lemma ArrivalTracks(rx: Rx, frames: seq<Frame>, arrivals: seq<Datagram>, d: Datagram, memory: Memory)
    requires Known(frames, arrivals) && IsChunk(frames, d) && memory.Granted? && Tracks(rx, frames, arrivals)
    ensures Known(frames, arrivals + [d])
    ensures var outcome := OnChunk(rx, Sent(frames, d), memory);
            && outcome.Next? && Tracks(outcome.rx, frames, arrivals + [d])
            && outcome.delivery == if Counts(frames, arrivals + [d])
                                   then Some(Entry(outcome.rx, frames, arrivals + [d])) else None
  {
    hide Segment, Counted, Slice, HasChunk, Kept, Splice, Grow, OfFrame;
    SegmentOneMore(frames, arrivals, d);
    var selected := Select(rx, Sent(frames, d));
    var buffer := Grow(selected.buffer, selected.expected, memory).value;
    KeptGrows(rx.buffer, buffer, frames, arrivals);
    KeptOneMore(buffer, frames, arrivals, d);
  }

  lemma KeptGrows(buffer: seq<byte>, grown: seq<byte>, frames: seq<Frame>, arrivals: seq<Datagram>)
    requires Known(frames, arrivals) && Kept(buffer, frames, arrivals) && buffer <= grown
    ensures Kept(grown, frames, arrivals)
  {
    hide Written;
  }

  lemma KnownPrefix(frames: seq<Frame>, arrivals: seq<Datagram>, n: nat)
    requires Known(frames, arrivals) && n <= |arrivals|
    ensures Known(frames, arrivals[..n])
  {
  }

  /** A whole run: what the fields hold at its end, and what the last arrival adds to the log. */
  lemma {:induction false} WatchTracks(rx: Rx, frames: seq<Frame>, arrivals: seq<Datagram>, memory: Memory)
    requires Known(frames, arrivals) && memory.Granted? && rx.frameId == 0
    ensures Tracks(Watch(rx, frames, arrivals, memory).0, frames, arrivals)
    ensures arrivals != [] ==>
              var (after, log) := Watch(rx, frames, arrivals, memory);
              log == Watch(rx, frames, arrivals[..|arrivals| - 1], memory).1
                     + if Counts(frames, arrivals) then [Entry(after, frames, arrivals)] else []
  {
    hide OnChunk, Tracks, Counts, Entry, HasChunk;
    if arrivals == [] {
      NothingTracked(rx, frames);
    } else {
      var before, d := arrivals[..|arrivals| - 1], arrivals[|arrivals| - 1];
      assert arrivals == before + [d];
      WatchTracks(rx, frames, before, memory);
      ArrivalTracks(Watch(rx, frames, before, memory).0, frames, before, d, memory);
    }
  }

  lemma NothingTracked(rx: Rx, frames: seq<Frame>)
    requires rx.frameId == 0
    ensures Tracks(rx, frames, [])
  {
  }

  /** The log of a run in which whatever is shown is the frame sent. */
  ghost function Ideal(frames: seq<Frame>, arrivals: seq<Datagram>): seq<Delivery>
    requires Known(frames, arrivals)
  {
    if arrivals == [] then [] else
    Ideal(frames, arrivals[..|arrivals| - 1])
    + if Counts(frames, arrivals) then [Right(arrivals[|arrivals| - 1].frame + 1, Latest(frames, arrivals))] else []
  }

  /** At every arrival that shows something, the whole frame is what was last written. */
  ghost predicate AlwaysCovers(frames: seq<Frame>, arrivals: seq<Datagram>)
    requires Known(frames, arrivals)
  {
    if arrivals == [] then true else
    && AlwaysCovers(frames, arrivals[..|arrivals| - 1])
    && (Counts(frames, arrivals) ==> Covers(frames, arrivals))
  }

  lemma CoveredIsRight(rx: Rx, frames: seq<Frame>, arrivals: seq<Datagram>)
    requires Known(frames, arrivals) && arrivals != [] && Tracks(rx, frames, arrivals) && Covers(frames, arrivals)
    ensures Entry(rx, frames, arrivals) == Right(arrivals[|arrivals| - 1].frame + 1, Latest(frames, arrivals))
  {
    hide Written, Segment;
    var data := Latest(frames, arrivals).data;
    forall b | 0 <= b < |data| ensures rx.buffer[b] == data[b] {
      assert Written(frames, arrivals, b).Some?;
    }
    assert rx.buffer[..|data|] == data;
  }

  lemma {:induction false} CoveredRunIsRight(rx: Rx, frames: seq<Frame>, arrivals: seq<Datagram>, memory: Memory)
    requires Known(frames, arrivals) && AlwaysCovers(frames, arrivals) && memory.Granted? && rx.frameId == 0
    ensures Watch(rx, frames, arrivals, memory).1 == Ideal(frames, arrivals)
  {
    hide Counts, Covers, Entry, Tracks, OnChunk, Right;
    if arrivals != [] {
      WatchTracks(rx, frames, arrivals, memory);
      CoveredRunIsRight(rx, frames, arrivals[..|arrivals| - 1], memory);
      if Counts(frames, arrivals) { CoveredIsRight(Watch(rx, frames, arrivals, memory).0, frames, arrivals); }
    }
  }

  /** The old content of a buffer that is large enough stays where nothing was written. */
  ghost predicate Elsewhere(buffer: seq<byte>, was: seq<byte>, frames: seq<Frame>, arrivals: seq<Datagram>)
    requires Known(frames, arrivals)
  {
    |buffer| == |was| && forall b: nat :: b < |buffer| && Written(frames, arrivals, b).None? ==> buffer[b] == was[b]
  }

  ghost predicate Roomy(buffer: seq<byte>, frames: seq<Frame>) {
    forall i :: 0 <= i < |frames| ==> |frames[i].data| <= |buffer|
  }

  lemma ElsewhereOneMore(rx: Rx, was: seq<byte>, frames: seq<Frame>, arrivals: seq<Datagram>, d: Datagram,
      memory: Memory)
    requires Known(frames, arrivals) && IsChunk(frames, d) && memory.Granted? && Tracks(rx, frames, arrivals)
    requires Roomy(was, frames) && Elsewhere(rx.buffer, was, frames, arrivals)
    ensures Known(frames, arrivals + [d])
    ensures var outcome := OnChunk(rx, Sent(frames, d), memory);
            outcome.Next? && Elsewhere(outcome.rx.buffer, was, frames, arrivals + [d])
  {
    hide Segment, Counted, Written, Kept, Counts;
    var data := frames[d.frame].data;
    ChunksTile(|data|, d.chunk);
    KnownOneMore(frames, arrivals, d);
    var after := OnChunk(rx, Sent(frames, d), memory).rx.buffer;
    forall b: nat | b < |after| && Written(frames, arrivals + [d], b).None? ensures after[b] == was[b] {
      WrittenOneMore(frames, arrivals, d, b);
    }
  }

  lemma {:induction false} RoomyRun(rx: Rx, frames: seq<Frame>, arrivals: seq<Datagram>, memory: Memory)
    requires Known(frames, arrivals) && memory.Granted? && rx.frameId == 0 && Roomy(rx.buffer, frames)
    ensures Elsewhere(Watch(rx, frames, arrivals, memory).0.buffer, rx.buffer, frames, arrivals)
  {
    hide OnChunk, Tracks, Elsewhere, Roomy, HasChunk;
    if arrivals == [] {
      NothingElsewhere(rx.buffer, frames);
    } else {
      var before, d := arrivals[..|arrivals| - 1], arrivals[|arrivals| - 1];
      assert arrivals == before + [d];
      RoomyRun(rx, frames, before, memory);
      WatchTracks(rx, frames, before, memory);
      ElsewhereOneMore(Watch(rx, frames, before, memory).0, rx.buffer, frames, before, d, memory);
    }
  }

  lemma NothingElsewhere(buffer: seq<byte>, frames: seq<Frame>)
    ensures Elsewhere(buffer, buffer, frames, [])
  {
  }

  function Largest(frames: seq<Frame>): (size: nat)
    ensures forall i :: 0 <= i < |frames| ==> |frames[i].data| <= size
  {
    if frames == [] then 0 else
    var rest, last := Largest(frames[..|frames| - 1]), |frames[|frames| - 1].data|;
    if last > rest then last else rest
  }

  /** Room for every frame, with every byte of one frame wrong. */
  function Spoiled(frames: seq<Frame>, data: seq<byte>): (buffer: seq<byte>)
    ensures Roomy(buffer, frames)
    ensures forall b :: 0 <= b < |data| && b < |buffer| ==> buffer[b] != data[b]
  {
    seq(Largest(frames), b requires 0 <= b => if b < |data| then Another(data[b]) else 0)
  }

  /** Whatever the old buffer and fresh memory hold, everything shown is the frame sent. */
  ghost predicate RunAlwaysRight(frames: seq<Frame>, arrivals: seq<Datagram>)
    requires Known(frames, arrivals)
  {
    forall rx: Rx, memory: Memory :: rx.frameId == 0 && memory.Granted? ==>
      Watch(rx, frames, arrivals, memory).1 == Ideal(frames, arrivals)
  }

  lemma RightBefore(frames: seq<Frame>, arrivals: seq<Datagram>)
    requires Known(frames, arrivals) && arrivals != [] && RunAlwaysRight(frames, arrivals)
    ensures RunAlwaysRight(frames, arrivals[..|arrivals| - 1])
  {
    hide Counts, Entry, Right, Tracks;
    var before := arrivals[..|arrivals| - 1];
    forall rx: Rx, memory: Memory | rx.frameId == 0 && memory.Granted?
      ensures Watch(rx, frames, before, memory).1 == Ideal(frames, before)
    {
      WatchTracks(rx, frames, arrivals, memory);
      var log := Watch(rx, frames, before, memory).1;
      var ideal := Ideal(frames, before);
      assert Watch(rx, frames, arrivals, memory).1[..|log|] == log;
      assert Ideal(frames, arrivals)[..|ideal|] == ideal;
    }
  }

  /** The last thing shown is right in a spoiled buffer only if it had been written whole. */
  lemma RightIsCovered(frames: seq<Frame>, arrivals: seq<Datagram>)
    requires Known(frames, arrivals) && arrivals != [] && RunAlwaysRight(frames, arrivals) && Counts(frames, arrivals)
    ensures Covers(frames, arrivals)
  {
    hide Counts, Written, Segment, Counted, Watch, Roomy;
    var frame := Latest(frames, arrivals);
    var rx, memory := Rx(0, Spoiled(frames, frame.data), 0, 0), Granted(_ => 0);
    var after := Watch(rx, frames, arrivals, memory).0;
    assert Watch(rx, frames, arrivals, memory).1 == Ideal(frames, arrivals);
    WatchTracks(rx, frames, arrivals, memory);
    RoomyRun(rx, frames, arrivals, memory);
    LastEntry(Watch(rx, frames, arrivals, memory).1, Watch(rx, frames, arrivals[..|arrivals| - 1], memory).1,
              Ideal(frames, arrivals[..|arrivals| - 1]), Entry(after, frames, arrivals),
              Right(arrivals[|arrivals| - 1].frame + 1, frame));
    forall b | 0 <= b < |frame.data| ensures Written(frames, arrivals, b) == Some(frame.data[b]) {
      assert after.buffer[..|frame.data|][b] == frame.data[b];
    }
  }

  lemma LastEntry(log: seq<Delivery>, a: seq<Delivery>, b: seq<Delivery>, x: Delivery, y: Delivery)
    requires log == a + [x] == b + [y]
    ensures x == y
  {
    assert log[|log| - 1] == x && log[|log| - 1] == y;
  }

  lemma {:induction false} RightRunIsCovered(frames: seq<Frame>, arrivals: seq<Datagram>)
    requires Known(frames, arrivals) && RunAlwaysRight(frames, arrivals)
    ensures AlwaysCovers(frames, arrivals)
  {
    hide Counts, Covers, RunAlwaysRight;
    if arrivals != [] {
      RightBefore(frames, arrivals);
      RightRunIsCovered(frames, arrivals[..|arrivals| - 1]);
      if Counts(frames, arrivals) { RightIsCovered(frames, arrivals); }
    }
  }

  /**
   * Any mixture of chunks, exactly: everything shown is right, whatever memory held before, if and
   * only if at every arrival that fills its segment's count all bytes of the frame are the last ones
   * written to their places, by that segment or by an earlier frame with the same byte there.
   */
  lemma {:induction false} RunRightIff(frames: seq<Frame>, arrivals: seq<Datagram>)
    requires Known(frames, arrivals)
    ensures RunAlwaysRight(frames, arrivals) <==> AlwaysCovers(frames, arrivals)
  {
    hide AlwaysCovers, Ideal, Watch;
    if RunAlwaysRight(frames, arrivals) { RightRunIsCovered(frames, arrivals); }
    if AlwaysCovers(frames, arrivals) {
      forall rx: Rx, memory: Memory | rx.frameId == 0 && memory.Granted?
        ensures Watch(rx, frames, arrivals, memory).1 == Ideal(frames, arrivals)
      {
        CoveredRunIsRight(rx, frames, arrivals, memory);
      }
    }
  }

  /** A chunk of the current segment is the last writer of its bytes. */
  lemma {:induction false} SegmentWrites(frames: seq<Frame>, arrivals: seq<Datagram>, b: nat)
    requires Known(frames, arrivals) && arrivals != []
    requires b < |Latest(frames, arrivals).data| && b / 1326 in Segment(arrivals)
    ensures Written(frames, arrivals, b) == Some(Latest(frames, arrivals).data[b])
  {
    var before, last := arrivals[..|arrivals| - 1], arrivals[|arrivals| - 1];
    if b / 1326 != last.chunk {
      assert arrivals == before + [last];
      SegmentIs(before, last);
      SegmentWrites(frames, before, b);
    }
  }

  /** All chunks of the frame of the last arrival have come since the frame last changed. */
  ghost predicate SegmentComplete(frames: seq<Frame>, arrivals: seq<Datagram>)
    requires Known(frames, arrivals) && arrivals != []
  {
    Complete(|Latest(frames, arrivals).data|, Elements(Segment(arrivals)))
  }

  lemma CompleteCovers(frames: seq<Frame>, arrivals: seq<Datagram>)
    requires Known(frames, arrivals) && arrivals != [] && SegmentComplete(frames, arrivals)
    ensures Covers(frames, arrivals)
  {
    hide Written, Segment;
    var data := Latest(frames, arrivals).data;
    forall b | 0 <= b < |data| ensures Written(frames, arrivals, b) == Some(data[b]) {
      ChunkOfByte(|data|, b);
      assert b / 1326 in Elements(Segment(arrivals));
      SegmentWrites(frames, arrivals, b);
    }
  }

  /** In the current segment the last missing chunk has come in time. */
  ghost predicate SegmentInTime(frames: seq<Frame>, arrivals: seq<Datagram>)
    requires Known(frames, arrivals) && arrivals != []
  {
    var frame, order := Latest(frames, arrivals), Segment(arrivals);
    OfFrame(frame, order) && exists m :: CompletesAt(|frame.data|, order, m) && InTime(frame, 0, order, m)
  }

  /** Every segment that fills its count does so in time. */
  ghost predicate AlwaysInTime(frames: seq<Frame>, arrivals: seq<Datagram>)
    requires Known(frames, arrivals)
  {
    if arrivals == [] then true else
    && AlwaysInTime(frames, arrivals[..|arrivals| - 1])
    && (Counts(frames, arrivals) ==> SegmentInTime(frames, arrivals))
  }

  /** The count is never there before all chunks are. */
  ghost predicate AlwaysComplete(frames: seq<Frame>, arrivals: seq<Datagram>)
    requires Known(frames, arrivals)
  {
    if arrivals == [] then true else
    && AlwaysComplete(frames, arrivals[..|arrivals| - 1])
    && (Counts(frames, arrivals) ==> SegmentComplete(frames, arrivals))
  }

  lemma InTimeIsComplete(frames: seq<Frame>, arrivals: seq<Datagram>)
    requires Known(frames, arrivals) && arrivals != [] && SegmentInTime(frames, arrivals)
    ensures SegmentComplete(frames, arrivals)
  {
    hide InTime, Complete, Segment, Elements;
    var frame, order := Latest(frames, arrivals), Segment(arrivals);
    var m :| CompletesAt(|frame.data|, order, m) && InTime(frame, 0, order, m);
    StillComplete(|frame.data|, order, m, |order|);
    assert order[..|order|] == order;
  }

  lemma {:induction false} SegmentPrefix(arrivals: seq<Datagram>, m: nat)
    requires 0 < m <= |Segment(arrivals)| <= |arrivals|
    ensures var shorter := arrivals[..|arrivals| - |Segment(arrivals)| + m];
            && shorter != [] && Segment(shorter) == Segment(arrivals)[..m]
            && shorter[|shorter| - 1].frame == arrivals[|arrivals| - 1].frame
    decreases |arrivals|
  {
    hide Segment;
    var before, last := arrivals[..|arrivals| - 1], arrivals[|arrivals| - 1];
    assert arrivals == before + [last];
    SegmentIs(before, last);
    if m == |Segment(arrivals)| {
      assert arrivals[..|arrivals|] == arrivals && Segment(arrivals)[..m] == Segment(arrivals);
    } else {
      SegmentLength(before);
      SegmentPrefix(before, m);
      var n := |arrivals| - |Segment(arrivals)| + m;
      assert before[..n] == arrivals[..n];
      assert Segment(before)[..m] == Segment(arrivals)[..m];
    }
  }

  lemma {:induction false} SegmentLength(arrivals: seq<Datagram>)
    ensures |Segment(arrivals)| <= |arrivals|
  {
    if arrivals != [] { SegmentLength(arrivals[..|arrivals| - 1]); }
  }

  lemma {:induction false} CompleteEarlier(frames: seq<Frame>, arrivals: seq<Datagram>, n: nat)
    requires Known(frames, arrivals) && 0 < n <= |arrivals| && AlwaysComplete(frames, arrivals)
    ensures Known(frames, arrivals[..n])
    ensures Counts(frames, arrivals[..n]) ==> SegmentComplete(frames, arrivals[..n])
    decreases |arrivals|
  {
    hide Counts, SegmentComplete;
    if n == |arrivals| {
      assert arrivals[..n] == arrivals;
    } else {
      var before := arrivals[..|arrivals| - 1];
      assert before[..n] == arrivals[..n];
      CompleteEarlier(frames, before, n);
    }
  }

  lemma CompleteIsInTime(frames: seq<Frame>, arrivals: seq<Datagram>)
    requires Known(frames, arrivals) && AlwaysComplete(frames, arrivals) && Counts(frames, arrivals)
    ensures SegmentInTime(frames, arrivals)
  {
    hide Segment, Complete, Elements, InTime, Counted, OfFrame, AlwaysComplete, HasChunk;
    var frame, order := Latest(frames, arrivals), Segment(arrivals);
    CompleteEarlier(frames, arrivals, |arrivals|);
    assert arrivals[..|arrivals|] == arrivals && order[..|order|] == order;
    ChunkBytes(frame, order);
    var m := CompletionExists(|frame.data|, order, |order|);
    CompletionFills(frame, 0, order, m);
    if m > 1 && Full(frame, 0, order, m - 1) {
      SegmentLength(arrivals);
      SegmentPrefix(arrivals, m - 1);
      var n := |arrivals| - |order| + (m - 1);
      CompleteEarlier(frames, arrivals, n);
      SegmentOfFrame(frames, arrivals[..n]);
    }
  }

  lemma ChunkBytes(frame: Frame, order: seq<nat>)
    requires OfFrame(frame, order) && order != []
    ensures |frame.data| > 0
  {
    assert HasChunk(|frame.data|, order[0]);
  }

  /** Being in time in every segment is the same as never counting full before all chunks are there. */
  lemma {:induction false} InTimeIffComplete(frames: seq<Frame>, arrivals: seq<Datagram>)
    requires Known(frames, arrivals)
    ensures AlwaysInTime(frames, arrivals) <==> AlwaysComplete(frames, arrivals)
  {
    hide Counts, SegmentInTime, SegmentComplete;
    if arrivals != [] {
      InTimeIffComplete(frames, arrivals[..|arrivals| - 1]);
      if Counts(frames, arrivals) {
        if SegmentInTime(frames, arrivals) { InTimeIsComplete(frames, arrivals); }
        if AlwaysComplete(frames, arrivals) { CompleteIsInTime(frames, arrivals); }
      }
    }
  }

  lemma {:induction false} CompleteRunCovers(frames: seq<Frame>, arrivals: seq<Datagram>)
    requires Known(frames, arrivals) && AlwaysComplete(frames, arrivals)
    ensures AlwaysCovers(frames, arrivals)
  {
    hide Counts, SegmentComplete, Covers;
    if arrivals != [] {
      CompleteRunCovers(frames, arrivals[..|arrivals| - 1]);
      if Counts(frames, arrivals) { CompleteCovers(frames, arrivals); }
    }
  }

  /** Loss, reordering, repeats and interleaving are harmless as long as every segment is in time. */
  lemma {:induction false} InTimeRunIsRight(frames: seq<Frame>, arrivals: seq<Datagram>)
    requires Known(frames, arrivals) && AlwaysInTime(frames, arrivals)
    ensures RunAlwaysRight(frames, arrivals)
  {
    hide AlwaysInTime, AlwaysComplete, AlwaysCovers, RunAlwaysRight;
    InTimeIffComplete(frames, arrivals);
    CompleteRunCovers(frames, arrivals);
    RunRightIff(frames, arrivals);
  }

  /** No chunk is repeated within a segment. */
  ghost predicate NeverRepeats(arrivals: seq<Datagram>) {
    if arrivals == [] then true else NeverRepeats(arrivals[..|arrivals| - 1]) && Distinct(Segment(arrivals))
  }

  /** Without repeats, an arrival shows a frame exactly when all its chunks came in one uninterrupted segment. */
  lemma {:induction false} ShownIffWhole(frames: seq<Frame>, arrivals: seq<Datagram>)
    requires Known(frames, arrivals) && arrivals != [] && Distinct(Segment(arrivals))
    ensures Counts(frames, arrivals) <==> SegmentComplete(frames, arrivals)
  {
    hide Segment, Counted, HasChunk, Covered, Complete, Distinct;
    SegmentOfFrame(frames, arrivals);
    var frame, order := Latest(frames, arrivals), Segment(arrivals);
    OfFrameByData(frame, order);
    CountSplits(frame.data, order);
    NoRepeats(frame.data, order, |order|);
    assert order[..|order|] == order;
    FullCount(|frame.data|, Elements(order));
    CompleteUnfold(|frame.data|, Elements(order));
  }

  /** And then everything shown is right. */
  lemma {:induction false} DistinctRunIsRight(frames: seq<Frame>, arrivals: seq<Datagram>)
    requires Known(frames, arrivals) && NeverRepeats(arrivals)
    ensures RunAlwaysRight(frames, arrivals)
  {
    hide AlwaysCovers, AlwaysComplete, RunAlwaysRight, NeverRepeats;
    DistinctIsComplete(frames, arrivals);
    CompleteRunCovers(frames, arrivals);
    RunRightIff(frames, arrivals);
  }

  lemma {:induction false} DistinctIsComplete(frames: seq<Frame>, arrivals: seq<Datagram>)
    requires Known(frames, arrivals) && NeverRepeats(arrivals)
    ensures AlwaysComplete(frames, arrivals)
  {
    hide Counts, SegmentComplete, Distinct, Segment;
    if arrivals != [] {
      DistinctIsComplete(frames, arrivals[..|arrivals| - 1]);
      ShownIffWhole(frames, arrivals);
    }
  }
}
