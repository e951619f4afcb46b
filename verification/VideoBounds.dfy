/**
 * When the copy into the reassembly buffer stays inside it, for every sequence of payloads. A chunk
 * is checked against the frame size it carries itself (src/network.c:621), but the buffer is sized by
 * the chunk that opened its frame id (src/network.c:636-650).
 */
module VideoBounds {
  import opened Bytes
  import opened Wrappers
  import opened VideoSender
  import opened VideoReceiver

  /**
   * A decrypted payload, whatever it contains, with the allocator's answer should the buffer have to
   * grow; or a peer timeout, after which packets are still accepted.
   */
  datatype Arrival = Arrival(payload: seq<byte>, memory: Memory) | Timeout

  const NOTHING := Rx(0, [], 0, 0)

  /** The receiver after a run, or None once a copy has left the buffer. */
  function Absorb(arrivals: seq<Arrival>): Option<Rx> {
    if arrivals == [] then Some(NOTHING) else
    var last := arrivals[|arrivals| - 1];
    match Absorb(arrivals[..|arrivals| - 1])
    case None => None
    case Some(rx) =>
      if last.Timeout? then Some(OnTimeout(rx)) else
      match OnPayload(rx, last.payload, last.memory)
      case OutOfBounds => None
      case Next(rx, _) => Some(rx)
  }

  /** A chunk that passed every check, and whether memory was to be had; or a timeout. */
  datatype Item = Item(chunk: Chunk, granted: bool) | Cleared

  function Items(arrivals: seq<Arrival>): (items: seq<Item>)
    ensures forall item :: item in items && item.Item? ==> EndsInside(item.chunk)
  {
    if arrivals == [] then [] else Items(arrivals[..|arrivals| - 1]) + ItemsOf(arrivals[|arrivals| - 1])
  }

  /** What one arrival adds; a payload that fails a check adds nothing. */
  function ItemsOf(arrival: Arrival): (items: seq<Item>)
    ensures forall item :: item in items && item.Item? ==> EndsInside(item.chunk)
  {
    if arrival.Timeout? then [Cleared] else
    var parsed := Parse(arrival.payload);
    if parsed.Some? then [Item(parsed.value, arrival.memory.Granted?)] else []
  }

  predicate EndsInside(chunk: Chunk) { chunk.offset + |chunk.data| <= chunk.total }

  /** The id of the last chunk among the first n items; a receiver starts with id 0. */
  function IdBefore(items: seq<Item>, n: nat): nat
    requires n <= |items|
  {
    if n == 0 then 0
    else if items[n - 1].Item? then items[n - 1].chunk.frameId
    else IdBefore(items, n - 1)
  }

  /** The frame size of the latest chunk, among the first n items, that changed the id. */
  function OpenedSize(items: seq<Item>, n: nat): nat
    requires n <= |items|
  {
    if n == 0 then 0
    else if items[n - 1].Item? && items[n - 1].chunk.frameId != IdBefore(items, n - 1) then items[n - 1].chunk.total
    else OpenedSize(items, n - 1)
  }

  /** The largest of those sizes for which memory was granted since the last timeout among the first n items. */
  function Capacity(items: seq<Item>, n: nat): nat
    requires n <= |items|
  {
    if n == 0 || items[n - 1].Cleared? then 0
    else if items[n - 1].granted && OpenedSize(items, n) > Capacity(items, n - 1) then OpenedSize(items, n)
    else Capacity(items, n - 1)
  }

  /** Chunk i ends past a buffer that its frame was thought to fit. */
  predicate Leaves(items: seq<Item>, i: nat)
    requires i < |items|
  {
    && items[i].Item?
    && OpenedSize(items, i + 1) <= Capacity(items, i + 1) < items[i].chunk.offset + |items[i].chunk.data|
  }

  /** One chunk: the copy leaves the buffer exactly when the chunk has the current id and ends past both sizes. */
  lemma OutOfBoundsIff(rx: Rx, chunk: Chunk, memory: Memory)
    requires EndsInside(chunk)
    ensures OnChunk(rx, chunk, memory).OutOfBounds? <==>
              && rx.frameId == chunk.frameId
              && (|rx.buffer| >= rx.expected || memory.Granted?)
              && chunk.offset + |chunk.data| > |rx.buffer|
              && chunk.offset + |chunk.data| > rx.expected
  {
  }

  /** What a run that stayed in bounds leaves in the receiver. */
  ghost predicate Matches(rx: Rx, items: seq<Item>) {
    && rx.frameId == IdBefore(items, |items|)
    && rx.expected == OpenedSize(items, |items|)
    && |rx.buffer| == Capacity(items, |items|)
  }

  lemma {:induction false} Prefixes(items: seq<Item>, item: Item, n: nat)
    requires n <= |items|
    ensures var longer := items + [item];
            && IdBefore(longer, n) == IdBefore(items, n)
            && OpenedSize(longer, n) == OpenedSize(items, n) && Capacity(longer, n) == Capacity(items, n)
  {
    if n > 0 { Prefixes(items, item, n - 1); }
  }

  /** One more chunk against the sizes. */
  lemma ChunkMatches(rx: Rx, items: seq<Item>, chunk: Chunk, memory: Memory)
    requires Matches(rx, items) && EndsInside(chunk)
    ensures var longer := items + [Item(chunk, memory.Granted?)];
            match OnChunk(rx, chunk, memory)
            case OutOfBounds => Leaves(longer, |items|)
            case Next(rx', _) => !Leaves(longer, |items|) && Matches(rx', longer)
  {
    Prefixes(items, Item(chunk, memory.Granted?), |items|);
  }

  /** A timeout against the sizes. */
  lemma ClearMatches(rx: Rx, items: seq<Item>)
    requires Matches(rx, items)
    ensures Matches(OnTimeout(rx), items + [Cleared]) && !Leaves(items + [Cleared], |items|)
  {
    Prefixes(items, Cleared, |items|);
  }

  ghost predicate Stays(items: seq<Item>) { forall i :: 0 <= i < |items| ==> !Leaves(items, i) }

  lemma StaysOneMore(items: seq<Item>, item: Item)
    ensures Stays(items + [item]) <==> Stays(items) && !Leaves(items + [item], |items|)
  {
    hide Leaves;
    var longer := items + [item];
    forall i | 0 <= i < |items| ensures Leaves(longer, i) == Leaves(items, i) { LeavesPrefix(items, item, i); }
    if Stays(longer) { assert forall i :: 0 <= i < |items| ==> !Leaves(longer, i); }
  }

  lemma LeavesPrefix(items: seq<Item>, item: Item, i: nat)
    requires i < |items|
    ensures Leaves(items + [item], i) == Leaves(items, i)
  {
    Prefixes(items, item, i + 1);
  }

  /**
   * Memory safety, exactly: over every sequence of payloads and timeouts, the copies stay inside the
   * buffer if and only if no accepted chunk ends past the largest size granted since the last timeout
   * while the size its id was opened with fits. The fields are then as the accepted chunks say.
   */
  lemma {:induction false} StaysInBoundsIff(arrivals: seq<Arrival>)
    ensures Absorb(arrivals).Some? <==> Stays(Items(arrivals))
    ensures Absorb(arrivals).Some? ==> Matches(Absorb(arrivals).value, Items(arrivals))
  {
    hide OnChunk, Stays, Leaves, Matches, Parse;
    if arrivals == [] {
      NothingMatches();
    } else {
      var before, last := arrivals[..|arrivals| - 1], arrivals[|arrivals| - 1];
      StaysInBoundsIff(before);
      if last.Timeout? {
        StaysOneMore(Items(before), Cleared);
        if Absorb(before).Some? { ClearMatches(Absorb(before).value, Items(before)); }
        if Stays(Items(before)) { ClearStays(Items(before)); }
      } else {
        var parsed := Parse(last.payload);
        if parsed.Some? {
          ParsedEndsInside(last.payload);
          StaysOneMore(Items(before), Item(parsed.value, last.memory.Granted?));
          if Absorb(before).Some? { ChunkMatches(Absorb(before).value, Items(before), parsed.value, last.memory); }
        } else {
          assert Items(arrivals) == Items(before);
        }
      }
    }
  }

  lemma ClearStays(items: seq<Item>)
    ensures !Leaves(items + [Cleared], |items|)
  {
  }

  lemma NothingMatches()
    ensures Matches(NOTHING, []) && Stays([])
  {
  }

  lemma ParsedEndsInside(payload: seq<byte>)
    ensures Parse(payload).Some? ==> EndsInside(Parse(payload).value)
  {
  }

  /** A chunk under the id of the chunk before it has the frame size that this id was opened with. */
  ghost predicate Agree(items: seq<Item>) {
    forall i :: 0 <= i < |items| && items[i].Item? && items[i].chunk.frameId == IdBefore(items, i) ==>
      items[i].chunk.total == OpenedSize(items, i)
  }

  /**
   * Senders that keep to one frame per id are safe, whatever is lost, repeated or reordered between
   * ids, and whenever the peer times out.
   */
  lemma {:induction false} AgreementIsSafe(arrivals: seq<Arrival>)
    requires Agree(Items(arrivals))
    ensures Absorb(arrivals).Some?
  {
    StaysInBoundsIff(arrivals);
    var items := Items(arrivals);
    forall i | 0 <= i < |items| ensures !Leaves(items, i) {
      assert items[i] in items;
    }
  }

  /** Two payloads that pass every check: the second has the id of the first and another frame size. */
  lemma {:induction false} TwoPayloadsLeave()
    ensures var first, second := Chunk(5, 1, 0, [0], 0), Chunk(5, 2, 1, [0], 0);
            var memory := Granted(_ => 0);
            && Parse(Encode(first)) == Some(first) && Parse(Encode(second)) == Some(second)
            && Absorb([Arrival(Encode(first), memory)]).Some?
            && Absorb([Arrival(Encode(first), memory), Arrival(Encode(second), memory)]) == None
  {
    hide Encode, Parse;
    var first, second := Chunk(5, 1, 0, [0], 0), Chunk(5, 2, 1, [0], 0);
    var memory := Granted(_ => 0);
    ParseEncode(first);
    ParseEncode(second);
    var one := Arrival(Encode(first), memory);
    var two := Arrival(Encode(second), memory);
    assert Absorb([one]) == Some(OnChunk(NOTHING, first, memory).rx) by { assert [one][..0] == []; }
    assert [one, two][..1] == [one];
  }

  /** The very first chunk with id 0, which the receiver takes for the frame it is collecting, has no buffer at all. */
  lemma FirstIdZeroLeaves(chunk: Chunk, memory: Memory)
    requires EndsInside(chunk) && chunk.frameId == 0
    ensures OnChunk(NOTHING, chunk, memory).OutOfBounds? <==> chunk.offset + |chunk.data| > 0
  {
  }

  /**
   * A sender that restarts numbers its frames from 1 again, while its peer keeps the slot it finds by
   * address: after frame 1 of the old run, a chunk of the new frame 1 leaves the buffer exactly when
   * there is memory for the old frame and the chunk ends past both that frame and the buffer. After a
   * timeout, with no buffer left, only the old frame's size counts.
   */
  lemma RestartLeavesIff(rx: Rx, id: nat, before: Frame, after: Frame, k: nat, memory: Memory)
    requires rx.frameId == id && rx.expected == |before.data| && HasChunk(|after.data|, k)
    ensures var leaves := OnChunk(rx, ChunkOf(id, after, k), memory).OutOfBounds?;
            && (leaves <==> && (|rx.buffer| >= |before.data| || memory.Granted?)
                            && Cut(|after.data|, k + 1) > |rx.buffer|
                            && Cut(|after.data|, k + 1) > |before.data|)
            && (rx.buffer == [] && memory.Granted? ==> (leaves <==> Cut(|after.data|, k + 1) > |before.data|))
  {
    ChunksTile(|after.data|, k);
    OutOfBoundsIff(rx, ChunkOf(id, after, k), memory);
  }

  /** A frame 1 of 10 bytes, and after the restart a frame 1 of 1000, with or without a timeout between. */
  lemma {:induction false} RestartLeaves()
    ensures var small, large := Frame(seq(10, _ => 0), 0), Frame(seq(1000, _ => 0), 0);
            var memory := Granted(_ => 0);
            var first, second := Arrival(Payload(1, small, 0), memory), Arrival(Payload(1, large, 0), memory);
            && Absorb([first]).Some? && Absorb([first, Timeout]).Some?
            && Absorb([first, second]) == None && Absorb([first, Timeout, second]) == None
  {
    hide Encode, Parse;
    var small, large := Frame(seq(10, _ => 0), 0), Frame(seq(1000, _ => 0), 0);
    var memory := Granted(_ => 0);
    SentChunkParses(1, small, 0);
    SentChunkParses(1, large, 0);
    var one := Arrival(Payload(1, small, 0), memory);
    var two := Arrival(Payload(1, large, 0), memory);
    assert Absorb([one]) == Some(OnChunk(NOTHING, ChunkOf(1, small, 0), memory).rx) by { assert [one][..0] == []; }
    assert [one, two][..1] == [one];
    assert [one, Timeout][..1] == [one];
    assert [one, Timeout, two][..2] == [one, Timeout];
  }

  /**
   * A timeout makes a chunk that would have fitted leave the buffer: without it the larger frame seen
   * before still provides the room.
   */
  lemma {:induction false} TimeoutLeaves()
    ensures var memory := Granted(_ => 0);
            var first := Arrival(Encode(Chunk(1, 1000, 0, [0], 0)), memory);
            var second := Arrival(Encode(Chunk(2, 10, 0, [0], 0)), memory);
            var third := Arrival(Encode(Chunk(2, 500, 400, [0], 0)), memory);
            && Absorb([first, second, third]).Some?
            && Absorb([first, second, Timeout, third]) == None
  {
    hide Encode, Parse;
    var memory := Granted(_ => 0);
    var c1, c2, c3 := Chunk(1, 1000, 0, [0], 0), Chunk(2, 10, 0, [0], 0), Chunk(2, 500, 400, [0], 0);
    ParseEncode(c1); ParseEncode(c2); ParseEncode(c3);
    var a1, a2, a3 := Arrival(Encode(c1), memory), Arrival(Encode(c2), memory), Arrival(Encode(c3), memory);
    assert Absorb([a1]) == Some(OnChunk(NOTHING, c1, memory).rx) by { assert [a1][..0] == []; }
    assert [a1, a2][..1] == [a1];
    assert [a1, a2, a3][..2] == [a1, a2];
    assert [a1, a2, Timeout][..2] == [a1, a2];
    assert [a1, a2, Timeout, a3][..3] == [a1, a2, Timeout];
  }
}
