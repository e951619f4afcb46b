/** Reassembly of video chunks, counted in bytes only (src/network.c:609-663). */
module VideoReceiver {
  import opened Bytes
  import opened Wrappers
  import opened VideoSender

  const MAX_FRAME: nat := 16 * 1024 * 1024

  /** The video_rx_* fields of a peer; a null buffer is the empty one. */
  datatype Rx = Rx(frameId: nat, buffer: seq<byte>, expected: nat, received: nat)

  /** What is placed in current_frame, with the id it was announced under. */
  datatype Delivery = Delivery(frameId: nat, data: seq<byte>, timestamp: nat)

  /** The allocator's answer, should the buffer have to grow: none, or memory with any content. */
  datatype Memory = Denied | Granted(content: nat -> byte)

  /** OutOfBounds: the copy would leave the buffer, where C gives no meaning. */
  datatype Outcome = OutOfBounds | Next(rx: Rx, delivery: Option<Delivery>)

  /** The checks made on a decrypted payload; None is a dropped chunk. */
  function Parse(payload: seq<byte>): Option<Chunk> {
    if |payload| < CHUNK_HEADER then None else
    var total := FromLE(payload[4..8]);
    var offset := FromLE(payload[8..12]);
    var size := FromLE(payload[12..14]);
    if total == 0 || total > MAX_FRAME then None
    else if offset + size > total then None
    else if |payload| != CHUNK_HEADER + size then None
    else Some(Chunk(FromLE(payload[..4]), total, offset, payload[CHUNK_HEADER..], FromLE(payload[16..24])))
  }

  function Select(rx: Rx, chunk: Chunk): Rx {
    if rx.frameId == chunk.frameId then rx
    else rx.(frameId := chunk.frameId, received := 0, expected := chunk.total)
  }

  /** The buffer after growth, or None when the allocator refuses. */
  function Grow(buffer: seq<byte>, expected: nat, memory: Memory): (grown: Option<seq<byte>>)
    ensures grown.Some? ==> |grown.value| >= expected && buffer <= grown.value
    ensures grown.None? <==> |buffer| < expected && memory.Denied?
  {
    if |buffer| >= expected then Some(buffer) else
    match memory
    case Denied => None
    case Granted(content) => Some(buffer + seq(expected - |buffer|, i requires 0 <= i => content(i)))
  }

  function Splice(buffer: seq<byte>, offset: nat, data: seq<byte>): (r: seq<byte>)
    requires offset + |data| <= |buffer|
    ensures |r| == |buffer|
    ensures forall b :: 0 <= b < |r| ==> r[b] == if offset <= b < offset + |data| then data[b - offset] else buffer[b]
  {
    buffer[..offset] + data + buffer[offset + |data|..]
  }

  function OnChunk(rx: Rx, chunk: Chunk, memory: Memory): Outcome {
    var rx := Select(rx, chunk);
    match Grow(rx.buffer, rx.expected, memory)
    case None => Next(rx, None)
    case Some(buffer) =>
      if chunk.offset + |chunk.data| > |buffer| then OutOfBounds else
      var rx := rx.(buffer := Splice(buffer, chunk.offset, chunk.data), received := rx.received + |chunk.data|);
      if rx.received >= rx.expected
      then Next(rx, Some(Delivery(chunk.frameId, rx.buffer[..rx.expected], chunk.timestamp)))
      else Next(rx, None)
  }

  /** A peer timeout takes the buffer away and leaves the other fields as they are. */
  function OnTimeout(rx: Rx): Rx { rx.(buffer := []) }

  function OnPayload(rx: Rx, payload: seq<byte>, memory: Memory): Outcome {
    match Parse(payload)
    case None => Next(rx, None)
    case Some(chunk) => OnChunk(rx, chunk, memory)
  }

  /** The receiving half of a peer, updated in place. */
  class Receiver {
    var frameId: nat
    var buffer: array<byte>
    var expected: nat
    var received: nat

    constructor ()
      ensures Value() == Rx(0, [], 0, 0) && fresh(buffer)
    {
      frameId, expected, received := 0, 0, 0;
      buffer := new byte[0];
    }

    function Value(): Rx reads this, buffer { Rx(frameId, buffer[..], expected, received) }

    /** The realloc of the reassembly buffer; the memory it was given shows past the old end. */
    method EnsureCapacity(memory: Memory) returns (ok: bool)
      modifies this`buffer
      ensures buffer == old(buffer) || fresh(buffer)
      ensures ok <==> Grow(old(buffer[..]), expected, memory).Some?
      ensures ok ==> buffer[..] == Grow(old(buffer[..]), expected, memory).value
      ensures !ok ==> buffer == old(buffer)
    {
      if buffer.Length >= expected { return true; }
      match memory {
        case Denied => return false;
        case Granted(content) =>
          var was := buffer[..];
          var grown := new byte[expected](i requires 0 <= i => if i < |was| then was[i] else content(i - |was|));
          assert grown[..] == was + seq(expected - |was|, i requires 0 <= i => content(i));
          buffer := grown;
          return true;
      }
    }

    /** The memcpy into the reassembly buffer. */
    method CopyIn(offset: nat, data: seq<byte>)
      requires offset + |data| <= buffer.Length
      modifies buffer
      ensures buffer[..] == Splice(old(buffer[..]), offset, data)
    {
      forall i | 0 <= i < |data| {
        buffer[offset + i] := data[i];
      }
    }

    /** Storing an accepted chunk. C does not make the last test: its memcpy leaves the buffer there. */
    method OnAccepted(chunk: Chunk, memory: Memory) returns (outcome: Outcome)
      modifies this, buffer
      ensures buffer == old(buffer) || fresh(buffer)
      ensures outcome == old(OnChunk(Value(), chunk, memory))
      ensures outcome.Next? ==> outcome.rx == Value()
    {
      hide Splice, Grow;
      ghost var before := Value();
      if frameId != chunk.frameId {
        frameId := chunk.frameId;
        received := 0;
        expected := chunk.total;
      }
      assert Value() == Select(before, chunk);
      var ok := EnsureCapacity(memory);
      if !ok { return Next(Value(), None); }
      if chunk.offset + |chunk.data| > buffer.Length { return OutOfBounds; }
      CopyIn(chunk.offset, chunk.data);
      received := received + |chunk.data|;
      if received >= expected {
        return Next(Value(), Some(Delivery(chunk.frameId, buffer[..expected], chunk.timestamp)));
      }
      return Next(Value(), None);
    }

    /** The timeout of a connected peer, as far as the reassembly is concerned. */
    method DropBuffer()
      modifies this`buffer
      ensures Value() == OnTimeout(old(Value())) && fresh(buffer)
    {
      buffer := new byte[0];
    }

    /** One decrypted PKT_VIDEO payload, any at all; `memory` is the memory a growing buffer was given. */
    method OnVideo(payload: seq<byte>, memory: Memory) returns (outcome: Outcome)
      modifies this, buffer
      ensures buffer == old(buffer) || fresh(buffer)
      ensures outcome == old(OnPayload(Value(), payload, memory))
      ensures outcome.Next? ==> outcome.rx == Value()
    {
      var chunk := Parse(payload);
      match chunk {
        case None => return Next(Value(), None);
        case Some(chunk) => outcome := OnAccepted(chunk, memory);
      }
    }
  }

  /** The fields of a chunk hold its values. */
  predicate Encodable(chunk: Chunk) {
    && chunk.frameId < U32 && chunk.total < U32 && chunk.offset < U32
    && |chunk.data| < U16 && chunk.timestamp < U64
  }

  /** The checks, told from the values: the frame is not empty or too large, and the chunk lies in it. */
  function Checked(chunk: Chunk): Option<Chunk> {
    if 0 < chunk.total <= MAX_FRAME && chunk.offset + |chunk.data| <= chunk.total then Some(chunk) else None
  }

  /** A chunk passes the checks exactly when its size is in bounds and it lies in its frame; then it is unchanged. */
  lemma ParseEncode(chunk: Chunk)
    requires Encodable(chunk)
    ensures Parse(Encode(chunk)) == Checked(chunk)
  {
    hide LE, FromLE;
    var p := Encode(chunk);
    FieldWidths();
    assert p[..4] == LE(chunk.frameId, 4) && p[4..8] == LE(chunk.total, 4) && p[8..12] == LE(chunk.offset, 4);
    assert p[12..14] == LE(|chunk.data|, 2) && p[16..24] == LE(chunk.timestamp, 8);
    assert p[CHUNK_HEADER..] == chunk.data;
    LERoundTrip(chunk.frameId, 4); LERoundTrip(chunk.total, 4); LERoundTrip(chunk.offset, 4);
    LERoundTrip(|chunk.data|, 2); LERoundTrip(chunk.timestamp, 8);
  }

  /** The packed total_size and offset are 32 bits wide. */
  function Truncated(chunk: Chunk): Chunk { chunk.(total := chunk.total % U32, offset := chunk.offset % U32) }

  lemma {:induction false} LEWraps(v: nat, n: nat)
    ensures LE(v % Pow256(n), n) == LE(v, n)
    decreases n
  {
    if n > 0 {
      var p := Pow256(n - 1);
      WrapStep(v, p);
      LEWraps(v / 256, n - 1);
    }
  }

  lemma WrapStep(v: nat, p: nat)
    requires p > 0
    ensures (v % (256 * p)) % 256 == v % 256 && (v % (256 * p)) / 256 == (v / 256) % p
  {
    var low, high := v % 256, v / 256;
    var q, r := high / p, high % p;
    assert v == 256 * (q * p + r) + low;
    assert 256 * (q * p + r) + low == q * (256 * p) + (256 * r + low);
    QuotientIs(v, q, 256 * r + low, 256 * p);
  }

  /**
   * Which chunks of a frame of any size pass the checks: those that lie in the frame as its truncated
   * size and offset announce them. From 4 GiB on, that may be in the wrong place of a smaller frame.
   */
  lemma SentChunkParsesIff(id: nat, frame: Frame, k: nat)
    requires HasChunk(|frame.data|, k) && id < U32 && frame.timestamp < U64
    ensures Parse(Payload(id, frame, k)) == Checked(Truncated(ChunkOf(id, frame, k)))
  {
    hide Parse, LE;
    ChunksTile(|frame.data|, k);
    FieldWidths();
    LEWraps(|frame.data|, 4);
    LEWraps(Cut(|frame.data|, k), 4);
    ParseEncode(Truncated(ChunkOf(id, frame, k)));
  }

  /** A frame of 4 GiB and 16 MiB announces 16 MiB: its first chunk is taken for one of that frame. */
  lemma HugeFrameAccepted(id: nat, frame: Frame)
    requires |frame.data| == U32 + MAX_FRAME && id < U32 && frame.timestamp < U64
    ensures Parse(Payload(id, frame, 0)) == Some(Chunk(id, MAX_FRAME, 0, frame.data[..1326], frame.timestamp))
  {
    hide Parse, Encode;
    SentChunkParsesIff(id, frame, 0);
  }

  /** A sent chunk passes the checks exactly when its frame is at most 16 MiB, and arrives intact. */
  lemma SentChunkParses(id: nat, frame: Frame, k: nat)
    requires HasChunk(|frame.data|, k) && |frame.data| < U32
    requires id < U32 && frame.timestamp < U64
    ensures var chunk := Parse(Payload(id, frame, k));
            && (chunk.Some? <==> |frame.data| <= 16 * 1024 * 1024)
            && (chunk.Some? ==> chunk.value == ChunkOf(id, frame, k))
  {
    hide Parse, Encode;
    ChunksTile(|frame.data|, k);
    SentChunkParsesIff(id, frame, k);
  }

  /**
   * Which payloads pass the checks, byte by byte: 24 bytes of header, a frame size from 1 to 16 MiB at
   * byte 4, an offset at byte 8 and a chunk size at byte 12 that lie in it, and exactly that many bytes.
   */
  lemma ParseMeans(p: seq<byte>)
    ensures Parse(p).Some? <==>
              && |p| >= 24
              && 1 <= FromLE(p[4..8]) <= 16777216
              && FromLE(p[8..12]) + FromLE(p[12..14]) <= FromLE(p[4..8])
              && |p| == 24 + FromLE(p[12..14])
    ensures Parse(p).Some? ==>
              var c := Parse(p).value;
              && c.frameId == FromLE(p[0..4]) && c.total == FromLE(p[4..8]) && c.offset == FromLE(p[8..12])
              && c.timestamp == FromLE(p[16..24]) && c.data == p[24..]
  {
    hide FromLE;
  }

  /** A timeout keeps the counter: the next chunk of the frame counts on from where it was. */
  lemma TimeoutKeepsCount(rx: Rx, chunk: Chunk, memory: Memory)
    requires rx.frameId == chunk.frameId && memory.Granted? && chunk.offset + |chunk.data| <= rx.expected
    ensures var outcome := OnChunk(OnTimeout(rx), chunk, memory);
            && outcome.Next? && |outcome.rx.buffer| == rx.expected
            && outcome.rx.received == rx.received + |chunk.data|
            && outcome.rx.expected == rx.expected && outcome.rx.frameId == rx.frameId
            && (outcome.delivery.Some? <==> rx.received + |chunk.data| >= rx.expected)
  {
  }
}
