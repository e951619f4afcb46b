/** Cutting an encoded frame into datagram-sized chunks (src/network.c:111-162). */
module VideoSender {
  import opened Bytes
  import opened Wire
  import opened Wrappers

  const CHUNK_HEADER: nat := 24
  /** MAX_PLAIN - CHUNK_HEADER, written out to keep the arithmetic on offsets linear. */
  const MAX_CHUNK: nat := 1326

  datatype Frame = Frame(data: seq<byte>, timestamp: nat)

  function ChunkCount(size: nat): nat { (size + 1325) / 1326 }

  /** Chunk k begins inside the frame, that is k < ChunkCount(size). */
  predicate HasChunk(size: nat, k: nat) { k * 1326 < size }

  /** Where chunk k begins, clipped to the end of the frame. */
  function Cut(size: nat, k: nat): nat { if k * 1326 < size then k * 1326 else size }

  function Slice(data: seq<byte>, k: nat): seq<byte>
    requires HasChunk(|data|, k)
  {
    data[Cut(|data|, k)..Cut(|data|, k + 1)]
  }

  /** A video_chunk_header_t and the bytes it announces. */
  datatype Chunk = Chunk(frameId: nat, total: nat, offset: nat, data: seq<byte>, timestamp: nat)

  /** The plaintext payload of a chunk: the packed header, then the bytes. */
  function Encode(chunk: Chunk): seq<byte> {
    LE(chunk.frameId, 4) + LE(chunk.total, 4) + LE(chunk.offset, 4) + LE(|chunk.data|, 2) + LE(0, 2)
    + LE(chunk.timestamp, 8) + chunk.data
  }

  function ChunkOf(id: nat, frame: Frame, k: nat): Chunk
    requires HasChunk(|frame.data|, k)
  {
    Chunk(id, |frame.data|, Cut(|frame.data|, k), Slice(frame.data, k), frame.timestamp)
  }

  function Payload(id: nat, frame: Frame, k: nat): seq<byte>
    requires HasChunk(|frame.data|, k)
  {
    Encode(ChunkOf(id, frame, k))
  }

  function Payloads(id: nat, frame: Frame, n: nat): seq<seq<byte>>
    requires n <= ChunkCount(|frame.data|)
  {
    if n == 0 then [] else Payloads(id, frame, n - 1) + [Payload(id, frame, n - 1)]
  }

  /** How many leading send attempts the transport accepts. */
  function Accepted(accepts: nat -> bool, n: nat, from: nat): (m: nat)
    requires from <= n
    ensures from <= m <= n
    ensures m == n <==> forall k :: from <= k < n ==> accepts(k)
    ensures (forall k :: from <= k < m ==> accepts(k)) && (m < n ==> !accepts(m))
    decreases n - from
  {
    if from < n && accepts(from) then Accepted(accepts, n, from + 1) else from
  }

  lemma NothingSent(id: nat, frame: Frame)
    ensures Payloads(id, frame, 0) == []
  {
  }

  /** One turn of the chunking loop. */
  lemma OneMoreSent(id: nat, frame: Frame, accepts: nat -> bool, k: nat)
    requires HasChunk(|frame.data|, k)
    ensures k < ChunkCount(|frame.data|)
    ensures Payloads(id, frame, k + 1) == Payloads(id, frame, k) + [Encode(ChunkOf(id, frame, k))]
    ensures Accepted(accepts, ChunkCount(|frame.data|), k)
         == if accepts(k) then Accepted(accepts, ChunkCount(|frame.data|), k + 1) else k
  {
    hide Encode;
  }

  /** The sending half of a peer: its frame counter and the payloads its transport took. */
  class Sender {
    var txFrameId: nat
    var sent: seq<seq<byte>>

    constructor ()
      ensures txFrameId == 1 && sent == []
    {
      txFrameId, sent := 1, [];
    }

    /** The chunking loop; `accepts(k)` is the outcome of its k-th rootstream_net_send_encrypted. */
    method EmitChunks(frameId: nat, frame: Frame, accepts: nat -> bool) returns (result: int)
      modifies this`sent
      ensures var count := ChunkCount(|frame.data|);
              && sent == old(sent) + Payloads(frameId, frame, Accepted(accepts, count, 0))
              && result == if Accepted(accepts, count, 0) == count then 0 else -1
    {
      hide Encode, Payloads, Accepted;
      NothingSent(frameId, frame);
      var data := frame.data;
      var offset, k := 0, 0;
      while offset < |data|
        invariant k <= ChunkCount(|data|) && offset == Cut(|data|, k)
        invariant Accepted(accepts, ChunkCount(|data|), 0) == Accepted(accepts, ChunkCount(|data|), k)
        invariant sent == old(sent) + Payloads(frameId, frame, k)
        decreases |data| - offset
      {
        var chunkSize := |data| - offset;
        if chunkSize > MAX_CHUNK { chunkSize := MAX_CHUNK; }
        var chunk := Chunk(frameId, |data|, offset, data[offset..offset + chunkSize], frame.timestamp);
        ChunksTile(|data|, k);
        OneMoreSent(frameId, frame, accepts, k);
        assert chunk == ChunkOf(frameId, frame, k);
        if !accepts(k) { return -1; }
        sent := sent + [Encode(chunk)];
        offset := offset + chunkSize;
        k := k + 1;
      }
      return 0;
    }

    /** rootstream_net_send_video: the frame id is spent whether or not every chunk gets through. */
    method SendVideo(data: seq<byte>, timestamp: nat, accepts: nat -> bool) returns (result: int)
      modifies this
      ensures data == [] ==> result == -1 && txFrameId == old(txFrameId) && sent == old(sent)
      ensures data != [] ==>
                var count := ChunkCount(|data|);
                && txFrameId == (old(txFrameId) + 1) % 0x1_0000_0000
                && sent == old(sent) + Payloads(old(txFrameId), Frame(data, timestamp), Accepted(accepts, count, 0))
                && result == (if forall k :: 0 <= k < count ==> accepts(k) then 0 else -1)
    {
      if data == [] { return -1; }
      var frameId := txFrameId;
      txFrameId := (txFrameId + 1) % U32;
      result := EmitChunks(frameId, Frame(data, timestamp), accepts);
    }
  }

  /** Chunk k holds exactly the bytes b with b / 1326 == k, and no chunk is empty or too large. */
  lemma ChunksTile(size: nat, k: nat)
    requires HasChunk(size, k)
    ensures Cut(size, 0) == 0 && Cut(size, ChunkCount(size)) == size
    ensures 1 <= Cut(size, k + 1) - Cut(size, k) <= MAX_CHUNK == MAX_PLAIN - CHUNK_HEADER
    ensures forall b :: 0 <= b < size ==> (Cut(size, k) <= b < Cut(size, k + 1) <==> b / 1326 == k)
  {
  }

  function Joined(data: seq<byte>, n: nat): seq<byte>
    requires n <= ChunkCount(|data|)
  {
    if n == 0 then [] else Joined(data, n - 1) + Slice(data, n - 1)
  }

  /** The slices of a frame, put end to end, are the frame. */
  lemma {:induction false} SlicesJoin(data: seq<byte>, n: nat)
    requires n <= ChunkCount(|data|)
    ensures Joined(data, n) == data[..Cut(|data|, n)]
    ensures Joined(data, ChunkCount(|data|)) == data
  {
    JoinPrefix(data, n);
    JoinPrefix(data, ChunkCount(|data|));
  }

  lemma {:induction false} JoinPrefix(data: seq<byte>, n: nat)
    requires n <= ChunkCount(|data|)
    ensures Joined(data, n) == data[..Cut(|data|, n)]
  {
    if n > 0 { JoinPrefix(data, n - 1); }
  }

  /** Every chunk fits the sealed packet: 24 + 1326 bytes of plaintext make at most 1400 on the wire. */
  lemma ChunkFitsPacket(aead: Aead, key: seq<byte>, nonce: nat, mac: seq<byte>, id: nat, frame: Frame, k: nat)
    requires Inverts(aead) && |mac| == MAC && nonce < U64
    requires HasChunk(|frame.data|, k)
    ensures var payload := Payload(id, frame, k);
            var sealed := Seal(aead, key, VIDEO, nonce, mac, payload);
            && |payload| <= 1350
            && sealed.Some? && |sealed.value| <= 1400 && Validate(sealed.value)
            && Open(aead, key, sealed.value) == Some(payload)
  {
    ChunksTile(|frame.data|, k);
    SealOpen(aead, key, VIDEO, nonce, mac, Payload(id, frame, k));
  }

  /** The packed chunk header, byte by byte, and the bytes behind it. */
  lemma ChunkLayout(chunk: Chunk)
    requires chunk.frameId < U32 && chunk.total < U32 && chunk.offset < U32
    requires |chunk.data| < U16 && chunk.timestamp < U64
    ensures var p := Encode(chunk);
            && |p| == 24 + |chunk.data|
            && FromLE(p[0..4]) == chunk.frameId && FromLE(p[4..8]) == chunk.total && FromLE(p[8..12]) == chunk.offset
            && FromLE(p[12..14]) == |chunk.data| && p[14..16] == [0, 0]
            && FromLE(p[16..24]) == chunk.timestamp && p[24..] == chunk.data
  {
    hide LE, FromLE;
    var p := Encode(chunk);
    FieldWidths();
    assert p[0..4] == LE(chunk.frameId, 4) && p[4..8] == LE(chunk.total, 4) && p[8..12] == LE(chunk.offset, 4);
    assert p[12..14] == LE(|chunk.data|, 2) && p[14..16] == LE(0, 2) && p[16..24] == LE(chunk.timestamp, 8);
    ZeroField();
    LERoundTrip(chunk.frameId, 4); LERoundTrip(chunk.total, 4); LERoundTrip(chunk.offset, 4);
    LERoundTrip(|chunk.data|, 2); LERoundTrip(chunk.timestamp, 8);
  }

  lemma ZeroField()
    ensures LE(0, 2) == [0, 0]
  {
  }
}
