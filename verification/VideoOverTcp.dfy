/**
 * The whole path of a video stream over TCP: frames are cut, sealed and put on the stream, the
 * stream is split by arbitrary reads, cut into packets again, opened and reassembled.
 */
module VideoOverTcp {
  import opened Bytes
  import opened Wire
  import opened Wrappers
  import opened VideoSender
  import opened VideoReceiver
  import opened VideoRuns
  import opened TcpFraming

  /** An established session: both ends hold the same key. `macs` is what malloc left in the header. */
  datatype Link = Link(aead: Aead, key: seq<byte>, macs: nat -> seq<byte>)

  ghost predicate Sound(link: Link) {
    Inverts(link.aead) && forall nonce :: |link.macs(nonce)| == MAC
  }

  /** The packet rootstream_net_send_encrypted makes of chunk k of a frame. */
  function ChunkPacket(link: Link, id: nat, frame: Frame, k: nat, nonce: nat): (p: Option<seq<byte>>)
    requires |link.macs(nonce)| == MAC && HasChunk(|frame.data|, k)
  {
    Seal(link.aead, link.key, VIDEO, nonce, link.macs(nonce), Payload(id, frame, k))
  }

  /** A place in the stream: the next packet to come is chunk k of the frame at i. */
  datatype Place = Place(i: nat, k: nat)

  ghost predicate Good(frames: seq<Frame>) {
    && |frames| < U32
    && forall i :: 0 <= i < |frames| ==> GoodFrame(frames[i])
  }

  predicate GoodFrame(frame: Frame) { 1 <= |frame.data| <= MAX_FRAME && frame.timestamp < U64 }

  predicate Within(frames: seq<Frame>, at: Place) {
    at.i <= |frames| && if at.i < |frames| then HasChunk(|frames[at.i].data|, at.k) else at.k == 0
  }

  /** The last chunk of its frame is the one that leaves nothing for another. */
  predicate IsLast(frame: Frame, k: nat) { !HasChunk(|frame.data|, k + 1) }

  function After(frames: seq<Frame>, at: Place): Place
    requires at.i < |frames|
  {
    if IsLast(frames[at.i], at.k) then Place(at.i + 1, 0) else Place(at.i, at.k + 1)
  }

  lemma AfterWithin(frames: seq<Frame>, at: Place)
    requires Good(frames) && Within(frames, at) && at.i < |frames|
    ensures Within(frames, After(frames, at))
  {
    if at.i + 1 < |frames| { assert GoodFrame(frames[at.i + 1]); }
  }

  function Left(frames: seq<Frame>, at: Place): nat {
    if at.i < |frames| && at.k < ChunkCount(|frames[at.i].data|) then ChunkCount(|frames[at.i].data|) - at.k else 0
  }

  /** All packets of the frames from a place on, with consecutive nonces. */
  ghost function Stream(link: Link, frames: seq<Frame>, at: Place, nonce: nat): seq<seq<byte>>
    requires Sound(link) && Good(frames) && Within(frames, at)
    decreases |frames| - at.i, Left(frames, at)
  {
    if at.i == |frames| then [] else
    AfterWithin(frames, at);
    var packet := ChunkPacket(link, at.i + 1, frames[at.i], at.k, nonce);
    (if packet.Some? then [packet.value] else []) + Stream(link, frames, After(frames, at), nonce + 1)
  }

  /** Everything a sender of these frames puts on the stream. */
  ghost function SentPackets(link: Link, frames: seq<Frame>, nonce: nat): seq<seq<byte>>
    requires Sound(link) && Good(frames)
  {
    assert frames != [] ==> GoodFrame(frames[0]);
    Stream(link, frames, Place(0, 0), nonce)
  }

  /** The receiving end: the reassembly fields and the frames shown. */
  datatype Screen = Screen(rx: Rx, log: seq<Delivery>, overrun: bool)

  const DARK := Screen(START.rx, [], false)

  /** A packet handed out by the TCP framing; only the video branch is modelled here. */
  function Show(s: Screen, link: Link, packet: seq<byte>, memory: Memory): Screen {
    if |packet| < HEADER || Kind(packet) != VIDEO then s else
    match Open(link.aead, link.key, packet)
    case None => s
    case Some(payload) =>
      match OnPayload(s.rx, payload, memory)
      case OutOfBounds => s.(overrun := true)
      case Next(rx, delivery) => s.(rx := rx, log := if delivery.Some? then s.log + [delivery.value] else s.log)
  }

  function ShowAll(s: Screen, link: Link, packets: seq<seq<byte>>, memory: Memory): Screen
    decreases |packets|
  {
    if packets == [] then s else ShowAll(Show(s, link, packets[0], memory), link, packets[1..], memory)
  }

  /** What the receiver holds when everything before this place, and nothing else, has arrived. */
  ghost predicate UpTo(rx: Rx, frames: seq<Frame>, at: Place) {
    if at.k == 0 || at.i >= |frames| then rx.frameId <= at.i
    else Holds(rx, at.i + 1, frames[at.i].data, Below(at.k))
  }

  lemma CompleteBelow(size: nat, k: nat)
    requires HasChunk(size, k)
    ensures Complete(size, Below(k + 1)) <==> !HasChunk(size, k + 1)
    ensures k !in Below(k) && Below(k) + {k} == Below(k + 1) && (k == 0 ==> Below(k) == {})
  {
    if HasChunk(size, k + 1) { assert k + 1 !in Below(k + 1); }
  }

  /** What arrival of the next packet shows. */
  function Due(frames: seq<Frame>, at: Place): seq<Delivery>
    requires at.i < |frames|
  {
    var frame := frames[at.i];
    if IsLast(frame, at.k) then [Delivery(at.i + 1, frame.data, frame.timestamp)] else []
  }

  /** One packet of the stream: sealed within bounds, recovered, and stored in its place. */
  lemma NextShown(s: Screen, link: Link, frames: seq<Frame>, at: Place, nonce: nat, memory: Memory)
    requires Sound(link) && Good(frames) && Within(frames, at) && at.i < |frames| && nonce < U64 && memory.Granted?
    requires UpTo(s.rx, frames, at)
    ensures var packet := ChunkPacket(link, at.i + 1, frames[at.i], at.k, nonce);
            && packet.Some? && WellFormed(packet.value)
            && var s' := Show(s, link, packet.value, memory);
            && s'.overrun == s.overrun && s'.log == s.log + Due(frames, at)
            && UpTo(s'.rx, frames, After(frames, at))
  {
    hide OnChunk, Payload, ChunkOf, HasChunk, Complete, Holds, Below, Validate, Header, Parse;
    var frame := frames[at.i];
    assert GoodFrame(frame);
    PacketIsSealed(link, at.i + 1, frame, at.k, nonce);
    CompleteBelow(|frame.data|, at.k);
    HoldsId(s.rx, at.i + 1, frame.data, Below(at.k));
    StoreChunk(s.rx, at.i + 1, frame, at.k, Below(at.k), memory);
    var outcome := OnChunk(s.rx, ChunkOf(at.i + 1, frame, at.k), memory);
    HoldsId(outcome.rx, at.i + 1, frame.data, Below(at.k + 1));
  }

  lemma HoldsId(rx: Rx, id: nat, data: seq<byte>, stored: set<nat>)
    ensures Holds(rx, id, data, stored) ==> rx.frameId == id
  {
  }

  lemma PacketIsSealed(link: Link, id: nat, frame: Frame, k: nat, nonce: nat)
    requires Sound(link) && GoodFrame(frame) && HasChunk(|frame.data|, k) && nonce < U64 && id < U32
    ensures var packet := ChunkPacket(link, id, frame, k, nonce);
            && packet.Some? && WellFormed(packet.value) && Kind(packet.value) == VIDEO
            && Open(link.aead, link.key, packet.value) == Some(Payload(id, frame, k))
    ensures Parse(Payload(id, frame, k)) == Some(ChunkOf(id, frame, k))
  {
    hide Payload, Parse, Header;
    ChunkFitsPacket(link.aead, link.key, nonce, link.macs(nonce), id, frame, k);
    SealOpen(link.aead, link.key, VIDEO, nonce, link.macs(nonce), Payload(id, frame, k));
    SentChunkParses(id, frame, k);
  }

  /** How many packets the first n frames take. */
  function PacketsOf(frames: seq<Frame>, n: nat): nat
    requires n <= |frames|
  {
    if n == 0 then 0 else PacketsOf(frames, n - 1) + ChunkCount(|frames[n - 1].data|)
  }

  /** The number of packets before a place. */
  function Index(frames: seq<Frame>, at: Place): nat
    requires at.i <= |frames|
  {
    PacketsOf(frames, at.i) + at.k
  }

  lemma AfterIndex(frames: seq<Frame>, at: Place)
    requires Within(frames, at) && at.i < |frames|
    ensures Index(frames, After(frames, at)) == Index(frames, at) + 1
  {
  }

  lemma {:induction false} PacketsGrow(frames: seq<Frame>, m: nat, n: nat)
    requires Good(frames) && m <= n <= |frames|
    ensures PacketsOf(frames, m) <= PacketsOf(frames, n)
    decreases n
  {
    if m < n { PacketsGrow(frames, m, n - 1); }
  }

  /** A frame lies before a place exactly when its packets do. */
  lemma FramesBefore(frames: seq<Frame>, at: Place, a: nat)
    requires Good(frames) && Within(frames, at) && a <= |frames|
    ensures a <= at.i <==> PacketsOf(frames, a) <= Index(frames, at)
  {
    if a <= at.i {
      PacketsGrow(frames, a, at.i);
    } else {
      PacketsGrow(frames, at.i + 1, a);
    }
  }

  /** The first n frames, as current_frame should show them. */
  function FirstFrames(frames: seq<Frame>, n: nat): (log: seq<Delivery>)
    requires n <= |frames|
    ensures |log| == n
    ensures forall a :: 0 <= a < n ==> log[a] == Delivery(a + 1, frames[a].data, frames[a].timestamp)
  {
    if n == 0 then []
    else FirstFrames(frames, n - 1) + [Delivery(n, frames[n - 1].data, frames[n - 1].timestamp)]
  }

  /** The receiving end when the stream has arrived up to a place. */
  ghost predicate Shows(s: Screen, frames: seq<Frame>, at: Place) {
    && Within(frames, at)
    && UpTo(s.rx, frames, at)
    && !s.overrun && s.log == FirstFrames(frames, at.i)
  }

  lemma {:induction false} StreamLength(link: Link, frames: seq<Frame>, at: Place, nonce: nat)
    requires Sound(link) && Good(frames) && Within(frames, at)
    requires nonce + PacketsOf(frames, |frames|) < U64 + Index(frames, at)
    ensures Index(frames, at) + |Stream(link, frames, at, nonce)| == PacketsOf(frames, |frames|)
    ensures forall p :: p in Stream(link, frames, at, nonce) ==> WellFormed(p)
    decreases |frames| - at.i, Left(frames, at)
  {
    hide WellFormed, ChunkPacket, PacketsOf, Index, GoodFrame;
    NoPacketsLeft(frames, at);
    if at.i < |frames| {
      AfterWithin(frames, at);
      AfterIndex(frames, at);
      FramesBefore(frames, at, |frames|);
      assert GoodFrame(frames[at.i]);
      SealedChunk(link, frames, at, nonce);
      StreamLength(link, frames, After(frames, at), nonce + 1);
    }
  }

  lemma NoPacketsLeft(frames: seq<Frame>, at: Place)
    requires Within(frames, at)
    ensures at.i == |frames| ==> Index(frames, at) == PacketsOf(frames, |frames|)
  {
  }

  lemma SealedChunk(link: Link, frames: seq<Frame>, at: Place, nonce: nat)
    requires Sound(link) && Good(frames) && Within(frames, at) && at.i < |frames| && nonce < U64
    ensures var packet := ChunkPacket(link, at.i + 1, frames[at.i], at.k, nonce);
            packet.Some? && WellFormed(packet.value)
  {
    hide WellFormed;
    assert GoodFrame(frames[at.i]);
    PacketIsSealed(link, at.i + 1, frames[at.i], at.k, nonce);
  }

  lemma OneMoreShown(s: Screen, link: Link, frames: seq<Frame>, at: Place, nonce: nat, memory: Memory)
    requires Sound(link) && Good(frames) && at.i < |frames| && nonce < U64 && memory.Granted?
    requires Shows(s, frames, at)
    ensures var packet := ChunkPacket(link, at.i + 1, frames[at.i], at.k, nonce);
            packet.Some? && Shows(Show(s, link, packet.value, memory), frames, After(frames, at))
  {
    hide Show, ChunkPacket, UpTo, WellFormed;
    AfterWithin(frames, at);
    NextShown(s, link, frames, at, nonce, memory);
  }

  /** Any number of packets from the front of the stream. */
  lemma {:induction false} ShownInOrder(s: Screen, link: Link, frames: seq<Frame>, at: Place, nonce: nat,
      memory: Memory, n: nat)
    returns (end: Place)
    requires Sound(link) && Good(frames) && memory.Granted? && Shows(s, frames, at)
    requires nonce + PacketsOf(frames, |frames|) < U64 + Index(frames, at)
    requires n <= |Stream(link, frames, at, nonce)|
    ensures Shows(ShowAll(s, link, Stream(link, frames, at, nonce)[..n], memory), frames, end)
    ensures Index(frames, end) == Index(frames, at) + n
    decreases n
  {
    hide Show, ChunkPacket, UpTo, Index, PacketsOf, FirstFrames;
    end := at;
    if n > 0 {
      var stream, next := Stream(link, frames, at, nonce), After(frames, at);
      AfterWithin(frames, at);
      AfterIndex(frames, at);
      StreamLength(link, frames, at, nonce);
      OneMoreShown(s, link, frames, at, nonce, memory);
      var s' := Show(s, link, stream[0], memory);
      assert stream[..n][0] == stream[0] && stream[..n][1..] == stream[1..][..n - 1];
      end := ShownInOrder(s', link, frames, next, nonce + 1, memory, n - 1);
    }
  }

  /**
   * Video over TCP: however the reads split the stream (or cut it short), what is shown is the first
   * frames sent, in order and byte for byte, and exactly those whose packets were all handed out;
   * how many packets that is follows from the sizes of the reads alone.
   */
  lemma {:induction false} VideoInOrder(link: Link, frames: seq<Frame>, nonce: nat, inputs: seq<Input>, memory: Memory)
    requires Sound(link) && Good(frames) && memory.Granted? && nonce + PacketsOf(frames, |frames|) < U64
    requires Legal(Tcp(true, []), inputs)
    requires Received(Tcp(true, []), inputs) <= Flat(SentPackets(link, frames, nonce))
    ensures var packets := Run(Tcp(true, []), inputs).0;
            var s := ShowAll(DARK, link, packets, memory);
            && !s.overrun && |s.log| <= |frames|
            && (forall a :: 0 <= a < |s.log| ==> s.log[a] == Delivery(a + 1, frames[a].data, frames[a].timestamp))
            && (forall a :: 0 <= a <= |frames| ==> (a <= |s.log| <==> PacketsOf(frames, a) <= |packets|))
            && IsLeast(SentPackets(link, frames, nonce), Reads(Tcp(true, []), inputs), |packets|)
  {
    hide Show, ShowAll, WellFormed, Flat, Run, Received, Legal, Stream, PacketsOf, Sound, IsLeast, Reads;
    assert frames != [] ==> GoodFrame(frames[0]);
    var at := Place(0, 0);
    var stream, packets := Stream(link, frames, at, nonce), Run(Tcp(true, []), inputs).0;
    IndexOfStart(frames);
    StreamLength(link, frames, at, nonce);
    assert [] + Received(Tcp(true, []), inputs) == Received(Tcp(true, []), inputs);
    PrefixDelivered(Tcp(true, []), inputs, stream);
    HandedOutIsLeast(inputs, stream);
    assert packets == stream[..|packets|];
    var end := ShownInOrder(DARK, link, frames, at, nonce, memory, |packets|);
    forall a | 0 <= a <= |frames| ensures a <= end.i <==> PacketsOf(frames, a) <= |packets| {
      FramesBefore(frames, end, a);
    }
  }

  lemma IndexOfStart(frames: seq<Frame>)
    ensures Index(frames, Place(0, 0)) == 0
  {
  }
}
