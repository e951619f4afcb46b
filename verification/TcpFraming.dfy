/** The TCP transport: one fixed buffer, arbitrary partial reads, at most one packet cut per call. */
module TcpFraming {
  import opened Bytes
  import opened Wire

  const CAPACITY: nat := MAX_PACKET

  /** What recv() may answer; it never returns more than it was asked for. */
  datatype Input = WouldBlock | Failed | Closed | Data(bytes: seq<byte>)

  /**
   * Data is at least one byte. Asked for no bytes while some wait, recv() returns 0, which the code
   * reads as Closed.
   */
  predicate Allowed(input: Input, room: nat) {
    input.Data? ==> 1 <= |input.bytes| <= room
  }

  datatype Result = Error | Nothing | Packet(bytes: seq<byte>)

  datatype Tcp = Tcp(connected: bool, pending: seq<byte>)

  /** The size of the packet at the front of the buffer, or 0 when more data is needed. */
  function FrontSize(pending: seq<byte>): nat {
    if |pending| < HEADER || |pending| < HEADER + PayloadSize(pending) then 0 else HEADER + PayloadSize(pending)
  }

  function Receive(t: Tcp, input: Input): (Tcp, Result) {
    if !t.connected then (t, Error) else
    match input
    case WouldBlock => (t, Nothing)
    case Failed | Closed => (t.(connected := false), Error)
    case Data(bytes) =>
      var pending := t.pending + bytes;
      var size := FrontSize(pending);
      if size == 0 then (Tcp(true, pending), Nothing) else (Tcp(true, pending[size..]), Packet(pending[..size]))
  }

  /** The receiving side of tcp_peer_ctx_t. */
  class TcpPeer {
    var connected: bool
    var readBuffer: array<byte>
    var readOffset: nat

    ghost predicate Valid() reads this { readBuffer.Length == CAPACITY && readOffset <= CAPACITY }

    ghost function Value(): Tcp
      requires Valid()
      reads this, readBuffer
    {
      Tcp(connected, readBuffer[..readOffset])
    }

    constructor ()
      ensures Valid() && Value() == Tcp(true, []) && fresh(readBuffer)
    {
      connected, readBuffer, readOffset := true, new byte[CAPACITY], 0;
    }

    method Recv(input: Input) returns (result: Result)
      requires Valid() && Allowed(input, CAPACITY - readOffset)
      modifies this`connected, this`readOffset, readBuffer
      ensures Valid() && (Value(), result) == Receive(old(Value()), input)
    {
      if !connected { return Error; }
      if input.WouldBlock? { return Nothing; }
      if !input.Data? {
        connected := false;
        return Error;
      }
      ghost var pending := readBuffer[..readOffset] + input.bytes;
      forall i | 0 <= i < |input.bytes| {
        readBuffer[readOffset + i] := input.bytes[i];
      }
      readOffset := readOffset + |input.bytes|;
      assert readBuffer[..readOffset] == pending;
      result := CutPacket();
    }

    /** Copying one complete packet out and shifting the remaining data down. */
    method CutPacket() returns (result: Result)
      requires Valid() && connected
      modifies this`readOffset, readBuffer
      ensures Valid()
      ensures var pending := old(readBuffer[..readOffset]);
              var size := FrontSize(pending);
              if size == 0 then result == Nothing && readBuffer[..readOffset] == pending
              else result == Packet(pending[..size]) && readBuffer[..readOffset] == pending[size..]
    {
      if readOffset < HEADER { return Nothing; }
      ghost var pending := readBuffer[..readOffset];
      assert pending[16..18] == readBuffer[16..18];
      var packetSize := HEADER + FromLE(readBuffer[16..18]);
      if readOffset < packetSize { return Nothing; }
      assert pending[..packetSize] == readBuffer[..packetSize];
      result := Packet(readBuffer[..packetSize]);
      forall i | 0 <= i < readOffset - packetSize {
        readBuffer[i] := readBuffer[packetSize + i];
      }
      readOffset := readOffset - packetSize;
      assert readBuffer[..readOffset] == pending[packetSize..];
    }
  }

  /** The read that ends a connection. */
  predicate Ends(input: Input) { input.Failed? || input.Closed? }

  /** The size a packet gives itself: 34 bytes of header and what bytes 16 and 17 announce. */
  function Announced(bytes: seq<byte>): nat
    requires |bytes| >= 34
  {
    34 + (bytes[16] as int) + 256 * (bytes[17] as int)
  }

  /** Fewer bytes than a header, or than the header announces. */
  predicate Incomplete(bytes: seq<byte>) { |bytes| < 34 || |bytes| < Announced(bytes) }

  /**
   * What one call answers, for every state and read: an error on a connection that is gone or ends
   * now, nothing while no data or no complete packet is there, and else the first packet.
   */
  lemma ReceiveAnswers(t: Tcp, input: Input)
    ensures var (after, result) := Receive(t, input);
            && (result.Error? <==> !t.connected || Ends(input))
            && (result.Nothing? <==>
                t.connected && (input.WouldBlock? || (input.Data? && Incomplete(t.pending + input.bytes))))
            && (after.connected <==> t.connected && !Ends(input))
            && (result.Packet? ==>
                && |result.bytes| == Announced(t.pending + input.bytes)
                && result.bytes + after.pending == t.pending + input.bytes)
            && (!result.Packet? ==>
                after.pending == if t.connected && input.Data? then t.pending + input.bytes else t.pending)
  {
    if input.Data? { SizeField(t.pending + input.bytes); }
  }

  lemma SizeField(bytes: seq<byte>)
    ensures FrontSize(bytes) == if Incomplete(bytes) then 0 else Announced(bytes)
  {
    if |bytes| >= 34 {
      assert bytes[16..18] == [bytes[16], bytes[17]] && [bytes[16], bytes[17]][1..] == [bytes[17]];
      assert FromLE([bytes[17]]) == bytes[17] by { assert [bytes[17]][1..] == []; }
    }
  }

  /** The answers of the calls of a run. */
  function Answers(t: Tcp, inputs: seq<Input>): (results: seq<Result>)
    ensures |results| == |inputs|
    decreases |inputs|
  {
    if inputs == [] then [] else
    var (after, result) := Receive(t, inputs[0]);
    [result] + Answers(after, inputs[1..])
  }

  /** The first read that ends a connection, or |inputs|. */
  function FirstEnd(inputs: seq<Input>): (i: nat)
    ensures i <= |inputs| && (i < |inputs| ==> Ends(inputs[i])) && forall j :: 0 <= j < i ==> !Ends(inputs[j])
  {
    if inputs == [] || Ends(inputs[0]) then 0 else 1 + FirstEnd(inputs[1..])
  }

  /** A connection is lost at the first failed or closed read, and every call from then on answers an error. */
  lemma {:induction false} LostForGood(t: Tcp, inputs: seq<Input>)
    requires t.connected
    ensures forall i :: 0 <= i < |inputs| ==> (Answers(t, inputs)[i].Error? <==> i >= FirstEnd(inputs))
    ensures Run(t, inputs).1.connected <==> FirstEnd(inputs) == |inputs|
    decreases |inputs|
  {
    hide Receive;
    if inputs != [] {
      ReceiveAnswers(t, inputs[0]);
      var after := Receive(t, inputs[0]).0;
      if Ends(inputs[0]) { GoneForGood(after, inputs[1..]); } else { LostForGood(after, inputs[1..]); }
    }
  }

  lemma {:induction false} GoneForGood(t: Tcp, inputs: seq<Input>)
    requires !t.connected
    ensures forall i :: 0 <= i < |inputs| ==> Answers(t, inputs)[i].Error?
    ensures !Run(t, inputs).1.connected
    decreases |inputs|
  {
    hide Receive;
    if inputs != [] {
      ReceiveAnswers(t, inputs[0]);
      GoneForGood(Receive(t, inputs[0]).0, inputs[1..]);
    }
  }

  /** A run: the packets handed out and the state reached. */
  function Run(t: Tcp, inputs: seq<Input>): (seq<seq<byte>>, Tcp)
    decreases |inputs|
  {
    if inputs == [] then ([], t) else
    var (t', result) := Receive(t, inputs[0]);
    var (packets, end) := Run(t', inputs[1..]);
    (if result.Packet? then [result.bytes] + packets else packets, end)
  }

  /** Every read is one recv() could have made with the room left in the buffer at that moment. */
  predicate Legal(t: Tcp, inputs: seq<Input>)
    decreases |inputs|
  {
    inputs == [] ||
    (&& |t.pending| <= CAPACITY && Allowed(inputs[0], CAPACITY - |t.pending|)
     && Legal(Receive(t, inputs[0]).0, inputs[1..]))
  }

  /** The bytes that entered the buffer; once the connection is gone nothing is read. */
  function Received(t: Tcp, inputs: seq<Input>): seq<byte>
    decreases |inputs|
  {
    if inputs == [] then [] else
    Read(t, inputs[0]) + Received(Receive(t, inputs[0]).0, inputs[1..])
  }

  function Flat(packets: seq<seq<byte>>): seq<byte> {
    if packets == [] then [] else packets[0] + Flat(packets[1..])
  }

  function Handed(result: Result): seq<byte> { if result.Packet? then result.bytes else [] }
  function Read(t: Tcp, input: Input): seq<byte> { if t.connected && input.Data? then input.bytes else [] }

  lemma ReceiveConserves(t: Tcp, input: Input)
    ensures var (t', result) := Receive(t, input);
            Handed(result) + t'.pending == t.pending + Read(t, input)
  {
  }

  /** Nothing is lost, invented or reordered: for every byte stream, well-formed or not. */
  lemma {:induction false} BytesConserved(t: Tcp, inputs: seq<Input>)
    ensures var (packets, end) := Run(t, inputs);
            Flat(packets) + end.pending == t.pending + Received(t, inputs)
    decreases |inputs|
  {
    if inputs != [] {
      hide Receive;
      ReceiveConserves(t, inputs[0]);
      var (t', result) := Receive(t, inputs[0]);
      BytesConserved(t', inputs[1..]);
      var (packets, end) := Run(t', inputs[1..]);
      Regroup(t.pending, Read(t, inputs[0]), Received(t', inputs[1..]), Handed(result), t'.pending, Flat(packets),
          end.pending);
      assert result.Packet? ==> ([result.bytes] + packets)[1..] == packets;
    }
  }

  lemma Regroup(pending: seq<byte>, read: seq<byte>, rest: seq<byte>, handed: seq<byte>, left: seq<byte>,
      flat: seq<byte>, end: seq<byte>)
    requires handed + left == pending + read && flat + end == left + rest
    ensures (handed + flat) + end == pending + (read + rest)
  {
    assert (handed + flat) + end == handed + (flat + end) == (handed + left) + rest;
  }

  /** What a sender puts on the stream: a header announcing exactly the bytes that follow it. */
  predicate WellFormed(packet: seq<byte>) {
    HEADER <= |packet| <= CAPACITY && HEADER + PayloadSize(packet) == |packet|
  }

  /** While the bytes come from well-formed packets, the front of the buffer is the next packet. */
  lemma FrontIsNext(pending: seq<byte>, packets: seq<seq<byte>>)
    requires forall p :: p in packets ==> WellFormed(p)
    requires pending <= Flat(packets)
    ensures FrontSize(pending) == if packets != [] && |packets[0]| <= |pending| then |packets[0]| else 0
    ensures FrontSize(pending) == 0 ==> |pending| < CAPACITY
    ensures FrontSize(pending) > 0 ==> pending[..FrontSize(pending)] == packets[0]
    ensures FrontSize(pending) > 0 ==> pending[FrontSize(pending)..] <= Flat(packets[1..])
  {
    if packets != [] {
      var next, stream := packets[0], Flat(packets);
      assert WellFormed(next) && stream[..|next|] == next && stream[|next|..] == Flat(packets[1..]);
      if |pending| >= HEADER {
        assert pending[16..18] == stream[16..18] == next[16..18];
      }
    }
  }

  lemma CutStream(pending: seq<byte>, rest: seq<byte>, sent: seq<seq<byte>>)
    requires sent != [] && |sent[0]| <= |pending| && pending + rest <= Flat(sent)
    ensures pending[|sent[0]|..] + rest <= Flat(sent[1..])
  {
    var size := |sent[0]|;
    assert pending[size..] + rest == (pending + rest)[size..];
    assert Flat(sent)[size..] == Flat(sent[1..]);
  }

  /**
   * Framing: for every way the reads split a stream of well-formed packets (or a stream cut short),
   * the packets handed out are the first ones sent, the rest is still in the buffer, and the buffer
   * never fills up.
   */
  lemma {:induction false} PrefixDelivered(t: Tcp, inputs: seq<Input>, sent: seq<seq<byte>>)
    requires forall p :: p in sent ==> WellFormed(p)
    requires t.pending + Received(t, inputs) <= Flat(sent)
    requires |t.pending| < CAPACITY && Legal(t, inputs)
    ensures var (packets, end) := Run(t, inputs);
            && packets <= sent
            && end.pending <= Flat(sent[|packets|..])
            && |end.pending| < CAPACITY
    decreases |inputs|
  {
    hide Flat, WellFormed, FrontSize;
    if inputs == [] {
      assert sent[0..] == sent;
      assert t.pending + [] == t.pending;
    } else {
      var input := inputs[0];
      var (t', result) := Receive(t, input);
      var rest := Received(t', inputs[1..]);
      if t.connected && input.Data? {
        var pending := t.pending + input.bytes;
        assert t.pending + Received(t, inputs) == pending + rest;
        FrontIsNext(pending, sent);
        if result.Packet? {
          CutStream(pending, rest, sent);
          PrefixDelivered(t', inputs[1..], sent[1..]);
          var (packets, end) := Run(t', inputs[1..]);
          assert sent[1..][|packets|..] == sent[|packets| + 1..];
        } else {
          PrefixDelivered(t', inputs[1..], sent);
        }
      } else {
        assert Received(t, inputs) == rest;
        PrefixDelivered(t', inputs[1..], sent);
      }
    }
  }

  /** The buffer can only fill up behind a header that claims more than fits, and then it stays full. */
  lemma FullIff(t: Tcp, bytes: seq<byte>)
    requires t.connected && |t.pending| <= CAPACITY && Allowed(Data(bytes), CAPACITY - |t.pending|)
    ensures var (t', _) := Receive(t, Data(bytes));
            |t'.pending| == CAPACITY <==>
            |t.pending + bytes| == CAPACITY && PayloadSize(t.pending + bytes) > CAPACITY - HEADER
  {
  }

  /**
   * A full buffer never delivers and never reads again: the connection lives on exactly as long as
   * there is nothing to read, and the next byte that arrives, read with no room, closes it.
   */
  lemma {:induction false} FullNeverDelivers(t: Tcp, inputs: seq<Input>)
    requires |t.pending| == CAPACITY && Legal(t, inputs)
    ensures Run(t, inputs).0 == [] && Run(t, inputs).1.pending == t.pending
    ensures Run(t, inputs).1.connected <==> t.connected && forall i :: 0 <= i < |inputs| ==> inputs[i].WouldBlock?
    decreases |inputs|
  {
    if inputs != [] {
      var rest := inputs[1..];
      FullNeverDelivers(Receive(t, inputs[0]).0, rest);
      assert forall i :: 0 <= i < |rest| ==> rest[i] == inputs[i + 1];
      assert forall i :: 0 < i < |inputs| ==> inputs[i] == rest[i - 1];
    }
  }

  /** A packet complete in the buffer is handed out by a call if and only if that call also reads bytes. */
  lemma {:induction false} FrontDeliveredIff(t: Tcp, input: Input)
    requires t.connected && FrontSize(t.pending) > 0
    ensures var result := Receive(t, input).1;
            && (result.Packet? <==> input.Data?)
            && (result.Packet? ==> result.bytes == t.pending[..FrontSize(t.pending)])
  {
    if input.Data? {
      var pending := t.pending + input.bytes;
      assert pending[16..18] == t.pending[16..18];
    }
  }

  /** So idle calls never hand it out. */
  lemma {:induction false} IdleNeverDelivers(t: Tcp, inputs: seq<Input>)
    requires forall i :: 0 <= i < |inputs| ==> !inputs[i].Data?
    ensures Run(t, inputs).0 == [] && Run(t, inputs).1.pending == t.pending
    decreases |inputs|
  {
    if inputs != [] { IdleNeverDelivers(Receive(t, inputs[0]).0, inputs[1..]); }
  }

  /** So two packets read in one call yield only the first, however often the code polls again. */
  lemma SecondPacketWaits(first: seq<byte>, second: seq<byte>, polls: nat)
    requires WellFormed(first) && WellFormed(second) && |first| + |second| <= CAPACITY
    ensures var idle := seq(polls, _ => WouldBlock);
            var (packets, end) := Run(Tcp(true, []), [Data(first + second)] + idle);
            packets == [first] && FrontSize(end.pending) == |second|
  {
    var idle := seq(polls, _ => WouldBlock);
    var inputs := [Data(first + second)] + idle;
    assert inputs[1..] == idle;
    assert Flat([first, second]) == first + second by {
      assert [first, second][1..] == [second] && Flat([second]) == second + Flat([]);
    }
    assert [] + (first + second) == first + second;
    FrontIsNext(first + second, [first, second]);
    assert (first + second)[|first|..] == second;
    IdleNeverDelivers(Tcp(true, second), idle);
    assert Flat([second]) == second;
    FrontIsNext(second, [second]);
  }

  /** The sizes of the reads that put bytes into the buffer. */
  function Reads(t: Tcp, inputs: seq<Input>): seq<nat>
    decreases |inputs|
  {
    if inputs == [] then [] else
    (if t.connected && inputs[0].Data? then [|inputs[0].bytes|] else []) + Reads(Receive(t, inputs[0]).0, inputs[1..])
  }

  function Sum(sizes: seq<nat>): nat { if sizes == [] then 0 else Sum(sizes[..|sizes| - 1]) + sizes[|sizes| - 1] }

  /** How many packets the first n bytes of a stream complete. */
  function CompletedBy(sent: seq<seq<byte>>, n: nat): (k: nat)
    ensures k <= |sent|
  {
    if sent == [] || |sent[0]| > n then 0 else 1 + CompletedBy(sent[1..], n - |sent[0]|)
  }

  /** What each read allows: one packet more, but none that is not complete. */
  function Served(sent: seq<seq<byte>>, sizes: seq<nat>): nat {
    if sizes == [] then 0 else
    var before, complete := Served(sent, sizes[..|sizes| - 1]), CompletedBy(sent, Sum(sizes));
    if before + 1 <= complete then before + 1 else complete
  }

  /** Every packet complete after the first j reads, and one more for each read since. */
  function Allowance(sent: seq<seq<byte>>, sizes: seq<nat>, j: nat): nat
    requires j <= |sizes|
  {
    CompletedBy(sent, Sum(sizes[..j])) + |sizes| - j
  }

  /** The count is the least allowance over all places j in the list of reads. */
  ghost predicate IsLeast(sent: seq<seq<byte>>, sizes: seq<nat>, count: nat) {
    && (forall j :: 0 <= j <= |sizes| ==> count <= Allowance(sent, sizes, j))
    && exists j :: 0 <= j <= |sizes| && count == Allowance(sent, sizes, j)
  }

  lemma {:induction false} CompletedGrows(sent: seq<seq<byte>>, m: nat, n: nat)
    requires m <= n
    ensures CompletedBy(sent, m) <= CompletedBy(sent, n)
    decreases |sent|
  {
    if sent != [] && |sent[0]| <= m { CompletedGrows(sent[1..], m - |sent[0]|, n - |sent[0]|); }
  }

  lemma AllowanceStep(sent: seq<seq<byte>>, sizes: seq<nat>, j: nat)
    requires j < |sizes|
    ensures Allowance(sent, sizes, j) == Allowance(sent, sizes[..|sizes| - 1], j) + 1
  {
    assert sizes[..|sizes| - 1][..j] == sizes[..j];
  }

  lemma {:induction false} ServedIsLeast(sent: seq<seq<byte>>, sizes: seq<nat>)
    requires forall p :: p in sent ==> p != []
    ensures IsLeast(sent, sizes, Served(sent, sizes))
    decreases |sizes|
  {
    hide Allowance, CompletedBy;
    var n := |sizes|;
    assert sizes[..n] == sizes;
    WholeAllowance(sent, sizes);
    if n > 0 {
      var shorter := sizes[..n - 1];
      ServedIsLeast(sent, shorter);
      forall j | 0 <= j < n ensures Allowance(sent, sizes, j) == Allowance(sent, shorter, j) + 1 {
        AllowanceStep(sent, sizes, j);
      }
      var before := Served(sent, shorter);
      var j :| 0 <= j <= n - 1 && before == Allowance(sent, shorter, j);
      var least := if before + 1 <= CompletedBy(sent, Sum(sizes)) then j else n;
      assert Served(sent, sizes) == Allowance(sent, sizes, least);
    }
  }

  lemma WholeAllowance(sent: seq<seq<byte>>, sizes: seq<nat>)
    requires forall p :: p in sent ==> p != []
    ensures Allowance(sent, sizes, |sizes|) == CompletedBy(sent, Sum(sizes))
    ensures sizes == [] ==> CompletedBy(sent, Sum(sizes)) == 0
  {
    assert sizes[..|sizes|] == sizes;
    if sent != [] { assert sent[0] in sent; }
  }

  function Given(result: Result): seq<seq<byte>> { if result.Packet? then [result.bytes] else [] }

  lemma RunFirst(t: Tcp, inputs: seq<Input>)
    ensures inputs == [] ==> Run(t, inputs) == ([], t)
    ensures inputs != [] ==>
              var (t', result) := Receive(t, inputs[0]);
              Run(t, inputs) == (Given(result) + Run(t', inputs[1..]).0, Run(t', inputs[1..]).1)
  {
    hide Receive;
    if inputs != [] {
      var packets := Run(Receive(t, inputs[0]).0, inputs[1..]).0;
      assert [] + packets == packets;
    }
  }

  /** One more input at the end of a run. */
  lemma {:induction false} RunOneMore(t: Tcp, inputs: seq<Input>, input: Input)
    ensures var (packets, end) := Run(t, inputs);
            var (end', result) := Receive(end, input);
            Run(t, inputs + [input]) == (packets + Given(result), end')
    decreases |inputs|
  {
    hide Receive, Run, Given;
    var all := inputs + [input];
    RunFirst(t, all);
    RunFirst(t, inputs);
    if inputs == [] {
      assert all == [input] && all[1..] == [];
      RunFirst(Receive(t, input).0, []);
      assert Given(Receive(t, input).1) + [] == [] + Given(Receive(t, input).1);
    } else {
      assert all[0] == inputs[0] && all[1..] == inputs[1..] + [input];
      var (t', result) := Receive(t, inputs[0]);
      RunOneMore(t', inputs[1..], input);
      var (packets, end) := Run(t', inputs[1..]);
      var last := Receive(end, input).1;
      assert (Given(result) + packets) + Given(last) == Given(result) + (packets + Given(last));
    }
  }

  /** What one more input adds to the bytes received. */
  lemma {:induction false} ReadOneMore(t: Tcp, inputs: seq<Input>, input: Input)
    ensures var end := Run(t, inputs).1;
            var size := if end.connected && input.Data? then [|input.bytes|] else [];
            && Reads(t, inputs + [input]) == Reads(t, inputs) + size
            && Received(t, inputs + [input]) == Received(t, inputs) + Read(end, input)
            && (Legal(t, inputs + [input]) ==> Legal(t, inputs))
    decreases |inputs|
  {
    hide Receive, Allowed, Run;
    var all := inputs + [input];
    RunFirst(t, inputs);
    if inputs == [] {
      assert all == [input] && all[1..] == [];
    } else {
      assert all[0] == inputs[0] && all[1..] == inputs[1..] + [input];
      ReadOneMore(Receive(t, inputs[0]).0, inputs[1..], input);
    }
  }

  lemma {:induction false} SumConcat(a: seq<nat>, b: seq<nat>)
    ensures Sum(a + b) == Sum(a) + Sum(b)
  {
    if b == [] {
      assert a + b == a;
    } else {
      assert (a + b)[..|a + b| - 1] == a + b[..|b| - 1];
      SumConcat(a, b[..|b| - 1]);
    }
  }

  lemma {:induction false} ReadsSum(t: Tcp, inputs: seq<Input>)
    ensures Sum(Reads(t, inputs)) == |Received(t, inputs)|
    decreases |inputs|
  {
    hide Receive;
    if inputs != [] {
      var first := if t.connected && inputs[0].Data? then [|inputs[0].bytes|] else [];
      ReadsSum(Receive(t, inputs[0]).0, inputs[1..]);
      SumConcat(first, Reads(Receive(t, inputs[0]).0, inputs[1..]));
      assert first != [] ==> first[..0] == [];
    }
  }

  lemma {:induction false} CompletedSkips(sent: seq<seq<byte>>, d: nat, n: nat)
    requires d <= |sent|
    ensures CompletedBy(sent, |Flat(sent[..d])| + n) == d + CompletedBy(sent[d..], n)
    ensures Flat(sent) == Flat(sent[..d]) + Flat(sent[d..])
    decreases d
  {
    if d == 0 {
      assert sent[..0] == [] && sent[0..] == sent;
    } else {
      assert sent[..d][0] == sent[0] && sent[..d][1..] == sent[1..][..d - 1] && sent[1..][d - 1..] == sent[d..];
      CompletedSkips(sent[1..], d - 1, n);
    }
  }

  /** The bytes received so far, told from the packets handed out and the buffer. */
  lemma {:induction false} SoFar(inputs: seq<Input>, sent: seq<seq<byte>>)
    requires forall p :: p in sent ==> WellFormed(p)
    requires Legal(Tcp(true, []), inputs) && Received(Tcp(true, []), inputs) <= Flat(sent)
    ensures var (packets, end) := Run(Tcp(true, []), inputs);
            && packets <= sent && end.pending <= Flat(sent[|packets|..])
            && Sum(Reads(Tcp(true, []), inputs)) == |Flat(sent[..|packets|])| + |end.pending|
            && Received(Tcp(true, []), inputs) == Flat(sent[..|packets|]) + end.pending
            && CompletedBy(sent, Sum(Reads(Tcp(true, []), inputs)))
               == |packets| + CompletedBy(sent[|packets|..], |end.pending|)
  {
    hide *;
    var t := Tcp(true, []);
    assert t.pending + Received(t, inputs) == Received(t, inputs);
    Capacity();
    PrefixDelivered(t, inputs, sent);
    BytesConserved(t, inputs);
    ReadsSum(t, inputs);
    var (packets, end) := Run(t, inputs);
    assert packets == sent[..|packets|];
    CompletedSkips(sent, |packets|, |end.pending|);
  }

  lemma Capacity()
    ensures CAPACITY == 1400
  {
  }

  /**
   * How many packets have been handed out after any legal inputs on a stream of well-formed packets:
   * at each read one more, as far as they are complete.
   */
  lemma {:induction false} HandedOutCount(inputs: seq<Input>, sent: seq<seq<byte>>)
    requires forall p :: p in sent ==> WellFormed(p)
    requires Legal(Tcp(true, []), inputs) && Received(Tcp(true, []), inputs) <= Flat(sent)
    ensures |Run(Tcp(true, []), inputs).0| == Served(sent, Reads(Tcp(true, []), inputs))
    decreases |inputs|
  {
    hide Legal, Received, CompletedBy, FrontSize, Flat;
    var t := Tcp(true, []);
    if inputs != [] {
      var before, input := inputs[..|inputs| - 1], inputs[|inputs| - 1];
      assert inputs == before + [input];
      RunOneMore(t, before, input);
      ReadOneMore(t, before, input);
      HandedOutCount(before, sent);
      SoFar(before, sent);
      SoFar(inputs, sent);
      var (packets, end) := Run(t, before);
      var reads' := Reads(t, before);
      if end.connected && input.Data? {
        var d := |packets|;
        CompletedSkips(sent, d, 0);
        assert end.pending + input.bytes <= Flat(sent[d..]) by {
          Remainder(Flat(sent[..d]), end.pending, input.bytes, Flat(sent[d..]));
        }
        FrontIsNext(end.pending + input.bytes, sent[d..]);
        CompletedSkips(sent, d, |end.pending + input.bytes|);
        CompletedFirst(sent[d..], |end.pending + input.bytes|);
        assert d < |sent| ==> sent[d..][0] in sent && |sent[d..][0]| > 0;
        assert Reads(t, inputs)[..|reads'|] == reads';
        assert Sum(Reads(t, inputs)) == |Flat(sent[..d])| + |end.pending + input.bytes|;
      } else {
        assert Reads(t, inputs) == reads';
      }
    }
  }

  lemma Remainder(before: seq<byte>, a: seq<byte>, b: seq<byte>, rest: seq<byte>)
    requires (before + a) + b <= before + rest
    ensures a + b <= rest
  {
    assert (before + a) + b == before + (a + b);
    assert (before + rest)[|before|..] == rest;
  }

  lemma CompletedFirst(sent: seq<seq<byte>>, n: nat)
    ensures CompletedBy(sent, n) > 0 <==> sent != [] && |sent[0]| <= n
  {
  }

  /** The packets handed out number the least allowance: this is the closed form of the count. */
  lemma {:induction false} HandedOutIsLeast(inputs: seq<Input>, sent: seq<seq<byte>>)
    requires forall p :: p in sent ==> WellFormed(p)
    requires Legal(Tcp(true, []), inputs) && Received(Tcp(true, []), inputs) <= Flat(sent)
    ensures IsLeast(sent, Reads(Tcp(true, []), inputs), |Run(Tcp(true, []), inputs).0|)
  {
    hide Legal, Received, Flat, IsLeast, Reads, Run, Served;
    HandedOutCount(inputs, sent);
    ServedIsLeast(sent, Reads(Tcp(true, []), inputs));
  }

  /**
   * Nothing complete is left waiting in the buffer exactly when, from every place in the list of
   * reads on, the later reads complete no more packets than there are reads.
   */
  lemma {:induction false} NothingWaitsIff(inputs: seq<Input>, sent: seq<seq<byte>>)
    requires forall p :: p in sent ==> WellFormed(p)
    requires Legal(Tcp(true, []), inputs) && Received(Tcp(true, []), inputs) <= Flat(sent)
    ensures var (packets, end) := Run(Tcp(true, []), inputs);
            var sizes := Reads(Tcp(true, []), inputs);
            && (FrontSize(end.pending) == 0 <==> |packets| == CompletedBy(sent, Sum(sizes)))
            && (FrontSize(end.pending) == 0 <==> forall j :: 0 <= j <= |sizes| ==>
                CompletedBy(sent, Sum(sizes)) <= Allowance(sent, sizes, j))
  {
    hide Legal, Received, Flat, Reads, Run, CompletedBy, FrontSize, Allowance;
    HandedOutIsLeast(inputs, sent);
    SoFar(inputs, sent);
    var (packets, end) := Run(Tcp(true, []), inputs);
    var rest := sent[|packets|..];
    FrontIsNext(end.pending, rest);
    CompletedFirst(rest, |end.pending|);
    assert rest != [] ==> rest[0] in sent && |rest[0]| > 0;
    WholeAllowance(sent, Reads(Tcp(true, []), inputs));
  }

  /** send() accepts some bytes (at least one), is out of room, or fails. */
  datatype Output = Accepts(count: nat) | Again | Fails

  /** How much of `size` bytes the socket takes before it first refuses, from call `k` on. */
  function Taken(socket: nat -> Output, size: nat, sent: nat, k: nat): (total: nat)
    requires sent <= size
    requires forall i :: socket(i).Accepts? ==> socket(i).count > 0
    ensures sent <= total <= size
    decreases size - sent
  {
    if sent == size || !socket(k).Accepts? then sent
    else Taken(socket, size, if socket(k).count < size - sent then sent + socket(k).count else size, k + 1)
  }

  /** Whether that refusal is a failure, rather than a full socket. */
  predicate Breaks(socket: nat -> Output, size: nat, sent: nat, k: nat)
    requires sent <= size
    requires forall i :: socket(i).Accepts? ==> socket(i).count > 0
    decreases size - sent
  {
    if sent == size || !socket(k).Accepts? then sent < size && socket(k).Fails?
    else Breaks(socket, size, if socket(k).count < size - sent then sent + socket(k).count else size, k + 1)
  }

  /** The sending side of a connection, and a packet to be sent with the answers of the socket. */
  datatype Line = Line(connected: bool, wire: seq<byte>)
  datatype Sending = Sending(data: seq<byte>, socket: nat -> Output)

  ghost predicate Honest(s: Sending) { forall i :: s.socket(i).Accepts? ==> s.socket(i).count > 0 }

  /** One rootstream_net_tcp_send: what the socket took stays on the stream, all or not. */
  ghost function SendOn(line: Line, s: Sending): Line
    requires Honest(s)
  {
    if s.data == [] || !line.connected then line
    else Line(!Breaks(s.socket, |s.data|, 0, 0), line.wire + s.data[..Taken(s.socket, |s.data|, 0, 0)])
  }

  /** The sending side: bytes leave in order, and 0 is returned exactly when all of them left. */
  class TcpSender {
    var connected: bool
    var wire: seq<byte>

    constructor ()
      ensures Value() == Line(true, [])
    {
      connected, wire := true, [];
    }

    function Value(): Line reads this { Line(connected, wire) }

    method Send(data: seq<byte>, socket: nat -> Output) returns (result: int)
      requires forall i :: socket(i).Accepts? ==> socket(i).count > 0
      modifies this
      ensures Value() == SendOn(old(Value()), Sending(data, socket))
      ensures result == SendAnswer(old(Value()), Sending(data, socket))
    {
      if data == [] || !connected { return -1; }
      var sent, k := 0, 0;
      while sent < |data|
        invariant sent <= |data| && connected && wire == old(wire) + data[..sent]
        invariant Taken(socket, |data|, 0, 0) == Taken(socket, |data|, sent, k)
        invariant Breaks(socket, |data|, 0, 0) == Breaks(socket, |data|, sent, k)
        decreases |data| - sent
      {
        var answer := socket(k);
        match answer {
          case Again => break;
          case Fails =>
            connected := false;
            return -1;
          case Accepts(count) =>
            var n := if count < |data| - sent then count else |data| - sent;
            wire := wire + data[sent..sent + n];
            assert data[..sent] + data[sent..sent + n] == data[..sent + n];
            sent := sent + n;
        }
        k := k + 1;
      }
      return if sent == |data| then 0 else -1;
    }
  }

  /** 0 when everything left, -1 otherwise. */
  ghost function SendAnswer(line: Line, s: Sending): int
    requires Honest(s)
  {
    if line.connected && s.data != [] && Taken(s.socket, |s.data|, 0, 0) == |s.data| then 0 else -1
  }

  /** The bytes accepted by the calls from k up to j, as far as these accept at all. */
  function Amount(socket: nat -> Output, k: nat, j: nat): nat
    requires k <= j
    decreases j - k
  {
    if k == j || !socket(k).Accepts? then 0 else socket(k).count + Amount(socket, k + 1, j)
  }

  lemma {:induction false} RefusedFrom(socket: nat -> Output, size: nat, sent: nat, k: nat, j: nat)
    requires forall i :: socket(i).Accepts? ==> socket(i).count > 0
    requires k <= j && sent + Amount(socket, k, j) < size
    requires !socket(j).Accepts? && forall i :: k <= i < j ==> socket(i).Accepts?
    ensures Taken(socket, size, sent, k) == sent + Amount(socket, k, j)
    ensures Breaks(socket, size, sent, k) <==> socket(j).Fails?
    decreases j - k
  {
    if k < j { RefusedFrom(socket, size, sent + socket(k).count, k + 1, j); }
  }

  lemma {:induction false} AcceptedFrom(socket: nat -> Output, size: nat, sent: nat, k: nat, j: nat)
    requires forall i :: socket(i).Accepts? ==> socket(i).count > 0
    requires k <= j && sent <= size <= sent + Amount(socket, k, j)
    requires forall i :: k <= i < j ==> socket(i).Accepts?
    ensures Taken(socket, size, sent, k) == size && !Breaks(socket, size, sent, k)
    decreases j - k
  {
    if sent < size {
      AcceptedFrom(socket, size, if socket(k).count < size - sent then sent + socket(k).count else size, k + 1, j);
    }
  }

  /**
   * A send whose socket takes less than the packet before it first refuses, at call j: exactly what
   * was taken is on the wire, -1 is returned, and the connection lives exactly if the socket was full.
   */
  lemma RefusedSend(line: Line, s: Sending, j: nat)
    requires Honest(s) && line.connected
    requires !s.socket(j).Accepts? && forall i :: 0 <= i < j ==> s.socket(i).Accepts?
    requires Amount(s.socket, 0, j) < |s.data|
    ensures SendOn(line, s) == Line(s.socket(j).Again?, line.wire + s.data[..Amount(s.socket, 0, j)])
    ensures SendAnswer(line, s) == -1
  {
    RefusedFrom(s.socket, |s.data|, 0, 0, j);
  }

  /** A send whose socket takes the whole packet within j calls: all of it is on the wire, and 0 is returned. */
  lemma AcceptedSend(line: Line, s: Sending, j: nat)
    requires Honest(s) && line.connected && s.data != []
    requires Amount(s.socket, 0, j) >= |s.data| && forall i :: 0 <= i < j ==> s.socket(i).Accepts?
    ensures SendOn(line, s) == Line(true, line.wire + s.data) && SendAnswer(line, s) == 0
  {
    AcceptedFrom(s.socket, |s.data|, 0, 0, j);
    assert s.data[..|s.data|] == s.data;
  }

  /** Nothing is sent without data or on a connection that is gone. */
  lemma RejectedSend(line: Line, s: Sending)
    requires Honest(s) && (!line.connected || s.data == [])
    ensures SendOn(line, s) == line && SendAnswer(line, s) == -1
  {
  }

  ghost function SendAll(line: Line, sends: seq<Sending>): Line
    requires forall s :: s in sends ==> Honest(s)
  {
    if sends == [] then line else SendOn(SendAll(line, sends[..|sends| - 1]), sends[|sends| - 1])
  }

  /** The packets of which at least one byte was taken, in order. */
  ghost function Started(line: Line, sends: seq<Sending>): seq<seq<byte>>
    requires forall s :: s in sends ==> Honest(s)
  {
    if sends == [] then [] else
    var before, last := sends[..|sends| - 1], sends[|sends| - 1];
    assert Honest(last);
    var starts := SendAll(line, before).connected && Taken(last.socket, |last.data|, 0, 0) > 0;
    Started(line, before) + if starts then [last.data] else []
  }

  /** No packet is started behind one that was left half sent. */
  ghost predicate NeverResumes(line: Line, sends: seq<Sending>)
    requires forall s :: s in sends ==> Honest(s)
  {
    if sends == [] then true else
    var before, last := sends[..|sends| - 1], sends[|sends| - 1];
    && NeverResumes(line, before)
    && (|Started(line, sends)| > |Started(line, before)| ==>
        SendAll(line, before).wire == line.wire + Flat(Started(line, before)))
  }

  lemma FlatFirst(packets: seq<seq<byte>>)
    ensures Flat(packets) == if packets == [] then [] else packets[0] + Flat(packets[1..])
  {
  }

  lemma {:induction false} FlatConcat(a: seq<seq<byte>>, b: seq<seq<byte>>)
    ensures Flat(a + b) == Flat(a) + Flat(b)
  {
    hide Flat;
    FlatFirst(a);
    FlatFirst(a + b);
    if a == [] {
      assert a + b == b;
    } else {
      assert (a + b)[0] == a[0] && (a + b)[1..] == a[1..] + b;
      FlatConcat(a[1..], b);
      assert a[0] + (Flat(a[1..]) + Flat(b)) == (a[0] + Flat(a[1..])) + Flat(b);
    }
  }

  /** Then the stream is the packets started, one after another, with only the last one cut short. */
  lemma {:induction false} StreamStaysFramed(line: Line, sends: seq<Sending>)
    requires forall s :: s in sends ==> Honest(s)
    requires NeverResumes(line, sends)
    ensures SendAll(line, sends).wire <= line.wire + Flat(Started(line, sends))
  {
    hide Flat, Taken, Breaks;
    FlatOne([]);
    if sends == [] {
      assert line.wire + [] == line.wire;
    } else {
      var before, last := sends[..|sends| - 1], sends[|sends| - 1];
      assert Honest(last);
      StreamStaysFramed(line, before);
      var line', done := SendAll(line, before), Started(line, before);
      var taken := Taken(last.socket, |last.data|, 0, 0);
      if line'.connected && taken > 0 {
        assert Started(line, sends) == done + [last.data];
        FlatConcat(done, [last.data]);
        FlatOne(last.data);
        var sent := line.wire + Flat(done);
        assert sent + last.data == line.wire + (Flat(done) + last.data);
        assert sent + last.data[..taken] <= sent + last.data;
      } else {
        assert Started(line, sends) == done;
        assert line'.wire + last.data[..0] == line'.wire;
      }
    }
  }

  lemma FlatOne(packet: seq<byte>)
    ensures Flat([packet]) == packet && Flat([]) == []
  {
  }

  /**
   * Behind a packet of which only t bytes were taken, the receiver still cuts off that packet exactly
   * when the bytes that follow on the stream begin with the rest of it.
   */
  lemma PartialIsWholeIff(packet: seq<byte>, t: nat, next: seq<byte>)
    requires WellFormed(packet) && t < |packet|
    ensures var stream := packet[..t] + next;
            (FrontSize(stream) > 0 && stream[..FrontSize(stream)] == packet) <==> packet[t..] <= next
  {
    var stream := packet[..t] + next;
    if packet[t..] <= next {
      assert packet <= stream by { assert packet == packet[..t] + packet[t..]; }
      assert stream[16..18] == packet[16..18];
    }
    if FrontSize(stream) > 0 && stream[..FrontSize(stream)] == packet {
      assert next == stream[t..];
      assert next[..|packet| - t] == stream[..|packet|][t..] == packet[t..];
    }
  }
}
