/** ctx->peers in place: a fixed array of slots, of which the first numPeers are live. */
module PeerTable {
  import B = Bytes
  import opened Wrappers
  import opened Peers
  import opened PeerRuns
  import Reconnect

  class Table {
    const peers: array<Peer>
    var numPeers: nat
    /** History variables: the sessions created and the packets sent under them. */
    var sessions: nat
    var wire: seq<Emission>

    ghost predicate Valid() reads this { peers.Length == MAX_PEERS && numPeers <= MAX_PEERS }

    ghost function Value(): Net
      requires Valid()
      reads this, peers
    {
      Net(peers[..numPeers], sessions, wire)
    }

    constructor ()
      ensures Valid() && Value() == EMPTY && fresh(peers)
    {
      peers := new Peer[MAX_PEERS](_ => BLANK);
      numPeers, sessions, wire := 0, 0, [];
    }

    method FindPeerByAddr(addr: int) returns (i: nat)
      requires Valid()
      ensures i == FindByAddr(peers[..numPeers], addr, 0)
    {
      i := 0;
      while i < numPeers
        invariant i <= numPeers && FindByAddr(peers[..numPeers], addr, 0) == FindByAddr(peers[..numPeers], addr, i)
      {
        if peers[i].addr == Some(addr) { return; }
        i := i + 1;
      }
    }

    method FindPeer(key: seq<B.byte>) returns (i: nat)
      requires Valid()
      ensures i == FindByKey(peers[..numPeers], key, 0)
    {
      i := 0;
      while i < numPeers
        invariant i <= numPeers && FindByKey(peers[..numPeers], key, 0) == FindByKey(peers[..numPeers], key, i)
      {
        if peers[i].key == key { return; }
        i := i + 1;
      }
    }

    /** Storing the outcome of an operation on one live peer. */
    method Store(i: nat, e: Effect)
      requires Valid() && i < numPeers
      modifies peers, this`wire
      ensures Valid() && Value() == Update(old(Value()), i, e)
    {
      peers[i] := e.peer;
      wire := wire + e.emitted;
      assert peers[..numPeers] == old(peers[..numPeers])[i := e.peer];
    }

    /** process_received_packet: find or claim a slot, then act on it. */
    method ProcessReceivedPacket(from: int, transport: Transport, packet: Packet, isHost: bool, io: Io)
      requires Valid()
      modifies this, peers
      ensures Valid() && Value() == Receive(old(Value()), from, transport, packet, isHost, io)
    {
      var i := FindPeerByAddr(from);
      if i == numPeers {
        if !packet.HandshakePacket? { return; }
        if numPeers >= MAX_PEERS { return; }
        var blank := BLANK.(addr := Some(from), state := Connecting, transport := transport);
        peers[numPeers] := blank;
        numPeers := numPeers + 1;
        assert peers[..numPeers] == old(peers[..numPeers]) + [blank];
      }
      Store(i, OnPacket(peers[i], packet, sessions, isHost, io));
      if Opens(packet, io) { sessions := sessions + 1; }
    }

    /** rootstream_add_peer; the new slot is cleared before anything can fail, and counted at the end. */
    method AddByCode(code: string, key: Option<seq<B.byte>>, io: Io) returns (index: Option<nat>)
      requires Valid()
      modifies this, peers
      ensures Valid() && (Value(), index) == AddPeer(old(Value()), code, key, io)
    {
      if key.None? { return None; }
      ghost var was := peers[..numPeers];
      var i := FindPeer(key.value);
      if i < numPeers {
        peers[i] := peers[i].(code := code);
        assert peers[..numPeers] == was[i := was[i].(code := code)];
        if !peers[i].session.authenticated {
          var (keyed, ok) := CreateSession(peers[i], sessions, io);
          if !ok { return None; }
          peers[i] := keyed;
          sessions := sessions + 1;
          assert peers[..numPeers] == was[i := was[i].(code := code)][i := keyed];
        }
        return Some(i);
      }
      if numPeers >= MAX_PEERS { return None; }
      peers[numPeers] := BLANK.(key := key.value, code := code);
      assert peers[..numPeers] == was;
      if key.value == NO_KEY { return None; }
      var (keyed, ok) := CreateSession(peers[numPeers], sessions, io);
      if !ok { return None; }
      sessions := sessions + 1;
      peers[numPeers] := keyed.(state := Discovered, transport := Udp,
                                reconnect := if io.allocate then Some(Reconnect.FRESH) else None);
      numPeers := numPeers + 1;
      assert peers[..numPeers] == was + [peers[numPeers - 1]];
      return Some(numPeers - 1);
    }

    /** rootstream_remove_peer: the slots above are copied down by one; other indices are refused. */
    method RemovePeer(index: int)
      requires Valid()
      modifies peers, this`numPeers
      ensures Valid()
      ensures Value() == if 0 <= index < old(numPeers)
                         then old(Value()).(peers := Without(old(peers[..numPeers]), index))
                         else old(Value())
    {
      if index < 0 || index >= numPeers { return; }
      ghost var was := peers[..numPeers];
      var i := index;
      while i < numPeers - 1
        invariant numPeers == old(numPeers) && index <= i <= numPeers - 1
        invariant forall j :: 0 <= j < index ==> peers[j] == was[j]
        invariant forall j :: index <= j < i ==> peers[j] == was[j + 1]
        invariant forall j :: i < j < numPeers ==> peers[j] == was[j]
      {
        peers[i] := peers[i + 1];
        i := i + 1;
      }
      numPeers := numPeers - 1;
      assert peers[..numPeers] == Without(was, index);
    }

    /** One turn of the sweep: try a disconnected peer, and remove it if that gave up. */
    method SweepOne(i: nat, io: Io)
      requires Valid() && i < numPeers
      modifies peers, this`numPeers
      ensures Valid() && old(numPeers) - 1 <= numPeers && i <= numPeers
      ensures var was := old(peers[..numPeers]);
              peers[..numPeers] == match Examined(was[i], io)
                                   case None => Without(was, i)
                                   case Some(p) => was[i := p]
    {
      hide TryReconnect;
      ghost var was := peers[..numPeers];
      if peers[i].state == Disconnected && peers[i].reconnect.Some? {
        var (tried, verdict) := TryReconnect(peers[i], io);
        peers[i] := tried;
        assert peers[..numPeers] == was[i := tried];
        if verdict.GaveUp? {
          RemovePeer(i);
          assert Without(was[i := tried], i) == Without(was, i);
        }
      } else {
        assert was[i := was[i]] == was;
      }
    }

    /** The reconnect sweep of rootstream_net_recv, backwards and removing as it goes. */
    method ReconnectSweep(io: nat -> Io)
      requires Valid()
      modifies this`numPeers, peers
      ensures Valid() && Value() == old(Value()).(peers := Survivors(old(peers[..numPeers]), io))
    {
      hide Examined, Survivors, Without;
      SweepIsSurvivors(peers[..numPeers], io);
      var i: int := numPeers - 1;
      while i >= 0
        invariant Valid() && -1 <= i < numPeers
        invariant Sweep(peers[..numPeers], i + 1, io) == Sweep(old(peers[..numPeers]), old(numPeers), io)
      {
        SweepOne(i, io(i));
        i := i - 1;
      }
    }

    /** rootstream_net_tick. */
    method NetTick(io: nat -> Io)
      requires Valid()
      modifies this`wire, peers
      ensures Valid() && Value() == TickFrom(old(Value()), 0, io)
    {
      hide Tick;
      var i := 0;
      while i < numPeers
        invariant i <= numPeers && Valid()
        invariant TickFrom(Value(), i, io) == TickFrom(old(Value()), 0, io)
      {
        Store(i, Tick(peers[i], io(i)));
        i := i + 1;
      }
    }
  }
}
