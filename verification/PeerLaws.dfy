/**
 * What each operation on peers does, case by case and with its limits written out: packets, sends,
 * ticks, health checks, reconnection and the table (src/network.c, src/network_reconnect.c).
 */
module PeerLaws {
  import B = Bytes
  import opened Wrappers
  import opened Peers
  import opened PeerRuns
  import Handshake
  import Reconnect

  /** A handshake leaves over UDP, or over a TCP connection made for it. */
  predicate Shakes(io: Io) { io.udpHandshake || (io.tcpConnect && io.tcpHandshake) }

  /** Sending a handshake: success, state, and everything it may not touch. */
  lemma ShakeMeans(p: Peer, io: Io)
    ensures var (q, ok) := SendHandshake(p, io);
            && (ok <==> Shakes(io))
            && q.state == (if !Shakes(io) || (io.udpHandshake && p.state in {HandshakeReceived, Connected})
                           then p.state else HandshakeSent)
            && q.handshakeSent == (if !Shakes(io) || (io.udpHandshake && p.state in {HandshakeReceived, Connected})
                                   then p.handshakeSent else io.later)
            && q.transport == (if io.udpHandshake then Udp else if io.tcpConnect then Tcp else p.transport)
            && q.tcp == (if io.udpHandshake || !io.tcpConnect then p.tcp
                         else if io.tcpHandshake || io.clogged then Up else Down)
            && q.lastSent == (if Shakes(io) || (io.tcpConnect && io.clogged) then io.later else p.lastSent)
            && q == p.(state := q.state, handshakeSent := q.handshakeSent, transport := q.transport,
                       tcp := q.tcp, lastSent := q.lastSent)
  {
  }

  /** A refused TCP send or a failed TCP read, before any attempt to come back. */
  lemma TcpLossMeans(p: Peer, io: Io)
    requires p.transport == Tcp && p.tcp.Up?
    ensures AfterFailure(p, io) == if io.clogged then p.(lastSent := io.now) else p.(tcp := Down)
    ensures p.state == Connected && !MayTry(p, io) ==> LoseTcp(p, io) == p.(tcp := Down, state := Disconnected)
    ensures p.state != Connected ==> LoseTcp(p, io) == p
    ensures p.state == Connected && MayTry(p, io) ==> (LoseTcp(p, io).state == Connected <==> Reattaches(p, io))
  {
  }

  /** The transport of a peer comes back: TCP reconnects, anything else shakes hands or falls back to TCP. */
  predicate Reattaches(p: Peer, io: Io) { io.tcpRetry || (p.transport != Tcp && Shakes(io)) }

  /** The backoff of a peer with a context has run out. */
  predicate MayTry(p: Peer, io: Io) { p.reconnect.Some? && io.now >= p.reconnect.value.nextAttempt }

  /** What losing or regaining a transport may touch; key, address, session and the rest stay. */
  predicate Moved(p: Peer, q: Peer) {
    q == p.(state := q.state, transport := q.transport, tcp := q.tcp, reconnect := q.reconnect,
            lastSent := q.lastSent, handshakeSent := q.handshakeSent)
  }

  /** A reconnection attempt: when it is made, what decides it, and what it leaves behind. */
  lemma RetryMeans(p: Peer, io: Io)
    ensures var (q, verdict) := TryReconnect(p, io);
            && (verdict.TooEarly? <==> p.reconnect.Some? && io.now < p.reconnect.value.nextAttempt)
            && (verdict.Reconnected? <==> MayTry(p, io) && Reattaches(p, io))
            && (verdict.GaveUp? <==>
                p.reconnect.None? || (MayTry(p, io) && !Reattaches(p, io) && p.reconnect.value.attemptCount >= 9))
            && (!MayTry(p, io) ==> q == p)
            && q.reconnect.Some? == p.reconnect.Some? && Moved(p, q)
    ensures MayTry(p, io) ==>
              var (q, verdict) := TryReconnect(p, io);
              var was, rc := p.reconnect.value, q.reconnect.value;
              && rc.lastAttempt == io.now
              && (Reattaches(p, io) ==>
                  && q.state == Connected && rc.attemptCount == 0
                  && rc.backoff == 100 && rc.nextAttempt == was.nextAttempt)
              && (!Reattaches(p, io) ==> rc.attemptCount == was.attemptCount + 1)
              && (verdict.GaveUp? ==> q.state == Failed)
              && (verdict.WillRetry? ==>
                  && q.state == p.state
                  && rc.backoff == (if 2 * was.backoff <= 30000 then 2 * was.backoff else 30000)
                  && rc.nextAttempt == io.now + rc.backoff)
  {
    hide SendHandshake;
    ShakeMeans(p, io);
  }

  /** A lost transport: DISCONNECTED at once, and back at once only where an attempt succeeds. */
  lemma LossMeans(p: Peer, io: Io)
    ensures var q := LoseTransport(p, io);
            && (q.state == Connected <==> MayTry(p, io) && Reattaches(p, io))
            && (!MayTry(p, io) ==> q == p.(state := Disconnected))
            && Moved(p, q)
  {
    hide TryReconnect;
    RetryMeans(p.(state := Disconnected), io);
  }

  /** PAUSE, RESUME and DISCONNECT of an authenticated peer; nothing else changes but the time it was seen. */
  lemma ControlMeans(p: Peer, control: Control, id: nat, isHost: bool, io: Io)
    ensures var e := OnPacket(p, ControlPacket(control), id, isHost, io);
            var heard := p.session.authenticated && io.decrypt;
            && e.emitted == []
            && (heard && (control.Pause? || control.Disconnect?) ==> !e.peer.streaming)
            && (heard && control.Resume? ==> e.peer.streaming)
            && (!heard || control.Other? ==> e.peer.streaming == p.streaming)
            && e.peer.state == (if heard && control.Disconnect? then Disconnected else p.state)
            && e.peer == p.(streaming := e.peer.streaming, state := e.peer.state,
                            lastSeen := io.now, lastReceived := io.now)
  {
  }

  /** Media, PONG and unknown packets only say that the peer is there; a PING spends a nonce as well. */
  lemma HeardMeans(p: Peer, id: nat, isHost: bool, io: Io)
    ensures var seen := p.(lastSeen := io.now, lastReceived := io.now);
            && OnPacket(p, Media, id, isHost, io) == Effect(seen, [])
            && OnPacket(p, Pong, id, isHost, io) == Effect(seen, [])
            && OnPacket(p, Unknown, id, isHost, io) == Effect(seen, [])
            && var pinged := OnPacket(p, Ping, id, isHost, io);
               && pinged.emitted == []
               && pinged.peer == seen.(session := p.session.(nonce := pinged.peer.session.nonce))
               && pinged.peer.session.nonce == p.session.nonce + if MaySend(p, Null) then 1 else 0
  {
  }

  /** A handshake that is refused: too short, of another version, or without a session. */
  lemma RefusedHandshake(p: Peer, payload: Handshake.Outcome, id: nat, isHost: bool, io: Io)
    ensures var e := OnPacket(p, HandshakePacket(payload), id, isHost, io);
            var seen := p.(lastSeen := io.now, lastReceived := io.now);
            && (payload.TooSmall? ==> e == Effect(seen, []))
            && (payload.Unsupported? ==> e == Effect(seen.(state := Disconnected), []))
            && (payload.Accepted? && !io.createSession ==>
                e == Effect(seen.(key := payload.key, state := Disconnected), []))
  {
  }

  /** The fields an accepted handshake sets besides those of the transport. */
  function Greeted(p: Peer, q: Peer, io: Io): Peer {
    p.(key := q.key, session := q.session, streaming := q.streaming, lastSeen := io.now, lastReceived := io.now)
  }

  /** A handshake that is accepted: a new session under the sender's key, and CONNECTED if the answer leaves. */
  lemma AcceptedHandshake(p: Peer, payload: Handshake.Outcome, id: nat, io: Io)
    requires payload.Accepted? && io.createSession
    ensures var e := OnPacket(p, HandshakePacket(payload), id, true, io);
            && e.emitted == []
            && e.peer.key == payload.key && e.peer.session == Session(true, 0, id)
            && e.peer.state == (if Shakes(io) then Connected else HandshakeReceived)
            && e.peer.streaming == (Shakes(io) || p.streaming)
            && e.peer.reconnect == p.reconnect
            && Moved(Greeted(p, e.peer, io), e.peer)
    ensures var e := OnPacket(p, HandshakePacket(payload), id, false, io);
            var asked := Shakes(io) && io.encrypt;
            && e.peer.key == payload.key && e.peer.session == Session(true, if Shakes(io) then 1 else 0, id)
            && e.peer.streaming == p.streaming
            && e.emitted == (if asked then [Emission(id, 0)] else [])
            && (!Shakes(io) ==> e.peer.state == HandshakeReceived)
            && (asked && io.data ==> e.peer.state == Connected)
            && Moved(Greeted(p, e.peer, io), e.peer)
  {
    hide TryReconnect;
    var seen := p.(lastSeen := io.now, lastReceived := io.now);
    var ready := seen.(key := payload.key, session := Session(true, 0, id), state := HandshakeReceived);
    ShakeMeans(ready, io);
    var answered := SendHandshake(ready, io).0.(state := Connected);
    var spent := answered.(session := Session(true, 1, id));
    LossMeans(AfterFailure(spent, Later(io)), Later(Later(io)));
    LossMeans(spent, Later(Later(io)));
  }

  /** A send: when it is allowed, and that it is refused without a trace otherwise. */
  lemma SendMeans(p: Peer, data: Data, io: Io)
    ensures MaySend(p, data) <==>
              && p.state in {Connected, HandshakeReceived} && p.session.authenticated
              && (data.Null? || data.size <= 1350)
    ensures var (q, emission, ok) := SendEncrypted(p, data, io);
            && (!MaySend(p, data) ==> q == p && emission == None && !ok)
            && (MaySend(p, data) ==> q.session == p.session.(nonce := p.session.nonce + 1))
            && (ok <==> emission.Some? && io.data)
            && (ok ==> q == p.(session := q.session, lastSent := io.now))
            && (MaySend(p, data) && (data.Null? || !io.encrypt) ==> q == p.(session := q.session))
            && (MaySend(p, data) && data.Bytes? && io.encrypt && !ok ==>
                && Moved(p, q.(session := p.session))
                && (q.state == Connected <==> MayTry(p, Later(io)) && Reattaches(p, Later(io)))
                && (!MayTry(p, Later(io)) ==> q.state == Disconnected && q.reconnect == p.reconnect))
  {
    hide LoseTransport;
    LossMeans(AfterFailure(p.(session := p.session.(nonce := p.session.nonce + 1)), io), Later(io));
  }

  /** The clock has gone on by at least (more than) so many milliseconds since a time. */
  predicate Since(io: Io, time: nat, ms: nat) { io.now >= time + ms }

  lemma ElapsedMeans(io: Io, time: nat)
    requires time <= io.now < 0x1_0000_0000_0000_0000
    ensures Elapsed(io.now, time) == io.now - time
  {
  }

  /** One tick of a connected peer: dropped after 5 s of silence, else a keepalive is due every second. */
  lemma ConnectedTick(p: Peer, io: Io)
    requires p.state == Connected && p.lastSeen <= io.now < 0x1_0000_0000_0000_0000 && p.lastSent <= io.now
    ensures var e := Tick(p, io);
            var silent, due := p.lastSeen > 0 && Since(io, p.lastSeen, 5000), Since(io, p.lastSent, 1000);
            && e.emitted == []
            && (silent ==> e.peer == p.(state := Disconnected, streaming := false))
            && (!silent ==> e.peer == p.(session := e.peer.session) && e.peer.session.id == p.session.id)
            && (!silent ==> e.peer.session.nonce == p.session.nonce + if due && p.session.authenticated then 1 else 0)
            && e.peer.session.authenticated == p.session.authenticated
  {
    ElapsedMeans(io, p.lastSeen);
    ElapsedMeans(io, p.lastSent);
  }

  /** One tick of a peer waiting for a handshake: resent after a second, dropped after five if that fails. */
  lemma WaitingTick(p: Peer, io: Io)
    requires p.state == HandshakeSent && p.handshakeSent <= io.now < 0x1_0000_0000_0000_0000
    ensures !Since(io, p.handshakeSent, 1000) ==> Tick(p, io) == Effect(p, [])
    ensures Since(io, p.handshakeSent, 1000) && !Shakes(io) ==>
              var e := Tick(p, io);
              && e.emitted == []
              && e.peer.state == (if Since(io, p.handshakeSent, 5000) then Disconnected else HandshakeSent)
              && e.peer.handshakeSent == p.handshakeSent
    ensures Since(io, p.handshakeSent, 1000) && Shakes(io) ==>
              var e := Tick(p, io);
              e.emitted == [] && e.peer.handshakeSent == io.later && e.peer.lastSent == io.later
  {
    hide SendHandshake;
    ElapsedMeans(io, p.handshakeSent);
    ShakeMeans(p, io);
  }

  /** Every other peer is left alone. */
  lemma IdleTick(p: Peer, io: Io)
    requires p.state !in {Connected, HandshakeSent}
    ensures Tick(p, io) == Effect(p, [])
  {
  }

  /** The health check acts on a connected peer that has been heard, after more than 30 s without a packet. */
  lemma HealthMeans(p: Peer, io: Io)
    requires p.lastReceived <= io.now < 0x1_0000_0000_0000_0000
    ensures var silent := p.state == Connected && p.lastReceived > 0 && Since(io, p.lastReceived, 30001);
            && (!silent ==> HealthCheck(p, io) == p)
            && (silent && !MayTry(p, Later(io)) ==> HealthCheck(p, io) == p.(state := Disconnected))
            && (silent && MayTry(p, Later(io)) ==>
                var q := HealthCheck(p, io);
                && (q.state == Connected <==> Reattaches(p, Later(io)))
                && q.reconnect.Some? && q.reconnect.value.lastAttempt == io.later)
  {
    hide TryReconnect;
    ElapsedMeans(io, p.lastReceived);
    LossMeans(p, Later(io));
    RetryMeans(p.(state := Disconnected), Later(io));
  }

  /** The sweep tries exactly the DISCONNECTED peers whose backoff has run out, and removes after a tenth failure. */
  lemma SweepMeans(p: Peer, io: Io)
    ensures var tried := p.state == Disconnected && MayTry(p, io);
            && (!tried ==> Examined(p, io) == Some(p))
            && (Examined(p, io).None? <==> tried && !Reattaches(p, io) && p.reconnect.value.attemptCount >= 9)
            && (tried && Examined(p, io).Some? ==>
                var q := Examined(p, io).value;
                && q.reconnect.Some? && q.reconnect.value.lastAttempt == io.now
                && (q.state == Connected <==> Reattaches(p, io)) && Moved(p, q))
  {
    hide SendHandshake;
    RetryMeans(p, io);
    ShakeMeans(p, io);
  }

  /** A tick of the table is a tick of every peer, each with its own answers; the packets leave in that order. */
  lemma {:induction false} TickEach(n: Net, from: nat, io: nat -> Io)
    requires from <= |n.peers|
    ensures var after := TickFrom(n, from, io);
            && |after.peers| == |n.peers| && after.sessions == n.sessions
            && forall i :: 0 <= i < |n.peers| ==>
                 after.peers[i] == if i < from then n.peers[i] else Tick(n.peers[i], io(i)).peer
    decreases |n.peers| - from
  {
    hide Tick;
    if from < |n.peers| { TickEach(Update(n, from, Tick(n.peers[from], io(from))), from + 1, io); }
  }

  /** A packet from a live peer's address acts on the first peer with that address, and on no other. */
  lemma KnownSender(n: Net, i: nat, from: int, transport: Transport, packet: Packet, isHost: bool, io: Io)
    requires i < |n.peers| && n.peers[i].addr == Some(from)
    requires forall k :: 0 <= k < i ==> n.peers[k].addr != Some(from)
    ensures var after := Receive(n, from, transport, packet, isHost, io);
            var e := OnPacket(n.peers[i], packet, n.sessions, isHost, io);
            && after.peers == n.peers[i := e.peer]
            && after.wire == n.wire + e.emitted
            && after.sessions == n.sessions + if Opens(packet, io) then 1 else 0
  {
    hide OnPacket;
  }

  /** A stranger gets a slot by a handshake while there are fewer than 16 peers, and is ignored otherwise. */
  lemma UnknownSender(n: Net, from: int, transport: Transport, packet: Packet, isHost: bool, io: Io)
    requires forall k :: 0 <= k < |n.peers| ==> n.peers[k].addr != Some(from)
    ensures var after := Receive(n, from, transport, packet, isHost, io);
            var joining := BLANK.(addr := Some(from), state := Connecting, transport := transport);
            var e := OnPacket(joining, packet, n.sessions, isHost, io);
            && (!packet.HandshakePacket? || |n.peers| >= 16 ==> after == n)
            && (packet.HandshakePacket? && |n.peers| < 16 ==>
                && after.peers == n.peers + [e.peer] && after.wire == n.wire + e.emitted
                && after.sessions == n.sessions + if Opens(packet, io) then 1 else 0)
  {
    hide OnPacket;
    var joining := BLANK.(addr := Some(from), state := Connecting, transport := transport);
    assert (n.peers + [joining])[|n.peers| := OnPacket(joining, packet, n.sessions, isHost, io).peer]
        == n.peers + [OnPacket(joining, packet, n.sessions, isHost, io).peer];
  }

  /** Adding a code whose key a peer has already: the first such peer, with a session if it had none. */
  lemma AddKnown(n: Net, i: nat, code: string, key: seq<B.byte>, io: Io)
    requires i < |n.peers| && n.peers[i].key == key && forall k :: 0 <= k < i ==> n.peers[k].key != key
    ensures var (after, index) := AddPeer(n, code, Some(key), io);
            var p := n.peers[i].(code := code);
            && (p.session.authenticated ==> after == n.(peers := n.peers[i := p]) && index == Some(i))
            && (!p.session.authenticated && !io.createSession ==>
                after == n.(peers := n.peers[i := p]) && index == None)
            && (!p.session.authenticated && io.createSession ==>
                && after.peers == n.peers[i := p.(session := Session(true, 0, n.sessions))]
                && after.sessions == n.sessions + 1 && after.wire == n.wire && index == Some(i))
  {
  }

  /** Adding a new code: refused for a bad or zero key, at 16 peers, or without a session; else appended. */
  lemma AddNew(n: Net, code: string, key: Option<seq<B.byte>>, io: Io)
    requires key.Some? ==> forall k :: 0 <= k < |n.peers| ==> n.peers[k].key != key.value
    ensures var (after, index) := AddPeer(n, code, key, io);
            var refused := key.None? || |n.peers| >= 16 || key.value == seq(32, _ => 0) || !io.createSession;
            && (refused ==> after == n && index == None)
            && (!refused ==>
                && index == Some(|n.peers|) && |after.peers| == |n.peers| + 1 && after.peers[..|n.peers|] == n.peers
                && after.sessions == n.sessions + 1 && after.wire == n.wire
                && var p := after.peers[|n.peers|];
                   && p.key == key.value && p.code == code && p.addr == None
                   && p.state == Discovered && p.transport == Udp
                   && p.session == Session(true, 0, n.sessions)
                   && p.reconnect == (if io.allocate then Some(Reconnect.Ctx(0, 0, 0, 100, false)) else None))
  {
    assert NO_KEY == seq(32, _ => 0);
  }

  /** A connect reaches its peer exactly when adding works, the host name resolves and the handshake leaves. */
  lemma ConnectMeans(n: Net, code: string, key: Option<seq<B.byte>>, addr: Option<int>, io: Io)
    ensures var (added, index) := AddPeer(n, code, key, io);
            var (after, connected) := Connect(n, code, key, addr, io);
            && (index.None? ==> after == added && connected == None)
            && (index.Some? ==>
                && index.value < |added.peers|
                && connected == (if addr.Some? && Shakes(io) then index else None)
                && |after.peers| == |added.peers| && after.peers[index.value].addr == addr
                && after.peers[index.value].session == added.peers[index.value].session
                && (forall k :: 0 <= k < |added.peers| && k != index.value ==> after.peers[k] == added.peers[k]))
  {
    hide SendHandshake;
    var (added, index) := AddPeer(n, code, key, io);
    if index.Some? && index.value < |added.peers| { ShakeMeans(added.peers[index.value].(addr := addr), io); }
  }
}
