/**
 * Reconnection counted per peer, over whole runs of the table. The count of failures is only reset by
 * a successful attempt: peer_reconnect_reset (src/network_reconnect.c:121-128) has no caller, so a
 * handshake that revives a peer leaves it.
 */
module PeerFailures {
  import B = Bytes
  import opened Wrappers
  import opened Peers
  import opened PeerRuns
  import Handshake
  import Reconnect

  /** The backoff of a context is the delay its count calls for, and only the tenth failure makes a peer FAILED. */
  ghost predicate Tied(p: Peer) {
    && (p.reconnect.Some? ==> p.reconnect.value.backoff == Reconnect.Delay(p.reconnect.value.attemptCount))
    && (p.state == Failed ==> p.reconnect.Some? && p.reconnect.value.attemptCount >= 10)
  }

  lemma ShakeTied(p: Peer, io: Io)
    requires Tied(p)
    ensures Tied(SendHandshake(p, io).0) && SendHandshake(p, io).0.reconnect == p.reconnect
    ensures SendHandshake(p, io).0.state == Failed ==> p.state == Failed
  {
    hide Reconnect.Delay;
  }

  /** An attempt either waits, resets the count, or adds one and doubles the delay. */
  lemma RetryTied(p: Peer, io: Io)
    requires Tied(p)
    ensures Tied(TryReconnect(p, io).0)
  {
    hide Reconnect.Delay, SendHandshake;
    ShakeTied(p, io);
    if p.reconnect.Some? {
      var count := p.reconnect.value.attemptCount;
      Reconnect.DelayDoubles(count);
      Reconnect.DelaySaturates(count);
      Reconnect.DelaySaturates(count + 1);
      Reconnect.DelayStarts();
    }
  }

  lemma LoseTied(p: Peer, io: Io)
    requires Tied(p)
    ensures Tied(LoseTransport(p, io)) && Tied(HealthCheck(p, io)) && Tied(LoseTcp(p, io))
  {
    hide Reconnect.Delay, TryReconnect;
    RetryTied(p.(state := Disconnected), io);
    RetryTied(p.(state := Disconnected), Later(io));
    RetryTied(p.(tcp := Down, state := Disconnected), io);
  }

  lemma SendTied(p: Peer, data: Data, io: Io)
    requires Tied(p)
    ensures Tied(Send(p, data, io).peer)
  {
    hide Reconnect.Delay, LoseTransport;
    var spent := p.(session := p.session.(nonce := p.session.nonce + 1));
    LoseTied(AfterFailure(spent, io), Later(io));
  }

  lemma TickTied(p: Peer, io: Io)
    requires Tied(p)
    ensures Tied(Tick(p, io).peer)
  {
    hide Reconnect.Delay, Send, SendHandshake;
    ShakeTied(p, io);
    SendTied(TickHandshake(p, io), Null, io);
  }

  lemma PacketTied(p: Peer, packet: Packet, id: nat, isHost: bool, io: Io)
    requires Tied(p)
    ensures Tied(OnPacket(p, packet, id, isHost, io).peer)
  {
    hide Reconnect.Delay, Send, SendHandshake;
    var seen := p.(lastSeen := io.now, lastReceived := io.now);
    SendTied(seen, Null, io);
    if packet.HandshakePacket? && packet.payload.Accepted? {
      var ready := seen.(key := packet.payload.key, session := Session(true, 0, id), state := HandshakeReceived);
      ShakeTied(ready, io);
      var answered := SendHandshake(ready, io).0;
      SendTied(answered.(state := Connected, streaming := answered.streaming || isHost), Bytes(5), Later(io));
    }
  }

  ghost predicate AllTied(peers: seq<Peer>) { forall i :: 0 <= i < |peers| ==> Tied(peers[i]) }

  lemma {:induction false} TicksTied(n: Net, i: nat, io: nat -> Io)
    requires AllTied(n.peers) && i <= |n.peers|
    ensures AllTied(TickFrom(n, i, io).peers)
    decreases |n.peers| - i
  {
    hide Tick, Tied;
    if i < |n.peers| {
      TickTied(n.peers[i], io(i));
      TicksTied(Update(n, i, Tick(n.peers[i], io(i))), i + 1, io);
    }
  }

  lemma {:induction false} HealthTied(n: Net, i: nat, io: nat -> Io)
    requires AllTied(n.peers) && i <= |n.peers|
    ensures AllTied(HealthFrom(n, i, io).peers)
    decreases |n.peers| - i
  {
    hide HealthCheck, LoseTransport, LoseTcp, Tied;
    if i < |n.peers| {
      LoseTied(n.peers[i], io(i));
      HealthTied(n.(peers := n.peers[i := HealthCheck(n.peers[i], io(i))]), i + 1, io);
    }
  }

  lemma {:induction false} SurvivorsTied(peers: seq<Peer>, io: nat -> Io)
    requires AllTied(peers)
    ensures AllTied(Survivors(peers, io))
  {
    hide TryReconnect, Tied;
    if peers != [] {
      RetryTied(peers[|peers| - 1], io(|peers| - 1));
      SurvivorsTied(peers[..|peers| - 1], io);
    }
  }

  lemma NewPeersTied(code: string, key: seq<B.byte>, from: int, transport: Transport, session: Session, allocate: bool)
    ensures Tied(BLANK.(addr := Some(from), state := Connecting, transport := transport))
    ensures Tied(BLANK.(key := key, code := code, state := Discovered, transport := Udp, session := session,
                        reconnect := if allocate then Some(Reconnect.FRESH) else None))
  {
    Reconnect.DelayStarts();
  }

  lemma AddTied(n: Net, code: string, key: Option<seq<B.byte>>, io: Io)
    requires AllTied(n.peers)
    ensures AllTied(AddPeer(n, code, key, io).0.peers)
  {
    hide Reconnect.Delay;
    if key.Some? { NewPeersTied(code, key.value, 0, Udp, Session(true, 0, n.sessions), io.allocate); }
  }

  lemma StepTied(n: Net, isHost: bool, e: Event)
    requires AllTied(n.peers)
    ensures AllTied(Step(n, isHost, e).peers)
  {
    hide Tied, AddPeer, TickFrom, HealthFrom, Sweep, Survivors, OnPacket, Send, SendHandshake, LoseTcp, HealthCheck,
        LoseTransport;
    match e
    case Receives(from, transport, packet, io) =>
      NewPeersTied("", NO_KEY, from, transport, Session(false, 0, 0), false);
      var i := FindByAddr(n.peers, from, 0);
      var joining := BLANK.(addr := Some(from), state := Connecting, transport := transport);
      PacketTied(if i < |n.peers| then n.peers[i] else joining, packet, n.sessions, isHost, io);
    case Adds(code, key, io) => AddTied(n, code, key, io);
    case Connects(code, key, addr, io) =>
      AddTied(n, code, key, io);
      var (added, index) := AddPeer(n, code, key, io);
      if index.Some? && index.value < |added.peers| { ConnectTied(added.peers[index.value], addr, io); }
    case Sends(i, data, io) => if i < |n.peers| { SendTied(n.peers[i], data, io); }
    case Ticks(io) => TicksTied(n, 0, io);
    case Sweeps(io) => SweepIsSurvivors(n.peers, io); SurvivorsTied(n.peers, io);
    case ChecksHealth(io) => HealthTied(n, 0, io);
    case LosesTcp(i, io) => if i < |n.peers| { LoseTied(n.peers[i], io); }
    case SeesServiceGone(i) => if i < |n.peers| { GoneTied(n.peers[i]); }
    case Removes(i) =>
  }

  lemma ConnectTied(p: Peer, addr: Option<int>, io: Io)
    requires Tied(p)
    ensures Tied(p.(addr := addr)) && Tied(SendHandshake(p.(addr := addr), io).0)
    ensures Tied(SendHandshake(p.(addr := addr), io).0.(state := Connecting))
  {
    hide SendHandshake, Reconnect.Delay;
    ShakeTied(p.(addr := addr), io);
  }

  lemma GoneTied(p: Peer)
    requires Tied(p)
    ensures Tied(p.(state := Disconnected))
  {
  }

  lemma {:induction false} ExecTied(n: Net, isHost: bool, events: seq<Event>)
    requires AllTied(n.peers)
    ensures AllTied(Exec(n, isHost, events).peers)
    decreases |events|
  {
    hide Step, AllTied;
    if events != [] {
      StepTied(n, isHost, events[0]);
      ExecTied(Step(n, isHost, events[0]), isHost, events[1..]);
    }
  }

  /**
   * Over every run of the table, whatever sends, sweeps, health checks and handshakes it mixes: a
   * peer's backoff is min(100 2^k, 30000) ms for the k failures it has had since its last successful
   * attempt, and a peer is only FAILED after ten of them.
   */
  lemma {:induction false} FailuresAreCounted(isHost: bool, events: seq<Event>)
    ensures var n := Exec(EMPTY, isHost, events);
            forall i :: 0 <= i < |n.peers| ==>
              && (n.peers[i].reconnect.Some? ==>
                    n.peers[i].reconnect.value.backoff == Reconnect.Delay(n.peers[i].reconnect.value.attemptCount))
              && (n.peers[i].state == Failed ==>
                    n.peers[i].reconnect.Some? && n.peers[i].reconnect.value.attemptCount >= 10)
  {
    hide Exec;
    ExecTied(EMPTY, isHost, events);
    var n := Exec(EMPTY, isHost, events);
    assert forall i :: 0 <= i < |n.peers| ==> Tied(n.peers[i]);
  }

  /** The backoff of a peer that can be retried has run out. */
  predicate Due(p: Peer, io: Io) { p.reconnect.Some? && io.now >= p.reconnect.value.nextAttempt }

  /** A retry of this peer is made, does not succeed, and is a tenth or later failure. */
  predicate LastAttemptFails(p: Peer, io: Io) {
    Due(p, io) && !Reattach(p.(state := Disconnected), io).1 && p.reconnect.value.attemptCount + 1 >= 10
  }

  /** Losing the transport makes a peer FAILED exactly when the last attempt fails. */
  lemma LoseFailsIff(p: Peer, io: Io)
    ensures LoseTransport(p, io).state == Failed <==> LastAttemptFails(p, io)
  {
    hide SendHandshake;
    ShakeStates(p.(state := Disconnected), io);
  }

  /** The same of a send that the transport refuses, a health check of a silent peer, and a lost TCP connection. */
  lemma FailsIff(p: Peer, size: nat, io: Io)
    requires p.state == Connected
    ensures MaySend(p, Bytes(size)) && io.encrypt && !(HasTransport(p) && io.data) ==>
              (Send(p, Bytes(size), io).peer.state == Failed <==>
               LastAttemptFails(AfterFailure(p.(session := p.session.(nonce := p.session.nonce + 1)), io), Later(io)))
    ensures p.lastReceived > 0 && Elapsed(io.now, p.lastReceived) > HEALTH_TIMEOUT ==>
              (HealthCheck(p, io).state == Failed <==> LastAttemptFails(p, Later(io)))
    ensures p.transport == Tcp ==>
              (LoseTcp(p, io).state == Failed <==> LastAttemptFails(if p.tcp.Up? then p.(tcp := Down) else p, io))
  {
    hide LoseTransport, LastAttemptFails;
    LoseFailsIff(AfterFailure(p.(session := p.session.(nonce := p.session.nonce + 1)), io), Later(io));
    LoseFailsIff(p, Later(io));
    LoseFailsIff(if p.tcp.Up? then p.(tcp := Down) else p, io);
  }

  lemma ShakeStates(p: Peer, io: Io)
    ensures SendHandshake(p, io).0.state == Failed ==> p.state == Failed
    ensures SendHandshake(p, io).0.reconnect == p.reconnect
  {
  }

  lemma {:induction false} TicksKeepFailed(n: Net, i: nat, io: nat -> Io, p: Peer)
    requires i <= |n.peers| && p in n.peers && p.state == Failed
    ensures p in TickFrom(n, i, io).peers
    decreases |n.peers| - i
  {
    hide SendHandshake, Send;
    if i < |n.peers| {
      var j :| 0 <= j < |n.peers| && n.peers[j] == p;
      var after := Update(n, i, Tick(n.peers[i], io(i)));
      assert after.peers[j] == p;
      TicksKeepFailed(after, i + 1, io, p);
    }
  }

  lemma {:induction false} HealthKeepsFailed(n: Net, i: nat, io: nat -> Io, p: Peer)
    requires i <= |n.peers| && p in n.peers && p.state == Failed
    ensures p in HealthFrom(n, i, io).peers
    decreases |n.peers| - i
  {
    hide LoseTransport;
    if i < |n.peers| {
      var j :| 0 <= j < |n.peers| && n.peers[j] == p;
      var after := n.(peers := n.peers[i := HealthCheck(n.peers[i], io(i))]);
      assert after.peers[j] == p;
      HealthKeepsFailed(after, i + 1, io, p);
    }
  }

  lemma {:induction false} SurvivorsKeepFailed(peers: seq<Peer>, io: nat -> Io, p: Peer)
    requires p in peers && p.state == Failed
    ensures p in Survivors(peers, io)
  {
    hide TryReconnect;
    var last := |peers| - 1;
    if peers[last] != p {
      assert peers == peers[..last] + [peers[last]];
      SurvivorsKeepFailed(peers[..last], io, p);
    }
  }

  /** A FAILED peer is left in its slot by every run of ticks, sweeps and health checks. */
  lemma {:induction false} FailedIsNeverRemoved(n: Net, isHost: bool, events: seq<Event>, p: Peer)
    requires p in n.peers && p.state == Failed && forall e :: e in events ==> IsIdle(e)
    ensures p in Exec(n, isHost, events).peers
    decreases |events|
  {
    hide TickFrom, HealthFrom, Sweep, Survivors;
    if events != [] {
      var e := events[0];
      assert IsIdle(e);
      match e {
        case Ticks(io) => TicksKeepFailed(n, 0, io, p);
        case ChecksHealth(io) => HealthKeepsFailed(n, 0, io, p);
        case Sweeps(io) =>
          SweepIsSurvivors(n.peers, io);
          SurvivorsKeepFailed(n.peers, io, p);
      }
      FailedIsNeverRemoved(Step(n, isHost, e), isHost, events[1..], p);
    }
  }

  /**
   * The sweep removes a peer whose last attempt it makes itself. If a send, a health check or a lost
   * TCP connection makes that attempt, the peer stays, FAILED, and nothing that happens without
   * packets or callers touches it again.
   */
  lemma {:induction false} TenthFailureSticks(n: Net, isHost: bool, i: nat, e: Event, events: seq<Event>)
    requires i < |n.peers| && n.peers[i].state == Connected && forall e :: e in events ==> IsIdle(e)
    requires var p := n.peers[i];
             match e
             case Sends(j, Bytes(size), io) => i == j && Send(p, Bytes(size), io).peer.state == Failed
             case LosesTcp(j, io) => i == j && LoseTcp(p, io).state == Failed
             case ChecksHealth(io) => HealthCheck(p, io(i)).state == Failed
             case _ => false
    ensures var after := Step(n, isHost, e).peers;
            i < |after| && after[i].state == Failed && after[i] in Exec(n, isHost, [e] + events).peers
  {
    hide Send, LoseTcp, HealthCheck, LoseTransport;
    if e.ChecksHealth? { HealthAt(n, 0, e.answers, i); }
    var next := Step(n, isHost, e);
    assert next.peers[i] in next.peers;
    FailedIsNeverRemoved(next, isHost, events, next.peers[i]);
    assert ([e] + events)[1..] == events;
  }

  lemma {:induction false} HealthAt(n: Net, from: nat, io: nat -> Io, i: nat)
    requires from <= |n.peers| && i < |n.peers|
    ensures |HealthFrom(n, from, io).peers| == |n.peers|
    ensures HealthFrom(n, from, io).peers[i] == if from <= i then HealthCheck(n.peers[i], io(i)) else n.peers[i]
    decreases |n.peers| - from
  {
    hide HealthCheck;
    if from < |n.peers| {
      HealthAt(n.(peers := n.peers[from := HealthCheck(n.peers[from], io(from))]), from + 1, io, i);
    }
  }

  /** A host that accepts and answers a handshake connects the peer and keeps its count of failures. */
  lemma HandshakeKeepsCount(p: Peer, payload: Handshake.Outcome, id: nat, io: Io)
    requires payload.Accepted? && io.createSession && io.udpHandshake
    ensures var q := OnPacket(p, HandshakePacket(payload), id, true, io).peer;
            q.state == Connected && q.reconnect == p.reconnect
  {
  }

  /**
   * So a FAILED peer that comes back by itself gets no new attempts: once its transport is lost again
   * and the next attempt is due, a single failure makes it FAILED.
   */
  lemma RevivedFailsAtOnce(p: Peer, payload: Handshake.Outcome, id: nat, io: Io, later: Io)
    requires Tied(p) && p.state == Failed && payload.Accepted? && io.createSession && io.udpHandshake
    ensures var q := OnPacket(p, HandshakePacket(payload), id, true, io).peer;
            && q.state == Connected
            && (LoseTransport(q, later).state == Failed <==>
                Due(q, later) && !Reattach(q.(state := Disconnected), later).1)
  {
    hide LoseTransport, Reattach, OnPacket;
    HandshakeKeepsCount(p, payload, id, io);
    LoseFailsIff(OnPacket(p, HandshakePacket(payload), id, true, io).peer, later);
  }
}
