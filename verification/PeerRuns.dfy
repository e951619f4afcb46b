/** The peer table over whole runs: what no sequence of packets, ticks, failures and calls can break. */
module PeerRuns {
  import B = Bytes
  import opened Wrappers
  import opened Peers
  import Reconnect

  const MAX_PEERS: nat := 16

  /** The live slots of ctx->peers; `sessions` counts session creations, `wire` what left encrypted. */
  datatype Net = Net(peers: seq<Peer>, sessions: nat, wire: seq<Emission>)

  const EMPTY := Net([], 0, [])

  /** The first peer with this address, or |peers|. */
  function FindByAddr(peers: seq<Peer>, addr: int, i: nat): (r: nat)
    requires i <= |peers|
    ensures i <= r <= |peers| && (r < |peers| ==> peers[r].addr == Some(addr))
    ensures forall k :: i <= k < r ==> peers[k].addr != Some(addr)
    decreases |peers| - i
  {
    if i == |peers| || peers[i].addr == Some(addr) then i else FindByAddr(peers, addr, i + 1)
  }

  function FindByKey(peers: seq<Peer>, key: seq<B.byte>, i: nat): (r: nat)
    requires i <= |peers|
    ensures i <= r <= |peers| && (r < |peers| ==> peers[r].key == key)
    ensures forall k :: i <= k < r ==> peers[k].key != key
    decreases |peers| - i
  {
    if i == |peers| || peers[i].key == key then i else FindByKey(peers, key, i + 1)
  }

  function Update(n: Net, i: nat, e: Effect): Net
    requires i < |n.peers|
  {
    n.(peers := n.peers[i := e.peer], wire := n.wire + e.emitted)
  }

  /** process_received_packet. */
  function Receive(n: Net, from: int, transport: Transport, packet: Packet, isHost: bool, io: Io): Net {
    var i := FindByAddr(n.peers, from, 0);
    if i == |n.peers| && (!packet.HandshakePacket? || |n.peers| >= MAX_PEERS) then n else
    var known := if i < |n.peers| then n
                 else n.(peers := n.peers + [BLANK.(addr := Some(from), state := Connecting, transport := transport)]);
    var after := Update(known, i, OnPacket(known.peers[i], packet, n.sessions, isHost, io));
    if Opens(packet, io) then after.(sessions := n.sessions + 1) else after
  }

  /** A peer added by its code, before its session is created. */
  function Added(key: seq<B.byte>, code: string, io: Io): Peer {
    BLANK.(key := key, code := code, state := Discovered, transport := Udp,
           reconnect := if io.allocate then Some(Reconnect.FRESH) else None)
  }

  /** rootstream_add_peer; `key` is the decoded public key of the code, None if it does not parse. */
  function AddPeer(n: Net, code: string, key: Option<seq<B.byte>>, io: Io): (Net, Option<nat>)
  {
    if key.None? then (n, None) else
    var i := FindByKey(n.peers, key.value, 0);
    if i < |n.peers| then
      var named := n.(peers := n.peers[i := n.peers[i].(code := code)]);
      if n.peers[i].session.authenticated then (named, Some(i))
      else if !io.createSession then (named, None)
      else (Open(named, i, CreateSession(named.peers[i], n.sessions, io).0), Some(i))
    else if |n.peers| >= MAX_PEERS || key.value == NO_KEY || !io.createSession then (n, None)
    else
      var peer := CreateSession(Added(key.value, code, io), n.sessions, io).0;
      (Net(n.peers + [peer], n.sessions + 1, n.wire), Some(i))
  }

  function Open(n: Net, i: nat, p: Peer): Net
    requires i < |n.peers|
  {
    Net(n.peers[i := p], n.sessions + 1, n.wire)
  }

  /**
   * rootstream_connect_to_peer, with the slot it connected or None where it returns -1; `addr` is
   * what the hostname resolves to, and replaces the old address even when there is none.
   */
  function Connect(n: Net, code: string, key: Option<seq<B.byte>>, addr: Option<int>, io: Io): (Net, Option<nat>)
  {
    var (added, index) := AddPeer(n, code, key, io);
    if index.None? || index.value >= |added.peers| then (added, None) else
    var located := added.peers[index.value].(addr := addr);
    if addr.None? then (added.(peers := added.peers[index.value := located]), None) else
    var (shaken, ok) := SendHandshake(located, io);
    if ok then (added.(peers := added.peers[index.value := shaken.(state := Connecting)]), index)
    else (added.(peers := added.peers[index.value := shaken]), None)
  }

  /** rootstream_net_tick from slot i on; each peer has its own answers from the surroundings. */
  function TickFrom(n: Net, i: nat, io: nat -> Io): Net
    requires i <= |n.peers|
    decreases |n.peers| - i
  {
    if i == |n.peers| then n else TickFrom(Update(n, i, Tick(n.peers[i], io(i))), i + 1, io)
  }

  function HealthFrom(n: Net, i: nat, io: nat -> Io): Net
    requires i <= |n.peers|
    decreases |n.peers| - i
  {
    if i == |n.peers| then n else HealthFrom(n.(peers := n.peers[i := HealthCheck(n.peers[i], io(i))]), i + 1, io)
  }

  function Without(peers: seq<Peer>, i: nat): seq<Peer>
    requires i < |peers|
  {
    peers[..i] + peers[i + 1..]
  }

  /** One peer of the reconnect sweep: tried if DISCONNECTED with a context; None is removed. */
  function Examined(p: Peer, io: Io): Option<Peer> {
    if p.state == Disconnected && p.reconnect.Some? then
      var (p', verdict) := TryReconnect(p, io);
      if verdict.GaveUp? then None else Some(p')
    else Some(p)
  }

  /** The sweep of rootstream_net_recv over slots k - 1 down to 0, removing in place. */
  function Sweep(peers: seq<Peer>, k: nat, io: nat -> Io): seq<Peer>
    requires k <= |peers|
    decreases k
  {
    if k == 0 then peers else
    match Examined(peers[k - 1], io(k - 1))
    case None => Sweep(Without(peers, k - 1), k - 1, io)
    case Some(p) => Sweep(peers[k - 1 := p], k - 1, io)
  }

  /** What the sweep is for: every peer examined once, those that gave up left out, in order. */
  function Survivors(peers: seq<Peer>, io: nat -> Io): seq<Peer> {
    if peers == [] then [] else
    var last := |peers| - 1;
    var p := Examined(peers[last], io(last));
    Survivors(peers[..last], io) + if p.Some? then [p.value] else []
  }

  lemma {:induction false} SweepFrom(peers: seq<Peer>, k: nat, io: nat -> Io)
    requires k <= |peers|
    ensures Sweep(peers, k, io) == Survivors(peers[..k], io) + peers[k..]
    decreases k
  {
    hide Examined;
    if k == 0 {
      assert peers[..0] == [] && peers[0..] == peers;
    } else {
      var last := k - 1;
      assert peers[..k][..last] == peers[..last];
      var examined := Examined(peers[last], io(last));
      match examined {
        case None =>
          SweepFrom(Without(peers, last), last, io);
          assert Without(peers, last)[..last] == peers[..last] && Without(peers, last)[last..] == peers[k..];
        case Some(p) =>
          SweepFrom(peers[last := p], last, io);
          assert peers[last := p][..last] == peers[..last] && peers[last := p][last..] == [p] + peers[k..];
      }
    }
  }

  /** Removing while going backwards examines each peer exactly once and keeps the order. */
  lemma {:induction false} SweepIsSurvivors(peers: seq<Peer>, io: nat -> Io)
    ensures Sweep(peers, |peers|, io) == Survivors(peers, io)
  {
    SweepFrom(peers, |peers|, io);
    assert peers[..|peers|] == peers;
  }

  datatype Event =
    | Receives(from: int, transport: Transport, packet: Packet, io: Io)
    | Adds(code: string, key: Option<seq<B.byte>>, io: Io)
    | Connects(code: string, key: Option<seq<B.byte>>, addr: Option<int>, io: Io)
    | Sends(i: nat, data: Data, io: Io)
    | Ticks(answers: nat -> Io)
    | Sweeps(answers: nat -> Io)
    | ChecksHealth(answers: nat -> Io)
    | LosesTcp(i: nat, io: Io)
    | SeesServiceGone(i: nat)
    | Removes(i: nat)

  function Step(n: Net, isHost: bool, e: Event): Net {
    match e
    case Receives(from, transport, packet, io) => Receive(n, from, transport, packet, isHost, io)
    case Adds(code, key, io) => AddPeer(n, code, key, io).0
    case Connects(code, key, addr, io) => Connect(n, code, key, addr, io).0
    case Sends(i, data, io) => if i < |n.peers| then Update(n, i, Send(n.peers[i], data, io)) else n
    case Ticks(io) => TickFrom(n, 0, io)
    case Sweeps(io) => n.(peers := Sweep(n.peers, |n.peers|, io))
    case ChecksHealth(io) => HealthFrom(n, 0, io)
    case LosesTcp(i, io) => if i < |n.peers| then n.(peers := n.peers[i := LoseTcp(n.peers[i], io)]) else n
    case SeesServiceGone(i) =>
      if i < |n.peers| && n.peers[i].state == Connected
      then n.(peers := n.peers[i := n.peers[i].(state := Disconnected)]) else n
    case Removes(i) => if i < |n.peers| then n.(peers := Without(n.peers, i)) else n
  }

  function Exec(n: Net, isHost: bool, events: seq<Event>): Net
    decreases |events|
  {
    if events == [] then n else Exec(Step(n, isHost, events[0]), isHost, events[1..])
  }

  /** Every live session has its own id, and its counter is above every nonce sent under it. */
  ghost predicate Ahead(p: Peer, sessions: nat, wire: seq<Emission>) {
    p.session.authenticated ==>
      && p.session.id < sessions
      && forall a :: 0 <= a < |wire| && wire[a].session == p.session.id ==> wire[a].nonce < p.session.nonce
  }

  ghost predicate Increasing(wire: seq<Emission>) {
    forall a, b :: 0 <= a < b < |wire| && wire[a].session == wire[b].session ==> wire[a].nonce < wire[b].nonce
  }

  ghost predicate Inv(n: Net) {
    && |n.peers| <= MAX_PEERS
    && (forall i :: 0 <= i < |n.peers| ==> Secure(n.peers[i]) && Ahead(n.peers[i], n.sessions, n.wire))
    && (forall i, j :: 0 <= i < j < |n.peers| && n.peers[i].session.authenticated && n.peers[j].session.authenticated
          ==> n.peers[i].session.id != n.peers[j].session.id)
    && (forall a :: 0 <= a < |n.wire| ==> n.wire[a].session < n.sessions)
    && Increasing(n.wire)
  }

  lemma UpdateKeeps(n: Net, i: nat, e: Effect)
    requires Inv(n) && i < |n.peers| && Secure(e.peer) && Advances(n.peers[i], e)
    ensures Inv(Update(n, i, e))
  {
  }

  lemma OpenKeeps(n: Net, i: nat, e: Effect)
    requires Inv(n) && i < |n.peers| && Secure(e.peer) && Advances(WithSession(n.sessions), e)
    ensures Inv(Update(n, i, e).(sessions := n.sessions + 1))
  {
  }

  lemma AppendKeeps(n: Net, p: Peer)
    requires Inv(n) && |n.peers| < MAX_PEERS && Secure(p)
    requires !p.session.authenticated || p.session == Session(true, 0, n.sessions)
    ensures Inv(Net(n.peers + [p], n.sessions + if p.session.authenticated then 1 else 0, n.wire))
  {
  }

  lemma WithoutKeeps(n: Net, i: nat)
    requires Inv(n) && i < |n.peers|
    ensures Inv(n.(peers := Without(n.peers, i)))
  {
  }

  lemma ReceiveKeeps(n: Net, from: int, transport: Transport, packet: Packet, isHost: bool, io: Io)
    requires Inv(n)
    ensures Inv(Receive(n, from, transport, packet, isHost, io))
  {
    hide OnPacket, Update, Inv, Secure, Advances;
    var i := FindByAddr(n.peers, from, 0);
    var joining := BLANK.(addr := Some(from), state := Connecting, transport := transport);
    if i < |n.peers| || (packet.HandshakePacket? && |n.peers| < MAX_PEERS) {
      var known := if i < |n.peers| then n else n.(peers := n.peers + [joining]);
      if i == |n.peers| {
        BlankIsSecure(joining);
        AppendKeeps(n, joining);
        assert Net(n.peers + [joining], n.sessions + 0, n.wire) == known;
      }
      EachSecure(known, i);
      PacketAdvances(known.peers[i], packet, n.sessions, isHost, io);
      var e := OnPacket(known.peers[i], packet, n.sessions, isHost, io);
      if Opens(packet, io) { OpenKeeps(known, i, e); } else { UpdateKeeps(known, i, e); }
    }
  }

  lemma BlankIsSecure(p: Peer)
    requires p == BLANK.(addr := p.addr, state := Connecting, transport := p.transport)
    ensures Secure(p) && !p.session.authenticated
  {
  }

  lemma EachSecure(n: Net, i: nat)
    requires Inv(n) && i < |n.peers|
    ensures Secure(n.peers[i])
  {
  }

  lemma AddKeeps(n: Net, code: string, key: Option<seq<B.byte>>, io: Io)
    requires Inv(n)
    ensures Inv(AddPeer(n, code, key, io).0)
    ensures AddPeer(n, code, key, io).1.Some? ==>
      AddPeer(n, code, key, io).1.value < |AddPeer(n, code, key, io).0.peers|
  {
    if key.Some? {
      var i := FindByKey(n.peers, key.value, 0);
      if i < |n.peers| {
        UpdateKeeps(n, i, Effect(n.peers[i].(code := code), []));
        var named := n.(peers := n.peers[i := n.peers[i].(code := code)]);
        assert Update(n, i, Effect(n.peers[i].(code := code), [])) == named;
        if !n.peers[i].session.authenticated && io.createSession {
          OpenKeeps(named, i, Effect(CreateSession(named.peers[i], n.sessions, io).0, []));
          assert named.wire + [] == named.wire;
        }
      } else if |n.peers| < MAX_PEERS && io.createSession {
        AppendKeeps(n, CreateSession(Added(key.value, code, io), n.sessions, io).0);
      }
    }
  }

  /** Replacing a peer by one with the same session keeps the table sound. */
  lemma SameSessionKeeps(n: Net, i: nat, p: Peer)
    requires Inv(n) && i < |n.peers| && Secure(p) && p.session == n.peers[i].session
    ensures Inv(n.(peers := n.peers[i := p]))
  {
    UpdateKeeps(n, i, Effect(p, []));
    assert n.wire + [] == n.wire;
  }

  lemma {:induction false} TickKeeps(n: Net, i: nat, io: nat -> Io)
    requires Inv(n) && i <= |n.peers|
    ensures Inv(TickFrom(n, i, io)) && TickFrom(n, i, io).sessions == n.sessions
    decreases |n.peers| - i
  {
    hide Inv, Tick, Secure, Advances;
    if i < |n.peers| {
      EachSecure(n, i);
      TickAdvances(n.peers[i], io(i));
      UpdateKeeps(n, i, Tick(n.peers[i], io(i)));
      TickKeeps(Update(n, i, Tick(n.peers[i], io(i))), i + 1, io);
    }
  }

  lemma LoseKeepsSession(p: Peer, io: Io)
    requires Secure(p)
    ensures LoseTransport(p, io).session == p.session && Secure(LoseTransport(p, io))
    ensures HealthCheck(p, io).session == p.session && Secure(HealthCheck(p, io))
    ensures LoseTcp(p, io).session == p.session && Secure(LoseTcp(p, io))
  {
    hide TryReconnect;
    ReconnectKeepsSession(p.(state := Disconnected), io);
    ReconnectKeepsSession(p.(state := Disconnected), Later(io));
    ReconnectKeepsSession(p.(tcp := Down, state := Disconnected), io);
  }

  lemma {:induction false} HealthKeeps(n: Net, i: nat, io: nat -> Io)
    requires Inv(n) && i <= |n.peers|
    ensures Inv(HealthFrom(n, i, io))
    decreases |n.peers| - i
  {
    hide Inv, HealthCheck, Secure;
    if i < |n.peers| {
      EachSecure(n, i);
      LoseKeepsSession(n.peers[i], io(i));
      SameSessionKeeps(n, i, HealthCheck(n.peers[i], io(i)));
      HealthKeeps(n.(peers := n.peers[i := HealthCheck(n.peers[i], io(i))]), i + 1, io);
    }
  }

  lemma {:induction false} SweepKeeps(n: Net, k: nat, io: nat -> Io)
    requires Inv(n) && k <= |n.peers|
    ensures Inv(n.(peers := Sweep(n.peers, k, io)))
    decreases k
  {
    hide Inv, TryReconnect, Secure;
    if k > 0 {
      var p := n.peers[k - 1];
      EachSecure(n, k - 1);
      ReconnectKeepsSession(p, io(k - 1));
      var examined := Examined(p, io(k - 1));
      match examined {
        case None =>
          WithoutKeeps(n, k - 1);
          SweepKeeps(n.(peers := Without(n.peers, k - 1)), k - 1, io);
        case Some(p') =>
          SameSessionKeeps(n, k - 1, p');
          SweepKeeps(n.(peers := n.peers[k - 1 := p']), k - 1, io);
      }
    }
  }

  lemma HandshakeKeepsSession(p: Peer, addr: Option<int>, io: Io)
    requires Secure(p)
    ensures var (shaken, ok) := SendHandshake(p.(addr := addr), io);
            && shaken.session == p.session && Secure(p.(addr := addr))
            && Secure(shaken) && Secure(shaken.(state := Connecting))
  {
  }

  lemma ConnectKeeps(n: Net, code: string, key: Option<seq<B.byte>>, addr: Option<int>, io: Io)
    requires Inv(n)
    ensures Inv(Connect(n, code, key, addr, io).0)
  {
    hide AddPeer, Inv, SendHandshake, Secure;
    AddKeeps(n, code, key, io);
    var (added, index) := AddPeer(n, code, key, io);
    if index.Some? {
      EachSecure(added, index.value);
      HandshakeKeepsSession(added.peers[index.value], addr, io);
      var located := added.peers[index.value].(addr := addr);
      var (shaken, ok) := SendHandshake(located, io);
      var connected := if ok then shaken.(state := Connecting) else shaken;
      SameSessionKeeps(added, index.value, if addr.None? then located else connected);
    }
  }

  lemma StepKeeps(n: Net, isHost: bool, e: Event)
    requires Inv(n)
    ensures Inv(Step(n, isHost, e))
  {
    hide Inv, Receive, AddPeer, Connect, TickFrom, Sweep, HealthFrom, Send, LoseTcp, Without, Update, Advances;
    match e
    case Receives(from, transport, packet, io) => ReceiveKeeps(n, from, transport, packet, isHost, io);
    case Adds(code, key, io) => AddKeeps(n, code, key, io);
    case Connects(code, key, addr, io) => ConnectKeeps(n, code, key, addr, io);
    case Sends(i, data, io) =>
      if i < |n.peers| {
        EachSecure(n, i);
        SendAdvances(n.peers[i], data, io);
        UpdateKeeps(n, i, Send(n.peers[i], data, io));
      }
    case Ticks(io) => TickKeeps(n, 0, io);
    case Sweeps(io) => SweepKeeps(n, |n.peers|, io);
    case ChecksHealth(io) => HealthKeeps(n, 0, io);
    case LosesTcp(i, io) =>
      if i < |n.peers| {
        EachSecure(n, i);
        LoseKeepsSession(n.peers[i], io);
        SameSessionKeeps(n, i, LoseTcp(n.peers[i], io));
      }
    case SeesServiceGone(i) =>
      if i < |n.peers| {
        EachSecure(n, i);
        SameSessionKeeps(n, i, n.peers[i].(state := Disconnected));
      }
    case Removes(i) => if i < |n.peers| { WithoutKeeps(n, i); }
  }

  lemma {:induction false} ExecKeeps(n: Net, isHost: bool, events: seq<Event>)
    requires Inv(n)
    ensures Inv(Exec(n, isHost, events))
    decreases |events|
  {
    hide Inv, Step;
    if events != [] {
      StepKeeps(n, isHost, events[0]);
      ExecKeeps(Step(n, isHost, events[0]), isHost, events[1..]);
    }
  }

  /**
   * Over every run: at most 16 peers; only peers with an authenticated session are connected or have
   * a reconnection context; and no session ever sends two packets out of nonce order.
   */
  lemma {:induction false} PeersStaySecure(isHost: bool, events: seq<Event>)
    ensures var n := Exec(EMPTY, isHost, events);
            && |n.peers| <= 16
            && (forall i :: 0 <= i < |n.peers| ==>
                  && (n.peers[i].state in {HandshakeReceived, Connected} ==> n.peers[i].session.authenticated)
                  && (n.peers[i].reconnect.Some? ==> n.peers[i].session.authenticated))
            && (forall a, b :: 0 <= a < b < |n.wire| && n.wire[a].session == n.wire[b].session ==>
                  n.wire[a].nonce < n.wire[b].nonce)
  {
    ExecKeeps(EMPTY, isHost, events);
    var n := Exec(EMPTY, isHost, events);
    forall i | 0 <= i < |n.peers| ensures Secure(n.peers[i]) { EachSecure(n, i); }
  }

  /** Every successful connect leaves its peer CONNECTING, with the resolved address. */
  lemma ConnectLeavesConnecting(n: Net, code: string, key: Option<seq<B.byte>>, addr: Option<int>, io: Io)
    ensures var (after, index) := Connect(n, code, key, addr, io);
            index.Some? ==> index.value < |after.peers| && after.peers[index.value].state == Connecting
                            && after.peers[index.value].addr == addr
  {
  }

  /** The peers in CONNECTING, in order. */
  function Waiting(peers: seq<Peer>): seq<Peer> {
    if peers == [] then [] else Waiting(peers[..|peers| - 1]) + IfWaiting(peers[|peers| - 1])
  }

  function IfWaiting(p: Peer): seq<Peer> { if p.state == Connecting then [p] else [] }

  lemma {:induction false} WaitingConcat(a: seq<Peer>, b: seq<Peer>)
    ensures Waiting(a + b) == Waiting(a) + Waiting(b)
  {
    hide IfWaiting;
    if b == [] {
      assert a + b == a;
    } else {
      WaitingConcat(a, b[..|b| - 1]);
      assert (a + b)[..|a + b| - 1] == a + b[..|b| - 1];
    }
  }

  /** Replacing a peer matters to the waiting ones only if it is or becomes one of them. */
  lemma WaitingUpdate(peers: seq<Peer>, i: nat, p: Peer)
    requires i < |peers| && (p == peers[i] || (p.state != Connecting && peers[i].state != Connecting))
    ensures Waiting(peers[i := p]) == Waiting(peers)
  {
    if p != peers[i] {
      var head, tail := peers[..i], peers[i + 1..];
      assert peers == (head + [peers[i]]) + tail && peers[i := p] == (head + [p]) + tail;
      WaitingConcat(head + [peers[i]], tail);
      WaitingConcat(head + [p], tail);
      WaitingConcat(head, [peers[i]]);
      WaitingConcat(head, [p]);
    } else {
      assert peers[i := p] == peers;
    }
  }

  /** What leaves a CONNECTING peer alone and makes no other peer CONNECTING. */
  predicate Aside(p: Peer, p': Peer) { p' == p || (p.state != Connecting && p'.state != Connecting) }

  lemma ShakeAside(p: Peer, io: Io)
    requires p.state != Connecting
    ensures SendHandshake(p, io).0.state != Connecting
  {
  }

  lemma RetryAside(p: Peer, io: Io)
    requires p.state != Connecting
    ensures TryReconnect(p, io).0.state != Connecting
  {
    hide SendHandshake, Reconnect.Try;
    ShakeAside(p, io);
  }

  lemma TickAside(p: Peer, io: Io)
    ensures Aside(p, Tick(p, io).peer)
  {
    hide SendHandshake, TryReconnect;
    if p.state != Connecting {
      ShakeAside(p, io);
    }
  }

  lemma HealthAside(p: Peer, io: Io)
    ensures Aside(p, HealthCheck(p, io))
  {
    hide TryReconnect;
    RetryAside(p.(state := Disconnected), Later(io));
  }

  lemma {:induction false} TickKeepsWaiting(n: Net, i: nat, io: nat -> Io)
    requires i <= |n.peers|
    ensures Waiting(TickFrom(n, i, io).peers) == Waiting(n.peers)
    decreases |n.peers| - i
  {
    hide Tick, Waiting;
    if i < |n.peers| {
      TickAside(n.peers[i], io(i));
      WaitingUpdate(n.peers, i, Tick(n.peers[i], io(i)).peer);
      TickKeepsWaiting(Update(n, i, Tick(n.peers[i], io(i))), i + 1, io);
    }
  }

  lemma {:induction false} HealthKeepsWaiting(n: Net, i: nat, io: nat -> Io)
    requires i <= |n.peers|
    ensures Waiting(HealthFrom(n, i, io).peers) == Waiting(n.peers)
    decreases |n.peers| - i
  {
    hide HealthCheck, Waiting;
    if i < |n.peers| {
      HealthAside(n.peers[i], io(i));
      WaitingUpdate(n.peers, i, HealthCheck(n.peers[i], io(i)));
      HealthKeepsWaiting(n.(peers := n.peers[i := HealthCheck(n.peers[i], io(i))]), i + 1, io);
    }
  }

  /** Examining a peer keeps it, and may remove it, only if it is not waiting. */
  lemma ExaminedAside(p: Peer, io: Io)
    ensures Waiting(if Examined(p, io).Some? then [Examined(p, io).value] else []) == IfWaiting(p)
  {
    hide TryReconnect;
    if p.state == Disconnected { RetryAside(p, io); }
    var examined := Examined(p, io);
    if examined.Some? { WaitingOne(examined.value); }
  }

  lemma WaitingOne(p: Peer)
    ensures Waiting([p]) == IfWaiting(p)
  {
    assert [p][..0] == [] && [] + IfWaiting(p) == IfWaiting(p);
  }

  lemma {:induction false} SweepKeepsWaiting(peers: seq<Peer>, io: nat -> Io)
    ensures Waiting(Survivors(peers, io)) == Waiting(peers)
  {
    hide Examined, IfWaiting;
    if peers != [] {
      var last := |peers| - 1;
      SweepKeepsWaiting(peers[..last], io);
      ExaminedAside(peers[last], io(last));
      var p := Examined(peers[last], io(last));
      WaitingConcat(Survivors(peers[..last], io), if p.Some? then [p.value] else []);
    }
  }

  predicate IsIdle(e: Event) { e.Ticks? || e.Sweeps? || e.ChecksHealth? }

  /**
   * No run of ticks, sweeps and health checks, whatever the clock and the network say, retries,
   * drops or changes any peer that waits in CONNECTING, or adds one to them.
   */
  lemma {:induction false} ConnectingIsNeverRetried(n: Net, isHost: bool, events: seq<Event>)
    requires forall e :: e in events ==> IsIdle(e)
    ensures Waiting(Exec(n, isHost, events).peers) == Waiting(n.peers)
    decreases |events|
  {
    hide Waiting, TickFrom, HealthFrom, Sweep, Survivors;
    if events != [] {
      var e := events[0];
      assert IsIdle(e);
      match e {
        case Ticks(io) => TickKeepsWaiting(n, 0, io);
        case ChecksHealth(io) => HealthKeepsWaiting(n, 0, io);
        case Sweeps(io) =>
          SweepIsSurvivors(n.peers, io);
          SweepKeepsWaiting(n.peers, io);
      }
      ConnectingIsNeverRetried(Step(n, isHost, e), isHost, events[1..]);
    }
  }

  lemma {:induction false} InWaiting(peers: seq<Peer>, p: Peer)
    ensures p in Waiting(peers) <==> p in peers && p.state == Connecting
  {
    if peers != [] {
      InWaiting(peers[..|peers| - 1], p);
      assert peers == peers[..|peers| - 1] + [peers[|peers| - 1]];
    }
  }

  /** So a connect whose answer is lost is never followed up: its peer is still there, as it was. */
  lemma {:induction false} ConnectedPeerWaits(n: Net, isHost: bool, code: string, key: Option<seq<B.byte>>,
      addr: Option<int>, io: Io, events: seq<Event>)
    requires Connect(n, code, key, addr, io).1.Some? && forall e :: e in events ==> IsIdle(e)
    ensures var (after, index) := Connect(n, code, key, addr, io);
            index.value < |after.peers| && after.peers[index.value] in Exec(after, isHost, events).peers
  {
    hide Connect, Waiting, Exec;
    ConnectLeavesConnecting(n, code, key, addr, io);
    var (after, index) := Connect(n, code, key, addr, io);
    ConnectingIsNeverRetried(after, isHost, events);
    InWaiting(after.peers, after.peers[index.value]);
    InWaiting(Exec(after, isHost, events).peers, after.peers[index.value]);
  }
}
