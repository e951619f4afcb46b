/** One peer: the fields the connection logic updates, and what each operation does to them. */
module Peers {
  import opened Bytes
  import opened Wrappers
  import Handshake
  import Reconnect
  import Wire

  datatype State = Discovered | Connecting | HandshakeSent | HandshakeReceived | Connected | Disconnected | Failed
  datatype Transport = Unset | Udp | Tcp

  /** transport_priv: a null pointer, or a TCP context with its `connected` flag. */
  datatype TcpLink = NoContext | Up | Down

  /** crypto_session_t; `id` is a history variable that names the crypto_create_session call. */
  datatype Session = Session(authenticated: bool, nonce: nat, id: nat)

  /** peer_t without its buffers; `code` is its rootstream_code. */
  datatype Peer = Peer(
    key: seq<byte>, addr: Option<int>, code: string, session: Session, state: State, transport: Transport,
    tcp: TcpLink, reconnect: Option<Reconnect.Ctx>, streaming: bool,
    lastSeen: nat, lastReceived: nat, lastSent: nat, handshakeSent: nat)

  /** A slot after memset(peer, 0, sizeof(peer_t)). */
  const NO_KEY: seq<byte> :=
    [0, 0, 0, 0, 0, 0, 0, 0, 0, 0, 0, 0, 0, 0, 0, 0, 0, 0, 0, 0, 0, 0, 0, 0, 0, 0, 0, 0, 0, 0, 0, 0]
  const BLANK := Peer(NO_KEY, None, "", Session(false, 0, 0), Discovered, Unset, NoContext, None, false, 0, 0, 0, 0)

  /** A packet handed to the transport: under which session, with which nonce. */
  datatype Emission = Emission(session: nat, nonce: nat)

  /**
   * What the surroundings answer during one operation. `now` is the first reading of the clock and
   * `later` any further one; `clogged` says that a TCP send which fails found the socket full, and
   * the others whether each kind of call succeeds.
   */
  datatype Io = Io(now: nat, later: nat, createSession: bool, decrypt: bool, encrypt: bool, data: bool,
                   udpHandshake: bool, tcpConnect: bool, tcpHandshake: bool, tcpRetry: bool, clogged: bool,
                   allocate: bool)

  /** The surroundings once the clock has been read. */
  function Later(io: Io): Io { io.(now := io.later) }

  const HANDSHAKE_RETRY: nat := 1000
  const PEER_TIMEOUT: nat := 5000
  const KEEPALIVE_INTERVAL: nat := 1000
  const HEALTH_TIMEOUT: nat := 30000

  /** Subtraction of unsigned 64-bit timestamps. */
  function Elapsed(now: nat, since: nat): nat { (now - since) % U64 }

  /** rootstream_net_handshake: UDP first, TCP when the UDP send fails. */
  function SendHandshake(p: Peer, io: Io): (Peer, bool) {
    if io.udpHandshake then
      var sent := p.(lastSent := io.later, transport := Udp);
      (if p.state != HandshakeReceived && p.state != Connected
       then sent.(state := HandshakeSent, handshakeSent := io.later) else sent, true)
    else if io.tcpConnect then
      var joined := p.(transport := Tcp, tcp := Up);
      if io.tcpHandshake
      then (joined.(state := HandshakeSent, handshakeSent := io.later, lastSent := io.later), true)
      else (if io.clogged then joined.(lastSent := io.later) else joined.(tcp := Down), false)
    else (p, false)
  }

  /** The transport attempt inside peer_try_reconnect. */
  function Reattach(p: Peer, io: Io): (Peer, bool) {
    if p.transport == Tcp then
      if io.tcpRetry then (p.(transport := Tcp, tcp := Up), true) else (p, false)
    else
      var (p', ok) := SendHandshake(p, io);
      if ok then (p', true)
      else if io.tcpRetry then (p'.(transport := Tcp, tcp := Up), true)
      else (p', false)
  }

  /** peer_try_reconnect; without a context it returns -1, like giving up. */
  function TryReconnect(p: Peer, io: Io): (Peer, Reconnect.Verdict) {
    if p.reconnect.None? then (p, Reconnect.GaveUp)
    else if io.now < p.reconnect.value.nextAttempt then (p, Reconnect.TooEarly)
    else
      var (p', ok) := Reattach(p, io);
      var (rc, verdict) := Reconnect.Try(p.reconnect.value, io.now, ok);
      var tried := p'.(reconnect := Some(rc));
      (if verdict.Reconnected? then tried.(state := Connected)
       else if verdict.GaveUp? then tried.(state := Failed)
       else tried, verdict)
  }

  /** Losing the transport: DISCONNECTED, and at once a reconnection attempt where there is a context. */
  function LoseTransport(p: Peer, io: Io): Peer {
    var lost := p.(state := Disconnected);
    if p.reconnect.Some? then TryReconnect(lost, io).0 else lost
  }

  /** The payload argument of rootstream_net_send_encrypted: NULL with size 0, or `size` bytes. */
  datatype Data = Null | Bytes(size: nat)

  predicate MaySend(p: Peer, data: Data) {
    && (p.state == Connected || p.state == HandshakeReceived)
    && p.session.authenticated
    && (data.Bytes? ==> data.size <= Wire.MAX_PLAIN)
  }

  /** rootstream_net_send_encrypted: the peer, the packet given to the transport, and success. */
  function SendEncrypted(p: Peer, data: Data, io: Io): (Peer, Option<Emission>, bool) {
    if !MaySend(p, data) then (p, None, false) else
    var nonce := p.session.nonce;
    var spent := p.(session := p.session.(nonce := nonce + 1));
    // crypto_encrypt_packet refuses a null plaintext
    if data.Null? || !io.encrypt then (spent, None, false) else
    var emission := if HasTransport(p) then Some(Emission(p.session.id, nonce)) else None;
    if HasTransport(p) && io.data then (spent.(lastSent := io.now), emission, true)
    else
      (LoseTransport(AfterFailure(spent, io), Later(io)), emission, false)
  }

  /** A failed TCP send: a full socket still updates last_sent, any other failure drops the connection. */
  function AfterFailure(p: Peer, io: Io): Peer {
    if p.transport != Tcp || !p.tcp.Up? then p
    else if io.clogged then p.(lastSent := io.now)
    else p.(tcp := Down)
  }

  /** Sending reaches a socket: the transport is set, and TCP is connected. */
  predicate HasTransport(p: Peer) { p.transport != Unset && (p.transport == Tcp ==> p.tcp.Up?) }

  /** rootstream_net_tcp_recv fails for a connected TCP peer, which ends its connection. */
  function LoseTcp(p: Peer, io: Io): Peer {
    if p.transport != Tcp || p.state != Connected then p
    else LoseTransport(if p.tcp.Up? then p.(tcp := Down) else p, io)
  }

  /** crypto_create_session on a peer; `id` names this call. */
  function CreateSession(p: Peer, id: nat, io: Io): (Peer, bool) {
    if io.createSession then (p.(session := Session(true, 0, id)), true) else (p, false)
  }

  /** The outcome of one packet or tick for one peer. */
  datatype Effect = Effect(peer: Peer, emitted: seq<Emission>)

  function Emitted(emission: Option<Emission>): seq<Emission> { if emission.Some? then [emission.value] else [] }

  function Send(p: Peer, data: Data, io: Io): Effect {
    var (p', emission, _) := SendEncrypted(p, data, io);
    Effect(p', Emitted(emission))
  }

  /** The PKT_HANDSHAKE branch; `id` names the session it may create. */
  function OnHandshake(p: Peer, payload: Handshake.Outcome, id: nat, isHost: bool, io: Io): Effect {
    match payload
    case TooSmall => Effect(p, [])
    case Unsupported(_) => Effect(p.(state := Disconnected), [])
    case Accepted(key, _, _, _) =>
      var (keyed, created) := CreateSession(p.(key := key), id, io);
      if !created then Effect(keyed.(state := Disconnected), []) else
      var (answered, sent) := SendHandshake(keyed.(state := HandshakeReceived), io);
      if !sent then Effect(answered, []) else
      var connected := answered.(state := Connected, streaming := answered.streaming || isHost);
      // a client asks for a keyframe with a five-byte control packet
      if isHost then Effect(connected, []) else Send(connected, Bytes(5), Later(io))
  }

  datatype Control = Pause | Resume | Disconnect | Other

  /** A received packet, parsed as far as the peer's fields depend on it. */
  datatype Packet =
    | HandshakePacket(payload: Handshake.Outcome)
    | ControlPacket(control: Control)
    | Media | Ping | Pong | Unknown

  function OnControl(p: Peer, control: Control): Peer {
    match control
    case Pause => p.(streaming := false)
    case Resume => p.(streaming := true)
    case Disconnect => p.(state := Disconnected, streaming := false)
    case Other => p
  }

  function OnPacket(p: Peer, packet: Packet, id: nat, isHost: bool, io: Io): Effect {
    var seen := p.(lastSeen := io.now, lastReceived := io.now);
    match packet
    case HandshakePacket(payload) => OnHandshake(seen, payload, id, isHost, io)
    case ControlPacket(control) =>
      Effect(if p.session.authenticated && io.decrypt then OnControl(seen, control) else seen, [])
    case Ping => Send(seen, Null, io)
    case Media | Pong | Unknown => Effect(seen, [])
  }

  /** The handshake half of rootstream_net_tick. */
  function TickHandshake(p: Peer, io: Io): Peer {
    if p.state != HandshakeSent then p else
    var retried := if Elapsed(io.now, p.handshakeSent) >= HANDSHAKE_RETRY then SendHandshake(p, io).0 else p;
    if Elapsed(io.now, retried.handshakeSent) >= PEER_TIMEOUT then retried.(state := Disconnected) else retried
  }

  /** One peer's turn in rootstream_net_tick. */
  function Tick(p: Peer, io: Io): Effect {
    var q := TickHandshake(p, io);
    if q.state != Connected then Effect(q, [])
    else if q.lastSeen > 0 && Elapsed(io.now, q.lastSeen) >= PEER_TIMEOUT
    then Effect(q.(state := Disconnected, streaming := false), [])
    else if Elapsed(io.now, q.lastSent) >= KEEPALIVE_INTERVAL then Send(q, Null, io)
    else Effect(q, [])
  }

  /** One peer's turn in check_peer_health (src/service.c:44-65). */
  function HealthCheck(p: Peer, io: Io): Peer {
    if p.state == Connected && p.lastReceived > 0 && Elapsed(io.now, p.lastReceived) > HEALTH_TIMEOUT
    then LoseTransport(p, Later(io)) else p
  }

  /** What every operation keeps: no peer is usable, or retried, without an authenticated session. */
  predicate Secure(p: Peer) {
    && (p.state == HandshakeReceived || p.state == Connected ==> p.session.authenticated)
    && (p.reconnect.Some? ==> p.session.authenticated)
  }

  lemma ReconnectKeepsSession(p: Peer, io: Io)
    ensures TryReconnect(p, io).0.session == p.session
    ensures p.reconnect.None? ==> TryReconnect(p, io).0 == p
    ensures Secure(p) ==> Secure(TryReconnect(p, io).0)
  {
  }

  /** Packets leave only through SendEncrypted, each with the counter's value, which it then passes. */
  ghost predicate Advances(p: Peer, e: Effect) {
    || (e.emitted == [] && e.peer.session.id == p.session.id && e.peer.session.authenticated == p.session.authenticated
        && e.peer.session.nonce >= p.session.nonce)
    || (e.emitted == [Emission(p.session.id, p.session.nonce)] && p.session.authenticated
        && e.peer.session == p.session.(nonce := p.session.nonce + 1))
  }

  lemma SendAdvances(p: Peer, data: Data, io: Io)
    requires Secure(p)
    ensures Secure(Send(p, data, io).peer) && Advances(p, Send(p, data, io))
  {
    hide TryReconnect;
    var spent := p.(session := p.session.(nonce := p.session.nonce + 1));
    ReconnectKeepsSession(AfterFailure(spent, io).(state := Disconnected), Later(io));
  }

  lemma TickAdvances(p: Peer, io: Io)
    requires Secure(p)
    ensures Secure(Tick(p, io).peer) && Advances(p, Tick(p, io))
  {
    hide Send, Elapsed;
    SendAdvances(TickHandshake(p, io), Null, io);
  }

  /** Whether a packet makes the receiver create a session. */
  predicate Opens(packet: Packet, io: Io) {
    packet.HandshakePacket? && packet.payload.Accepted? && io.createSession
  }

  /** A peer whose session has just been created under this id. */
  function WithSession(id: nat): Peer { BLANK.(session := Session(true, 0, id)) }

  /** An accepted handshake opens session `id`, in which any packet sent starts from nonce 0. */
  lemma {:induction false} PacketAdvances(p: Peer, packet: Packet, id: nat, isHost: bool, io: Io)
    requires Secure(p)
    ensures var e := OnPacket(p, packet, id, isHost, io);
            Secure(e.peer) && Advances(if Opens(packet, io) then WithSession(id) else p, e)
  {
    hide Send;
    var seen := p.(lastSeen := io.now, lastReceived := io.now);
    if Opens(packet, io) {
      var ready := seen.(key := packet.payload.key, session := Session(true, 0, id), state := HandshakeReceived);
      var (answered, _) := SendHandshake(ready, io);
      SendAdvances(answered.(state := Connected, streaming := answered.streaming || isHost), Bytes(5), Later(io));
    } else if packet.Ping? {
      SendAdvances(seen, Null, io);
    }
  }

  /** Keepalives never reach the wire: with no payload the encryption refuses, and only a nonce is spent. */
  lemma PingNeverSent(p: Peer, io: Io)
    ensures var spent := p.(session := p.session.(nonce := p.session.nonce + 1));
            Send(p, Null, io) == Effect(if MaySend(p, Null) then spent else p, [])
    ensures Tick(p, io).emitted == [] && OnPacket(p, Ping, 0, false, io).emitted == []
  {
  }

  /**
   * A packet goes to a socket exactly when the peer is ready and has a transport, the payload is not
   * NULL and encryption works; the sender learns of success only if it did.
   */
  lemma SendsIff(p: Peer, data: Data, io: Io)
    ensures Send(p, data, io).emitted != [] <==> MaySend(p, data) && data.Bytes? && io.encrypt && HasTransport(p)
    ensures SendEncrypted(p, data, io).2 ==> Send(p, data, io).emitted == [Emission(p.session.id, p.session.nonce)]
  {
    hide LoseTransport;
  }

  /**
   * A retried handshake: once the retry is sent, over UDP or the TCP fallback, the peer goes on
   * waiting if and only if the clock did not advance between the tick's reading and the handshake's;
   * otherwise the unsigned difference wraps and the peer is dropped on the spot.
   */
  lemma RetryWaitsIff(p: Peer, io: Io)
    requires p.state == HandshakeSent && SendHandshake(p, io).1 && Elapsed(io.now, p.handshakeSent) >= HANDSHAKE_RETRY
    requires io.now <= io.later < io.now + 60000 < U64
    ensures Tick(p, io).peer.state == (if io.later == io.now then HandshakeSent else Disconnected)
  {
    if io.later > io.now { assert Elapsed(io.now, io.later) == io.now - io.later + U64; }
  }

  /** Some clock and network for which a tick resends the handshake or drops the peer waiting for one. */
  ghost predicate MayMoveHandshake(p: Peer) { exists io :: TickHandshake(p, io) != p }

  /** A tick can resend or drop a handshake if and only if the peer is in HANDSHAKE_SENT. */
  lemma HandshakeMovesIff(p: Peer)
    ensures MayMoveHandshake(p) <==> p.state == HandshakeSent
  {
    if p.state == HandshakeSent {
      var now := p.handshakeSent + PEER_TIMEOUT;
      var io := Io(now, now, false, false, false, false, false, false, false, false, false, false);
      assert Elapsed(now, p.handshakeSent) == PEER_TIMEOUT;
      assert TickHandshake(p, io).state == Disconnected;
    }
  }

  ghost predicate MayMove(p: Peer) { exists io :: Tick(p, io).peer != p }

  /** Of the secure peers, ticks can ever touch exactly those in HANDSHAKE_SENT or CONNECTED. */
  lemma TickMovesIff(p: Peer)
    requires Secure(p)
    ensures MayMove(p) <==> p.state == HandshakeSent || p.state == Connected
  {
    if p.state == HandshakeSent {
      var now := p.handshakeSent + PEER_TIMEOUT;
      var io := Io(now, now, false, false, false, false, false, false, false, false, false, false);
      assert Elapsed(now, p.handshakeSent) == PEER_TIMEOUT;
      assert Tick(p, io).peer.state == Disconnected;
    } else if p.state == Connected {
      var now := (if p.lastSeen > 0 then p.lastSeen else p.lastSent) + PEER_TIMEOUT;
      var io := Io(now, now, false, false, false, false, false, false, false, false, false, false);
      assert Elapsed(now, now - PEER_TIMEOUT) == PEER_TIMEOUT;
      assert Tick(p, io).peer != p;
    }
  }
}
