/** The packet format shared by every transport: a packed plaintext header and a sealed payload. */
module Wire {
  import opened Bytes
  import opened Wrappers

  const MAGIC: nat := 0x524F4F54
  const VERSION: nat := 1
  const MIN_VERSION: nat := 1
  const MAX_PACKET: nat := 1400
  const HEADER: nat := 34
  const MAC: nat := 16
  /** Room left for a plaintext payload (src/network.c:103-109). */
  const MAX_PLAIN: nat := MAX_PACKET - HEADER - MAC

  const VIDEO: nat := 2

  /** ChaCha20-Poly1305 as the code uses it; its strength is not modelled. */
  datatype Aead = Aead(
    encrypt: (seq<byte>, nat, seq<byte>) -> seq<byte>,
    decrypt: (seq<byte>, nat, seq<byte>) -> Option<seq<byte>>)

  ghost predicate Inverts(aead: Aead) {
    forall key, nonce, plain ::
      && |aead.encrypt(key, nonce, plain)| == |plain| + MAC
      && aead.decrypt(key, nonce, aead.encrypt(key, nonce, plain)) == Some(plain)
  }

  /** The header; its mac field is left as the allocator returned it. */
  function Header(kind: byte, nonce: nat, payloadSize: nat, mac: seq<byte>): (h: seq<byte>)
    requires |mac| == MAC
    ensures |h| == HEADER
  {
    LE(MAGIC, 4) + [VERSION] + [kind] + LE(0, 2) + LE(nonce, 8) + LE(payloadSize, 2) + mac
  }

  function Kind(packet: seq<byte>): byte requires |packet| >= HEADER { packet[5] }
  function Nonce(packet: seq<byte>): nat requires |packet| >= HEADER { FromLE(packet[8..16]) }
  function PayloadSize(packet: seq<byte>): nat requires |packet| >= HEADER { FromLE(packet[16..18]) }

  /** rootstream_net_validate_packet returning 0. */
  predicate Validate(packet: seq<byte>) {
    && |packet| >= HEADER
    && FromLE(packet[..4]) == MAGIC
    && MIN_VERSION <= packet[4] <= VERSION
    && PayloadSize(packet) <= |packet| - HEADER
  }

  /** The packet rootstream_net_send_encrypted builds, or None where it gives up. */
  function Seal(aead: Aead, key: seq<byte>, kind: byte, nonce: nat, mac: seq<byte>, plain: seq<byte>)
    : Option<seq<byte>>
    requires |mac| == MAC
  {
    if |plain| > MAX_PLAIN then None else
    var cipher := aead.encrypt(key, nonce, plain);
    Some(Header(kind, nonce, |cipher|, mac) + cipher)
  }

  /** What process_received_packet decrypts out of a packet. */
  function Open(aead: Aead, key: seq<byte>, packet: seq<byte>): Option<seq<byte>>
    requires |packet| >= HEADER
  {
    var size := PayloadSize(packet);
    if HEADER + size > |packet| then None else
    aead.decrypt(key, Nonce(packet), packet[HEADER..HEADER + size])
  }

  lemma HeaderFields(kind: byte, nonce: nat, payloadSize: nat, mac: seq<byte>, rest: seq<byte>)
    requires |mac| == MAC && nonce < U64 && payloadSize < U16
    ensures var p := Header(kind, nonce, payloadSize, mac) + rest;
            && FromLE(p[..4]) == MAGIC && p[4] == VERSION
            && Kind(p) == kind && Nonce(p) == nonce && PayloadSize(p) == payloadSize
  {
    hide LE, FromLE;
    var p := Header(kind, nonce, payloadSize, mac) + rest;
    assert p[..4] == LE(MAGIC, 4);
    assert p[8..16] == LE(nonce, 8);
    assert p[16..18] == LE(payloadSize, 2);
    FieldWidths();
    LERoundTrip(MAGIC, 4);
    LERoundTrip(nonce, 8);
    LERoundTrip(payloadSize, 2);
  }

  /** Every payload the sender does not refuse fits one packet, is accepted and is recovered. */
  lemma SealOpen(aead: Aead, key: seq<byte>, kind: byte, nonce: nat, mac: seq<byte>, plain: seq<byte>)
    requires Inverts(aead) && |mac| == MAC && nonce < U64
    ensures var sealed := Seal(aead, key, kind, nonce, mac, plain);
            && (sealed.Some? <==> |plain| <= 1350)
            && (sealed.Some? ==>
                  && |sealed.value| == |plain| + 50 <= MAX_PACKET
                  && Validate(sealed.value)
                  && Kind(sealed.value) == kind && Nonce(sealed.value) == nonce
                  && HEADER + PayloadSize(sealed.value) == |sealed.value|
                  && Open(aead, key, sealed.value) == Some(plain))
  {
    if |plain| <= MAX_PLAIN {
      var cipher := aead.encrypt(key, nonce, plain);
      FieldWidths();
      HeaderFields(kind, nonce, |cipher|, mac, cipher);
      var packet := Header(kind, nonce, |cipher|, mac) + cipher;
      assert packet[HEADER..HEADER + |cipher|] == cipher;
    }
  }

  /** The packed packet header, byte by byte. */
  lemma HeaderLayout(kind: byte, nonce: nat, payloadSize: nat, mac: seq<byte>)
    requires |mac| == 16 && nonce < U64 && payloadSize < U16
    ensures var h := Header(kind, nonce, payloadSize, mac);
            && |h| == 34
            && h[0..4] == [0x54, 0x4F, 0x4F, 0x52] && h[4] == 1 && h[5] == kind && h[6..8] == [0, 0]
            && FromLE(h[8..16]) == nonce && FromLE(h[16..18]) == payloadSize && h[18..34] == mac
  {
    hide LE, FromLE;
    var h := Header(kind, nonce, payloadSize, mac);
    assert h[0..4] == LE(MAGIC, 4) && h[6..8] == LE(0, 2) && h[8..16] == LE(nonce, 8);
    assert h[16..18] == LE(payloadSize, 2) && h[18..34] == mac;
    MagicBytes();
    FieldWidths();
    LERoundTrip(nonce, 8);
    LERoundTrip(payloadSize, 2);
  }

  lemma MagicBytes()
    ensures LE(MAGIC, 4) == [0x54, 0x4F, 0x4F, 0x52] && LE(0, 2) == [0, 0]
  {
    assert 0x524F4F54 / 256 == 0x524F4F && 0x524F4F / 256 == 0x524F && 0x524F / 256 == 0x52;
    LEByte(MAGIC, 4, 0); LEByte(MAGIC, 4, 1); LEByte(MAGIC, 4, 2); LEByte(MAGIC, 4, 3);
    FieldWidths();
    assert Pow256(0) == 1 && Pow256(3) == 16777216;
  }

  /** Which packets the validator accepts, byte by byte, and what their fields are. */
  lemma ValidateMeans(packet: seq<byte>)
    ensures Validate(packet) <==>
              && |packet| >= 34
              && packet[0..4] == [0x54, 0x4F, 0x4F, 0x52] && packet[4] == 1
              && (packet[16] as int) + 256 * (packet[17] as int) <= |packet| - 34
    ensures |packet| >= 34 ==>
              && Kind(packet) == packet[5] && Nonce(packet) == FromLE(packet[8..16])
              && PayloadSize(packet) == (packet[16] as int) + 256 * (packet[17] as int)
  {
    hide LE, FromLE;
    MagicBytes();
    FieldWidths();
    LERoundTrip(MAGIC, 4);
    if |packet| >= 34 {
      LEInverse(packet[..4]);
      SmallFields(packet[16..18]);
      assert packet[0..4] == packet[..4];
    }
  }
}
