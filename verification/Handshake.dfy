/** The plaintext handshake payload: public key, hostname, version and flags (src/network.c:495-541, 865-875). */
module Handshake {
  import opened Bytes
  import opened Wire

  const KEY: nat := 32
  const PAYLOAD_BUFFER: nat := 256
  const HOSTNAME_BUFFER: nat := 64
  const FLAGS: nat := 0

  datatype Outcome =
    | TooSmall
    | Unsupported(version: byte)
    | Accepted(key: seq<byte>, hostname: seq<byte>, version: byte, flags: byte)

  /** What rootstream_net_handshake sends; version and flags are left off when they would not fit. */
  function Build(key: seq<byte>, identity: seq<byte>): seq<byte> {
    var named := key + identity + [0];
    if |named| + 2 <= PAYLOAD_BUFFER then named + [VERSION, FLAGS] else named
  }

  /** The length of the hostname: the place of the first NUL from i on, or 0 when there is none. */
  function HostnameLength(payload: seq<byte>, i: nat): (length: nat)
    requires KEY + i <= |payload|
    ensures KEY + length <= |payload|
    decreases |payload| - i
  {
    if KEY + i == |payload| then 0
    else if payload[KEY + i] == 0 then i
    else HostnameLength(payload, i + 1)
  }

  function Parse(payload: seq<byte>): Outcome {
    if |payload| < KEY then TooSmall else
    var length := HostnameLength(payload, 0);
    var hostname := if 0 < length < HOSTNAME_BUFFER then payload[KEY..KEY + length] else [];
    var extensions := if |payload| > KEY + length then KEY + length + 1 else KEY;
    var version: byte := if |payload| >= extensions + 2 then payload[extensions] else VERSION;
    var flags: byte := if |payload| >= extensions + 2 then payload[extensions + 1] else 0;
    if version < MIN_VERSION || version > VERSION then Unsupported(version)
    else Accepted(payload[..KEY], hostname, version, flags)
  }

  /** The scan of the receiver, in its own form. */
  method ParsePayload(payload: seq<byte>) returns (outcome: Outcome)
    ensures outcome == Parse(payload)
  {
    if |payload| < KEY { return TooSmall; }
    var hostname: seq<byte> := [];
    var hostnameLength := 0;
    if |payload| > KEY {
      var maxLength := |payload| - KEY;
      var i := 0;
      while i < maxLength
        invariant i <= maxLength && hostnameLength == 0
        invariant HostnameLength(payload, 0) == HostnameLength(payload, i)
      {
        if payload[KEY + i] == 0 {
          hostnameLength := i;
          break;
        }
        i := i + 1;
      }
      if hostnameLength > 0 && hostnameLength < HOSTNAME_BUFFER {
        hostname := payload[KEY..KEY + hostnameLength];
      }
    }
    var extensions := KEY;
    if |payload| > KEY + hostnameLength { extensions := KEY + hostnameLength + 1; }
    var version: byte := VERSION;
    var flags: byte := 0;
    if |payload| >= extensions + 2 {
      version := payload[extensions];
      flags := payload[extensions + 1];
    }
    if version < MIN_VERSION || version > VERSION { return Unsupported(version); }
    return Accepted(payload[..KEY], hostname, version, flags);
  }

  lemma {:induction false} FirstNul(payload: seq<byte>, i: nat, length: nat)
    requires i <= length && KEY + length < |payload| && payload[KEY + length] == 0
    requires forall k :: KEY + i <= k < KEY + length ==> payload[k] != 0
    ensures HostnameLength(payload, i) == length
    decreases length - i
  {
    if i < length { FirstNul(payload, i + 1, length); }
  }

  /**
   * Whatever the identity of a device (up to 127 bytes), its peer recovers the key, the version and
   * the flags; it recovers the hostname exactly when that is at most 63 bytes long.
   */
  lemma HandshakeRoundTrip(key: seq<byte>, identity: seq<byte>)
    requires |key| == KEY && |identity| <= 127 && 0 !in identity
    ensures Build(key, identity) == key + identity + [0, 1, 0] && |Build(key, identity)| <= 256
    ensures var outcome := Parse(Build(key, identity));
            && outcome.Accepted? && outcome.key == key && outcome.version == 1 && outcome.flags == 0
            && (outcome.hostname == identity <==> |identity| <= 63)
            && (outcome.hostname == identity || outcome.hostname == [])
  {
    var payload := Build(key, identity);
    assert payload == key + identity + [0] + [VERSION, FLAGS];
    assert forall k :: KEY <= k < KEY + |identity| ==> payload[k] == identity[k - KEY];
    FirstNul(payload, 0, |identity|);
    assert payload[KEY..KEY + |identity|] == identity && payload[..KEY] == key;
  }

  /** A payload without version and flags is taken as version 1 with no flags. */
  lemma OldHandshakeAccepted(key: seq<byte>, identity: seq<byte>)
    requires |key| == KEY && 0 !in identity
    ensures Parse(key + identity + [0])
         == Accepted(key, if |identity| < HOSTNAME_BUFFER then identity else [], 1, 0)
  {
    var payload := key + identity + [0];
    assert forall k :: KEY <= k < KEY + |identity| ==> payload[k] == identity[k - KEY];
    FirstNul(payload, 0, |identity|);
    assert payload[KEY..KEY + |identity|] == identity && payload[..KEY] == key;
  }

  /** A payload shorter than a public key is refused. */
  lemma ShortHandshake(payload: seq<byte>)
    ensures Parse(payload).TooSmall? <==> |payload| < 32
  {
  }

  /** A payload with any hostname, version, flags and more behind: only version 1 is accepted. */
  lemma AnyVersion(key: seq<byte>, name: seq<byte>, version: byte, flags: byte, more: seq<byte>)
    requires |key| == 32 && 0 !in name
    ensures Parse(key + name + [0] + [version, flags] + more)
         == if version == 1 then Accepted(key, if |name| <= 63 then name else [], 1, flags) else Unsupported(version)
  {
    var payload := key + name + [0] + [version, flags] + more;
    assert forall k :: KEY <= k < KEY + |name| ==> payload[k] == name[k - KEY];
    FirstNul(payload, 0, |name|);
    assert payload[KEY..KEY + |name|] == name && payload[..KEY] == key;
  }

  lemma {:induction false} NoNul(payload: seq<byte>, i: nat)
    requires 32 + i <= |payload| && forall k :: 32 + i <= k < |payload| ==> payload[k] != 0
    ensures HostnameLength(payload, i) == 0
    decreases |payload| - i
  {
    if 32 + i < |payload| { NoNul(payload, i + 1); }
  }

  /**
   * Without a NUL there is no hostname, and the version is looked for one byte behind the key: from
   * three bytes on, the second and third are taken for version and flags.
   */
  lemma UnterminatedName(key: seq<byte>, name: seq<byte>)
    requires |key| == 32 && 0 !in name
    ensures |name| < 3 ==> Parse(key + name) == Accepted(key, [], 1, 0)
    ensures |name| >= 3 ==>
              Parse(key + name) == if name[1] == 1 then Accepted(key, [], 1, name[2]) else Unsupported(name[1])
  {
    var payload := key + name;
    assert forall k :: 32 <= k < |payload| ==> payload[k] == name[k - 32];
    NoNul(payload, 0);
    assert payload[..32] == key;
  }
}
