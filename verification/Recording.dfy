/** The RSTR recording file: written frame by frame, read back even when cut short (src/recording.c). */
module Recording {
  import opened Bytes
  import opened Wrappers

  const MAGIC: nat := 0x52535452
  const VERSION: nat := 1
  const FILE_HEADER: nat := 64
  const FRAME_HEADER: nat := 16

  datatype Header = Header(width: nat, height: nat, codec: nat, fps: nat, startTime: nat) {
    predicate Fits() { width < U32 && height < U32 && codec < U32 && fps < U32 && startTime < U64 }
  }

  /** A frame as it is read back: the flag byte is 1 for a keyframe and 0 otherwise. */
  datatype StoredFrame = StoredFrame(timestamp: nat, data: seq<byte>, isKeyframe: bool) {
    predicate Fits() { 0 < |data| < U32 && timestamp < U64 }
  }

  function EncodeHeader(h: Header): (bytes: seq<byte>)
    ensures |bytes| == FILE_HEADER
  {
    LE(MAGIC, 4) + LE(VERSION, 4) + LE(h.width, 4) + LE(h.height, 4) + LE(h.codec, 4) + LE(h.fps, 4)
    + LE(h.startTime, 8) + LE(0, 32)
  }

  /** A packed rstr_frame_header_t. */
  function FrameHeader(timestamp: nat, size: nat, isKeyframe: bool): (bytes: seq<byte>)
    ensures |bytes| == FRAME_HEADER
  {
    LE(timestamp, 8) + LE(size, 4) + [if isKeyframe then 1 else 0] + [0, 0, 0]
  }

  function EncodeFrame(f: StoredFrame): (bytes: seq<byte>)
    ensures |bytes| == FRAME_HEADER + |f.data|
  {
    FrameHeader(f.timestamp, |f.data|, f.isKeyframe) + f.data
  }

  function EncodeFrames(frames: seq<StoredFrame>): seq<byte> {
    if frames == [] then [] else EncodeFrame(frames[0]) + EncodeFrames(frames[1..])
  }

  /** The recording side: an open file and the counters of recording_ctx_t. */
  class Recorder {
    var file: seq<byte>
    var active: bool
    var frameCount: nat
    var bytesWritten: nat
    /** What has been recorded. */
    ghost const header: Header
    ghost var frames: seq<StoredFrame>

    ghost predicate Valid()
      reads this
    {
      && file == EncodeHeader(header) + EncodeFrames(frames)
      && frameCount == |frames| && bytesWritten == |EncodeFrames(frames)|
    }

    constructor Init(header: Header)
      ensures Valid() && this.header == header && frames == [] && active
    {
      this.header := header;
      file, active, frameCount, bytesWritten, frames := EncodeHeader(header), true, 0, 0, [];
    }

    method WriteFrame(data: seq<byte>, timestamp: nat, isKeyframe: bool) returns (result: int)
      requires Valid()
      modifies this
      ensures Valid() && active == old(active)
      ensures result == if active && data != [] then 0 else -1
      ensures frames == old(frames) + if result == 0 then [StoredFrame(timestamp, data, isKeyframe)] else []
    {
      if !active || data == [] { return -1; }
      hide EncodeHeader, FrameHeader, EncodeFrames;
      ghost var frame := StoredFrame(timestamp, data, isKeyframe);
      EncodeAppend(frames, frame);
      Regroup(EncodeHeader(header), EncodeFrames(frames), FrameHeader(timestamp, |data|, isKeyframe), data);
      file := file + FrameHeader(timestamp, |data|, isKeyframe);
      file := file + data;
      frameCount := frameCount + 1;
      bytesWritten := bytesWritten + |data| + FRAME_HEADER;
      frames := frames + [frame];
      return 0;
    }
  }

  lemma Regroup(a: seq<byte>, b: seq<byte>, c: seq<byte>, d: seq<byte>)
    ensures ((a + b) + c) + d == a + (b + (c + d))
  {
  }

  /** Read, with the bytes left over; EndOfFile returns 1 and Bad returns -1. */
  datatype Outcome = Read(frame: StoredFrame, rest: seq<byte>) | EndOfFile | Bad(rest: seq<byte>)

  /** rstr_read_header on the bytes of a file. */
  function DecodeHeader(bytes: seq<byte>): Option<Header> {
    if |bytes| < FILE_HEADER || FromLE(bytes[..4]) != MAGIC || FromLE(bytes[4..8]) != VERSION then None
    else Some(Header(FromLE(bytes[8..12]), FromLE(bytes[12..16]), FromLE(bytes[16..20]), FromLE(bytes[20..24]),
                     FromLE(bytes[24..32])))
  }

  /** rstr_read_frame on the bytes not read yet. */
  function DecodeFrame(bytes: seq<byte>, bufferSize: nat): Outcome {
    if bytes == [] then EndOfFile
    else if |bytes| < FRAME_HEADER then Bad([])
    else
      var size := FromLE(bytes[8..12]);
      var body := bytes[FRAME_HEADER..];
      if size > bufferSize then Bad(body)
      else if |body| < size then Bad([])
      else Read(StoredFrame(FromLE(bytes[..8]), body[..size], bytes[12] == 1), body[size..])
  }

  /** The reading side: a file and a position that read() advances. */
  class Reader {
    const file: seq<byte>
    var pos: nat

    ghost predicate Valid() reads this { pos <= |file| }
    function Rest(): seq<byte>
      requires pos <= |file|
      reads this
    {
      file[pos..]
    }

    constructor (file: seq<byte>)
      ensures Valid() && Rest() == file
    {
      this.file, pos := file, 0;
    }

    /** read(): at most `count` bytes, fewer only at the end of the file. */
    method ReadBytes(count: nat) returns (bytes: seq<byte>)
      requires Valid()
      modifies this
      ensures Valid() && bytes + Rest() == old(Rest())
      ensures |bytes| == if count <= |old(Rest())| then count else |old(Rest())|
    {
      var n := if count <= |file| - pos then count else |file| - pos;
      bytes := file[pos..pos + n];
      pos := pos + n;
    }

    method ReadHeader() returns (header: Option<Header>)
      requires Valid()
      modifies this
      ensures Valid() && header == DecodeHeader(old(Rest()))
      ensures header.Some? ==> Rest() == old(Rest())[FILE_HEADER..]
    {
      ghost var rest := Rest();
      var bytes := ReadBytes(FILE_HEADER);
      if |bytes| != FILE_HEADER { return None; }
      assert bytes == rest[..FILE_HEADER];
      assert bytes[..4] == rest[..4] && bytes[4..8] == rest[4..8];
      assert bytes[8..12] == rest[8..12] && bytes[12..16] == rest[12..16];
      assert bytes[16..20] == rest[16..20] && bytes[20..24] == rest[20..24] && bytes[24..32] == rest[24..32];
      if FromLE(bytes[..4]) != MAGIC { return None; }
      if FromLE(bytes[4..8]) != VERSION { return None; }
      return Some(Header(FromLE(bytes[8..12]), FromLE(bytes[12..16]), FromLE(bytes[16..20]), FromLE(bytes[20..24]),
                         FromLE(bytes[24..32])));
    }

    /** Codes 0, 1 and -1 as in the original; the frame is meaningful on 0. */
    method ReadFrame(bufferSize: nat) returns (code: int, frame: StoredFrame)
      requires Valid()
      modifies this
      ensures Valid()
      ensures match DecodeFrame(old(Rest()), bufferSize)
              case EndOfFile => code == 1 && Rest() == []
              case Bad(rest) => code == -1 && Rest() == rest
              case Read(f, rest) => code == 0 && frame == f && Rest() == rest
    {
      ghost var rest := Rest();
      frame := StoredFrame(0, [], false);
      var header := ReadBytes(FRAME_HEADER);
      if |header| == 0 { return 1, frame; }
      if |header| != FRAME_HEADER { return -1, frame; }
      assert header == rest[..FRAME_HEADER] && Rest() == rest[FRAME_HEADER..];
      assert header[..8] == rest[..8] && header[8..12] == rest[8..12];
      var size := FromLE(header[8..12]);
      if size > bufferSize { return -1, frame; }
      ghost var body := Rest();
      var data := ReadBytes(size);
      if |data| != size { return -1, frame; }
      assert data == body[..size] && Rest() == body[size..];
      frame := StoredFrame(FromLE(header[..8]), data, header[12] == 1);
      return 0, frame;
    }
  }

  /** How reading a file ends: at its end, or at bytes that are no complete frame. */
  datatype End = Clean | Broken

  function ReadAll(bytes: seq<byte>, bufferSize: nat): (seq<StoredFrame>, End)
    decreases |bytes|
  {
    match DecodeFrame(bytes, bufferSize)
    case EndOfFile => ([], Clean)
    case Bad(_) => ([], Broken)
    case Read(frame, rest) => var (frames, end) := ReadAll(rest, bufferSize); ([frame] + frames, end)
  }

  /** The number of frames that lie wholly within the first n bytes. */
  function WholeFrames(frames: seq<StoredFrame>, n: nat): (k: nat)
    ensures k <= |frames|
  {
    if frames == [] || |EncodeFrame(frames[0])| > n then 0
    else 1 + WholeFrames(frames[1..], n - |EncodeFrame(frames[0])|)
  }

  lemma FrameRoundTrip(frame: StoredFrame, rest: seq<byte>, bufferSize: nat)
    requires frame.Fits() && |frame.data| <= bufferSize
    ensures DecodeFrame(EncodeFrame(frame) + rest, bufferSize) == Read(frame, rest)
  {
    hide LE, FromLE;
    var bytes := EncodeFrame(frame) + rest;
    assert bytes[..8] == LE(frame.timestamp, 8) && bytes[8..12] == LE(|frame.data|, 4);
    assert bytes[FRAME_HEADER..] == frame.data + rest;
    FieldWidths();
    LERoundTrip(frame.timestamp, 8);
    LERoundTrip(|frame.data|, 4);
  }

  /** A frame cut short anywhere but before its first byte is refused. */
  lemma CutFrameRefused(frame: StoredFrame, n: nat, bufferSize: nat)
    requires frame.Fits() && |frame.data| <= bufferSize && n < |EncodeFrame(frame)|
    ensures DecodeFrame(EncodeFrame(frame)[..n], bufferSize) == if n == 0 then EndOfFile else Bad([])
  {
    hide LE, FromLE;
    var bytes := EncodeFrame(frame)[..n];
    if n >= FRAME_HEADER {
      var header := FrameHeader(frame.timestamp, |frame.data|, frame.isKeyframe);
      assert header[8..12] == LE(|frame.data|, 4);
      assert bytes[..FRAME_HEADER] == header && bytes[8..12] == bytes[..FRAME_HEADER][8..12];
      assert bytes[8..12] == LE(|frame.data|, 4);
      FieldWidths();
      LERoundTrip(|frame.data|, 4);
    }
  }

  lemma NothingLeft(bufferSize: nat)
    ensures DecodeFrame([], bufferSize) == EndOfFile
  {
  }

  lemma {:induction false} CutFrames(frames: seq<StoredFrame>, n: nat, bufferSize: nat)
    requires forall f :: f in frames ==> f.Fits() && |f.data| <= bufferSize
    requires n <= |EncodeFrames(frames)|
    ensures var k := WholeFrames(frames, n);
            var end := if n == |EncodeFrames(frames[..k])| then Clean else Broken;
            ReadAll(EncodeFrames(frames)[..n], bufferSize) == (frames[..k], end)
  {
    hide DecodeFrame, EncodeFrame;
    var bytes := EncodeFrames(frames)[..n];
    if frames == [] {
      NothingLeft(bufferSize);
      assert frames[..0] == [];
    } else {
      var first, size := EncodeFrame(frames[0]), |EncodeFrame(frames[0])|;
      if size > n {
        assert bytes == first[..n];
        CutFrameRefused(frames[0], n, bufferSize);
        assert frames[..0] == [];
      } else {
        assert bytes == first + EncodeFrames(frames[1..])[..n - size];
        FrameRoundTrip(frames[0], EncodeFrames(frames[1..])[..n - size], bufferSize);
        CutFrames(frames[1..], n - size, bufferSize);
        var k := WholeFrames(frames[1..], n - size);
        assert frames[..k + 1] == [frames[0]] + frames[1..][..k];
        assert frames[..k + 1][1..] == frames[1..][..k];
      }
    }
  }

  lemma HeaderRoundTrip(header: Header, rest: seq<byte>)
    requires header.Fits()
    ensures DecodeHeader(EncodeHeader(header) + rest) == Some(header)
    ensures (EncodeHeader(header) + rest)[FILE_HEADER..] == rest
  {
    hide LE, FromLE;
    var b := EncodeHeader(header) + rest;
    assert b[..4] == LE(MAGIC, 4) && b[4..8] == LE(VERSION, 4) && b[8..12] == LE(header.width, 4);
    assert b[12..16] == LE(header.height, 4) && b[16..20] == LE(header.codec, 4) && b[20..24] == LE(header.fps, 4);
    assert b[24..32] == LE(header.startTime, 8);
    FieldWidths();
    LERoundTrip(MAGIC, 4); LERoundTrip(VERSION, 4); LERoundTrip(header.width, 4); LERoundTrip(header.height, 4);
    LERoundTrip(header.codec, 4); LERoundTrip(header.fps, 4); LERoundTrip(header.startTime, 8);
  }

  /**
   * Wherever a recording is cut after its header, reading it returns the header and exactly the
   * frames wholly before the cut, then end-of-file if the cut is between frames and an error otherwise.
   */
  lemma {:induction false} CutRecording(header: Header, frames: seq<StoredFrame>, cut: nat, bufferSize: nat)
    requires header.Fits() && forall f :: f in frames ==> f.Fits() && |f.data| <= bufferSize
    requires FILE_HEADER <= cut <= FILE_HEADER + |EncodeFrames(frames)|
    ensures var file := (EncodeHeader(header) + EncodeFrames(frames))[..cut];
            var k := WholeFrames(frames, cut - FILE_HEADER);
            && DecodeHeader(file) == Some(header)
            && ReadAll(file[FILE_HEADER..], bufferSize)
            == (frames[..k], if cut == FILE_HEADER + |EncodeFrames(frames[..k])| then Clean else Broken)
  {
    hide EncodeHeader, DecodeHeader, ReadAll;
    var kept := EncodeFrames(frames)[..cut - FILE_HEADER];
    assert (EncodeHeader(header) + EncodeFrames(frames))[..cut] == EncodeHeader(header) + kept;
    HeaderRoundTrip(header, kept);
    CutFrames(frames, cut - FILE_HEADER, bufferSize);
  }

  lemma {:induction false} AllWhole(frames: seq<StoredFrame>)
    ensures WholeFrames(frames, |EncodeFrames(frames)|) == |frames|
  {
    if frames != [] { AllWhole(frames[1..]); }
  }

  /** A complete recording reads back as it was written. */
  lemma {:induction false} RecordingRoundTrip(header: Header, frames: seq<StoredFrame>, bufferSize: nat)
    requires header.Fits() && forall f :: f in frames ==> f.Fits() && |f.data| <= bufferSize
    ensures var file := EncodeHeader(header) + EncodeFrames(frames);
            DecodeHeader(file) == Some(header) && ReadAll(file[FILE_HEADER..], bufferSize) == (frames, Clean)
  {
    hide EncodeHeader, DecodeHeader, EncodeFrames, EncodeFrame, ReadAll, WholeFrames;
    var file := EncodeHeader(header) + EncodeFrames(frames);
    AllWhole(frames);
    CutRecording(header, frames, |file|, bufferSize);
    assert file[..|file|] == file && frames[..|frames|] == frames;
  }

  /** Appending a frame to a recording appends it to what is read. */
  lemma {:induction false} EncodeAppend(frames: seq<StoredFrame>, frame: StoredFrame)
    ensures EncodeFrames(frames + [frame]) == EncodeFrames(frames) + EncodeFrame(frame)
  {
    hide EncodeFrame;
    if frames == [] {
      assert frames + [frame] == [frame] && EncodeFrames([frame]) == EncodeFrame(frame) + EncodeFrames([]);
    } else {
      EncodeAppend(frames[1..], frame);
      assert (frames + [frame])[1..] == frames[1..] + [frame];
    }
  }

  /** The bytes of the magic and the version. */
  lemma HeaderBytes()
    ensures LE(MAGIC, 4) == [0x52, 0x54, 0x53, 0x52] && LE(VERSION, 4) == [1, 0, 0, 0]
  {
    LEByte(MAGIC, 4, 0); LEByte(MAGIC, 4, 1); LEByte(MAGIC, 4, 2); LEByte(MAGIC, 4, 3);
    LEByte(VERSION, 4, 0); LEByte(VERSION, 4, 1); LEByte(VERSION, 4, 2); LEByte(VERSION, 4, 3);
    FieldWidths();
    assert Pow256(0) == 1 && Pow256(3) == 16777216;
  }

  /** Which files have a header, and what it says, byte by byte. */
  lemma HeaderMeans(bytes: seq<byte>)
    ensures DecodeHeader(bytes).Some? <==>
              |bytes| >= 64 && bytes[0..4] == [0x52, 0x54, 0x53, 0x52] && bytes[4..8] == [1, 0, 0, 0]
    ensures DecodeHeader(bytes).Some? ==>
              var h := DecodeHeader(bytes).value;
              && h.width == FromLE(bytes[8..12]) && h.height == FromLE(bytes[12..16])
              && h.codec == FromLE(bytes[16..20]) && h.fps == FromLE(bytes[20..24])
              && h.startTime == FromLE(bytes[24..32])
  {
    hide LE, FromLE;
    HeaderBytes();
    FieldWidths();
    LERoundTrip(MAGIC, 4);
    LERoundTrip(VERSION, 4);
    if |bytes| >= 64 {
      LEInverse(bytes[..4]);
      LEInverse(bytes[4..8]);
      assert bytes[0..4] == bytes[..4];
    }
  }

  /** Reading a header and writing it gives its first 32 bytes back. */
  lemma HeaderRewritten(bytes: seq<byte>)
    requires DecodeHeader(bytes).Some?
    ensures EncodeHeader(DecodeHeader(bytes).value)[..32] == bytes[..32]
  {
    hide LE, FromLE;
    var out := EncodeHeader(DecodeHeader(bytes).value);
    LEInverse(bytes[..4]); LEInverse(bytes[4..8]); LEInverse(bytes[8..12]); LEInverse(bytes[12..16]);
    LEInverse(bytes[16..20]); LEInverse(bytes[20..24]); LEInverse(bytes[24..32]);
    assert out[..4] == bytes[..4] && out[4..8] == bytes[4..8] && out[8..12] == bytes[8..12];
    assert out[12..16] == bytes[12..16] && out[16..20] == bytes[16..20] && out[20..24] == bytes[20..24];
    assert out[24..32] == bytes[24..32];
    Pieces(out);
    Pieces(bytes);
  }

  lemma Pieces(b: seq<byte>)
    requires |b| >= 32
    ensures b[..32] == b[..4] + b[4..8] + b[8..12] + b[12..16] + b[16..20] + b[20..24] + b[24..32]
  {
  }

  /** The ways a frame is not read, and what is read otherwise, byte by byte. */
  lemma FrameMeans(bytes: seq<byte>, bufferSize: nat)
    ensures var outcome := DecodeFrame(bytes, bufferSize);
            && (outcome.EndOfFile? <==> bytes == [])
            && (outcome.Read? <==>
                |bytes| >= 16 && FromLE(bytes[8..12]) <= bufferSize && |bytes| >= 16 + FromLE(bytes[8..12]))
            && (outcome.Read? ==>
                && outcome.frame.timestamp == FromLE(bytes[0..8]) && (outcome.frame.isKeyframe <==> bytes[12] == 1)
                && outcome.frame.data == bytes[16..16 + FromLE(bytes[8..12])]
                && outcome.rest == bytes[16 + FromLE(bytes[8..12])..])
  {
    hide FromLE;
  }

  /** The packed frame header, byte by byte, and the data behind it. */
  lemma FrameLayout(f: StoredFrame)
    requires f.Fits()
    ensures var b := EncodeFrame(f);
            && |b| == 16 + |f.data| && FromLE(b[0..8]) == f.timestamp && FromLE(b[8..12]) == |f.data|
            && b[12] == (if f.isKeyframe then 1 else 0) && b[13..16] == [0, 0, 0] && b[16..] == f.data
  {
    hide LE, FromLE;
    var b := EncodeFrame(f);
    FieldWidths();
    assert b[0..8] == LE(f.timestamp, 8) && b[8..12] == LE(|f.data|, 4);
    LERoundTrip(f.timestamp, 8);
    LERoundTrip(|f.data|, 4);
  }
}
