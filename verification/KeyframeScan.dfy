/** The scan for a keyframe in an Annex B byte stream (src/vaapi_encoder.c:68-139). */
module KeyframeScan {
  import opened Bytes

  datatype Codec = H264 | H265

  /** The NAL header byte announces a keyframe: IDR in H.264; IDR_W_RADL, IDR_N_LP or CRA_NUT in H.265. */
  predicate IsKey(codec: Codec, header: byte) {
    match codec
    case H264 => header % 32 == 5
    case H265 => 19 <= (header / 2) % 64 <= 21
  }

  /** A start code prefix at j (Annex B of ITU-T H.264) followed by a keyframe NAL unit. */
  predicate KeyAt(codec: Codec, data: seq<byte>, j: nat) {
    j + 3 < |data| && data[j] == 0 && data[j + 1] == 0 && data[j + 2] == 1 && IsKey(codec, data[j + 3])
  }

  /** The unit at j goes on after its first byte, or its start code has the leading zero byte. */
  predicate Seen(data: seq<byte>, j: nat) {
    j + 4 < |data| || (0 < j <= |data| && data[j - 1] == 0)
  }

  /** detect_h264_keyframe and detect_h265_keyframe, which differ only in the test of the NAL header. */
  method Detect(codec: Codec, data: seq<byte>) returns (found: bool)
    ensures found <==> exists j: nat :: KeyAt(codec, data, j) && Seen(data, j)
  {
    var size := |data|;
    if size < 5 { return false; }
    var i := 0;
    while i < size - 4
      invariant forall j: nat :: j < i ==> !(KeyAt(codec, data, j) && Seen(data, j))
      invariant i > 0 && KeyAt(codec, data, i) ==> data[i - 1] != 0
    {
      var startCode3 := data[i] == 0 && data[i + 1] == 0 && data[i + 2] == 1;
      var startCode4 := data[i] == 0 && data[i + 1] == 0 && data[i + 2] == 0 && data[i + 3] == 1;
      if startCode3 || startCode4 {
        var nal := if startCode4 then i + 4 else i + 3;
        if IsKey(codec, data[nal]) {
          assert KeyAt(codec, data, nal - 3) && Seen(data, nal - 3);
          return true;
        }
        i := i + if startCode4 then 3 else 2;
      }
      i := i + 1;
    }
    return false;
  }

  /** The bare tail: the stream ends in 00 00 01 and one keyframe header, with no zero byte before. */
  predicate BareTail(codec: Codec, data: seq<byte>) {
    |data| >= 4 && KeyAt(codec, data, |data| - 4) && (|data| == 4 || data[|data| - 5] != 0)
  }

  /** The scan agrees with Annex B on every stream, except where the bare tail is the only keyframe. */
  lemma MissedIff(codec: Codec, data: seq<byte>, found: bool)
    requires found <==> exists j: nat :: KeyAt(codec, data, j) && Seen(data, j)
    ensures (found <==> exists j: nat :: KeyAt(codec, data, j)) <==>
            !(BareTail(codec, data) && forall j: nat :: KeyAt(codec, data, j) ==> j == |data| - 4)
  {
    if BareTail(codec, data) { assert !Seen(data, |data| - 4); }
    forall j: nat | KeyAt(codec, data, j) && !Seen(data, j) ensures BareTail(codec, data) && j == |data| - 4 {}
  }

  /** Such a stream exists: the scan does not see the keyframe that is all of it. */
  lemma MissedKeyframe()
    ensures var data: seq<byte> := [9, 0, 0, 1, 0x65];
            KeyAt(H264, data, 1) && !exists j: nat :: KeyAt(H264, data, j) && Seen(data, j)
  {
  }

  /** The header bytes of keyframes: the low five bits 5, or the six bits above the lowest from 19 to 21. */
  lemma KeyHeaders(header: byte)
    ensures IsKey(H264, header) <==> header in {5, 37, 69, 101, 133, 165, 197, 229}
    ensures IsKey(H265, header) <==> header in {38, 39, 40, 41, 42, 43, 166, 167, 168, 169, 170, 171}
  {
  }
}
