/** Bytes and the little-endian integers that the packed C structs are made of. */
module Bytes {

  type byte = x: int | 0 <= x < 256

  const U8: nat := 0x100
  const U16: nat := 0x1_0000
  const U32: nat := 0x1_0000_0000
  const U64: nat := 0x1_0000_0000_0000_0000

  /** The number of values an n-byte unsigned field can hold. */
  function Pow256(n: nat): (p: nat)
    ensures p > 0
  {
    if n == 0 then 1 else 256 * Pow256(n - 1)
  }

  /** The n bytes of a field holding v, least significant first; larger values are truncated. */
  function LE(v: nat, n: nat): (s: seq<byte>)
    ensures |s| == n
  {
    if n == 0 then [] else [v % 256] + LE(v / 256, n - 1)
  }

  /** The value held by a little-endian field. */
  function FromLE(s: seq<byte>): nat {
    if s == [] then 0 else s[0] + 256 * FromLE(s[1..])
  }

  /** A value that fits its field survives being stored and loaded. */
  lemma {:induction false} LERoundTrip(v: nat, n: nat)
    requires v < Pow256(n)
    ensures FromLE(LE(v, n)) == v
  {
    if n > 0 {
      LERoundTrip(v / 256, n - 1);
      assert LE(v, n)[1..] == LE(v / 256, n - 1);
    }
  }

  /** The order of the bytes: the i-th one counts 256^i. */
  lemma {:induction false} LEByte(v: nat, n: nat, i: nat)
    requires i < n
    ensures LE(v, n)[i] == v / Pow256(i) % 256
    decreases n
  {
    if i > 0 {
      LEByte(v / 256, n - 1, i - 1);
      DivTwice(v, Pow256(i - 1));
    }
  }

  lemma DivTwice(v: nat, p: nat)
    requires p > 0
    ensures v / 256 / p == v / (256 * p)
  {
    var q, r := v / 256 / p, (v / 256) % p;
    assert v == 256 * (q * p + r) + v % 256;
    assert v == q * (256 * p) + (256 * r + v % 256) by { assert 256 * (q * p) == q * (256 * p); }
    QuotientIs(v, q, 256 * r + v % 256, 256 * p);
  }

  lemma MulFar(d: int, n: nat)
    ensures d >= 1 ==> d * n >= n
    ensures d <= -1 ==> d * n <= 0 - n
  {
  }

  lemma QuotientIs(a: nat, q: nat, r: nat, n: nat)
    requires r < n && a == q * n + r
    ensures a / n == q && a % n == r
  {
    var d := a / n - q;
    assert a == (a / n) * n + a % n;
    assert (a / n) * n == q * n + d * n;
    MulFar(d, n);
  }

  /** A field determines its bytes. */
  lemma {:induction false} LEInverse(s: seq<byte>)
    ensures LE(FromLE(s), |s|) == s
  {
    if s != [] {
      LEInverse(s[1..]);
      assert FromLE(s) % 256 == s[0] && FromLE(s) / 256 == FromLE(s[1..]);
    }
  }

  /** The value of the short fields, byte by byte. */
  lemma SmallFields(s: seq<byte>)
    ensures |s| == 2 ==> FromLE(s) == (s[0] as int) + 256 * (s[1] as int)
    ensures |s| == 4 ==>
              FromLE(s) == (s[0] as int) + 256 * (s[1] as int) + 65536 * (s[2] as int) + 16777216 * (s[3] as int)
  {
    if |s| == 2 || |s| == 4 { assert s[1..][1..] == s[2..]; }
    if |s| == 4 { assert s[2..][1..] == s[3..] && s[3..][1..] == []; }
  }

  /** The field widths used by the wire and file formats. */
  lemma FieldWidths()
    ensures Pow256(1) == U8
    ensures Pow256(2) == U16
    ensures Pow256(4) == U32
    ensures Pow256(8) == U64
  {
  }
}
