/** Machine integers, byte strings and the option type shared by every module. */
module Bytes {

  type byte = b: int | 0 <= b < 0x100
  type u16 = n: int | 0 <= n < 0x1_0000
  type u32 = n: int | 0 <= n < 0x1_0000_0000
  type i32 = n: int | -0x8000_0000 <= n < 0x8000_0000
  type u64 = n: int | 0 <= n < 0x1_0000_0000_0000_0000
  type i64 = n: int | -0x8000_0000_0000_0000 <= n < 0x8000_0000_0000_0000

  datatype Option<+T> = None | Some(value: T)

  /** `bs` is what `s` holds at position `p`. */
  ghost predicate At(s: seq<byte>, p: nat, bs: seq<byte>) {
    p + |bs| <= |s| && forall i {:trigger s[i]} :: p <= i < p + |bs| ==> s[i] == bs[i - p]
  }

  lemma AtSlice(s: seq<byte>, p: nat, bs: seq<byte>)
    ensures At(s, p, bs) <==> p + |bs| <= |s| && s[p..p + |bs|] == bs
  {
    if p + |bs| <= |s| && s[p..p + |bs|] == bs {
      forall i | p <= i < p + |bs| ensures s[i] == bs[i - p] { assert s[p..p + |bs|][i - p] == s[i]; }
    }
  }

  lemma AtConcat(s: seq<byte>, p: nat, a: seq<byte>, b: seq<byte>)
    ensures At(s, p, a + b) <==> At(s, p, a) && At(s, p + |a|, b)
  {
    if At(s, p, a) && At(s, p + |a|, b) {
      forall i | p <= i < p + |a + b| ensures s[i] == (a + b)[i - p] {}
    }
  }

  lemma AtLength(s: seq<byte>, p: nat, bs: seq<byte>)
    requires At(s, p, bs)
    ensures p + |bs| <= |s|
  {
  }

  /** 2^(8n), the number of values n bytes can hold. */
  function Pow256(n: nat): (r: nat)
    ensures r >= 1
  {
    if n == 0 then 1 else 0x100 * Pow256(n - 1)
  }

  /** The little-endian value of a byte string. */
  function LittleEndian(bs: seq<byte>): (r: nat)
    ensures r < Pow256(|bs|)
  {
    if bs == [] then 0 else bs[0] + 0x100 * LittleEndian(bs[1..])
  }

  function LE16(v: u16): (r: seq<byte>)
    ensures |r| == 2
  {
    [v % 0x100, v / 0x100]
  }

  function LE32(v: u32): (r: seq<byte>)
    ensures |r| == 4
  {
    [v % 0x100, v / 0x100 % 0x100, v / 0x1_0000 % 0x100, v / 0x100_0000]
  }

  /** The 32-bit word stored at position `p`. */
  function ReadU32(s: seq<byte>, p: nat): (r: u32)
    requires p + 4 <= |s|
  {
    s[p] as int + 0x100 * (s[p + 1] as int) + 0x1_0000 * (s[p + 2] as int) + 0x100_0000 * (s[p + 3] as int)
  }

  lemma LE32RoundTrip(s: seq<byte>, p: nat, v: u32)
    requires At(s, p, LE32(v))
    ensures ReadU32(s, p) == v
  {
    assert s[p] == LE32(v)[0] && s[p + 1] == LE32(v)[1] && s[p + 2] == LE32(v)[2] && s[p + 3] == LE32(v)[3];
    var a, b := v / 0x100, v / 0x1_0000;
    assert b == a / 0x100 && v / 0x100_0000 == b / 0x100;
  }

  /** Converting a 32-bit pattern to a signed number. */
  function ToI32(n: u32): i32 {
    if n < 0x8000_0000 then n else n - 0x1_0000_0000
  }
}
