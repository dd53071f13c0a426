/**
 * LEB128 as in libartbase/base/leb128.h: little-endian groups of seven bits, the top bit
 * of a byte saying that another byte follows. A decoder reads at most five bytes and
 * tolerates garbage in the top four bits of the fifth.
 */
module Leb128 {
  import opened Bytes

  /** The minimal unsigned encoding, written as mathematics rather than as shifts. */
  function Uleb(v: nat): (bs: seq<byte>)
    ensures |bs| >= 1
  {
    if v < 0x80 then [v] else [v % 0x80 + 0x80] + Uleb(v / 0x80)
  }

  /** The minimal signed encoding; division rounds down, as an arithmetic shift does. */
  function Sleb(v: int): (bs: seq<byte>)
    ensures |bs| >= 1
    decreases if v < 0 then -v else v
  {
    if -0x40 <= v < 0x40 then [v % 0x80] else [v % 0x80 + 0x80] + Sleb(v / 0x80)
  }

  method EncodeUnsigned(v: u32) returns (bs: seq<byte>)
    ensures bs == Uleb(v)
  {
    bs := [];
    ghost var rest: nat := v;
    var value: nat := v;
    var out := value % 0x80;
    value := value / 0x80;
    while value != 0
      invariant Uleb(v) == bs + Uleb(rest) && out == rest % 0x80 && value == rest / 0x80
    {
      rest := value;
      bs := bs + [out + 0x80];
      out := value % 0x80;
      value := value / 0x80;
    }
    bs := bs + [out];
  }

  method EncodeSigned(v: i32) returns (bs: seq<byte>)
    ensures bs == Sleb(v)
  {
    bs := [];
    var value: int := v;
    var extra := (if value < 0 then -value - 1 else value) / 0x40;
    var out := value % 0x80;
    while extra != 0
      invariant Sleb(v) == bs + Sleb(value) && out == value % 0x80
      invariant 0 <= extra == (if value < 0 then -value - 1 else value) / 0x40
      decreases extra
    {
      bs := bs + [out + 0x80];
      value := value / 0x80;
      out := value % 0x80;
      extra := extra / 0x80;
    }
    bs := bs + [out];
  }

  function Pow128(n: nat): (r: int)
    ensures r >= 1
  {
    if n == 0 then 1 else 0x80 * Pow128(n - 1)
  }

  lemma Powers()
    ensures Pow128(0) == 1 && Pow128(1) == 0x80 && Pow128(2) == 0x4000 && Pow128(3) == 0x20_0000
    ensures Pow128(4) == 0x1000_0000 && Pow128(5) == 0x8_0000_0000
  {
    assert Pow128(2) == 0x80 * Pow128(1);
    assert Pow128(3) == 0x80 * Pow128(2);
    assert Pow128(4) == 0x80 * Pow128(3);
  }

  /** How many bytes the number at `p` has, at most `most`; none if the data ends inside it. */
  function Width(s: seq<byte>, p: nat, most: nat): (n: Option<nat>)
    requires most >= 1
    decreases most
    ensures n.Some? ==> 1 <= n.value <= most && p + n.value <= |s|
  {
    if p >= |s| then None
    else if s[p] < 0x80 || most == 1 then Some(1)
    else
      var rest := Width(s, p + 1, most - 1);
      if rest.None? then None else Some(1 + rest.value)
  }

  /** The value of `n` groups of seven bits. */
  function Groups(s: seq<byte>, p: nat, n: nat): (v: int)
    requires p + n <= |s|
    decreases n
    ensures 0 <= v < Pow128(n)
  {
    if n == 0 then 0 else s[p] as int % 0x80 + 0x80 * Groups(s, p + 1, n - 1)
  }

  /** The value, cut to 32 bits, and the position after it; none when the data ends inside the number. */
  function DecodeUnsigned(s: seq<byte>, p: nat): (r: Option<(u32, nat)>)
    ensures r.Some? ==> p < r.value.1 <= p + 5 && r.value.1 <= |s|
  {
    var n := Width(s, p, 5);
    if n.None? then None else Some((Groups(s, p, n.value) % 0x1_0000_0000, p + n.value))
  }

  /** Half the number of values `n` groups can hold, 2^(7n - 1). */
  function HalfRange(n: nat): (r: int)
    requires n >= 1
    ensures 2 * r == Pow128(n)
  {
    0x40 * Pow128(n - 1)
  }

  /** Up to four groups are sign-extended from their own top bit, five fill all 32 bits. */
  function DecodeSigned(s: seq<byte>, p: nat): (r: Option<(i32, nat)>)
    ensures r.Some? ==> p < r.value.1 <= p + 5 && r.value.1 <= |s|
  {
    var n := Width(s, p, 5);
    if n.None? then None else
    var u := Groups(s, p, n.value);
    Powers();
    if n.value == 5 then Some((ToI32(u % 0x1_0000_0000), p + 5))
    else
      Some((if u < HalfRange(n.value) then u else u - Pow128(n.value), p + n.value))
  }

  lemma {:induction false} UlebAt(s: seq<byte>, p: nat, v: nat, most: nat)
    requires At(s, p, Uleb(v)) && |Uleb(v)| <= most
    ensures Width(s, p, most) == Some(|Uleb(v)|) && Groups(s, p, |Uleb(v)|) == v
    decreases v
  {
    if v < 0x80 {
    } else {
      AtConcat(s, p, [v % 0x80 + 0x80], Uleb(v / 0x80));
      UlebAt(s, p + 1, v / 0x80, most - 1);
    }
  }

  lemma {:induction false} UlebLength(v: nat, k: nat)
    requires k >= 1
    ensures |Uleb(v)| <= k <==> v < Pow128(k)
  {
    if k == 1 {
      assert Pow128(1) == 0x80;
    } else if v >= 0x80 {
      UlebLength(v / 0x80, k - 1);
    }
  }

  lemma UlebRoundTrip(s: seq<byte>, p: nat, v: u32)
    requires At(s, p, Uleb(v))
    ensures DecodeUnsigned(s, p) == Some((v, p + |Uleb(v)|))
  {
    Powers();
    UlebLength(v, 5);
    UlebAt(s, p, v, 5);
  }

  /** No byte string the decoder turns into `v` is shorter than the encoder's. */
  lemma UlebMinimal(s: seq<byte>, p: nat)
    requires DecodeUnsigned(s, p).Some?
    ensures |Uleb(DecodeUnsigned(s, p).value.0)| <= DecodeUnsigned(s, p).value.1 - p
  {
    var (v, q) := DecodeUnsigned(s, p).value;
    assert v <= Groups(s, p, q - p) < Pow128(q - p);
    UlebLength(v, q - p);
  }

  lemma {:induction false} SlebWidth(s: seq<byte>, p: nat, v: int, most: nat)
    requires At(s, p, Sleb(v)) && |Sleb(v)| <= most
    ensures Width(s, p, most) == Some(|Sleb(v)|)
    decreases most
  {
    if -0x40 <= v < 0x40 {
    } else {
      AtConcat(s, p, [v % 0x80 + 0x80], Sleb(v / 0x80));
      SlebWidth(s, p + 1, v / 0x80, most - 1);
    }
  }

  lemma {:induction false} SlebGroups(s: seq<byte>, p: nat, v: int)
    requires At(s, p, Sleb(v))
    ensures Groups(s, p, |Sleb(v)|) == if v < 0 then v + Pow128(|Sleb(v)|) else v
    decreases |Sleb(v)|
  {
    if -0x40 <= v < 0x40 {
      assert Groups(s, p + 1, 0) == 0 && Pow128(1) == 0x80;
    } else {
      AtConcat(s, p, [v % 0x80 + 0x80], Sleb(v / 0x80));
      SlebGroups(s, p + 1, v / 0x80);
      assert s[p] == v % 0x80 + 0x80;
    }
  }

  lemma {:induction false} SlebRange(v: int)
    ensures -HalfRange(|Sleb(v)|) <= v < HalfRange(|Sleb(v)|)
    decreases |Sleb(v)|
  {
    if -0x40 <= v < 0x40 {
      assert Pow128(0) == 1;
    } else {
      SlebRange(v / 0x80);
    }
  }

  lemma {:induction false} SlebLength(v: int, k: nat)
    requires k >= 1 && -HalfRange(k) <= v < HalfRange(k)
    ensures |Sleb(v)| <= k
    decreases k
  {
    if k == 1 {
      assert Pow128(0) == 1;
    } else if !(-0x40 <= v < 0x40) {
      assert Pow128(k - 1) == 0x80 * Pow128(k - 2);
      SlebLength(v / 0x80, k - 1);
    }
  }

  /** Cutting five groups to 32 bits loses nothing of a 32-bit number. */
  lemma FifthGroup(v: i32)
    ensures ToI32((if v < 0 then v + 0x8_0000_0000 else v) % 0x1_0000_0000) == v
  {
    if v < 0 {
      assert v + 0x8_0000_0000 == 7 * 0x1_0000_0000 + (v + 0x1_0000_0000);
    }
  }

  lemma SlebRoundTrip(s: seq<byte>, p: nat, v: i32)
    requires At(s, p, Sleb(v))
    ensures DecodeSigned(s, p) == Some((v, p + |Sleb(v)|))
  {
    Powers();
    SlebLength(v, 5);
    SlebWidth(s, p, v, 5);
    SlebGroups(s, p, v);
    SlebRange(v);
    FifthGroup(v);
  }

  /** The number of bits up to the highest that is set, at least one. */
  function Bits(v: nat): (n: nat)
    ensures n >= 1
  {
    if v < 2 then 1 else 1 + Bits(v / 2)
  }

  function Pow2(n: nat): (r: nat)
    ensures r >= 1
  {
    if n == 0 then 1 else 2 * Pow2(n - 1)
  }

  lemma {:induction false} BitsRange(v: nat, k: nat)
    requires k >= 1
    ensures Bits(v) <= k <==> v < Pow2(k)
  {
    if k == 1 {
      assert Pow2(1) == 2 * Pow2(0);
    } else if v >= 2 {
      BitsRange(v / 2, k - 1);
    } else {
      assert Pow2(k) == 2 * Pow2(k - 1);
    }
  }

  lemma {:induction false} SevenBits(k: nat)
    ensures Pow2(7 * k) == Pow128(k)
  {
    if k > 0 {
      SevenBits(k - 1);
      var n := 7 * (k - 1);
      assert Pow2(n + 2) == 4 * Pow2(n);
      assert Pow2(n + 4) == 4 * Pow2(n + 2);
      assert Pow2(n + 6) == 4 * Pow2(n + 4);
    }
  }

  /** The size of an encoding without encoding; division by seven is a multiplication and a shift. */
  function UnsignedLeb128Size(v: u32): (n: nat)
    ensures n == |Uleb(v)|
  {
    SizeIsLength(v);
    (6 + Bits(v)) * 37 / 0x100
  }

  lemma SizeIsLength(v: u32)
    ensures (6 + Bits(v)) * 37 / 0x100 == |Uleb(v)|
  {
    hide Bits, Uleb, Pow2, Pow128;
    Powers();
    SevenBits(1); SevenBits(2); SevenBits(3); SevenBits(4); SevenBits(5);
    BitsRange(v, 7); BitsRange(v, 14); BitsRange(v, 21); BitsRange(v, 28); BitsRange(v, 35);
    UlebLength(v, 1); UlebLength(v, 2); UlebLength(v, 3); UlebLength(v, 4); UlebLength(v, 5);
  }
}
