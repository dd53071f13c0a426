/**
 * Variable-width numbers of encoded values: the Encode*Value loops of
 * dexlayout/dex_writer.cc and ReadVarWidth of dexlayout/dex_ir_builder.cc.
 */
module VarWidth {
  import opened Bytes

  /** Fewest two's-complement bytes, low byte first. */
  function IntBytes(v: int): (bs: seq<byte>)
    ensures |bs| >= 1
    decreases if v < 0 then -v else v
  {
    if -0x80 <= v <= 0x7f then [v % 0x100] else [v % 0x100] + IntBytes(v / 0x100)
  }

  /** Fewest unsigned bytes, low byte first. */
  function UIntBytes(v: nat): (bs: seq<byte>)
    ensures |bs| >= 1
  {
    if v < 0x100 then [v] else [v % 0x100] + UIntBytes(v / 0x100)
  }

  /** All `w` bytes of `v`, low byte first. */
  function FixedBytes(v: nat, w: nat): (bs: seq<byte>)
    ensures |bs| == w
  {
    if w == 0 then [] else [v % 0x100] + FixedBytes(v / 0x100, w - 1)
  }

  /** The bytes of a `w`-byte pattern without its low zero bytes, but never none at all. */
  function RightFilled(v: nat, w: nat): (bs: seq<byte>)
    requires w >= 1
    ensures 1 <= |bs| <= w
  {
    if w > 1 && v % 0x100 == 0 then RightFilled(v / 0x100, w - 1) else FixedBytes(v, w)
  }

  /** `n` bytes hold exactly the signed numbers from -2^(8n-1) up to 2^(8n-1), so IntBytes uses the fewest. */
  lemma {:induction false} IntBytesFewest(v: int, n: nat)
    requires n >= 1
    ensures |IntBytes(v)| <= n <==> -0x80 * Pow256(n - 1) as int <= v < 0x80 * Pow256(n - 1)
    decreases n
  {
    if n > 1 && !(-0x80 <= v <= 0x7f) {
      IntBytesFewest(v / 0x100, n - 1);
      var half := 0x80 * Pow256(n - 2);
      assert 0x80 * Pow256(n - 1) == 0x100 * half;
    }
  }

  lemma {:induction false} UIntBytesFewest(v: nat, n: nat)
    requires n >= 1
    ensures |UIntBytes(v)| <= n <==> v < Pow256(n)
  {
    if n > 1 && v >= 0x100 {
      UIntBytesFewest(v / 0x100, n - 1);
    } else if n == 1 {
      assert Pow256(1) == 0x100 * Pow256(0);
    }
  }

  /** Read as an unsigned number, the bytes are the value modulo their range. */
  lemma {:induction false} IntBytesValue(v: int)
    ensures LittleEndian(IntBytes(v)) == if v < 0 then v + Pow256(|IntBytes(v)|) else v
    decreases if v < 0 then -v else v
  {
    if -0x80 <= v <= 0x7f {
      assert IntBytes(v)[1..] == [] && Pow256(1) == 0x100 * Pow256(0);
    } else {
      assert IntBytes(v)[1..] == IntBytes(v / 0x100);
      IntBytesValue(v / 0x100);
    }
  }

  lemma {:induction false} UIntBytesValue(v: nat)
    ensures LittleEndian(UIntBytes(v)) == v
  {
    if v < 0x100 {
      assert UIntBytes(v)[1..] == [];
    } else {
      assert UIntBytes(v)[1..] == UIntBytes(v / 0x100);
      UIntBytesValue(v / 0x100);
    }
  }

  lemma {:induction false} FixedBytesValue(v: nat, w: nat)
    requires v < Pow256(w)
    ensures LittleEndian(FixedBytes(v, w)) == v
  {
    if w > 0 {
      assert FixedBytes(v, w)[1..] == FixedBytes(v / 0x100, w - 1);
      FixedBytesValue(v / 0x100, w - 1);
    }
  }

  lemma {:induction false} FixedBytesOf(bs: seq<byte>)
    ensures FixedBytes(LittleEndian(bs), |bs|) == bs
  {
    if bs == [] {
      assert FixedBytes(LittleEndian(bs), 0) == [];
    } else {
      FixedBytesOf(bs[1..]);
      var v := LittleEndian(bs[1..]);
      assert LittleEndian(bs) == bs[0] as int + 0x100 * v;
      hide *;
      FixedBytesCons(bs[0], v, |bs| - 1);
      assert bs == [bs[0]] + bs[1..];
    }
  }

  lemma FixedBytesCons(b: byte, v: nat, w: nat)
    ensures FixedBytes(b as int + 0x100 * v, w + 1) == [b] + FixedBytes(v, w)
  {
    LowByte(b, v);
  }

  lemma LowByte(b: byte, v: nat)
    ensures (b as int + 0x100 * v) % 0x100 == b && (b as int + 0x100 * v) / 0x100 == v
  {
  }

  /** `x` shifted left by `e` bytes. */
  function ShiftBytes(x: nat, e: nat): (r: nat) {
    if e == 0 then x else 0x100 * ShiftBytes(x, e - 1)
  }

  lemma {:induction false} ShiftBound(x: nat, n: nat, e: nat)
    requires x < Pow256(n)
    ensures ShiftBytes(x, e) < Pow256(n + e)
  {
    if e > 0 {
      ShiftBound(x, n, e - 1);
    }
  }

  /** Putting the dropped zero bytes back recovers the pattern; all that could be dropped were. */
  lemma {:induction false} RightFilledValue(v: nat, w: nat)
    requires w >= 1 && v < Pow256(w)
    ensures var r := RightFilled(v, w); ShiftBytes(LittleEndian(r), w - |r|) == v && (|r| == 1 || r[0] != 0)
    decreases w
  {
    if w > 1 && v % 0x100 == 0 {
      RightFilledValue(v / 0x100, w - 1);
    } else {
      FixedBytesValue(v, w);
    }
  }

  /** And no other byte string does both. */
  lemma {:induction false} RightFilledUnique(v: nat, w: nat, r: seq<byte>)
    requires 1 <= |r| <= w && (|r| == 1 || r[0] != 0)
    requires ShiftBytes(LittleEndian(r), w - |r|) == v
    ensures RightFilled(v, w) == r
    decreases w
  {
    if |r| < w {
      var x := ShiftBytes(LittleEndian(r), w - 1 - |r|);
      RightFilledUnique(x, w - 1, r);
    } else {
      FixedBytesOf(r);
      assert w > 1 ==> v % 0x100 == r[0];
    }
  }

  method EncodeIntValue(v: int, buffer: array<byte>) returns (length: nat)
    requires buffer.Length == 8 && -0x8000_0000_0000_0000 <= v < 0x8000_0000_0000_0000
    modifies buffer
    ensures length <= 8 && buffer[..length] == IntBytes(v)
  {
    assert |IntBytes(v)| <= 8 by { BytePowers(); IntBytesFewest(v, 8); }
    hide IntBytes;
    length := 0;
    var value := v;
    if value >= 0 {
      while value > 0x7f
        invariant length <= 8 && value >= 0 && IntBytes(v) == buffer[..length] + IntBytes(value)
      {
        IntBytesStep(value);
        length := PutByte(buffer, length, value % 0x100);
        value := value / 0x100;
      }
    } else {
      while value < -0x80
        invariant length <= 8 && value < 0 && IntBytes(v) == buffer[..length] + IntBytes(value)
        decreases -value
      {
        IntBytesStep(value);
        length := PutByte(buffer, length, value % 0x100);
        value := value / 0x100;
      }
    }
    IntBytesStep(value);
    length := PutByte(buffer, length, value % 0x100);
  }

  method PutByte(buffer: array<byte>, length: nat, b: byte) returns (more: nat)
    requires length < buffer.Length
    modifies buffer
    ensures more == length + 1 && buffer[..more] == old(buffer[..length]) + [b]
  {
    buffer[length] := b;
    more := length + 1;
  }

  lemma IntBytesStep(v: int)
    ensures IntBytes(v) == if -0x80 <= v < 0x80 then [v % 0x100] else [v % 0x100] + IntBytes(v / 0x100)
  {
  }

  method EncodeUIntValue(v: u32, buffer: array<byte>) returns (length: nat)
    requires buffer.Length == 8
    modifies buffer
    ensures length <= 8 && buffer[..length] == UIntBytes(v)
  {
    assert |UIntBytes(v)| <= 4 by { BytePowers(); UIntBytesFewest(v, 4); }
    buffer[0] := v % 0x100;
    length := 1;
    var value: nat := v / 0x100;
    ghost var last: nat := v;
    while value != 0
      invariant 1 <= length <= 4 && value == last / 0x100
      invariant UIntBytes(v) == buffer[..length - 1] + UIntBytes(last) && buffer[length - 1] == last % 0x100
    {
      last := value;
      buffer[length] := value % 0x100;
      length := length + 1;
      value := value / 0x100;
    }
  }

  lemma {:induction false} ShiftAdd(x: nat, y: nat, e: nat)
    ensures ShiftBytes(x + y, e) == ShiftBytes(x, e) + ShiftBytes(y, e)
  {
    if e > 0 {
      ShiftAdd(x, y, e - 1);
    }
  }

  lemma {:induction false} ShiftTwice(x: nat, a: nat, b: nat)
    ensures ShiftBytes(ShiftBytes(x, a), b) == ShiftBytes(x, a + b)
    ensures ShiftBytes(x, a) == 0 ==> x == 0
  {
    if a > 0 {
      ShiftTwice(x, a - 1, 0);
    }
    if b > 0 {
      ShiftTwice(x, a, b - 1);
    }
  }

  /** The top byte of an `n + 1`-byte number, and what is below it. */
  lemma {:induction false} SplitTop(x: nat, n: nat) returns (low: nat, t: byte)
    requires x < Pow256(n + 1)
    ensures low < Pow256(n) && x == low + ShiftBytes(t, n)
  {
    if n == 0 {
      assert Pow256(1) == 0x100 * Pow256(0);
      low, t := 0, x;
    } else {
      low, t := SplitTop(x / 0x100, n - 1);
      low := 0x100 * low + x % 0x100;
    }
  }

  /** Shifting out the top byte of a 32- or 64-bit register. */
  lemma TopByte(low: nat, t: byte, w: nat)
    requires (w == 4 || w == 8) && low < Pow256(w - 1)
    ensures var cur := low + ShiftBytes(t, w - 1);
            cur / Pow256(w - 1) == t && 0x100 * cur % Pow256(w) == 0x100 * low && 0x100 * low < Pow256(w)
  {
    BytePowers();
    if w == 4 {
      assert ShiftBytes(t, 1) == 0x100 * ShiftBytes(t, 0);
      assert ShiftBytes(t, 2) == 0x100 * ShiftBytes(t, 1);
      assert ShiftBytes(t, 3) == 0x100_0000 * (t as int);
    } else {
      assert ShiftBytes(t, 1) == 0x100 * ShiftBytes(t, 0);
      assert ShiftBytes(t, 2) == 0x100 * ShiftBytes(t, 1);
      assert ShiftBytes(t, 3) == 0x100 * ShiftBytes(t, 2);
      assert ShiftBytes(t, 4) == 0x100 * ShiftBytes(t, 3);
      assert ShiftBytes(t, 5) == 0x100 * ShiftBytes(t, 4);
      assert ShiftBytes(t, 6) == 0x100 * ShiftBytes(t, 5);
      assert ShiftBytes(t, 7) == 0x100_0000_0000_0000 * (t as int);
    }
  }

  /** One turn of the loop: the register holds the `n + 1` low bytes not yet written, shifted to its top end. */
  lemma ShiftStep(low: nat, t: byte, n: nat, j: nat, w: nat)
    requires (w == 4 || w == 8) && n + j + 1 == w && low < Pow256(n)
    ensures var cur := ShiftBytes(low + ShiftBytes(t, n), j);
            && cur / Pow256(w - 1) == t
            && 0x100 * cur % Pow256(w) == ShiftBytes(low, j + 1)
  {
    ShiftAdd(low, ShiftBytes(t, n), j);
    ShiftTwice(t, n, j);
    ShiftBound(low, n, j);
    TopByte(ShiftBytes(low, j), t, w);
  }

  /** Moving byte `t` from the register to the front of what is written keeps the sum. */
  lemma MoveByte(written: seq<byte>, t: byte, n: nat)
    ensures ShiftBytes(t, n) + ShiftBytes(LittleEndian(written), n + 1) == ShiftBytes(LittleEndian([t] + written), n)
  {
    assert ([t] + written)[1..] == written;
    var x := LittleEndian(written);
    ShiftAdd(t, 0x100 * x, n);
    ShiftTwice(x, 1, n);
    assert ShiftBytes(x, 1) == 0x100 * ShiftBytes(x, 0);
  }

  /** `written` are the top bytes of `v`; the register holds the others, `rest`, at its top end. */
  ghost predicate Register(v: nat, w: nat, value: nat, written: seq<byte>, rest: nat) {
    && |written| <= w && rest < Pow256(w - |written|)
    && value == ShiftBytes(rest, |written|)
    && v == rest + ShiftBytes(LittleEndian(written), w - |written|)
  }

  lemma RegisterStep(v: nat, w: nat, value: nat, written: seq<byte>, rest: nat, top: nat,
                     full: nat) returns (rest': nat, t: byte)
    requires (w == 4 || w == 8) && |written| < w && Register(v, w, value, written, rest)
    requires top == Pow256(w - 1) && full == Pow256(w)
    ensures value / top == t
    ensures Register(v, w, 0x100 * value % full, [t] + written, rest')
    ensures value != 0 && 0x100 * value % full == 0 ==> t != 0
  {
    var j := |written|;
    var n := w - 1 - j;
    rest', t := SplitTop(rest, n);
    ShiftStep(rest', t, n, j, w);
    MoveByte(written, t, n);
    if t == 0 && ShiftBytes(rest', j + 1) == 0 {
      ShiftTwice(rest', j + 1, 0);
      ShiftZero(n);
      ShiftZero(j);
    }
  }

  lemma RegisterEmpty(v: nat, w: nat, written: seq<byte>, rest: nat)
    requires 1 <= |written| <= w && Register(v, w, 0, written, rest) && (|written| == 1 || written[0] != 0)
    ensures RightFilled(v, w) == written
  {
    ShiftTwice(rest, |written|, 0);
    RightFilledUnique(v, w, written);
  }

  /** EncodeFloatValue (`w` is 4) and EncodeDoubleValue (`w` is 8) on the bit pattern of the number. */
  method EncodeRightFilled(v: nat, w: nat, buffer: array<byte>) returns (length: nat)
    requires (w == 4 || w == 8) && v < Pow256(w) && buffer.Length == 8
    modifies buffer
    ensures 1 <= length <= w && buffer[w - length..w] == RightFilled(v, w)
  {
    var value: nat, index := v, w - 1;
    var top, full := Pow256(w - 1), Pow256(w);
    ghost var rest, written: seq<byte> := v, [];
    RegisterStart(v, w);
    while true
      invariant -1 <= index < w && |written| == w - 1 - index && written == buffer[index + 1..w]
      invariant index == w - 1 || value != 0
      invariant Register(v, w, value, written, rest)
      decreases index
    {
      if index == -1 {
        RegisterFull(v, w, value, written, rest);
        assert false;
      }
      ghost var t;
      rest, t := RegisterStep(v, w, value, written, rest, top, full);
      buffer[index] := value / top;
      written := [t] + written;
      index := index - 1;
      value := 0x100 * value % full;
      if value == 0 {
        RegisterEmpty(v, w, written, rest);
        break;
      }
    }
    length := w - 1 - index;
  }

  lemma RegisterStart(v: nat, w: nat)
    requires v < Pow256(w)
    ensures Register(v, w, v, [], v)
  {
    ShiftZero(w);
  }

  lemma RegisterFull(v: nat, w: nat, value: nat, written: seq<byte>, rest: nat)
    requires |written| == w && Register(v, w, value, written, rest)
    ensures value == 0
  {
    assert Pow256(0) == 1;
    ShiftZero(w);
  }

  lemma {:induction false} ShiftZero(e: nat)
    ensures ShiftBytes(0, e) == 0
  {
    if e > 0 {
      ShiftZero(e - 1);
    }
  }

  lemma BytePowers()
    ensures Pow256(1) == 0x100 && Pow256(2) == 0x1_0000 && Pow256(3) == 0x100_0000 && Pow256(4) == 0x1_0000_0000
    ensures Pow256(7) == 0x100_0000_0000_0000 && Pow256(8) == 0x1_0000_0000_0000_0000
  {
    assert Pow256(1) == 0x100 * Pow256(0);
    assert Pow256(2) == 0x100 * Pow256(1);
    assert Pow256(3) == 0x100 * Pow256(2);
    assert Pow256(4) == 0x100 * Pow256(3);
    assert Pow256(5) == 0x100 * Pow256(4);
    assert Pow256(6) == 0x100 * Pow256(5);
    assert Pow256(7) == 0x100 * Pow256(6);
    assert Pow256(8) == 0x100 * Pow256(7);
  }
}
