/**
 * Encoded values, arrays and annotations: WriteEncodedValue and its helpers in
 * dexlayout/dex_writer.cc, ReadEncodedValue in dexlayout/dex_ir_builder.cc.
 */
module Numbers {
  import opened Bytes
  import opened VarWidth

  type i8 = n: int | -0x80 <= n < 0x80
  type i16 = n: int | -0x8000 <= n < 0x8000

  datatype IdKind = MethodType | MethodHandle | String | Type | Field | Method | Enum

  /** The values that are one number: ids by their index, floating-point numbers by their bit pattern. */
  datatype Number =
    | Byte(b: i8)
    | Short(s: i16)
    | Char(c: u16)
    | Int(i: i32)
    | Long(l: i64)
    | Float(f: u32)
    | Double(d: u64)
    | Id(kind: IdKind, index: u32)

  function IdCode(k: IdKind): (r: nat)
    ensures 0x15 <= r <= 0x1b
  {
    match k
    case MethodType => 0x15
    case MethodHandle => 0x16
    case String => 0x17
    case Type => 0x18
    case Field => 0x19
    case Method => 0x1a
    case Enum => 0x1b
  }

  /** The type code in the low five bits of the header byte. */
  function Code(n: Number): (r: nat)
    ensures r < 0x1c
  {
    match n
    case Byte(_) => 0x00
    case Short(_) => 0x02
    case Char(_) => 0x03
    case Int(_) => 0x04
    case Long(_) => 0x06
    case Float(_) => 0x10
    case Double(_) => 0x11
    case Id(k, _) => IdCode(k)
  }

  /** The bytes after the header. */
  function Payload(n: Number): (bs: seq<byte>)
    ensures |bs| >= 1
  {
    match n
    case Byte(x) => IntBytes(x)
    case Short(x) => IntBytes(x)
    case Char(x) => UIntBytes(x)
    case Int(x) => IntBytes(x)
    case Long(x) => IntBytes(x)
    case Float(x) => RightFilled(x, 4)
    case Double(x) => RightFilled(x, 8)
    case Id(_, x) => UIntBytes(x)
  }

  /** The header carries the payload's length less one in its top three bits. */
  function EncodeNumber(n: Number): (bs: seq<byte>)
    ensures |bs| >= 2
  {
    [(0x20 * (|Payload(n)| - 1) + Code(n)) % 0x100] + Payload(n)
  }

  /** The header byte of each kind of number, as the format prescribes it. */
  lemma HeaderByte(n: Number)
    ensures |Payload(n)| <= 8
    ensures EncodeNumber(n)[0] / 0x20 == |Payload(n)| - 1
    ensures EncodeNumber(n)[0] % 0x20
            == match n
               case Byte(_) => 0x00
               case Short(_) => 0x02
               case Char(_) => 0x03
               case Int(_) => 0x04
               case Long(_) => 0x06
               case Float(_) => 0x10
               case Double(_) => 0x11
               case Id(MethodType, _) => 0x15
               case Id(MethodHandle, _) => 0x16
               case Id(String, _) => 0x17
               case Id(Type, _) => 0x18
               case Id(Field, _) => 0x19
               case Id(Method, _) => 0x1a
               case Id(Enum, _) => 0x1b
  {
    PayloadLength(n);
    hide Payload;
  }

  /** `length` is the header argument, one less than the number of bytes. */
  function ReadVarWidth(s: seq<byte>, p: nat, length: nat, signExtend: bool): (r: int)
    requires p + length + 1 <= |s|
    ensures !signExtend ==> 0 <= r < Pow256(length + 1)
  {
    var u := LittleEndian(s[p..p + length + 1]);
    if signExtend && u >= 0x80 * Pow256(length) then u - Pow256(length + 1) else u
  }

  /** Conversions to the narrower integer types keep the low bits. */
  function ToI8(x: int): i8 { var m := x % 0x100; if m < 0x80 then m else m - 0x100 }
  function ToI16(x: int): i16 { var m := x % 0x1_0000; if m < 0x8000 then m else m - 0x1_0000 }
  function ToI64(x: int): i64 {
    var m := x % 0x1_0000_0000_0000_0000; if m < 0x8000_0000_0000_0000 then m else m - 0x1_0000_0000_0000_0000
  }

  predicate IsNumber(code: nat) {
    code == 0x00 || 0x02 <= code <= 0x04 || code == 0x06 || code == 0x10 || code == 0x11 || 0x15 <= code <= 0x1b
  }

  function IdOf(code: nat, index: u32): (n: Number)
    requires 0x15 <= code <= 0x1b
    ensures Code(n) == code && n.Id? && n.index == index
  {
    Id(match code case 0x15 => MethodType case 0x16 => MethodHandle case 0x17 => String case 0x18 => Type
       case 0x19 => Field case 0x1a => Method case _ => Enum, index)
  }

  /**
   * The number with type code `code` in the `length + 1` bytes at `p`; none when the data ends
   * too early. A float of more than four bytes would shift by a negative amount.
   */
  function ReadNumber(s: seq<byte>, p: nat, code: nat, length: nat): (r: Option<Number>)
    requires IsNumber(code) && length < 8
    ensures r.Some? ==> Code(r.value) == code && p + length + 1 <= |s|
  {
    if p + length + 1 > |s| || (code == 0x10 && length > 3) then None
    else if code == 0x00 then Some(Byte(ToI8(ReadVarWidth(s, p, length, false))))
    else if code == 0x02 then Some(Short(ToI16(ReadVarWidth(s, p, length, true))))
    else if code == 0x03 then Some(Char(ReadVarWidth(s, p, length, false) % 0x1_0000))
    else if code == 0x04 then Some(Int(ToI32(ReadVarWidth(s, p, length, true) % 0x1_0000_0000)))
    else if code == 0x06 then Some(Long(ToI64(ReadVarWidth(s, p, length, true))))
    else if code == 0x10 then Some(Float(ShiftBytes(ReadVarWidth(s, p, length, false), 3 - length) % 0x1_0000_0000))
    else if code == 0x11 then
      Some(Double(ShiftBytes(ReadVarWidth(s, p, length, false), 7 - length) % 0x1_0000_0000_0000_0000))
    else Some(IdOf(code, ReadVarWidth(s, p, length, false) % 0x1_0000_0000))
  }

  lemma Narrow(n: int)
    ensures -0x80 <= n < 0x80 ==> ToI8(n) == n && ToI8(n + 0x100) == n
    ensures -0x8000 <= n < 0x8000 ==> ToI16(n) == n
    ensures -0x8000_0000 <= n < 0x8000_0000 ==> ToI32(n % 0x1_0000_0000) == n
    ensures -0x8000_0000_0000_0000 <= n < 0x8000_0000_0000_0000 ==> ToI64(n) == n
  {
  }

  /** Sign extension undoes the encoding of a signed number. */
  lemma SignedRoundTrip(s: seq<byte>, p: nat, v: int)
    requires At(s, p, IntBytes(v))
    ensures ReadVarWidth(s, p, |IntBytes(v)| - 1, true) == v
  {
    AtSlice(s, p, IntBytes(v));
    IntBytesValue(v);
    var n := |IntBytes(v)|;
    IntBytesFewest(v, n);
    assert Pow256(n) == 0x100 * Pow256(n - 1);
  }

  lemma UnsignedRoundTrip(s: seq<byte>, p: nat, v: nat)
    requires At(s, p, UIntBytes(v))
    ensures ReadVarWidth(s, p, |UIntBytes(v)| - 1, false) == v
  {
    AtSlice(s, p, UIntBytes(v));
    UIntBytesValue(v);
  }

  lemma RightFilledRoundTrip(s: seq<byte>, p: nat, v: nat, w: nat)
    requires w >= 1 && v < Pow256(w) && At(s, p, RightFilled(v, w))
    ensures ShiftBytes(ReadVarWidth(s, p, |RightFilled(v, w)| - 1, false), w - |RightFilled(v, w)|) == v
  {
    AtSlice(s, p, RightFilled(v, w));
    RightFilledValue(v, w);
  }

  lemma PayloadLength(n: Number)
    ensures |Payload(n)| <= 8
    ensures n.Byte? ==> |Payload(n)| == 1
    ensures n.Float? ==> |Payload(n)| <= 4
  {
    BytePowers();
    match n
    case Byte(x) => IntBytesFewest(x, 1);
    case Short(x) => IntBytesFewest(x, 8);
    case Char(x) => UIntBytesFewest(x, 8);
    case Int(x) => IntBytesFewest(x, 8);
    case Long(x) => IntBytesFewest(x, 8);
    case Float(x) =>
    case Double(x) =>
    case Id(_, x) => UIntBytesFewest(x, 8);
  }

  lemma SignedNumber(s: seq<byte>, p: nat, n: Number)
    requires (n.Short? || n.Int? || n.Long?) && At(s, p, Payload(n)) && |Payload(n)| <= 8
    ensures ReadNumber(s, p, Code(n), |Payload(n)| - 1) == Some(n)
  {
    hide IntBytes, ReadVarWidth, ShiftBytes, Pow256, ToI8, ToI16, ToI32, ToI64, IdOf, At;
    var x: int := if n.Short? then n.s else if n.Int? then n.i else n.l;
    AtLength(s, p, IntBytes(x));
    SignedRoundTrip(s, p, x);
    Narrow(x);
  }

  lemma ByteNumber(s: seq<byte>, p: nat, n: Number)
    requires n.Byte? && At(s, p, Payload(n))
    ensures |Payload(n)| == 1 && ReadNumber(s, p, Code(n), 0) == Some(n)
  {
    PayloadLength(n);
    AtSlice(s, p, IntBytes(n.b));
    IntBytesValue(n.b);
    assert Pow256(1) == 0x100 * Pow256(0);
    Narrow(n.b);
  }

  lemma FloatNumber(s: seq<byte>, p: nat, x: u32)
    requires At(s, p, RightFilled(x, 4))
    ensures ReadNumber(s, p, 0x10, |RightFilled(x, 4)| - 1) == Some(Float(x))
  {
    assert x < Pow256(4) by { BytePowers(); }
    AtLength(s, p, RightFilled(x, 4));
    hide At, RightFilled, ReadVarWidth, ShiftBytes, Pow256, ToI8, ToI16, ToI32, ToI64, IdOf, Code;
    RightFilledRoundTrip(s, p, x, 4);
    assert x % 0x1_0000_0000 == x;
  }

  lemma DoubleNumber(s: seq<byte>, p: nat, x: u64)
    requires At(s, p, RightFilled(x, 8))
    ensures ReadNumber(s, p, 0x11, |RightFilled(x, 8)| - 1) == Some(Double(x))
  {
    assert x < Pow256(8) by { BytePowers(); }
    AtLength(s, p, RightFilled(x, 8));
    hide At, RightFilled, ReadVarWidth, ShiftBytes, Pow256, ToI8, ToI16, ToI32, ToI64, IdOf, Code;
    RightFilledRoundTrip(s, p, x, 8);
    assert x % 0x1_0000_0000_0000_0000 == x;
  }

  lemma UnsignedNumber(s: seq<byte>, p: nat, n: Number)
    requires (n.Char? || n.Id?) && At(s, p, Payload(n)) && |Payload(n)| <= 8
    ensures ReadNumber(s, p, Code(n), |Payload(n)| - 1) == Some(n)
  {
    hide UIntBytes, ReadVarWidth, ShiftBytes, Pow256, ToI8, ToI16, ToI32, ToI64;
    UnsignedRoundTrip(s, p, if n.Char? then n.c else n.index);
  }

  lemma NumberRoundTrip(s: seq<byte>, p: nat, n: Number)
    requires At(s, p, Payload(n)) && |Payload(n)| <= 8
    ensures ReadNumber(s, p, Code(n), |Payload(n)| - 1) == Some(n)
  {
    hide ReadNumber, At, RightFilled, IntBytes, UIntBytes;
    match n
    case Byte(_) => ByteNumber(s, p, n);
    case Float(x) => FloatNumber(s, p, x);
    case Double(x) => DoubleNumber(s, p, x);
    case Char(_) => UnsignedNumber(s, p, n);
    case Id(_, _) => UnsignedNumber(s, p, n);
    case _ => SignedNumber(s, p, n);
  }

  lemma {:induction false} RightFilledFewest(u: nat, n: nat, w: nat)
    requires 1 <= n <= w
    ensures |RightFilled(ShiftBytes(u, w - n), w)| <= n
    decreases w
  {
    if n < w {
      assert ShiftBytes(u, w - n) == 0x100 * ShiftBytes(u, w - 1 - n);
      RightFilledFewest(u, n, w - 1);
    }
  }

  /** Cutting a number to fewer bytes does not make its encoding longer. */
  lemma CutUnsigned(u: nat, n: nat, w: nat)
    requires n >= 1 && u < Pow256(n) && 1 <= w <= 4
    ensures |UIntBytes(u % Pow256(w))| <= n
  {
    BytePowers();
    if n < w {
      PowersGrow(n, w);
    } else {
      PowersGrow(w, n);
    }
    UIntBytesFewest(u % Pow256(w), n);
  }

  lemma {:induction false} PowersGrow(m: nat, n: nat)
    requires m <= n
    ensures Pow256(m) <= Pow256(n)
    decreases n
  {
    if m < n {
      PowersGrow(m, n - 1);
    }
  }

  /** What `n` bytes give when sign-extended fits `n` bytes. */
  lemma SignExtended(s: seq<byte>, p: nat, n: nat)
    requires n >= 1 && p + n <= |s|
    ensures |IntBytes(ReadVarWidth(s, p, n - 1, true))| <= n
  {
    IntBytesFewest(ReadVarWidth(s, p, n - 1, true), n);
    assert Pow256(n) == 0x100 * Pow256(n - 1);
  }

  lemma CutSigned(v: int, n: nat)
    requires n >= 1 && |IntBytes(v)| <= n
    ensures |IntBytes(ToI16(v))| <= n && |IntBytes(ToI32(v % 0x1_0000_0000))| <= n
    ensures (n <= 8 ==> |IntBytes(ToI64(v))| <= n)
  {
    BytePowers();
    assert Pow256(0) == 1;
    IntBytesFewest(v, 2);
    IntBytesFewest(v, 4);
    IntBytesFewest(v, 8);
    Narrow(v);
    IntBytesFewest(ToI16(v), 2);
    IntBytesFewest(ToI32(v % 0x1_0000_0000), 4);
    IntBytesFewest(ToI64(v), 8);
  }

  /** No bytes the reader turns into a number are fewer than those the writer gives it. */
  lemma NumberMinimal(s: seq<byte>, p: nat, code: nat, length: nat)
    requires IsNumber(code) && length < 8 && ReadNumber(s, p, code, length).Some?
    ensures |Payload(ReadNumber(s, p, code, length).value)| <= length + 1
  {
    var n := ReadNumber(s, p, code, length).value;
    if code == 0x00 {
      PayloadLength(n);
    } else if code == 0x02 || code == 0x04 || code == 0x06 {
      SignExtended(s, p, length + 1);
      CutSigned(ReadVarWidth(s, p, length, true), length + 1);
    } else if code == 0x10 {
      FloatMinimal(ReadVarWidth(s, p, length, false), length);
    } else if code == 0x11 {
      DoubleMinimal(ReadVarWidth(s, p, length, false), length);
    } else if code == 0x03 {
      BytePowers();
      CutUnsigned(ReadVarWidth(s, p, length, false), length + 1, 2);
    } else {
      BytePowers();
      CutUnsigned(ReadVarWidth(s, p, length, false), length + 1, 4);
    }
  }

  lemma FloatMinimal(u: nat, length: nat)
    requires length <= 3 && u < Pow256(length + 1)
    ensures |RightFilled(ShiftBytes(u, 3 - length) % 0x1_0000_0000, 4)| <= length + 1
  {
    hide RightFilled, ShiftBytes, Pow256;
    BytePowers();
    ShiftBound(u, length + 1, 3 - length);
    RightFilledFewest(u, length + 1, 4);
  }

  lemma DoubleMinimal(u: nat, length: nat)
    requires length <= 7 && u < Pow256(length + 1)
    ensures |RightFilled(ShiftBytes(u, 7 - length) % 0x1_0000_0000_0000_0000, 8)| <= length + 1
  {
    hide RightFilled, ShiftBytes, Pow256;
    BytePowers();
    ShiftBound(u, length + 1, 7 - length);
    RightFilledFewest(u, length + 1, 8);
  }
}

module EncodedValues {
  import opened Bytes
  import opened Leb128
  import opened Numbers

  datatype Value =
    | Num(number: Number)
    | Array(values: seq<Value>)
    | Annotation(annotation: u32, elements: seq<Element>)
    | Null
    | Boolean(b: bool)
    | Unknown(code: nat)  // a type code the switch statements do not know

  datatype Element = Element(name: u32, value: Value)

  /** What the writer emits for a value; for an unknown type code it emits nothing, not even a header. */
  function Encode(v: Value): seq<byte>
    decreases v, 2
  {
    match v
    case Num(n) => EncodeNumber(n)
    case Array(values) => [0x1c] + EncodeArray(values)
    case Annotation(typ, elements) => [0x1d] + EncodeAnnotation(typ, elements)
    case Null => [0x1e]
    case Boolean(b) => [if b then 0x3f else 0x1f]
    case Unknown(_) => []
  }

  function EncodeArray(values: seq<Value>): seq<byte>
    decreases values, 1
  {
    Uleb(|values| % 0x1_0000_0000) + EncodeAll(values)
  }

  function EncodeAnnotation(typ: u32, elements: seq<Element>): seq<byte>
    decreases elements, 1
  {
    Uleb(typ) + Uleb(|elements| % 0x1_0000_0000) + EncodeElements(elements)
  }

  function EncodeAll(values: seq<Value>): seq<byte>
    decreases values, 0
  {
    if values == [] then [] else Encode(values[0]) + EncodeAll(values[1..])
  }

  function EncodeElements(elements: seq<Element>): seq<byte>
    decreases elements, 0
  {
    if elements == [] then [] else EncodeElement(elements[0]) + EncodeElements(elements[1..])
  }

  function EncodeElement(e: Element): seq<byte>
    decreases e, 0
  {
    Uleb(e.name) + Encode(e.value)
  }

  /** The value at `p` and the position after it; none when the data ends inside it. */
  function Read(s: seq<byte>, p: nat): (r: Option<(Value, nat)>)
    ensures r.Some? ==> p < r.value.1 <= |s|
    decreases |s| - p, 0
  {
    if p >= |s| then None else
    var code, length := s[p] as int % 0x20, s[p] as int / 0x20;
    if code == 0x1c then ReadArray(s, p + 1)
    else if code == 0x1d then ReadAnnotation(s, p + 1)
    else if code == 0x1e then Some((Null, p + 1))
    else if code == 0x1f then Some((Boolean(length != 0), p + 1))
    else if IsNumber(code) then
      var n := ReadNumber(s, p + 1, code, length);
      if n.None? then None else Some((Num(n.value), p + 2 + length))
    else Some((Unknown(code), p + 1))
  }

  function ReadArray(s: seq<byte>, p: nat): (r: Option<(Value, nat)>)
    requires p <= |s|
    ensures r.Some? ==> p < r.value.1 <= |s| && r.value.0.Array?
    decreases |s| - p, 3
  {
    var size := DecodeUnsigned(s, p);
    if size.None? then None else
    var vs := ReadAll(s, size.value.1, size.value.0);
    if vs.None? then None else Some((Array(vs.value.0), vs.value.1))
  }

  function ReadAnnotation(s: seq<byte>, p: nat): (r: Option<(Value, nat)>)
    requires p <= |s|
    ensures r.Some? ==> p < r.value.1 <= |s| && r.value.0.Annotation?
    decreases |s| - p, 3
  {
    var typ := DecodeUnsigned(s, p);
    if typ.None? then None else
    var size := DecodeUnsigned(s, typ.value.1);
    if size.None? then None else
    var es := ReadElements(s, size.value.1, size.value.0);
    if es.None? then None else Some((Annotation(typ.value.0, es.value.0), es.value.1))
  }

  function ReadAll(s: seq<byte>, p: nat, n: nat): (r: Option<(seq<Value>, nat)>)
    requires p <= |s|
    ensures r.Some? ==> p <= r.value.1 <= |s| && |r.value.0| == n
    decreases |s| - p, 2, n
  {
    if n == 0 then Some(([], p)) else
    var v := Read(s, p);
    if v.None? then None else
    var rest := ReadAll(s, v.value.1, n - 1);
    if rest.None? then None else Some(([v.value.0] + rest.value.0, rest.value.1))
  }

  function ReadElement(s: seq<byte>, p: nat): (r: Option<(Element, nat)>)
    requires p <= |s|
    ensures r.Some? ==> p < r.value.1 <= |s|
    decreases |s| - p, 1
  {
    var name := DecodeUnsigned(s, p);
    if name.None? then None else
    var v := Read(s, name.value.1);
    if v.None? then None else Some((Element(name.value.0, v.value.0), v.value.1))
  }

  function ReadElements(s: seq<byte>, p: nat, n: nat): (r: Option<(seq<Element>, nat)>)
    requires p <= |s|
    ensures r.Some? ==> p <= r.value.1 <= |s| && |r.value.0| == n
    decreases |s| - p, 2, n
  {
    if n == 0 then Some(([], p)) else
    var e := ReadElement(s, p);
    if e.None? then None else
    var rest := ReadElements(s, e.value.1, n - 1);
    if rest.None? then None else Some(([e.value.0] + rest.value.0, rest.value.1))
  }

  /** The values the writer can represent: every type code known, every list shorter than 2^32. */
  predicate Writable(v: Value)
    decreases v, 2
  {
    match v
    case Array(values) => |values| < 0x1_0000_0000 && AllWritable(values)
    case Annotation(_, elements) => |elements| < 0x1_0000_0000 && ElementsWritable(elements)
    case Unknown(_) => false
    case _ => true
  }

  predicate AllWritable(values: seq<Value>)
    decreases values, 0
  {
    values == [] || (Writable(values[0]) && AllWritable(values[1..]))
  }

  predicate ElementsWritable(elements: seq<Element>)
    decreases elements, 0
  {
    elements == [] || (ElementWritable(elements[0]) && ElementsWritable(elements[1..]))
  }

  predicate ElementWritable(e: Element)
    decreases e, 0
  {
    Writable(e.value)
  }

  lemma NumberCase(s: seq<byte>, p: nat, n: Number)
    requires At(s, p, EncodeNumber(n))
    ensures Read(s, p) == Some((Num(n), p + |EncodeNumber(n)|))
  {
    PayloadLength(n);
    var h := EncodeNumber(n)[0];
    AtConcat(s, p, [h], Payload(n));
    assert h as int % 0x20 == Code(n) && h as int / 0x20 == |Payload(n)| - 1;
    NumberRoundTrip(s, p + 1, n);
  }

  /** Reading what was written gives the same tree and stops right behind it, whatever follows. */
  lemma {:induction false} RoundTrip(s: seq<byte>, p: nat, v: Value)
    requires Writable(v) && At(s, p, Encode(v))
    ensures Read(s, p) == Some((v, p + |Encode(v)|))
    decreases v, 1
  {
    hide EncodeNumber, EncodeArray, EncodeAnnotation, ReadNumber, ReadArray, ReadAnnotation, AllWritable,
      ElementsWritable;
    match v
    case Num(n) => NumberCase(s, p, n);
    case Array(values) =>
      AtConcat(s, p, [0x1c], EncodeArray(values));
      ArrayRoundTrip(s, p + 1, values);
    case Annotation(typ, elements) =>
      AtConcat(s, p, [0x1d], EncodeAnnotation(typ, elements));
      AnnotationRoundTrip(s, p + 1, typ, elements);
    case Null =>
    case Boolean(_) =>
  }

  lemma {:induction false} ArrayRoundTrip(s: seq<byte>, p: nat, values: seq<Value>)
    requires At(s, p, EncodeArray(values)) && |values| < 0x1_0000_0000 && AllWritable(values)
    ensures ReadArray(s, p) == Some((Array(values), p + |EncodeArray(values)|))
    decreases values, 1
  {
    hide DecodeUnsigned, EncodeAll, ReadAll, AllWritable, At, Uleb;
    AtConcat(s, p, Uleb(|values|), EncodeAll(values));
    UlebRoundTrip(s, p, |values|);
    AllRoundTrip(s, p + |Uleb(|values|)|, values);
  }

  lemma {:induction false} AnnotationRoundTrip(s: seq<byte>, p: nat, typ: u32, elements: seq<Element>)
    requires At(s, p, EncodeAnnotation(typ, elements)) && |elements| < 0x1_0000_0000 && ElementsWritable(elements)
    ensures ReadAnnotation(s, p) == Some((Annotation(typ, elements), p + |EncodeAnnotation(typ, elements)|))
    decreases elements, 1
  {
    hide DecodeUnsigned, EncodeElements, ReadElements, ElementsWritable, At, Uleb;
    var q, r := AnnotationHead(s, p, typ, |elements|, EncodeElements(elements));
    ElementsRoundTrip(s, r, elements);
  }

  lemma AnnotationHead(s: seq<byte>, p: nat, typ: u32, n: u32, rest: seq<byte>) returns (q: nat, r: nat)
    requires At(s, p, Uleb(typ) + Uleb(n) + rest)
    ensures DecodeUnsigned(s, p) == Some((typ, q)) && DecodeUnsigned(s, q) == Some((n, r))
    ensures At(s, r, rest) && r + |rest| == p + |Uleb(typ) + Uleb(n) + rest|
  {
    hide *;
    AtConcat(s, p, Uleb(typ) + Uleb(n), rest);
    AtConcat(s, p, Uleb(typ), Uleb(n));
    q := p + |Uleb(typ)|;
    r := q + |Uleb(n)|;
    UlebRoundTrip(s, p, typ);
    UlebRoundTrip(s, q, n);
  }

  lemma {:induction false} AllRoundTrip(s: seq<byte>, p: nat, values: seq<Value>)
    requires At(s, p, EncodeAll(values)) && AllWritable(values)
    ensures ReadAll(s, p, |values|) == Some((values, p + |EncodeAll(values)|))
    decreases values, 0
  {
    hide Encode, Read, Writable, At;
    if values != [] {
      AtConcat(s, p, Encode(values[0]), EncodeAll(values[1..]));
      RoundTrip(s, p, values[0]);
      AllRoundTrip(s, p + |Encode(values[0])|, values[1..]);
      assert [values[0]] + values[1..] == values;
    }
  }

  lemma {:induction false} ElementsRoundTrip(s: seq<byte>, p: nat, elements: seq<Element>)
    requires At(s, p, EncodeElements(elements)) && ElementsWritable(elements)
    ensures ReadElements(s, p, |elements|) == Some((elements, p + |EncodeElements(elements)|))
    decreases elements, 0
  {
    hide EncodeElement, ReadElement, ElementWritable, At;
    if elements != [] {
      var q := ElementsHead(s, p, elements);
      ElementRoundTrip(s, p, elements[0]);
      ElementsRoundTrip(s, q, elements[1..]);
      ReadElementsCons(s, p, q, elements);
    }
  }

  lemma ElementsHead(s: seq<byte>, p: nat, elements: seq<Element>) returns (q: nat)
    requires elements != [] && At(s, p, EncodeElements(elements))
    ensures At(s, p, EncodeElement(elements[0])) && q == p + |EncodeElement(elements[0])|
    ensures At(s, q, EncodeElements(elements[1..]))
    ensures q + |EncodeElements(elements[1..])| == p + |EncodeElements(elements)|
  {
    AtConcat(s, p, EncodeElement(elements[0]), EncodeElements(elements[1..]));
    q := p + |EncodeElement(elements[0])|;
  }

  lemma ReadElementsCons(s: seq<byte>, p: nat, q: nat, elements: seq<Element>)
    requires elements != [] && p <= |s| && ReadElement(s, p) == Some((elements[0], q))
    requires var rest := ReadElements(s, q, |elements| - 1); rest.Some? && rest.value.0 == elements[1..]
    ensures ReadElements(s, p, |elements|) == Some((elements, ReadElements(s, q, |elements| - 1).value.1))
  {
    assert [elements[0]] + elements[1..] == elements;
  }

  lemma {:induction false} ElementRoundTrip(s: seq<byte>, p: nat, e: Element)
    requires At(s, p, EncodeElement(e)) && ElementWritable(e)
    ensures ReadElement(s, p) == Some((e, p + |EncodeElement(e)|))
    decreases e, 0
  {
    hide DecodeUnsigned, Encode, Read, Writable, At, Uleb;
    AtConcat(s, p, Uleb(e.name), Encode(e.value));
    UlebRoundTrip(s, p, e.name);
    RoundTrip(s, p + |Uleb(e.name)|, e.value);
  }

  /** How many values of unknown type a tree holds; the reader gives each a byte, the writer none. */
  function Unknowns(v: Value): nat
    decreases v, 2
  {
    match v
    case Array(values) => AllUnknowns(values)
    case Annotation(_, elements) => ElementUnknowns(elements)
    case Unknown(_) => 1
    case _ => 0
  }

  function AllUnknowns(values: seq<Value>): nat
    decreases values, 0
  {
    if values == [] then 0 else Unknowns(values[0]) + AllUnknowns(values[1..])
  }

  function ElementUnknowns(elements: seq<Element>): nat
    decreases elements, 0
  {
    if elements == [] then 0 else InElement(elements[0]) + ElementUnknowns(elements[1..])
  }

  function InElement(e: Element): nat
    decreases e, 0
  {
    Unknowns(e.value)
  }

  /** No bytes the reader turns into a tree are fewer than those the writer gives it. */
  lemma {:induction false} ReadMinimal(s: seq<byte>, p: nat)
    requires Read(s, p).Some?
    ensures var (v, q) := Read(s, p).value; q - p >= |Encode(v)| + Unknowns(v) && (Unknowns(v) == 0 ==> Writable(v))
    decreases |s| - p, 1
  {
    hide EncodeArray, EncodeAnnotation, EncodeNumber, ReadArray, ReadAnnotation, ReadNumber;
    var code, length := s[p] as int % 0x20, s[p] as int / 0x20;
    if code == 0x1c {
      ArrayMinimal(s, p + 1);
    } else if code == 0x1d {
      AnnotationMinimal(s, p + 1);
    } else if code < 0x1c && IsNumber(code) {
      NumberMinimal(s, p + 1, code, length);
      EncodeNumberLength(ReadNumber(s, p + 1, code, length).value);
    }
  }

  lemma EncodeNumberLength(n: Number)
    ensures |EncodeNumber(n)| == 1 + |Payload(n)|
  {
  }

  lemma {:induction false} ArrayMinimal(s: seq<byte>, p: nat)
    requires p <= |s| && ReadArray(s, p).Some?
    ensures var (v, q) := ReadArray(s, p).value;
            q - p >= |EncodeArray(v.values)| + AllUnknowns(v.values) && |v.values| < 0x1_0000_0000
            && (AllUnknowns(v.values) == 0 ==> AllWritable(v.values))
    decreases |s| - p, 3
  {
    hide DecodeUnsigned, ReadAll, EncodeAll, AllUnknowns, AllWritable, Uleb;
    var (size, r) := DecodeUnsigned(s, p).value;
    UlebMinimal(s, p);
    AllMinimal(s, r, size);
  }

  lemma {:induction false} AnnotationMinimal(s: seq<byte>, p: nat)
    requires p <= |s| && ReadAnnotation(s, p).Some?
    ensures var (v, q) := ReadAnnotation(s, p).value;
            && q - p >= |EncodeAnnotation(v.annotation, v.elements)| + ElementUnknowns(v.elements)
            && |v.elements| < 0x1_0000_0000
            && (ElementUnknowns(v.elements) == 0 ==> ElementsWritable(v.elements))
    decreases |s| - p, 3
  {
    hide DecodeUnsigned, ReadElements, EncodeElements, ElementUnknowns, ElementsWritable, Uleb;
    var (typ, q) := DecodeUnsigned(s, p).value;
    var (size, r) := DecodeUnsigned(s, q).value;
    UlebMinimal(s, p);
    UlebMinimal(s, q);
    ElementsMinimal(s, r, size);
  }

  lemma {:induction false} AllMinimal(s: seq<byte>, p: nat, n: nat)
    requires p <= |s| && ReadAll(s, p, n).Some?
    ensures var (vs, q) := ReadAll(s, p, n).value;
            q - p >= |EncodeAll(vs)| + AllUnknowns(vs) && (AllUnknowns(vs) == 0 ==> AllWritable(vs))
    decreases |s| - p, 2, n
  {
    hide Encode, Read, Unknowns, Writable;
    if n > 0 {
      var (v, q) := Read(s, p).value;
      ReadMinimal(s, p);
      AllMinimal(s, q, n - 1);
      var rest := ReadAll(s, q, n - 1).value.0;
      assert ([v] + rest)[1..] == rest;
    }
  }

  lemma {:induction false} ElementsMinimal(s: seq<byte>, p: nat, n: nat)
    requires p <= |s| && ReadElements(s, p, n).Some?
    ensures var (es, q) := ReadElements(s, p, n).value;
            q - p >= |EncodeElements(es)| + ElementUnknowns(es) && (ElementUnknowns(es) == 0 ==> ElementsWritable(es))
    decreases |s| - p, 2, n
  {
    hide Encode, Read, Unknowns, Writable, DecodeUnsigned, Uleb;
    if n > 0 {
      var (e, q) := ReadElement(s, p).value;
      UlebMinimal(s, p);
      ReadMinimal(s, DecodeUnsigned(s, p).value.1);
      ElementsMinimal(s, q, n - 1);
      var rest := ReadElements(s, q, n - 1).value.0;
      assert ([e] + rest)[1..] == rest;
    }
  }

  /** Exactly the writable trees survive: any other is not what is read back from its own encoding. */
  lemma RoundTripsExactly(v: Value)
    ensures Writable(v) <==> Read(Encode(v), 0) == Some((v, |Encode(v)|))
  {
    hide Encode, Read, Writable;
    if Writable(v) {
      RoundTrip(Encode(v), 0, v);
    } else if Read(Encode(v), 0) == Some((v, |Encode(v)|)) {
      ReadMinimal(Encode(v), 0);
    }
  }
}
