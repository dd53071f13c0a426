/** The loops of dexlayout that write and read encoded values, against the functions of EncodedValues. */
module EncodedStreams {
  import opened Bytes
  import opened Leb128
  import opened VarWidth
  import opened Numbers
  import opened EncodedValues
  import opened Streams

  /** Exactly `bs` has been put at `p`, and if there was room for it, no check fired. */
  ghost predicate Emitted(before: seq<byte>, was: bool, after: seq<byte>, now: bool, p: nat, bs: seq<byte>) {
    Put(before, after, p, bs) && (was ==> now) && (!was && Zero(before, p, p + |bs|) ==> !now)
  }

  lemma EmittedMore(a: seq<byte>, x: bool, b: seq<byte>, y: bool, c: seq<byte>, z: bool, p: nat, bs: seq<byte>,
                    more: seq<byte>)
    requires Emitted(a, x, b, y, p, bs) && Emitted(b, y, c, z, p + |bs|, more)
    ensures Emitted(a, x, c, z, p, bs + more)
  {
    PutMore(a, b, c, p, bs, more);
    if Zero(a, p, p + |bs + more|) {
      assert Zero(b, p + |bs|, p + |bs| + |more|);
    }
  }

  lemma EmittedNothing(a: seq<byte>, x: bool, p: nat)
    ensures Emitted(a, x, a, x, p, [])
  {
  }

  method Uleb128(stream: Stream, value: u32)
    modifies stream, stream.section
    ensures stream.position == old(stream.position) + |Uleb(value)|
    ensures Emitted(old(stream.section.data), old(stream.clobbered), stream.section.data, stream.clobbered,
                    old(stream.position), Uleb(value))
  {
    stream.WriteUleb128(value);
  }

  method Checked(stream: Stream, bs: seq<byte>)
    modifies stream, stream.section
    ensures stream.position == old(stream.position) + |bs|
    ensures Emitted(old(stream.section.data), old(stream.clobbered), stream.section.data, stream.clobbered,
                    old(stream.position), bs)
  {
    stream.Write(bs);
  }

  method WriteHeader(stream: Stream, code: nat, arg: nat)
    requires code < 0x20 && arg < 8
    modifies stream, stream.section
    ensures stream.position == old(stream.position) + 1
    ensures Emitted(old(stream.section.data), old(stream.clobbered), stream.section.data, stream.clobbered,
                    old(stream.position), [0x20 * arg + code])
  {
    Checked(stream, [0x20 * arg + code]);
  }

  /** Fills the buffer and says which part of it to write. */
  method FillBuffer(n: Number, buffer: array<byte>) returns (start: nat, length: nat)
    requires buffer.Length == 8
    modifies buffer
    ensures 1 <= length && start + length <= 8 && buffer[start..start + length] == Payload(n)
  {
    hide IntBytes, UIntBytes, RightFilled;
    start := 0;
    match n
    case Byte(x) => length := EncodeIntValue(x, buffer);
    case Short(x) => length := EncodeIntValue(x, buffer);
    case Char(x) => length := EncodeUIntValue(x, buffer);
    case Int(x) => length := EncodeIntValue(x, buffer);
    case Long(x) => length := EncodeIntValue(x, buffer);
    case Float(x) =>
      BytePowers();
      length := EncodeRightFilled(x, 4, buffer);
      start := 4 - length;
    case Double(x) =>
      BytePowers();
      length := EncodeRightFilled(x, 8, buffer);
      start := 8 - length;
    case Id(_, x) => length := EncodeUIntValue(x, buffer);
  }

  method WriteNumber(stream: Stream, n: Number)
    modifies stream, stream.section
    ensures stream.position == old(stream.position) + |EncodeNumber(n)|
    ensures Emitted(old(stream.section.data), old(stream.clobbered), stream.section.data, stream.clobbered,
                    old(stream.position), EncodeNumber(n))
  {
    hide Emitted, Payload, Code;
    ghost var a, x, p := stream.section.data, stream.clobbered, stream.position;
    var buffer := new byte[8];
    var start, length := FillBuffer(n, buffer);
    WriteHeader(stream, Code(n), length - 1);
    ghost var b, y := stream.section.data, stream.clobbered;
    Checked(stream, buffer[start..start + length]);
    EmittedMore(a, x, b, y, stream.section.data, stream.clobbered, p, [0x20 * (length - 1) + Code(n)], Payload(n));
  }

  lemma {:induction false} EncodeAllAppend(a: seq<Value>, v: Value)
    ensures EncodeAll(a + [v]) == EncodeAll(a) + Encode(v)
  {
    hide Encode;
    if a == [] {
      assert (a + [v])[1..] == [];
    } else {
      EncodeAllAppend(a[1..], v);
      assert (a + [v])[1..] == a[1..] + [v];
    }
  }

  lemma {:induction false} EncodeElementsAppend(a: seq<Element>, e: Element)
    ensures EncodeElements(a + [e]) == EncodeElements(a) + EncodeElement(e)
  {
    hide EncodeElement;
    if a == [] {
      assert (a + [e])[1..] == [];
    } else {
      EncodeElementsAppend(a[1..], e);
      assert (a + [e])[1..] == a[1..] + [e];
    }
  }

  /** Writes a value of any depth. */
  method WriteEncodedValue(stream: Stream, v: Value)
    modifies stream, stream.section
    ensures stream.position == old(stream.position) + |Encode(v)|
    ensures Emitted(old(stream.section.data), old(stream.clobbered), stream.section.data, stream.clobbered,
                    old(stream.position), Encode(v))
    decreases v, 2
  {
    hide Emitted, EncodeArray, EncodeAnnotation;
    ghost var a, x, p := stream.section.data, stream.clobbered, stream.position;
    match v
    case Num(n) =>
      WriteNumber(stream, n);
    case Array(values) =>
      WriteHeader(stream, 0x1c, 0);
      ghost var b, y := stream.section.data, stream.clobbered;
      WriteEncodedArray(stream, values);
      EmittedMore(a, x, b, y, stream.section.data, stream.clobbered, p, [0x1c], EncodeArray(values));
    case Annotation(typ, elements) =>
      WriteHeader(stream, 0x1d, 0);
      ghost var b, y := stream.section.data, stream.clobbered;
      WriteEncodedAnnotation(stream, typ, elements);
      EmittedMore(a, x, b, y, stream.section.data, stream.clobbered, p, [0x1d], EncodeAnnotation(typ, elements));
    case Null =>
      WriteHeader(stream, 0x1e, 0);
    case Boolean(b) =>
      WriteHeader(stream, 0x1f, if b then 1 else 0);
    case Unknown(_) =>
      EmittedNothing(a, x, p);
  }

  method WriteEncodedArray(stream: Stream, values: seq<Value>)
    modifies stream, stream.section
    ensures stream.position == old(stream.position) + |EncodeArray(values)|
    ensures Emitted(old(stream.section.data), old(stream.clobbered), stream.section.data, stream.clobbered,
                    old(stream.position), EncodeArray(values))
    decreases values, 1
  {
    hide Emitted, Uleb, Encode, EncodeAll;
    ghost var a, x, p := stream.section.data, stream.clobbered, stream.position;
    ghost var done := Uleb(|values| % 0x1_0000_0000);
    Uleb128(stream, |values| % 0x1_0000_0000);
    NothingYet();
    for i := 0 to |values|
      invariant done == Uleb(|values| % 0x1_0000_0000) + EncodeAll(values[..i])
      invariant stream.position == p + |done|
      invariant Emitted(a, x, stream.section.data, stream.clobbered, p, done)
    {
      ghost var b, y := stream.section.data, stream.clobbered;
      WriteEncodedValue(stream, values[i]);
      EmittedMore(a, x, b, y, stream.section.data, stream.clobbered, p, done, Encode(values[i]));
      done := done + Encode(values[i]);
      EncodeAllAppend(values[..i], values[i]);
      assert values[..i] + [values[i]] == values[..i + 1];
    }
    assert values[..|values|] == values;
  }

  lemma NothingYet()
    ensures EncodeAll([]) == [] && EncodeElements([]) == []
  {
  }

  method WriteEncodedAnnotation(stream: Stream, typ: u32, elements: seq<Element>)
    modifies stream, stream.section
    ensures stream.position == old(stream.position) + |EncodeAnnotation(typ, elements)|
    ensures Emitted(old(stream.section.data), old(stream.clobbered), stream.section.data, stream.clobbered,
                    old(stream.position), EncodeAnnotation(typ, elements))
    decreases elements, 1
  {
    hide Emitted, Uleb, EncodeElement, EncodeElements;
    ghost var a, x, p := stream.section.data, stream.clobbered, stream.position;
    ghost var size := |elements| % 0x1_0000_0000;
    Uleb128(stream, typ);
    ghost var b, y := stream.section.data, stream.clobbered;
    Uleb128(stream, |elements| % 0x1_0000_0000);
    EmittedMore(a, x, b, y, stream.section.data, stream.clobbered, p, Uleb(typ), Uleb(size));
    ghost var done := Uleb(typ) + Uleb(size);
    NothingYet();
    for i := 0 to |elements|
      invariant done == Uleb(typ) + Uleb(size) + EncodeElements(elements[..i])
      invariant stream.position == p + |done|
      invariant Emitted(a, x, stream.section.data, stream.clobbered, p, done)
    {
      b, y := stream.section.data, stream.clobbered;
      WriteElement(stream, elements[i]);
      EmittedMore(a, x, b, y, stream.section.data, stream.clobbered, p, done, EncodeElement(elements[i]));
      done := done + EncodeElement(elements[i]);
      EncodeElementsAppend(elements[..i], elements[i]);
      assert elements[..i] + [elements[i]] == elements[..i + 1];
    }
    assert elements[..|elements|] == elements;
  }

  method WriteElement(stream: Stream, e: Element)
    modifies stream, stream.section
    ensures stream.position == old(stream.position) + |EncodeElement(e)|
    ensures Emitted(old(stream.section.data), old(stream.clobbered), stream.section.data, stream.clobbered,
                    old(stream.position), EncodeElement(e))
    decreases e, 0
  {
    hide Emitted, Uleb, Encode;
    ghost var a, x, p := stream.section.data, stream.clobbered, stream.position;
    Uleb128(stream, e.name);
    ghost var b, y := stream.section.data, stream.clobbered;
    WriteEncodedValue(stream, e.value);
    EmittedMore(a, x, b, y, stream.section.data, stream.clobbered, p, Uleb(e.name), Encode(e.value));
  }

  lemma {:induction false} LittleEndianAppend(bs: seq<byte>, b: byte)
    ensures LittleEndian(bs + [b]) == LittleEndian(bs) + ShiftBytes(b, |bs|)
  {
    if bs == [] {
      assert LittleEndian([b][1..]) == 0;
    } else {
      LittleEndianAppend(bs[1..], b);
      assert (bs + [b])[1..] == bs[1..] + [b];
    }
  }

  /** A signed number shifted left, and right with the sign copied in. */
  function ShiftSigned(x: int, e: nat): int {
    if e == 0 then x else 0x100 * ShiftSigned(x, e - 1)
  }

  function ShiftBack(x: int, e: nat): int
    decreases e
  {
    if e == 0 then x else ShiftBack(x / 0x100, e - 1)
  }

  lemma {:induction false} ShiftThereAndBack(x: int, e: nat)
    ensures ShiftBack(ShiftSigned(x, e), e) == x
  {
    if e > 0 {
      assert ShiftSigned(x, e) / 0x100 == ShiftSigned(x, e - 1);
      ShiftThereAndBack(x, e - 1);
    }
  }

  lemma {:induction false} ShiftSignedParts(u: nat, n: nat, e: nat)
    ensures ShiftSigned(u, e) == ShiftBytes(u, e)
    ensures ShiftSigned(u - Pow256(n), e) == ShiftBytes(u, e) - Pow256(n + e)
  {
    if e > 0 {
      ShiftSignedParts(u, n, e - 1);
    }
  }

  lemma {:induction false} ShiftOrder(u: nat, v: nat, e: nat)
    ensures u < v <==> ShiftBytes(u, e) < ShiftBytes(v, e)
  {
    if e > 0 {
      ShiftOrder(u, v, e - 1);
    }
  }

  lemma {:induction false} ShiftHalf(n: nat, e: nat)
    ensures ShiftBytes(0x80 * Pow256(n), e) == 0x80 * Pow256(n + e)
  {
    if e > 0 {
      ShiftHalf(n, e - 1);
    }
  }

  /** Shifting a number of `length + 1` bytes to the top of a 64-bit register and back extends its sign. */
  lemma SignExtension(u: nat, length: nat)
    requires length < 8 && u < Pow256(length + 1)
    ensures ShiftBytes(u, 7 - length) < 0x1_0000_0000_0000_0000
    ensures ShiftBack(ToI64(ShiftBytes(u, 7 - length)), 7 - length) ==
              if u >= 0x80 * Pow256(length) then u - Pow256(length + 1) else u
  {
    hide Pow256, ShiftBytes, ShiftBack, ShiftSigned;
    var e := 7 - length;
    BytePowers();
    ShiftBound(u, length + 1, e);
    ShiftHalf(length, e);
    ShiftOrder(u, 0x80 * Pow256(length), e);
    ShiftSignedParts(u, length + 1, e);
    ShiftThereAndBack(u, e);
    ShiftThereAndBack(u - Pow256(length + 1), e);
  }

  /** The loop of ReadVarWidth, with its shift to and fro when the sign is to be extended. */
  method ReadBytes(s: seq<byte>, p: nat, length: nat, signExtend: bool) returns (value: int)
    requires p + length + 1 <= |s| && length < 8
    ensures value == ReadVarWidth(s, p, length, signExtend)
  {
    value := 0;
    for i := 0 to length + 1
      invariant value == LittleEndian(s[p..p + i])
    {
      LittleEndianAppend(s[p..p + i], s[p + i]);
      assert s[p..p + i] + [s[p + i]] == s[p..p + i + 1];
      value := value + ShiftBytes(s[p + i], i);
    }
    if signExtend {
      SignExtension(value, length);
      value := ShiftBack(ToI64(ShiftBytes(value, 7 - length)), 7 - length);
    }
  }

  /** Reads the number behind a header. */
  method ReadNumberAt(s: seq<byte>, p: nat, code: nat, length: nat) returns (n: Option<Number>)
    requires IsNumber(code) && length < 8
    ensures n == ReadNumber(s, p, code, length)
  {
    hide ReadVarWidth, ShiftBytes;
    if p + length + 1 > |s| || (code == 0x10 && length > 3) {
      return None;
    }
    var signed := code == 0x02 || code == 0x04 || code == 0x06;
    var v := ReadBytes(s, p, length, signed);
    if code == 0x00 {
      n := Some(Byte(ToI8(v)));
    } else if code == 0x02 {
      n := Some(Short(ToI16(v)));
    } else if code == 0x03 {
      n := Some(Char(v % 0x1_0000));
    } else if code == 0x04 {
      n := Some(Int(ToI32(v % 0x1_0000_0000)));
    } else if code == 0x06 {
      n := Some(Long(ToI64(v)));
    } else if code == 0x10 {
      n := Some(Float(ShiftBytes(v, 3 - length) % 0x1_0000_0000));
    } else if code == 0x11 {
      n := Some(Double(ShiftBytes(v, 7 - length) % 0x1_0000_0000_0000_0000));
    } else {
      n := Some(IdOf(code, v % 0x1_0000_0000));
    }
  }

  method ReadEncodedValue(s: seq<byte>, p: nat) returns (r: Option<(Value, nat)>)
    ensures r == Read(s, p)
    decreases |s| - p, 0
  {
    hide ReadNumber, ReadArray, ReadAnnotation;
    if p >= |s| {
      return None;
    }
    var code, length := s[p] as int % 0x20, s[p] as int / 0x20;
    if code == 0x1c {
      r := ReadEncodedArray(s, p + 1);
    } else if code == 0x1d {
      r := ReadEncodedAnnotation(s, p + 1);
    } else if code == 0x1e {
      r := Some((Null, p + 1));
    } else if code == 0x1f {
      r := Some((Boolean(length != 0), p + 1));
    } else if IsNumber(code) {
      var n := ReadNumberAt(s, p + 1, code, length);
      r := if n.None? then None else Some((Num(n.value), p + 2 + length));
    } else {
      r := Some((Unknown(code), p + 1));
    }
  }

  /** What has been read so far, put before what is still to be read. */
  ghost function Onto<T>(done: seq<T>, rest: Option<(seq<T>, nat)>): Option<(seq<T>, nat)> {
    if rest.None? then None else Some((done + rest.value.0, rest.value.1))
  }

  method ReadEncodedArray(s: seq<byte>, p: nat) returns (r: Option<(Value, nat)>)
    requires p <= |s|
    ensures r == ReadArray(s, p)
    decreases |s| - p, 3
  {
    hide DecodeUnsigned, Read, ReadAll;
    var size := DecodeUnsigned(s, p);
    if size.None? {
      return None;
    }
    var values: seq<Value>, q := [], size.value.1;
    StartArray(s, q, size.value.0);
    for i := 0 to size.value.0
      invariant p < q <= |s|
      invariant ReadAll(s, size.value.1, size.value.0) == Onto(values, ReadAll(s, q, size.value.0 - i))
    {
      ArrayNext(s, q, size.value.0 - i, values);
      var v := ReadEncodedValue(s, q);
      if v.None? {
        return None;
      }
      values, q := values + [v.value.0], v.value.1;
    }
    EndArray(s, q, values);
    r := Some((Array(values), q));
  }

  lemma StartArray(s: seq<byte>, q: nat, n: nat)
    requires q <= |s|
    ensures ReadAll(s, q, n) == Onto([], ReadAll(s, q, n))
  {
    hide ReadAll;
    var r := ReadAll(s, q, n);
    if r.Some? {
      assert [] + r.value.0 == r.value.0;
    }
  }

  lemma EndArray(s: seq<byte>, q: nat, values: seq<Value>)
    requires q <= |s|
    ensures Onto(values, ReadAll(s, q, 0)) == Some((values, q))
  {
    assert values + [] == values;
  }

  lemma ArrayNext(s: seq<byte>, q: nat, n: nat, values: seq<Value>)
    requires q <= |s| && n > 0
    ensures var v := Read(s, q);
            Onto(values, ReadAll(s, q, n)) ==
            if v.None? then None else Onto(values + [v.value.0], ReadAll(s, v.value.1, n - 1))
  {
    hide Read;
    var v := Read(s, q);
    if v.Some? && ReadAll(s, v.value.1, n - 1).Some? {
      var rest := ReadAll(s, v.value.1, n - 1).value.0;
      assert values + ([v.value.0] + rest) == values + [v.value.0] + rest;
    }
  }

  method ReadEncodedAnnotation(s: seq<byte>, p: nat) returns (r: Option<(Value, nat)>)
    requires p <= |s|
    ensures r == ReadAnnotation(s, p)
    decreases |s| - p, 3
  {
    hide DecodeUnsigned, Read, ReadElements;
    var typ := DecodeUnsigned(s, p);
    if typ.None? {
      return None;
    }
    var size := DecodeUnsigned(s, typ.value.1);
    if size.None? {
      return None;
    }
    var elements: seq<Element>, q := [], size.value.1;
    StartElements(s, q, size.value.0);
    for i := 0 to size.value.0
      invariant p < q <= |s|
      invariant ReadElements(s, size.value.1, size.value.0) == Onto(elements, ReadElements(s, q, size.value.0 - i))
    {
      ElementsNext(s, q, size.value.0 - i, elements);
      var name := DecodeUnsigned(s, q);
      if name.None? {
        return None;
      }
      var v := ReadEncodedValue(s, name.value.1);
      if v.None? {
        return None;
      }
      elements, q := elements + [Element(name.value.0, v.value.0)], v.value.1;
    }
    EndElements(s, q, elements);
    r := Some((Annotation(typ.value.0, elements), q));
  }

  lemma StartElements(s: seq<byte>, q: nat, n: nat)
    requires q <= |s|
    ensures ReadElements(s, q, n) == Onto([], ReadElements(s, q, n))
  {
    hide ReadElements;
    var r := ReadElements(s, q, n);
    if r.Some? {
      assert [] + r.value.0 == r.value.0;
    }
  }

  lemma EndElements(s: seq<byte>, q: nat, elements: seq<Element>)
    requires q <= |s|
    ensures Onto(elements, ReadElements(s, q, 0)) == Some((elements, q))
  {
    assert elements + [] == elements;
  }

  lemma ElementsNext(s: seq<byte>, q: nat, n: nat, elements: seq<Element>)
    requires q <= |s| && n > 0
    ensures var e := ReadElement(s, q);
            Onto(elements, ReadElements(s, q, n)) ==
            if e.None? then None else Onto(elements + [e.value.0], ReadElements(s, e.value.1, n - 1))
  {
    hide ReadElement;
    var e := ReadElement(s, q);
    if e.Some? && ReadElements(s, e.value.1, n - 1).Some? {
      var rest := ReadElements(s, e.value.1, n - 1).value.0;
      assert elements + ([e.value.0] + rest) == elements + [e.value.0] + rest;
    }
  }
}
