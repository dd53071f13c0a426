/**
 * The items of a dex file read back from their bytes. The readers follow the on-disk structures of
 * libdexfile/dex/dex_file_structs.h and the Create functions of dexlayout/dex_ir_builder.cc; what they
 * return has file offsets where the representation has indices, since the builder finds an item by
 * its offset.
 */
module DiskItems {
  import opened Bytes
  import opened Leb128
  import opened EncodedValues
  import opened DexIr
  import CatchHandlers
  import DebugInfo

  function ReadU16(s: seq<byte>, p: nat): (r: u16)
    requires p + 2 <= |s|
  {
    s[p] as int + 0x100 * (s[p + 1] as int)
  }

  lemma LE16RoundTrip(s: seq<byte>, p: nat, v: u16)
    requires At(s, p, LE16(v))
    ensures ReadU16(s, p) == v
  {
    assert s[p] == LE16(v)[0] && s[p + 1] == LE16(v)[1];
  }

  /** The low half of a word stored with LE32. */
  lemma LowHalf(s: seq<byte>, p: nat, v: u32)
    requires At(s, p, LE32(v))
    ensures ReadU16(s, p) == v % 0x1_0000
  {
    assert s[p] == LE32(v)[0] && s[p + 1] == LE32(v)[1];
  }

  /** Offset 0 stands for no item. */
  function Pointer(w: u32): Option<nat> {
    if w == 0 then None else Some(w)
  }

  /** A pointer as the offset of its target. */
  ghost function Moved(place: map<Ref, nat>, k: Kind, i: Option<nat>): Option<nat>
    requires i.Some? ==> Ref(k, i.value) in place
  {
    if i.None? then None else Some(place[Ref(k, i.value)])
  }

  // Fields of an item by their position.

  ghost function Pos(fs: seq<Field>, offs: map<Ref, u32>, j: nat): nat
    requires j <= |fs|
  {
    |ItemBytes(fs[..j], offs)|
  }

  lemma FieldAt(s: seq<byte>, p: nat, fs: seq<Field>, offs: map<Ref, u32>, j: nat)
    requires At(s, p, ItemBytes(fs, offs)) && j < |fs|
    ensures At(s, p + Pos(fs, offs, j), FieldBytes(fs[j], offs, Pos(fs, offs, j)))
    ensures Pos(fs, offs, j + 1) == Pos(fs, offs, j) + |FieldBytes(fs[j], offs, Pos(fs, offs, j))|
  {
    hide FieldBytes, At;
    var tail := FieldStands(fs, offs, j);
    var init := ItemBytes(fs[..j], offs);
    var bs := FieldBytes(fs[j], offs, |init|);
    AtConcat(s, p, init + bs, tail);
    AtConcat(s, p, init, bs);
    assert fs[..j + 1][..j] == fs[..j];
  }

  lemma FirstPos(fs: seq<Field>, offs: map<Ref, u32>)
    ensures Pos(fs, offs, 0) == 0
  {
  }

  predicate IsWord(f: Field) {
    f.Off32? || (f.Raw? && |f.bytes| == 4)
  }

  function WordOf(f: Field, offs: map<Ref, u32>): u32
    requires IsWord(f)
  {
    if f.Off32? then OffsetOf(f.target, offs) else ReadU32(f.bytes, 0)
  }

  ghost predicate AllWords(fs: seq<Field>, n: nat) {
    n <= |fs| && forall j :: 0 <= j < n ==> IsWord(fs[j])
  }

  lemma {:induction false} WordPos(s: seq<byte>, p: nat, fs: seq<Field>, offs: map<Ref, u32>, n: nat, j: nat)
    requires At(s, p, ItemBytes(fs, offs)) && AllWords(fs, n) && j <= n
    ensures Pos(fs, offs, j) == 4 * j
  {
    hide ItemBytes, At, LE32;
    FirstPos(fs, offs);
    if j > 0 {
      WordPos(s, p, fs, offs, n, j - 1);
      FieldAt(s, p, fs, offs, j - 1);
      assert IsWord(fs[j - 1]);
    }
  }

  /** The word that field `j` stores, if the fields up to it are words. */
  lemma WordField(s: seq<byte>, p: nat, fs: seq<Field>, offs: map<Ref, u32>, n: nat, j: nat)
    requires At(s, p, ItemBytes(fs, offs)) && AllWords(fs, n) && j < n
    ensures p + 4 * j + 4 <= |s| && ReadU32(s, p + 4 * j) == WordOf(fs[j], offs)
    ensures fs[j].Raw? ==> At(s, p + 4 * j, fs[j].bytes)
  {
    hide ItemBytes, LE32;
    WordPos(s, p, fs, offs, n, j);
    FieldAt(s, p, fs, offs, j);
    assert IsWord(fs[j]);
    if fs[j].Off32? {
      LE32RoundTrip(s, p + 4 * j, OffsetOf(fs[j].target, offs));
    } else {
      SameWord(s, p + 4 * j, fs[j].bytes);
    }
  }

  lemma SameWord(s: seq<byte>, p: nat, bs: seq<byte>)
    requires At(s, p, bs) && |bs| == 4
    ensures ReadU32(s, p) == ReadU32(bs, 0)
  {
    assert s[p] == bs[0] && s[p + 1] == bs[1] && s[p + 2] == bs[2] && s[p + 3] == bs[3];
  }

  lemma RawWord(v: u32)
    ensures |LE32(v)| == 4 && ReadU32(LE32(v), 0) == v
  {
    LE32RoundTrip(LE32(v), 0, v);
  }

  /** The references among the fields are resolved to the places of their targets. */
  ghost predicate Linked(fs: seq<Field>, offs: map<Ref, u32>, place: map<Ref, nat>) {
    forall j :: 0 <= j < |fs| && Target(fs[j]).Some? ==>
      var t := Target(fs[j]).value; t in offs && t in place && offs[t] == place[t] && place[t] > 0
  }

  /** A file holds an item with these fields at `p`. */
  ghost predicate Stored(s: seq<byte>, p: nat, fs: seq<Field>, offs: map<Ref, u32>, place: map<Ref, nat>) {
    At(s, p, ItemBytes(fs, offs)) && Linked(fs, offs, place)
  }

  /** The reference in field `j` of an item. */
  lemma FieldPointer(fs: seq<Field>, offs: map<Ref, u32>, place: map<Ref, nat>, j: nat, k: Kind, i: Option<nat>)
    requires Linked(fs, offs, place) && j < |fs| && (fs[j] == Off32(ToRef(k, i)) || fs[j] == OffLeb(ToRef(k, i)))
    ensures i.Some? ==> Ref(k, i.value) in place
    ensures Pointer(OffsetOf(ToRef(k, i), offs)) == Moved(place, k, i)
  {
    if i.Some? {
      assert Target(fs[j]) == Some(Ref(k, i.value));
    }
  }

  // Identifiers.

  ghost predicate StringIdRead(x: StringId, s: seq<byte>, p: nat, place: map<Ref, nat>) {
    p + 4 <= |s| && Ref(StringDatas, x.data) in place && Pointer(ReadU32(s, p)) == Some(place[Ref(StringDatas, x.data)])
  }

  lemma StringIdBack(x: StringId, s: seq<byte>, p: nat, offs: map<Ref, u32>, place: map<Ref, nat>)
    requires Stored(s, p, [Off32(Some(Ref(StringDatas, x.data)))], offs, place)
    ensures StringIdRead(x, s, p, place)
  {
    hide At, ItemBytes, OffsetOf, ReadU32, Linked;
    var fs := [Off32(Some(Ref(StringDatas, x.data)))];
    WordField(s, p, fs, offs, 1, 0);
    FieldPointer(fs, offs, place, 0, StringDatas, Some(x.data));
  }

  ghost predicate CallSiteRead(x: CallSiteId, s: seq<byte>, p: nat, place: map<Ref, nat>) {
    && p + 4 <= |s| && Ref(EncodedArrays, x.callSite) in place
    && Pointer(ReadU32(s, p)) == Some(place[Ref(EncodedArrays, x.callSite)])
  }

  lemma CallSiteBack(x: CallSiteId, s: seq<byte>, p: nat, offs: map<Ref, u32>, place: map<Ref, nat>)
    requires Stored(s, p, [Off32(Some(Ref(EncodedArrays, x.callSite)))], offs, place)
    ensures CallSiteRead(x, s, p, place)
  {
    hide At, ItemBytes, OffsetOf, ReadU32, Linked;
    var fs := [Off32(Some(Ref(EncodedArrays, x.callSite)))];
    WordField(s, p, fs, offs, 1, 0);
    FieldPointer(fs, offs, place, 0, EncodedArrays, Some(x.callSite));
  }

  ghost predicate TypeIdRead(x: TypeId, s: seq<byte>, p: nat) {
    p + 4 <= |s| && ReadU32(s, p) == x.descriptor
  }

  lemma TypeIdBack(x: TypeId, s: seq<byte>, p: nat, offs: map<Ref, u32>)
    requires At(s, p, ItemBytes([Raw(LE32(x.descriptor))], offs))
    ensures TypeIdRead(x, s, p)
  {
    hide At, ItemBytes, OffsetOf, LE32, ReadU32;
    RawWord(x.descriptor);
    WordField(s, p, [Raw(LE32(x.descriptor))], offs, 1, 0);
  }

  function ReadProtoId(s: seq<byte>, p: nat): ProtoId
    requires p + 12 <= |s|
  {
    ProtoId(ReadU32(s, p), ReadU16(s, p + 4), Pointer(ReadU32(s, p + 8)))
  }

  ghost predicate ProtoIdRead(x: ProtoId, s: seq<byte>, p: nat, place: map<Ref, nat>) {
    && p + 12 <= |s| && (x.parameters.Some? ==> Ref(TypeLists, x.parameters.value) in place)
    && ReadProtoId(s, p) == x.(parameters := Moved(place, TypeLists, x.parameters))
  }

  /** Type indices have sixteen bits on disk. */
  lemma ProtoIdBack(x: ProtoId, s: seq<byte>, p: nat, offs: map<Ref, u32>, place: map<Ref, nat>)
    requires x.returnType < 0x1_0000
    requires Stored(s, p, [Raw(LE32(x.shorty)), Raw(LE32(x.returnType)), Off32(ToRef(TypeLists, x.parameters))],
                    offs, place)
    ensures ProtoIdRead(x, s, p, place)
  {
    hide At, ItemBytes, OffsetOf, LE32, ReadU32, ReadU16, Pointer, Moved, Linked;
    var fs := [Raw(LE32(x.shorty)), Raw(LE32(x.returnType)), Off32(ToRef(TypeLists, x.parameters))];
    RawWord(x.shorty);
    RawWord(x.returnType);
    WordField(s, p, fs, offs, 3, 0);
    WordField(s, p, fs, offs, 3, 1);
    WordField(s, p, fs, offs, 3, 2);
    LowHalf(s, p + 4, x.returnType);
    FieldPointer(fs, offs, place, 2, TypeLists, x.parameters);
  }

  function ReadFieldId(s: seq<byte>, p: nat): FieldId
    requires p + 8 <= |s|
  {
    FieldId(ReadU16(s, p), ReadU16(s, p + 2), ReadU32(s, p + 4))
  }

  function ReadMethodId(s: seq<byte>, p: nat): MethodId
    requires p + 8 <= |s|
  {
    MethodId(ReadU16(s, p), ReadU16(s, p + 2), ReadU32(s, p + 4))
  }

  /** Two half words and a word. */
  lemma Halves(s: seq<byte>, p: nat, a: u16, b: u16, w: u32)
    requires At(s, p, LE16(a) + LE16(b) + LE32(w))
    ensures p + 8 <= |s| && ReadU16(s, p) == a && ReadU16(s, p + 2) == b && ReadU32(s, p + 4) == w
  {
    hide LE16, LE32;
    AtConcat(s, p, LE16(a) + LE16(b), LE32(w));
    AtConcat(s, p, LE16(a), LE16(b));
    LE16RoundTrip(s, p, a);
    LE16RoundTrip(s, p + 2, b);
    LE32RoundTrip(s, p + 4, w);
  }

  lemma SingleField(s: seq<byte>, p: nat, fs: seq<Field>, offs: map<Ref, u32>)
    requires At(s, p, ItemBytes(fs, offs)) && |fs| == 1
    ensures At(s, p, FieldBytes(fs[0], offs, 0))
  {
    FirstPos(fs, offs);
    hide At, ItemBytes;
    FieldAt(s, p, fs, offs, 0);
  }

  lemma FieldIdBack(x: FieldId, s: seq<byte>, p: nat, offs: map<Ref, u32>)
    requires At(s, p, ItemBytes([Raw(LE16(x.class_) + LE16(x.typ) + LE32(x.name))], offs))
    ensures p + 8 <= |s| && ReadFieldId(s, p) == x
  {
    hide At, ItemBytes, LE32, LE16, ReadU32, ReadU16;
    SingleField(s, p, [Raw(LE16(x.class_) + LE16(x.typ) + LE32(x.name))], offs);
    Halves(s, p, x.class_, x.typ, x.name);
  }

  lemma MethodIdBack(x: MethodId, s: seq<byte>, p: nat, offs: map<Ref, u32>)
    requires At(s, p, ItemBytes([Raw(LE16(x.class_) + LE16(x.proto) + LE32(x.name))], offs))
    ensures p + 8 <= |s| && ReadMethodId(s, p) == x
  {
    hide At, ItemBytes, LE32, LE16, ReadU32, ReadU16;
    SingleField(s, p, [Raw(LE16(x.class_) + LE16(x.proto) + LE32(x.name))], offs);
    Halves(s, p, x.class_, x.proto, x.name);
  }

  function ReadMethodHandle(s: seq<byte>, p: nat): MethodHandle
    requires p + 8 <= |s|
  {
    MethodHandle(ReadU16(s, p), ReadU16(s, p + 4))
  }

  lemma HandleBytes(s: seq<byte>, p: nat, m: MethodHandle)
    requires At(s, p, LE16(m.handleType) + [0, 0] + LE16(m.fieldOrMethod) + [0, 0])
    ensures p + 8 <= |s| && ReadMethodHandle(s, p) == m
  {
    hide LE16;
    AtConcat(s, p, LE16(m.handleType) + [0, 0] + LE16(m.fieldOrMethod), [0, 0]);
    AtConcat(s, p, LE16(m.handleType) + [0, 0], LE16(m.fieldOrMethod));
    AtConcat(s, p, LE16(m.handleType), [0, 0]);
    LE16RoundTrip(s, p, m.handleType);
    LE16RoundTrip(s, p + 4, m.fieldOrMethod);
  }

  lemma MethodHandleBack(x: MethodHandle, s: seq<byte>, p: nat, offs: map<Ref, u32>)
    requires At(s, p, ItemBytes([Raw(LE16(x.handleType) + [0, 0] + LE16(x.fieldOrMethod) + [0, 0])], offs))
    ensures p + 8 <= |s| && ReadMethodHandle(s, p) == x
  {
    hide At, ItemBytes, LE16, ReadU16;
    SingleField(s, p, [Raw(LE16(x.handleType) + [0, 0] + LE16(x.fieldOrMethod) + [0, 0])], offs);
    HandleBytes(s, p, x);
  }

  // Class definitions.

  function TypeOrNone(index: u16): Option<u32> {
    if index == 0xFFFF then None else Some(index)
  }

  function StringOrNone(index: u32): Option<u32> {
    if index == 0xFFFF_FFFF then None else Some(index)
  }

  function ReadClassDef(s: seq<byte>, p: nat): ClassDef
    requires p + 32 <= |s|
  {
    ClassDef(ReadU16(s, p), ReadU32(s, p + 4), TypeOrNone(ReadU16(s, p + 8)), Pointer(ReadU32(s, p + 12)),
             StringOrNone(ReadU32(s, p + 16)), Pointer(ReadU32(s, p + 20)), Pointer(ReadU32(s, p + 24)),
             Pointer(ReadU32(s, p + 28)))
  }

  /** Indices that fit the structure: sixteen bits for types, and not the one that means none. */
  predicate ClassFits(c: ClassDef) {
    && c.classType < 0x1_0000
    && (c.superclass.Some? ==> c.superclass.value < 0xFFFF)
    && (c.sourceFile.Some? ==> c.sourceFile.value != 0xFFFF_FFFF)
  }

  ghost predicate ClassTargets(c: ClassDef, place: map<Ref, nat>) {
    && (c.interfaces.Some? ==> Ref(TypeLists, c.interfaces.value) in place)
    && (c.annotations.Some? ==> Ref(AnnotationsDirectories, c.annotations.value) in place)
    && (c.classData.Some? ==> Ref(ClassDatas, c.classData.value) in place)
    && (c.staticValues.Some? ==> Ref(EncodedArrays, c.staticValues.value) in place)
  }

  ghost function MovedClassDef(c: ClassDef, place: map<Ref, nat>): ClassDef
    requires ClassTargets(c, place)
  {
    c.(interfaces := Moved(place, TypeLists, c.interfaces),
       annotations := Moved(place, AnnotationsDirectories, c.annotations),
       classData := Moved(place, ClassDatas, c.classData), staticValues := Moved(place, EncodedArrays, c.staticValues))
  }

  lemma ClassDefWords(s: seq<byte>, p: nat, c: ClassDef, offs: map<Ref, u32>)
    requires At(s, p, ItemBytes(ClassDefFields(c), offs)) && ClassFits(c)
    ensures p + 32 <= |s|
    ensures ReadClassDef(s, p) == c.(interfaces := Pointer(OffsetOf(ToRef(TypeLists, c.interfaces), offs)),
                                     annotations :=
                                       Pointer(OffsetOf(ToRef(AnnotationsDirectories, c.annotations), offs)),
                                     classData := Pointer(OffsetOf(ToRef(ClassDatas, c.classData), offs)),
                                     staticValues := Pointer(OffsetOf(ToRef(EncodedArrays, c.staticValues), offs)))
  {
    hide At, ItemBytes, OffsetOf, LE32, ReadU32, ReadU16, Pointer, FieldsOf;
    var fs := ClassDefFields(c);
    var superclass := if c.superclass.None? then 0xFFFF_FFFF else c.superclass.value;
    var source := if c.sourceFile.None? then 0xFFFF_FFFF else c.sourceFile.value;
    RawWord(c.classType);
    RawWord(c.accessFlags);
    RawWord(superclass);
    RawWord(source);
    forall j | 0 <= j < 8 ensures p + 4 * j + 4 <= |s| && ReadU32(s, p + 4 * j) == WordOf(fs[j], offs) {
      WordField(s, p, fs, offs, 8, j);
    }
    WordField(s, p, fs, offs, 8, 0);
    WordField(s, p, fs, offs, 8, 2);
    LowHalf(s, p, c.classType);
    LowHalf(s, p + 8, superclass);
    assert ReadU32(s, p + 4 * 1) == c.accessFlags && ReadU32(s, p + 4 * 4) == source;
    assert ReadU32(s, p + 4 * 3) == OffsetOf(ToRef(TypeLists, c.interfaces), offs);
    assert ReadU32(s, p + 4 * 5) == OffsetOf(ToRef(AnnotationsDirectories, c.annotations), offs);
    assert ReadU32(s, p + 4 * 6) == OffsetOf(ToRef(ClassDatas, c.classData), offs);
    assert ReadU32(s, p + 4 * 7) == OffsetOf(ToRef(EncodedArrays, c.staticValues), offs);
  }

  ghost predicate ClassDefRead(x: ClassDef, s: seq<byte>, p: nat, place: map<Ref, nat>) {
    p + 32 <= |s| && ClassTargets(x, place) && ReadClassDef(s, p) == MovedClassDef(x, place)
  }

  lemma ClassDefBack(x: ClassDef, s: seq<byte>, p: nat, offs: map<Ref, u32>, place: map<Ref, nat>)
    requires Stored(s, p, ClassDefFields(x), offs, place) && ClassFits(x)
    ensures ClassDefRead(x, s, p, place)
  {
    hide At, ItemBytes, OffsetOf, ReadClassDef, Pointer, Moved, ClassFits, LE32, Linked, FieldsOf;
    var fs := ClassDefFields(x);
    ClassDefWords(s, p, x, offs);
    FieldPointer(fs, offs, place, 3, TypeLists, x.interfaces);
    FieldPointer(fs, offs, place, 5, AnnotationsDirectories, x.annotations);
    FieldPointer(fs, offs, place, 6, ClassDatas, x.classData);
    FieldPointer(fs, offs, place, 7, EncodedArrays, x.staticValues);
  }

  // Lists.

  function ReadHalves(s: seq<byte>, p: nat, n: nat): (r: seq<u16>)
    requires p + 2 * n <= |s|
    ensures |r| == n && forall i :: 0 <= i < n ==> r[i] == ReadU16(s, p + 2 * i)
  {
    seq<u16>(n, i requires 0 <= i < n => ReadU16(s, p + 2 * i))
  }

  lemma {:induction false} HalfAt(s: seq<byte>, p: nat, ws: seq<u16>, i: nat)
    requires At(s, p, Words(ws)) && i < |ws|
    ensures p + 2 * i + 2 <= |s| && ReadU16(s, p + 2 * i) == ws[i]
    decreases ws
  {
    hide LE16, ReadU16, At;
    AtConcat(s, p, LE16(ws[0]), Words(ws[1..]));
    AtLength(s, p, LE16(ws[0]));
    LE16RoundTrip(s, p, ws[0]);
    if i > 0 {
      HalfAt(s, p + 2, ws[1..], i - 1);
    }
  }

  lemma {:induction false} WordsLength(ws: seq<u16>)
    ensures |Words(ws)| == 2 * |ws|
  {
    if ws != [] {
      WordsLength(ws[1..]);
    }
  }

  lemma HalvesBack(s: seq<byte>, p: nat, ws: seq<u16>)
    requires At(s, p, Words(ws))
    ensures p + 2 * |ws| <= |s| && ReadHalves(s, p, |ws|) == ws
  {
    hide Words, ReadU16, At;
    WordsLength(ws);
    AtLength(s, p, Words(ws));
    forall i | 0 <= i < |ws| ensures ReadHalves(s, p, |ws|)[i] == ws[i] { HalfAt(s, p, ws, i); }
  }

  ghost predicate TypeListRead(t: seq<u16>, s: seq<byte>, p: nat) {
    p + 4 + 2 * |t| <= |s| && ReadU32(s, p) == |t| && ReadHalves(s, p + 4, |t|) == t
  }

  lemma TypeListBack(t: seq<u16>, s: seq<byte>, p: nat, offs: map<Ref, u32>)
    requires At(s, p, ItemBytes([Raw(LE32(U32(|t|))), Raw(Words(t))], offs)) && |t| < 0x1_0000_0000
    ensures TypeListRead(t, s, p)
  {
    hide At, ItemBytes, LE32, ReadU32, ReadU16, Words, ReadHalves;
    var fs := [Raw(LE32(U32(|t|))), Raw(Words(t))];
    RawWord(|t|);
    WordField(s, p, fs, offs, 1, 0);
    WordPos(s, p, fs, offs, 1, 1);
    FieldAt(s, p, fs, offs, 1);
    HalvesBack(s, p + 4, t);
  }

  /** A count and as many offsets. */
  function ReadOffsets(s: seq<byte>, p: nat, n: nat): (r: seq<Option<nat>>)
    requires p + 4 + 4 * n <= |s|
    ensures |r| == n && forall i :: 0 <= i < n ==> r[i] == Pointer(ReadU32(s, p + 4 * (i + 1)))
  {
    seq<Option<nat>>(n, i requires 0 <= i < n => Pointer(ReadU32(s, p + 4 * (i + 1))))
  }

  ghost predicate ListMoved(read: seq<Option<nat>>, to: Kind, items: seq<Option<nat>>, place: map<Ref, nat>) {
    && |read| == |items|
    && (forall i :: 0 <= i < |items| && items[i].Some? ==> Ref(to, items[i].value) in place)
    && (forall i :: 0 <= i < |items| ==> read[i] == Moved(place, to, items[i]))
  }

  ghost predicate OffsetListRead(to: Kind, items: seq<Option<nat>>, s: seq<byte>, p: nat, place: map<Ref, nat>) {
    p + 4 + 4 * |items| <= |s| && ReadU32(s, p) == |items| && ListMoved(ReadOffsets(s, p, |items|), to, items, place)
  }

  /** Annotation sets and set-ref lists. */
  lemma OffsetListBack(k: Kind, to: Kind, items: seq<Option<nat>>, s: seq<byte>, p: nat, offs: map<Ref, u32>,
                       place: map<Ref, nat>)
    requires MayRefer(k, to) && |items| < 0x1_0000_0000 && Stored(s, p, OffsetList(k, to, items), offs, place)
    ensures OffsetListRead(to, items, s, p, place)
  {
    hide At, ItemBytes, LE32, ReadU32, OffsetOf, Pointer, Moved, MayRefer, Linked, FieldsOf;
    var fs, n := OffsetList(k, to, items), |items|;
    RawWord(n);
    WordField(s, p, fs, offs, n + 1, 0);
    WordField(s, p, fs, offs, n + 1, n);
    forall i | 0 <= i < n
      ensures items[i].Some? ==> Ref(to, items[i].value) in place
      ensures ReadOffsets(s, p, n)[i] == Moved(place, to, items[i])
    {
      assert fs[i + 1] == Off32(ToRef(to, items[i]));
      WordField(s, p, fs, offs, n + 1, i + 1);
      FieldPointer(fs, offs, place, i + 1, to, items[i]);
    }
  }

  // Annotations directories.

  lemma {:induction false} PairField(to: Kind, ps: seq<(u32, nat)>, i: nat)
    requires MayRefer(AnnotationsDirectories, to) && i < |ps|
    ensures var fs := Pairs(to, ps);
            |fs| == 2 * |ps| && fs[2 * i] == Raw(LE32(ps[i].0)) && fs[2 * i + 1] == Off32(ToRef(to, Some(ps[i].1)))
    decreases ps
  {
    hide LE32;
    if i > 0 {
      PairField(to, ps[1..], i - 1);
    } else if |ps| > 1 {
      PairField(to, ps[1..], 0);
    } else {
      assert ps[1..] == [];
    }
  }

  lemma {:induction false} PairsWords(to: Kind, ps: seq<(u32, nat)>)
    requires MayRefer(AnnotationsDirectories, to)
    ensures |Pairs(to, ps)| == 2 * |ps| && AllWords(Pairs(to, ps), 2 * |ps|)
  {
    hide LE32;
    if ps != [] {
      PairsWords(to, ps[1..]);
    }
  }

  /** Indices and offsets, pair by pair. */
  function ReadPairs(s: seq<byte>, p: nat, n: nat): (r: seq<(u32, Option<nat>)>)
    requires p + 8 * n <= |s|
    ensures |r| == n && forall i :: 0 <= i < n ==> r[i] == (ReadU32(s, p + 8 * i), Pointer(ReadU32(s, p + 8 * i + 4)))
  {
    seq<(u32, Option<nat>)>(n, i requires 0 <= i < n => (ReadU32(s, p + 8 * i), Pointer(ReadU32(s, p + 8 * i + 4))))
  }

  ghost predicate PairsMoved(read: seq<(u32, Option<nat>)>, to: Kind, ps: seq<(u32, nat)>, place: map<Ref, nat>) {
    |read| == |ps| && forall i :: 0 <= i < |ps| ==>
      Ref(to, ps[i].1) in place && read[i] == (ps[i].0, Some(place[Ref(to, ps[i].1)]))
  }

  lemma PairBack(fs: seq<Field>, s: seq<byte>, p: nat, offs: map<Ref, u32>, place: map<Ref, nat>, j: nat, to: Kind,
                 x: (u32, nat))
    requires Stored(s, p, fs, offs, place) && j + 1 < |fs| && AllWords(fs, |fs|)
    requires fs[j] == Raw(LE32(x.0)) && fs[j + 1] == Off32(ToRef(to, Some(x.1)))
    ensures p + 4 * j + 8 <= |s| && Ref(to, x.1) in place
    ensures ReadU32(s, p + 4 * j) == x.0 && Pointer(ReadU32(s, p + 4 * (j + 1))) == Some(place[Ref(to, x.1)])
  {
    hide At, ItemBytes, LE32, ReadU32, OffsetOf, Pointer, Linked;
    RawWord(x.0);
    WordField(s, p, fs, offs, |fs|, j);
    WordField(s, p, fs, offs, |fs|, j + 1);
    FieldPointer(fs, offs, place, j + 1, to, Some(x.1));
  }

  lemma PairsBack(fs: seq<Field>, s: seq<byte>, p: nat, offs: map<Ref, u32>, place: map<Ref, nat>, b: nat, to: Kind,
                  ps: seq<(u32, nat)>)
    requires Stored(s, p, fs, offs, place) && MayRefer(AnnotationsDirectories, to) && p + 4 * (b + 2 * |ps|) <= |s|
    requires b + 2 * |ps| <= |fs| && AllWords(fs, |fs|) && fs[b..b + 2 * |ps|] == Pairs(to, ps)
    ensures PairsMoved(ReadPairs(s, p + 4 * b, |ps|), to, ps, place)
  {
    hide Stored, AllWords, LE32, ReadU32, Pointer, MayRefer, Pairs;
    var read := ReadPairs(s, p + 4 * b, |ps|);
    forall i | 0 <= i < |ps| ensures Ref(to, ps[i].1) in place && read[i] == (ps[i].0, Some(place[Ref(to, ps[i].1)])) {
      PairField(to, ps, i);
      assert fs[b + 2 * i] == fs[b..b + 2 * |ps|][2 * i] && fs[b + 2 * i + 1] == fs[b..b + 2 * |ps|][2 * i + 1];
      PairBack(fs, s, p, offs, place, b + 2 * i, to, ps[i]);
      assert p + 4 * b + 8 * i == p + 4 * (b + 2 * i) && p + 4 * b + 8 * i + 4 == p + 4 * (b + 2 * i + 1);
    }
  }

  lemma DirectoryWords(d: Directory)
    ensures var fs := DirectoryFields(d); var f, m, n := 2 * |d.fields|, 2 * |d.methods|, 2 * |d.parameters|;
            && |fs| == 4 + f + m + n && AllWords(fs, |fs|)
            && fs[4..4 + f] == Pairs(AnnotationSets, d.fields)
            && fs[4 + f..4 + f + m] == Pairs(AnnotationSets, d.methods)
            && fs[4 + f + m..4 + f + m + n] == Pairs(AnnotationSetRefs, d.parameters)
  {
    hide LE32, Pairs, FieldsOf;
    PairsWords(AnnotationSets, d.fields);
    PairsWords(AnnotationSets, d.methods);
    PairsWords(AnnotationSetRefs, d.parameters);
  }

  ghost predicate DirectoryHeadRead(d: Directory, s: seq<byte>, p: nat, place: map<Ref, nat>) {
    var f, m, n := |d.fields|, |d.methods|, |d.parameters|;
    && p + 16 + 8 * (f + m + n) <= |s|
    && (d.classAnnotation.Some? ==> Ref(AnnotationSets, d.classAnnotation.value) in place)
    && Pointer(ReadU32(s, p)) == Moved(place, AnnotationSets, d.classAnnotation)
    && ReadU32(s, p + 4) == f && ReadU32(s, p + 8) == m && ReadU32(s, p + 12) == n
  }

  ghost predicate DirectoryRead(d: Directory, s: seq<byte>, p: nat, place: map<Ref, nat>) {
    var f, m, n := |d.fields|, |d.methods|, |d.parameters|;
    && DirectoryHeadRead(d, s, p, place)
    && PairsMoved(ReadPairs(s, p + 16, f), AnnotationSets, d.fields, place)
    && PairsMoved(ReadPairs(s, p + 16 + 8 * f, m), AnnotationSets, d.methods, place)
    && PairsMoved(ReadPairs(s, p + 16 + 8 * f + 8 * m, n), AnnotationSetRefs, d.parameters, place)
  }

  predicate DirectoryFits(d: Directory) {
    |d.fields| < 0x1_0000_0000 && |d.methods| < 0x1_0000_0000 && |d.parameters| < 0x1_0000_0000
  }

  lemma DirectoryHead(d: Directory, s: seq<byte>, p: nat, offs: map<Ref, u32>, place: map<Ref, nat>)
    requires Stored(s, p, DirectoryFields(d), offs, place) && DirectoryFits(d)
    ensures DirectoryHeadRead(d, s, p, place)
  {
    DirectoryWords(d);
    hide At, ItemBytes, LE32, ReadU32, OffsetOf, Pointer, Moved, Pairs, AllWords, FieldsOf, Linked;
    var fs := DirectoryFields(d);
    RawWord(|d.fields|);
    RawWord(|d.methods|);
    RawWord(|d.parameters|);
    WordField(s, p, fs, offs, |fs|, 0);
    WordField(s, p, fs, offs, |fs|, 1);
    WordField(s, p, fs, offs, |fs|, 2);
    WordField(s, p, fs, offs, |fs|, 3);
    WordField(s, p, fs, offs, |fs|, |fs| - 1);
    FieldPointer(fs, offs, place, 0, AnnotationSets, d.classAnnotation);
  }

  lemma DirectoryBack(d: Directory, s: seq<byte>, p: nat, offs: map<Ref, u32>, place: map<Ref, nat>)
    requires Stored(s, p, DirectoryFields(d), offs, place) && DirectoryFits(d)
    ensures DirectoryRead(d, s, p, place)
  {
    hide Stored, AllWords, ReadU32, Pointer, Moved, Pairs, PairsMoved, ReadPairs, DirectoryFields;
    var fs, f, m := DirectoryFields(d), |d.fields|, |d.methods|;
    DirectoryHead(d, s, p, offs, place);
    DirectoryWords(d);
    PairsBack(fs, s, p, offs, place, 4, AnnotationSets, d.fields);
    PairsBack(fs, s, p, offs, place, 4 + 2 * f, AnnotationSets, d.methods);
    PairsBack(fs, s, p, offs, place, 4 + 2 * f + 2 * m, AnnotationSetRefs, d.parameters);
  }

  // Class data: indices are stored as differences.

  function ReadFields(s: seq<byte>, p: nat, n: nat, prev: u32): Option<(seq<FieldItem>, nat)>
    decreases n
  {
    if n == 0 then Some(([], p)) else
    var diff := DecodeUnsigned(s, p);
    if diff.None? then None else
    var flags := DecodeUnsigned(s, diff.value.1);
    if flags.None? then None else
    var index := U32(prev + diff.value.0);
    var rest := ReadFields(s, flags.value.1, n - 1, index);
    if rest.None? then None else Some(([FieldItem(index, flags.value.0)] + rest.value.0, rest.value.1))
  }

  function ReadMethods(s: seq<byte>, p: nat, n: nat, prev: u32): Option<(seq<MethodItem>, nat)>
    decreases n
  {
    if n == 0 then Some(([], p)) else
    var diff := DecodeUnsigned(s, p);
    if diff.None? then None else
    var flags := DecodeUnsigned(s, diff.value.1);
    if flags.None? then None else
    var code := DecodeUnsigned(s, flags.value.1);
    if code.None? then None else
    var index := U32(prev + diff.value.0);
    var rest := ReadMethods(s, code.value.1, n - 1, index);
    if rest.None? then None
    else Some(([MethodItem(index, flags.value.0, Pointer(code.value.0))] + rest.value.0, rest.value.1))
  }

  lemma Difference(v: u32, prev: u32)
    ensures U32(prev + U32(v - prev)) == v
  {
  }

  /** A number in LEB128 and the field after it. */
  lemma LebField(s: seq<byte>, p: nat, fs: seq<Field>, offs: map<Ref, u32>, j: nat, v: u32)
    requires At(s, p, ItemBytes(fs, offs)) && j < |fs|
    requires fs[j] == Leb(v) || (fs[j].OffLeb? && OffsetOf(fs[j].target, offs) == v)
    ensures DecodeUnsigned(s, p + Pos(fs, offs, j)) == Some((v, p + Pos(fs, offs, j + 1)))
  {
    hide ItemBytes, At, DecodeUnsigned, OffsetOf, Uleb;
    FieldAt(s, p, fs, offs, j);
    UlebRoundTrip(s, p + Pos(fs, offs, j), v);
  }

  lemma {:induction false} FieldListBack(s: seq<byte>, p: nat, fs: seq<Field>, offs: map<Ref, u32>, b: nat,
                                         items: seq<FieldItem>, prev: u32)
    requires At(s, p, ItemBytes(fs, offs)) && b + 2 * |items| <= |fs|
    requires fs[b..b + 2 * |items|] == FieldList(items, prev)
    ensures ReadFields(s, p + Pos(fs, offs, b), |items|, prev) == Some((items, p + Pos(fs, offs, b + 2 * |items|)))
    decreases items
  {
    hide At, ItemBytes, DecodeUnsigned, Pos, U32, FieldsOf;
    if items != [] {
      var list := fs[b..b + 2 * |items|];
      assert list[0] == fs[b] && list[1] == fs[b + 1];
      LebField(s, p, fs, offs, b, U32(items[0].field - prev));
      LebField(s, p, fs, offs, b + 1, items[0].accessFlags);
      Difference(items[0].field, prev);
      assert fs[b + 2..b + 2 + 2 * |items[1..]|] == list[2..];
      FieldListBack(s, p, fs, offs, b + 2, items[1..], items[0].field);
      assert [items[0]] + items[1..] == items;
    }
  }

  /** Methods with their code items as offsets. */
  ghost predicate MethodsMoved(read: seq<MethodItem>, items: seq<MethodItem>, place: map<Ref, nat>) {
    && |read| == |items|
    && (forall i :: 0 <= i < |items| && items[i].code.Some? ==> Ref(CodeItems, items[i].code.value) in place)
    && (forall i :: 0 <= i < |items| ==> read[i] == items[i].(code := Moved(place, CodeItems, items[i].code)))
  }

  lemma MovedCons(m: MethodItem, x: MethodItem, read: seq<MethodItem>, items: seq<MethodItem>, place: map<Ref, nat>)
    requires MethodsMoved(read, items, place) && (x.code.Some? ==> Ref(CodeItems, x.code.value) in place)
    requires m == x.(code := Moved(place, CodeItems, x.code))
    ensures MethodsMoved([m] + read, [x] + items, place)
  {
    hide Moved;
  }

  /** Reading methods at `q` gives the items, with offsets, and ends at `end`. */
  ghost predicate MethodsAt(s: seq<byte>, q: nat, items: seq<MethodItem>, prev: u32, end: nat, place: map<Ref, nat>) {
    var got := ReadMethods(s, q, |items|, prev);
    got.Some? && got.value.1 == end && MethodsMoved(got.value.0, items, place)
  }

  lemma {:induction false} MethodListBack(s: seq<byte>, offs: map<Ref, u32>, place: map<Ref, nat>,
                                          fs: seq<Field>, p: nat, b: nat, items: seq<MethodItem>, prev: u32)
    requires Stored(s, p, fs, offs, place) && b + 3 * |items| <= |fs|
    requires fs[b..b + 3 * |items|] == MethodList(items, prev)
    ensures MethodsAt(s, p + Pos(fs, offs, b), items, prev, p + Pos(fs, offs, b + 3 * |items|), place)
    decreases items
  {
    hide At, ItemBytes, DecodeUnsigned, Pos, U32, FieldsOf, Linked, OffsetOf, Pointer, Moved, MethodsMoved;
    if items == [] {
      NoneMoved(place);
    } else {
      var list, x := fs[b..b + 3 * |items|], items[0];
      assert list[0] == fs[b] && list[1] == fs[b + 1] && list[2] == fs[b + 2];
      LebField(s, p, fs, offs, b, U32(x.method_ - prev));
      LebField(s, p, fs, offs, b + 1, x.accessFlags);
      LebField(s, p, fs, offs, b + 2, OffsetOf(ToRef(CodeItems, x.code), offs));
      FieldPointer(fs, offs, place, b + 2, CodeItems, x.code);
      Difference(x.method_, prev);
      assert fs[b + 3..b + 3 + 3 * |items[1..]|] == list[3..];
      MethodListBack(s, offs, place, fs, p, b + 3, items[1..], x.method_);
      var rest := ReadMethods(s, p + Pos(fs, offs, b + 3), |items| - 1, x.method_).value.0;
      assert [x] + items[1..] == items;
      MovedCons(x.(code := Moved(place, CodeItems, x.code)), x, rest, items[1..], place);
    }
  }

  lemma NoneMoved(place: map<Ref, nat>)
    ensures MethodsMoved([], [], place)
  {
  }

  function ReadClassData(s: seq<byte>, p: nat): Option<ClassData> {
    var a := DecodeUnsigned(s, p);
    if a.None? then None else
    var b := DecodeUnsigned(s, a.value.1);
    if b.None? then None else
    var c := DecodeUnsigned(s, b.value.1);
    if c.None? then None else
    var d := DecodeUnsigned(s, c.value.1);
    if d.None? then None else
    var statics := ReadFields(s, d.value.1, a.value.0, 0);
    if statics.None? then None else
    var instances := ReadFields(s, statics.value.1, b.value.0, 0);
    if instances.None? then None else
    var directs := ReadMethods(s, instances.value.1, c.value.0, 0);
    if directs.None? then None else
    var virtuals := ReadMethods(s, directs.value.1, d.value.0, 0);
    if virtuals.None? then None else
    Some(ClassData(statics.value.0, instances.value.0, directs.value.0, virtuals.value.0))
  }

  predicate ListsFit(c: ClassData) {
    && |c.staticFields| < 0x1_0000_0000 && |c.instanceFields| < 0x1_0000_0000
    && |c.directMethods| < 0x1_0000_0000 && |c.virtualMethods| < 0x1_0000_0000
  }

  lemma {:induction false} FieldListLength(items: seq<FieldItem>, prev: u32)
    ensures |FieldList(items, prev)| == 2 * |items|
    decreases items
  {
    hide U32, FieldsOf;
    if items != [] {
      FieldListLength(items[1..], items[0].field);
    }
  }

  lemma {:induction false} MethodListLength(items: seq<MethodItem>, prev: u32)
    ensures |MethodList(items, prev)| == 3 * |items|
    decreases items
  {
    hide U32, FieldsOf;
    if items != [] {
      MethodListLength(items[1..], items[0].method_);
    }
  }

  lemma ClassDataParts(c: ClassData)
    ensures var fs := ClassDataFields(c);
            var x := 4 + 2 * |c.staticFields|;
            var y := x + 2 * |c.instanceFields|;
            var z := y + 3 * |c.directMethods|;
            && |fs| == z + 3 * |c.virtualMethods|
            && fs[0] == Leb(U32(|c.staticFields|)) && fs[1] == Leb(U32(|c.instanceFields|))
            && fs[2] == Leb(U32(|c.directMethods|)) && fs[3] == Leb(U32(|c.virtualMethods|))
            && fs[4..x] == FieldList(c.staticFields, 0) && fs[x..y] == FieldList(c.instanceFields, 0)
            && fs[y..z] == MethodList(c.directMethods, 0)
            && fs[z..z + 3 * |c.virtualMethods|] == MethodList(c.virtualMethods, 0)
  {
    hide U32, FieldsOf, FieldList, MethodList;
    FieldListLength(c.staticFields, 0);
    FieldListLength(c.instanceFields, 0);
    MethodListLength(c.directMethods, 0);
    MethodListLength(c.virtualMethods, 0);
  }

  ghost predicate ClassDataMoved(read: ClassData, c: ClassData, place: map<Ref, nat>) {
    && read.staticFields == c.staticFields && read.instanceFields == c.instanceFields
    && MethodsMoved(read.directMethods, c.directMethods, place)
    && MethodsMoved(read.virtualMethods, c.virtualMethods, place)
  }

  lemma ClassDataCounts(s: seq<byte>, p: nat, c: ClassData, offs: map<Ref, u32>)
    requires At(s, p, ItemBytes(ClassDataFields(c), offs)) && ListsFit(c)
    ensures var fs := ClassDataFields(c);
            && |fs| >= 4
            && DecodeUnsigned(s, p) == Some((|c.staticFields|, p + Pos(fs, offs, 1)))
            && DecodeUnsigned(s, p + Pos(fs, offs, 1)) == Some((|c.instanceFields|, p + Pos(fs, offs, 2)))
            && DecodeUnsigned(s, p + Pos(fs, offs, 2)) == Some((|c.directMethods|, p + Pos(fs, offs, 3)))
            && DecodeUnsigned(s, p + Pos(fs, offs, 3)) == Some((|c.virtualMethods|, p + Pos(fs, offs, 4)))
  {
    ClassDataParts(c);
    hide At, ItemBytes, DecodeUnsigned, Pos, FieldsOf, FieldList, MethodList, ClassDataFields;
    var fs := ClassDataFields(c);
    FirstPos(fs, offs);
    LebField(s, p, fs, offs, 0, |c.staticFields|);
    LebField(s, p, fs, offs, 1, |c.instanceFields|);
    LebField(s, p, fs, offs, 2, |c.directMethods|);
    LebField(s, p, fs, offs, 3, |c.virtualMethods|);
  }

  ghost predicate ClassDataRead(c: ClassData, s: seq<byte>, p: nat, place: map<Ref, nat>) {
    var read := ReadClassData(s, p); read.Some? && ClassDataMoved(read.value, c, place)
  }

  lemma ClassDataBack(c: ClassData, s: seq<byte>, p: nat, offs: map<Ref, u32>, place: map<Ref, nat>)
    requires Stored(s, p, ClassDataFields(c), offs, place) && ListsFit(c)
    ensures ClassDataRead(c, s, p, place)
  {
    hide At, ItemBytes, DecodeUnsigned, Pos, FieldsOf, FieldList, MethodList, ClassDataFields, ReadFields, ReadMethods,
      MethodsMoved, Linked;
    var fs := ClassDataFields(c);
    ClassDataParts(c);
    ClassDataCounts(s, p, c, offs);
    var x := 4 + 2 * |c.staticFields|;
    var y := x + 2 * |c.instanceFields|;
    var z := y + 3 * |c.directMethods|;
    FieldListBack(s, p, fs, offs, 4, c.staticFields, 0);
    FieldListBack(s, p, fs, offs, x, c.instanceFields, 0);
    MethodListBack(s, offs, place, fs, p, y, c.directMethods, 0);
    MethodListBack(s, offs, place, fs, p, z, c.virtualMethods, 0);
  }

  // Code items.

  function ReadTry(s: seq<byte>, p: nat): TryItem
    requires p + 8 <= |s|
  {
    TryItem(ReadU32(s, p), ReadU16(s, p + 4), ReadU16(s, p + 6))
  }

  function ReadTries(s: seq<byte>, p: nat, n: nat): (r: seq<TryItem>)
    requires p + 8 * n <= |s|
    ensures |r| == n && forall i :: 0 <= i < n ==> r[i] == ReadTry(s, p + 8 * i)
  {
    seq<TryItem>(n, i requires 0 <= i < n => ReadTry(s, p + 8 * i))
  }

  lemma {:induction false} TryAt(s: seq<byte>, p: nat, ts: seq<TryItem>, i: nat)
    requires At(s, p, TryBytes(ts)) && i < |ts|
    ensures p + 8 * i + 8 <= |s| && ReadTry(s, p + 8 * i) == ts[i]
    decreases ts
  {
    hide LE16, LE32, ReadU16, ReadU32, At;
    var t := ts[0];
    var a, b, c, rest := LE32(t.startAddr), LE16(t.insnCount), LE16(t.handlerOff), TryBytes(ts[1..]);
    AtConcat(s, p, a + b + c, rest);
    AtConcat(s, p, a + b, c);
    AtConcat(s, p, a, b);
    AtLength(s, p + 6, c);
    LE32RoundTrip(s, p, t.startAddr);
    LE16RoundTrip(s, p + 4, t.insnCount);
    LE16RoundTrip(s, p + 6, t.handlerOff);
    if i > 0 {
      TryAt(s, p + 8, ts[1..], i - 1);
    }
  }

  lemma {:induction false} TryLength(ts: seq<TryItem>)
    ensures |TryBytes(ts)| == 8 * |ts|
  {
    if ts != [] {
      TryLength(ts[1..]);
    }
  }

  lemma TriesBack(s: seq<byte>, p: nat, ts: seq<TryItem>)
    requires At(s, p, TryBytes(ts))
    ensures p + 8 * |ts| <= |s| && ReadTries(s, p, |ts|) == ts
  {
    hide TryBytes, ReadTry, At;
    TryLength(ts);
    AtLength(s, p, TryBytes(ts));
    forall i | 0 <= i < |ts| ensures ReadTries(s, p, |ts|)[i] == ts[i] { TryAt(s, p, ts, i); }
  }

  /** Try items start at the next word boundary after the instructions; code items start on one. */
  function TriesStart(p: nat, insnsSize: nat): nat {
    p + (16 + 2 * insnsSize + 3) / 4 * 4
  }

  lemma CodeHead(s: seq<byte>, p: nat, a: u16, b: u16, c: u16, d: u16)
    requires At(s, p, LE16(a) + LE16(b) + LE16(c) + LE16(d))
    ensures p + 8 <= |s| && ReadU16(s, p) == a && ReadU16(s, p + 2) == b && ReadU16(s, p + 4) == c
    ensures ReadU16(s, p + 6) == d
  {
    hide LE16, ReadU16, At;
    AtLength(s, p, LE16(a) + LE16(b) + LE16(c) + LE16(d));
    AtConcat(s, p, LE16(a) + LE16(b) + LE16(c), LE16(d));
    AtConcat(s, p, LE16(a) + LE16(b), LE16(c));
    AtConcat(s, p, LE16(a), LE16(b));
    LE16RoundTrip(s, p, a);
    LE16RoundTrip(s, p + 2, b);
    LE16RoundTrip(s, p + 4, c);
    LE16RoundTrip(s, p + 6, d);
  }

  lemma CodePositions(s: seq<byte>, p: nat, c: CodeItem, offs: map<Ref, u32>)
    requires At(s, p, ItemBytes(CodeFields(c), offs))
    ensures At(s, p, LE16(c.registers) + LE16(c.ins) + LE16(c.outs) + LE16(|c.tries| % 0x1_0000))
    ensures At(s, p + 8, LE32(OffsetOf(ToRef(DebugInfos, c.debugInfo), offs)))
    ensures At(s, p + 12, LE32(U32(|c.insns|))) && At(s, p + 16, Words(c.insns))
    ensures Pos(CodeFields(c), offs, 4) == 16 + 2 * |c.insns|
  {
    hide At, ItemBytes, LE32, LE16, Words, OffsetOf, U32, TryBytes, FieldsOf;
    var fs := CodeFields(c);
    FirstPos(fs, offs);
    FieldAt(s, p, fs, offs, 0);
    FieldAt(s, p, fs, offs, 1);
    FieldAt(s, p, fs, offs, 2);
    FieldAt(s, p, fs, offs, 3);
    WordsLength(c.insns);
  }

  lemma TryPositions(s: seq<byte>, p: nat, c: CodeItem, offs: map<Ref, u32>)
    requires At(s, p, ItemBytes(CodeFields(c), offs)) && c.tries != []
    ensures var q := TriesStart(p, |c.insns|);
            At(s, q, TryBytes(c.tries)) && At(s, q + 8 * |c.tries|, CatchHandlers.Overlay(c.handlers))
  {
    hide At, ItemBytes, LE32, LE16, Words, OffsetOf, U32, TryBytes, FieldsOf, CatchHandlers.Overlay, Pos;
    var fs := CodeFields(c);
    CodePositions(s, p, c, offs);
    FieldAt(s, p, fs, offs, 4);
    FieldAt(s, p, fs, offs, 5);
    FieldAt(s, p, fs, offs, 6);
    TryLength(c.tries);
    Rounding(16 + 2 * |c.insns|);
  }

  lemma Rounding(x: nat)
    ensures x + (4 - x % 4) % 4 == (x + 3) / 4 * 4
  {
  }

  ghost predicate CodeHeadRead(c: CodeItem, s: seq<byte>, p: nat, place: map<Ref, nat>) {
    && p + 16 + 2 * |c.insns| <= |s| && (c.debugInfo.Some? ==> Ref(DebugInfos, c.debugInfo.value) in place)
    && ReadU16(s, p) == c.registers && ReadU16(s, p + 2) == c.ins && ReadU16(s, p + 4) == c.outs
    && ReadU16(s, p + 6) == |c.tries|
    && Pointer(ReadU32(s, p + 8)) == Moved(place, DebugInfos, c.debugInfo)
    && ReadU32(s, p + 12) == |c.insns| && ReadHalves(s, p + 16, |c.insns|) == c.insns
  }

  ghost predicate TriesRead(c: CodeItem, s: seq<byte>, p: nat) {
    var q := TriesStart(p, |c.insns|);
    && q + 8 * |c.tries| <= |s| && ReadTries(s, q, |c.tries|) == c.tries
    && At(s, q + 8 * |c.tries|, CatchHandlers.Overlay(c.handlers))
  }

  ghost predicate CodeItemRead(c: CodeItem, s: seq<byte>, p: nat, place: map<Ref, nat>) {
    CodeHeadRead(c, s, p, place) && (c.tries != [] ==> TriesRead(c, s, p))
  }

  /** Everything of a code item but its handlers, whose table starts behind the try items. */
  lemma CodeItemBack(c: CodeItem, s: seq<byte>, p: nat, offs: map<Ref, u32>, place: map<Ref, nat>)
    requires Stored(s, p, CodeFields(c), offs, place) && |c.insns| < 0x1_0000_0000 && |c.tries| < 0x1_0000
    ensures CodeItemRead(c, s, p, place)
  {
    hide At, ItemBytes, LE32, LE16, Words, OffsetOf, TryBytes, FieldsOf, ReadU16, ReadU32, Pointer, Moved, ReadTries,
      ReadHalves, Linked;
    CodePositions(s, p, c, offs);
    CodeHead(s, p, c.registers, c.ins, c.outs, |c.tries|);
    HalvesBack(s, p + 16, c.insns);
    LE32RoundTrip(s, p + 8, OffsetOf(ToRef(DebugInfos, c.debugInfo), offs));
    LE32RoundTrip(s, p + 12, |c.insns|);
    FieldPointer(CodeFields(c), offs, place, 1, DebugInfos, c.debugInfo);
    if c.tries != [] {
      TryPositions(s, p, c, offs);
      TriesBack(s, TriesStart(p, |c.insns|), c.tries);
    }
  }

  // Data that is read to an end it carries in itself.

  ghost predicate DebugInfoRead(bs: seq<byte>, s: seq<byte>, p: nat) {
    DebugInfo.Skip(s, p) == Some(p + |bs|) && At(s, p, bs)
  }

  /** The debug info of a code item is as long as its scanner says. */
  lemma DebugInfoBack(g: DebugInfo.Program, s: seq<byte>, p: nat, offs: map<Ref, u32>)
    requires DebugInfo.Valid(g) && At(s, p, ItemBytes([Raw(DebugInfo.ProgramBytes(g))], offs))
    ensures DebugInfoRead(DebugInfo.ProgramBytes(g), s, p)
  {
    hide At, ItemBytes, DebugInfo.Valid, DebugInfo.ProgramBytes, DebugInfo.Skip;
    SingleField(s, p, [Raw(DebugInfo.ProgramBytes(g))], offs);
    DebugInfo.ProgramSkipped(s, p, g);
  }

  lemma EncodedArrayBack(a: seq<Value>, s: seq<byte>, p: nat, offs: map<Ref, u32>)
    requires At(s, p, ItemBytes([Loop(ArrayOf(a))], offs)) && |a| < 0x1_0000_0000 && AllWritable(a)
    ensures p <= |s| && ReadArray(s, p) == Some((Array(a), p + |EncodeArray(a)|))
  {
    hide At, ItemBytes, EncodeArray, ReadArray, AllWritable;
    SingleField(s, p, [Loop(ArrayOf(a))], offs);
    AtLength(s, p, EncodeArray(a));
    ArrayRoundTrip(s, p, a);
  }

  ghost predicate AnnotationRead(a: AnnotationItem, s: seq<byte>, p: nat) {
    && p + 1 <= |s| && s[p] == a.visibility
    && ReadAnnotation(s, p + 1) == Some((Annotation(a.typ, a.elements), p + 1 + |EncodeAnnotation(a.typ, a.elements)|))
  }

  lemma AnnotationBack(a: AnnotationItem, s: seq<byte>, p: nat, offs: map<Ref, u32>)
    requires At(s, p, ItemBytes([Raw([a.visibility]), Loop(AnnotationOf(a.typ, a.elements))], offs))
    requires |a.elements| < 0x1_0000_0000 && ElementsWritable(a.elements)
    ensures AnnotationRead(a, s, p)
  {
    hide At, ItemBytes, EncodeAnnotation, ReadAnnotation, ElementsWritable;
    var fs := [Raw([a.visibility]), Loop(AnnotationOf(a.typ, a.elements))];
    FirstPos(fs, offs);
    FieldAt(s, p, fs, offs, 0);
    FieldAt(s, p, fs, offs, 1);
    FirstByte(s, p, a.visibility);
    AnnotationRoundTrip(s, p + 1, a.typ, a.elements);
  }

  lemma FirstByte(s: seq<byte>, p: nat, b: byte)
    requires At(s, p, [b])
    ensures p + 1 <= |s| && s[p] == b
  {
  }

  /** The bytes up to the next zero. */
  function ReadCString(s: seq<byte>, p: nat): seq<byte>
    decreases |s| - p
  {
    if p >= |s| || s[p] == 0 then [] else [s[p]] + ReadCString(s, p + 1)
  }

  lemma {:induction false} CStringBack(s: seq<byte>, p: nat, data: seq<byte>)
    requires At(s, p, data) && p + |data| < |s| && s[p + |data|] == 0 && forall i :: 0 <= i < |data| ==> data[i] != 0
    ensures ReadCString(s, p) == data
    decreases data
  {
    if data == [] {
    } else {
      assert data == [data[0]] + data[1..];
      AtConcat(s, p, [data[0]], data[1..]);
      assert s[p] == data[0];
      CStringBack(s, p + 1, data[1..]);
    }
  }

  ghost predicate StringDataRead(x: StringData, s: seq<byte>, p: nat) {
    var n := DecodeUnsigned(s, p);
    n.Some? && n.value.0 == x.utf16Length && ReadCString(s, n.value.1) == x.data
  }

  lemma StringDataBack(x: StringData, s: seq<byte>, p: nat, offs: map<Ref, u32>)
    requires At(s, p, ItemBytes([Leb(x.utf16Length), Raw(x.data), Zeros(1)], offs))
    requires forall j :: 0 <= j < |x.data| ==> x.data[j] != 0
    ensures StringDataRead(x, s, p)
  {
    hide At, ItemBytes, DecodeUnsigned, ReadCString, Pos;
    var fs := [Leb(x.utf16Length), Raw(x.data), Zeros(1)];
    FirstPos(fs, offs);
    LebField(s, p, fs, offs, 0, x.utf16Length);
    FieldAt(s, p, fs, offs, 1);
    FieldAt(s, p, fs, offs, 2);
    assert FieldBytes(fs[2], offs, Pos(fs, offs, 2)) == [0];
    FirstByte(s, p + Pos(fs, offs, 2), 0);
    CStringBack(s, p + Pos(fs, offs, 1), x.data);
  }
}
