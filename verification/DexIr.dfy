/**
 * The in-memory representation of a dex file (dexlayout/dex_ir.h) and, for every kind of
 * item, the fields its Write function in dexlayout/dex_writer.cc emits. A pointer from one
 * item to another is the index of the target in its collection.
 */
module DexIr {
  import opened Bytes
  import opened Leb128
  import opened EncodedValues
  import CatchHandlers
  import HiddenApi

  /** The sections, in the order in which they stand in the file. */
  datatype Kind =
    | StringIds | TypeIds | ProtoIds | FieldIds | MethodIds | ClassDefs | CallSiteIds | MethodHandles
    | CodeItems | DebugInfos | EncodedArrays | Annotations | AnnotationSets | AnnotationSetRefs
    | AnnotationsDirectories | TypeLists | ClassDatas | StringDatas | HiddenapiData

  datatype Ref = Ref(kind: Kind, index: nat)

  /** What an item consists of on disk. */
  datatype Field =
    | Raw(bytes: seq<byte>)
    | Leb(value: u32)
    | Off32(target: Option<Ref>)    // the target's file offset in four bytes, zero for none
    | OffLeb(target: Option<Ref>)   // the target's file offset in unsigned LEB128, zero for none
    | Zeros(count: nat)             // skipped, because the section is zero already
    | Align4                        // padding up to the next word
    | Loop(maker: Maker)            // written by a loop of its own

  datatype Maker =
    | ArrayOf(values: seq<Value>)
    | AnnotationOf(typ: u32, elements: seq<Element>)
    | HandlersOf(list: seq<CatchHandlers.Handler>)
    | HiddenapiOf(classes: seq<HiddenApi.Class>)

  datatype StringId = StringId(data: nat)
  datatype TypeId = TypeId(descriptor: u32)
  datatype ProtoId = ProtoId(shorty: u32, returnType: u32, parameters: Option<nat>)
  datatype FieldId = FieldId(class_: u16, typ: u16, name: u32)
  datatype MethodId = MethodId(class_: u16, proto: u16, name: u32)
  datatype ClassDef = ClassDef(classType: u32, accessFlags: u32, superclass: Option<u32>, interfaces: Option<nat>,
                               sourceFile: Option<u32>, annotations: Option<nat>, classData: Option<nat>,
                               staticValues: Option<nat>)
  datatype CallSiteId = CallSiteId(callSite: nat)
  datatype MethodHandle = MethodHandle(handleType: u16, fieldOrMethod: u16)
  datatype TryItem = TryItem(startAddr: u32, insnCount: u16, handlerOff: u16)
  datatype CodeItem = CodeItem(registers: u16, ins: u16, outs: u16, debugInfo: Option<nat>, insns: seq<u16>,
                               tries: seq<TryItem>, handlers: seq<CatchHandlers.Handler>)
  datatype AnnotationItem = AnnotationItem(visibility: byte, typ: u32, elements: seq<Element>)
  datatype Directory = Directory(classAnnotation: Option<nat>, fields: seq<(u32, nat)>, methods: seq<(u32, nat)>,
                                 parameters: seq<(u32, nat)>)
  datatype FieldItem = FieldItem(field: u32, accessFlags: u32)
  datatype MethodItem = MethodItem(method_: u32, accessFlags: u32, code: Option<nat>)
  datatype ClassData = ClassData(staticFields: seq<FieldItem>, instanceFields: seq<FieldItem>,
                                 directMethods: seq<MethodItem>, virtualMethods: seq<MethodItem>)
  datatype StringData = StringData(utf16Length: u32, data: seq<byte>)

  datatype Ir = Ir(
    stringIds: seq<StringId>,
    typeIds: seq<TypeId>,
    protoIds: seq<ProtoId>,
    fieldIds: seq<FieldId>,
    methodIds: seq<MethodId>,
    classDefs: seq<ClassDef>,
    callSiteIds: seq<CallSiteId>,
    methodHandles: seq<MethodHandle>,
    codeItems: seq<CodeItem>,
    debugInfos: seq<seq<byte>>,
    encodedArrays: seq<seq<Value>>,
    annotations: seq<AnnotationItem>,
    annotationSets: seq<seq<nat>>,
    annotationSetRefs: seq<seq<Option<nat>>>,
    directories: seq<Directory>,
    typeLists: seq<seq<u16>>,
    classDatas: seq<ClassData>,
    stringDatas: seq<StringData>,
    hiddenapi: seq<HiddenApi.Class>)

  function U32(n: int): u32 { n % 0x1_0000_0000 }

  function ToRef(k: Kind, i: Option<nat>): Option<Ref> {
    if i.None? then None else Some(Ref(k, i.value))
  }

  /** Which kinds of item may hold the offset of an item of kind `to`. */
  predicate MayRefer(from: Kind, to: Kind) {
    match from
    case StringIds => to == StringDatas
    case ProtoIds => to == TypeLists
    case ClassDefs => to == TypeLists || to == AnnotationsDirectories || to == ClassDatas || to == EncodedArrays
    case CallSiteIds => to == EncodedArrays
    case CodeItems => to == DebugInfos
    case AnnotationSets => to == Annotations
    case AnnotationSetRefs => to == AnnotationSets
    case AnnotationsDirectories => to == AnnotationSets || to == AnnotationSetRefs
    case ClassDatas => to == CodeItems
    case _ => false
  }

  function Target(f: Field): Option<Ref> {
    if f.Off32? || f.OffLeb? then f.target else None
  }

  predicate IsHiddenapi(f: Field) {
    f.Loop? && f.maker.HiddenapiOf?
  }

  /** A field that counts on its item beginning at a word. */
  predicate NeedsWord(f: Field) {
    f.Align4? || IsHiddenapi(f)
  }

  predicate FieldsOf(k: Kind, fs: seq<Field>) {
    forall j :: 0 <= j < |fs| ==>
      && (Target(fs[j]).Some? ==> MayRefer(k, Target(fs[j]).value.kind))
      && (fs[j].OffLeb? ==> k == ClassDatas)
      && (NeedsWord(fs[j]) ==> k == CodeItems || k == HiddenapiData)
      && (IsHiddenapi(fs[j]) ==> j == 0)
  }

  function Words(ws: seq<u16>): seq<byte> {
    if ws == [] then [] else LE16(ws[0]) + Words(ws[1..])
  }

  function ClassDefFields(c: ClassDef): (fs: seq<Field>)
    ensures FieldsOf(ClassDefs, fs)
  {
    [Raw(LE32(c.classType)), Raw(LE32(c.accessFlags)),
     Raw(LE32(if c.superclass.None? then 0xFFFF_FFFF else c.superclass.value)),
     Off32(ToRef(TypeLists, c.interfaces)),
     Raw(LE32(if c.sourceFile.None? then 0xFFFF_FFFF else c.sourceFile.value)),
     Off32(ToRef(AnnotationsDirectories, c.annotations)),
     Off32(ToRef(ClassDatas, c.classData)),
     Off32(ToRef(EncodedArrays, c.staticValues))]
  }

  function TryBytes(tries: seq<TryItem>): seq<byte> {
    if tries == [] then []
    else LE32(tries[0].startAddr) + LE16(tries[0].insnCount) + LE16(tries[0].handlerOff) + TryBytes(tries[1..])
  }

  function CodeFields(c: CodeItem): (fs: seq<Field>)
    ensures FieldsOf(CodeItems, fs)
  {
    [Raw(LE16(c.registers) + LE16(c.ins) + LE16(c.outs) + LE16(|c.tries| % 0x1_0000)),
     Off32(ToRef(DebugInfos, c.debugInfo)),
     Raw(LE32(U32(|c.insns|))), Raw(Words(c.insns))]
    + (if c.tries == [] then [] else [Align4, Raw(TryBytes(c.tries)), Loop(HandlersOf(c.handlers))])
  }

  function OffsetList(k: Kind, to: Kind, items: seq<Option<nat>>): (fs: seq<Field>)
    requires MayRefer(k, to)
    ensures FieldsOf(k, fs)
  {
    [Raw(LE32(U32(|items|)))] + seq(|items|, i requires 0 <= i < |items| => Off32(ToRef(to, items[i])))
  }

  function Pairs(to: Kind, ps: seq<(u32, nat)>): (fs: seq<Field>)
    requires MayRefer(AnnotationsDirectories, to)
    ensures FieldsOf(AnnotationsDirectories, fs)
  {
    if ps == [] then [] else [Raw(LE32(ps[0].0)), Off32(Some(Ref(to, ps[0].1)))] + Pairs(to, ps[1..])
  }

  function DirectoryFields(d: Directory): (fs: seq<Field>)
    ensures FieldsOf(AnnotationsDirectories, fs)
  {
    [Off32(ToRef(AnnotationSets, d.classAnnotation)),
     Raw(LE32(U32(|d.fields|))), Raw(LE32(U32(|d.methods|))), Raw(LE32(U32(|d.parameters|)))]
    + Pairs(AnnotationSets, d.fields) + Pairs(AnnotationSets, d.methods) + Pairs(AnnotationSetRefs, d.parameters)
  }

  /** Field and method indices are stored as differences. */
  function FieldList(items: seq<FieldItem>, prev: u32): (fs: seq<Field>)
    ensures FieldsOf(ClassDatas, fs)
  {
    if items == [] then []
    else [Leb(U32(items[0].field - prev)), Leb(items[0].accessFlags)] + FieldList(items[1..], items[0].field)
  }

  function MethodList(items: seq<MethodItem>, prev: u32): (fs: seq<Field>)
    ensures FieldsOf(ClassDatas, fs)
  {
    if items == [] then []
    else [Leb(U32(items[0].method_ - prev)), Leb(items[0].accessFlags), OffLeb(ToRef(CodeItems, items[0].code))]
         + MethodList(items[1..], items[0].method_)
  }

  function ClassDataFields(c: ClassData): (fs: seq<Field>)
    ensures FieldsOf(ClassDatas, fs)
  {
    [Leb(U32(|c.staticFields|)), Leb(U32(|c.instanceFields|)), Leb(U32(|c.directMethods|)),
     Leb(U32(|c.virtualMethods|))]
    + FieldList(c.staticFields, 0) + FieldList(c.instanceFields, 0)
    + MethodList(c.directMethods, 0) + MethodList(c.virtualMethods, 0)
  }

  function Count(ir: Ir, k: Kind): nat {
    match k
    case StringIds => |ir.stringIds|
    case TypeIds => |ir.typeIds|
    case ProtoIds => |ir.protoIds|
    case FieldIds => |ir.fieldIds|
    case MethodIds => |ir.methodIds|
    case ClassDefs => |ir.classDefs|
    case CallSiteIds => |ir.callSiteIds|
    case MethodHandles => |ir.methodHandles|
    case CodeItems => |ir.codeItems|
    case DebugInfos => |ir.debugInfos|
    case EncodedArrays => |ir.encodedArrays|
    case Annotations => |ir.annotations|
    case AnnotationSets => |ir.annotationSets|
    case AnnotationSetRefs => |ir.annotationSetRefs|
    case AnnotationsDirectories => |ir.directories|
    case TypeLists => |ir.typeLists|
    case ClassDatas => |ir.classDatas|
    case StringDatas => |ir.stringDatas|
    case HiddenapiData => if ir.hiddenapi == [] then 0 else 1
  }

  predicate Valid(ir: Ir, r: Ref) {
    r.index < Count(ir, r.kind)
  }

  /** The fields of an item, as its Write function emits them. */
  function Layout(ir: Ir, r: Ref): (fs: seq<Field>)
    requires Valid(ir, r)
    ensures FieldsOf(r.kind, fs)
  {
    match r.kind
    case StringIds => [Off32(Some(Ref(StringDatas, ir.stringIds[r.index].data)))]
    case TypeIds => [Raw(LE32(ir.typeIds[r.index].descriptor))]
    case ProtoIds =>
      var p := ir.protoIds[r.index];
      [Raw(LE32(p.shorty)), Raw(LE32(p.returnType)), Off32(ToRef(TypeLists, p.parameters))]
    case FieldIds =>
      var f := ir.fieldIds[r.index];
      [Raw(LE16(f.class_) + LE16(f.typ) + LE32(f.name))]
    case MethodIds =>
      var m := ir.methodIds[r.index];
      [Raw(LE16(m.class_) + LE16(m.proto) + LE32(m.name))]
    case ClassDefs => ClassDefFields(ir.classDefs[r.index])
    case CallSiteIds => [Off32(Some(Ref(EncodedArrays, ir.callSiteIds[r.index].callSite)))]
    case MethodHandles =>
      var m := ir.methodHandles[r.index];
      [Raw(LE16(m.handleType) + [0, 0] + LE16(m.fieldOrMethod) + [0, 0])]
    case CodeItems => CodeFields(ir.codeItems[r.index])
    case DebugInfos => [Raw(ir.debugInfos[r.index])]
    case EncodedArrays => [Loop(ArrayOf(ir.encodedArrays[r.index]))]
    case Annotations =>
      var a := ir.annotations[r.index];
      [Raw([a.visibility]), Loop(AnnotationOf(a.typ, a.elements))]
    case AnnotationSets =>
      var a := ir.annotationSets[r.index];
      OffsetList(AnnotationSets, Annotations, seq(|a|, i requires 0 <= i < |a| => Some(a[i])))
    case AnnotationSetRefs => OffsetList(AnnotationSetRefs, AnnotationSets, ir.annotationSetRefs[r.index])
    case AnnotationsDirectories => DirectoryFields(ir.directories[r.index])
    case TypeLists =>
      var t := ir.typeLists[r.index];
      [Raw(LE32(U32(|t|))), Raw(Words(t))]
    case ClassDatas => ClassDataFields(ir.classDatas[r.index])
    case StringDatas =>
      var s := ir.stringDatas[r.index];
      [Leb(s.utf16Length), Raw(s.data), Zeros(1)]
    case HiddenapiData => [Loop(HiddenapiOf(ir.hiddenapi))]
  }

  /**
   * Every pointer leads to an item of the IR. Hidden-API flags, if there are any, are given for every class
   * definition, are complete and take less than 4 GiB.
   */
  ghost predicate Closed(ir: Ir) {
    && (forall r, j :: Valid(ir, r) && 0 <= j < |Layout(ir, r)| && Target(Layout(ir, r)[j]).Some?
          ==> Valid(ir, Target(Layout(ir, r)[j]).value))
    && (ir.hiddenapi != [] ==> HiddenApi.Fits(ir.hiddenapi) && |ir.hiddenapi| == |ir.classDefs|)
  }

  ghost predicate FieldSound(f: Field) {
    IsHiddenapi(f) ==> f.maker.classes != [] && HiddenApi.Fits(f.maker.classes)
  }

  lemma ClosedSound(ir: Ir, r: Ref)
    requires Closed(ir) && Valid(ir, r)
    ensures forall j :: 0 <= j < |Layout(ir, r)| ==>
              FieldSound(Layout(ir, r)[j]) && (IsHiddenapi(Layout(ir, r)[j]) ==> j == 0)
  {
    hide HiddenApi.Fits, FieldsOf;
    if !r.kind.HiddenapiData? {
      assert forall j :: 0 <= j < |Layout(ir, r)| ==> !IsHiddenapi(Layout(ir, r)[j]) by { NoHiddenapi(ir, r); }
    }
  }

  lemma NoHiddenapi(ir: Ir, r: Ref)
    requires Valid(ir, r) && !r.kind.HiddenapiData?
    ensures forall j :: 0 <= j < |Layout(ir, r)| ==> !IsHiddenapi(Layout(ir, r)[j])
  {
  }

  ghost function MakerBytes(m: Maker): seq<byte> {
    match m
    case ArrayOf(values) => EncodeArray(values)
    case AnnotationOf(typ, elements) => EncodeAnnotation(typ, elements)
    case HandlersOf(list) => CatchHandlers.Overlay(list)
    case HiddenapiOf(classes) => if HiddenApi.Fits(classes) then HiddenApi.Section(classes) else []
  }

  function OffsetOf(target: Option<Ref>, offs: map<Ref, u32>): u32 {
    if target.Some? && target.value in offs then offs[target.value] else 0
  }

  /** The bytes of a field that starts `at` bytes into its item. */
  ghost function FieldBytes(f: Field, offs: map<Ref, u32>, at: nat): (bs: seq<byte>) {
    match f
    case Raw(bs) => bs
    case Leb(v) => Uleb(v)
    case Off32(t) => LE32(OffsetOf(t, offs))
    case OffLeb(t) => Uleb(OffsetOf(t, offs))
    case Zeros(n) => seq(n, i => 0)
    case Align4 => seq((4 - at % 4) % 4, i => 0)
    case Loop(maker) => MakerBytes(maker)
  }

  /** The bytes of an item whose pointers are resolved by `offs`. */
  ghost function ItemBytes(fs: seq<Field>, offs: map<Ref, u32>): (bs: seq<byte>) {
    if fs == [] then []
    else
      var init := ItemBytes(fs[..|fs| - 1], offs);
      init + FieldBytes(fs[|fs| - 1], offs, |init|)
  }

  /** All pointers among the fields are resolved by `offs`. */
  ghost predicate Resolved(fs: seq<Field>, offs: map<Ref, u32>) {
    forall j :: 0 <= j < |fs| && Target(fs[j]).Some? ==> Target(fs[j]).value in offs
  }

  /** Resolving further items does not change an item whose pointers are resolved. */
  lemma {:induction false} ItemBytesStable(fs: seq<Field>, offs: map<Ref, u32>, more: map<Ref, u32>)
    requires Resolved(fs, offs) && forall r :: r in offs ==> r in more && more[r] == offs[r]
    ensures Resolved(fs, more) && ItemBytes(fs, more) == ItemBytes(fs, offs)
  {
    if fs != [] {
      ItemBytesStable(fs[..|fs| - 1], offs, more);
      assert Target(fs[|fs| - 1]).Some? ==> Target(fs[|fs| - 1]).value in offs;
    }
  }

  /** Only LEB128 offsets make the length of an item depend on where others stand. */
  lemma {:induction false} LengthFixed(fs: seq<Field>, offs: map<Ref, u32>, more: map<Ref, u32>)
    requires forall j :: 0 <= j < |fs| ==> !fs[j].OffLeb?
    ensures |ItemBytes(fs, more)| == |ItemBytes(fs, offs)|
  {
    if fs != [] {
      LengthFixed(fs[..|fs| - 1], offs, more);
    }
  }

  /** Where field `j` of an item stands in its bytes. */
  lemma {:induction false} FieldStands(fs: seq<Field>, offs: map<Ref, u32>, j: nat) returns (tail: seq<byte>)
    requires j < |fs|
    ensures ItemBytes(fs, offs) == ItemBytes(fs[..j], offs) + FieldBytes(fs[j], offs, |ItemBytes(fs[..j], offs)|) + tail
  {
    hide FieldBytes;
    if j == |fs| - 1 {
      tail := [];
    } else {
      var init := fs[..|fs| - 1];
      tail := FieldStands(init, offs, j);
      assert init[..j] == fs[..j] && init[j] == fs[j];
      tail := tail + FieldBytes(fs[|fs| - 1], offs, |ItemBytes(init, offs)|);
    }
  }
}
