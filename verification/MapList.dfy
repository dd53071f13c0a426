/** The map list at the end of a dex file: MapItemQueue, WriteMapItems and GenerateAndWriteMapItems. */
module MapLists {
  import opened Bytes
  import opened Streams
  import opened DexIr

  datatype MapItem = MapItem(typ: u16, size: u32, offset: u32)

  function MapType(k: Kind): u16 {
    match k
    case StringIds => 0x0001
    case TypeIds => 0x0002
    case ProtoIds => 0x0003
    case FieldIds => 0x0004
    case MethodIds => 0x0005
    case ClassDefs => 0x0006
    case CallSiteIds => 0x0007
    case MethodHandles => 0x0008
    case TypeLists => 0x1001
    case AnnotationSetRefs => 0x1002
    case AnnotationSets => 0x1003
    case ClassDatas => 0x2000
    case CodeItems => 0x2001
    case StringDatas => 0x2002
    case DebugInfos => 0x2003
    case Annotations => 0x2004
    case EncodedArrays => 0x2005
    case AnnotationsDirectories => 0x2006
    case HiddenapiData => 0xF000
  }

  function SectionOffset(secs: map<Kind, u32>, k: Kind): u32 {
    if k in secs then secs[k] else 0
  }

  function SectionItem(ir: Ir, secs: map<Kind, u32>, k: Kind): MapItem {
    MapItem(MapType(k), U32(Count(ir, k)), SectionOffset(secs, k))
  }

  /** AddIfNotEmpty on the sections in `ks`. */
  function AddSections(ir: Ir, secs: map<Kind, u32>, ks: seq<Kind>): seq<MapItem> {
    if ks == [] then []
    else
      var item := SectionItem(ir, secs, ks[0]);
      (if item.size == 0 then [] else [item]) + AddSections(ir, secs, ks[1..])
  }

  const IdKinds: seq<Kind> := [StringIds, TypeIds, ProtoIds, FieldIds, MethodIds, ClassDefs, CallSiteIds, MethodHandles]
  const DataKinds: seq<Kind> :=
    [TypeLists, AnnotationSetRefs, AnnotationSets, ClassDatas, CodeItems, StringDatas, DebugInfos,
     Annotations, EncodedArrays, AnnotationsDirectories, HiddenapiData]

  /** What is pushed into the queue. */
  function MapItems(ir: Ir, secs: map<Kind, u32>, mapOffset: u32): seq<MapItem> {
    [MapItem(0x0000, 1, 0)] + AddSections(ir, secs, IdKinds) + [MapItem(0x1000, 1, mapOffset)]
      + AddSections(ir, secs, DataKinds)
  }

  function MapItemBytes(m: MapItem): (bs: seq<byte>)
    ensures |bs| == 12
  {
    LE16(m.typ) + [0, 0] + LE32(m.size) + LE32(m.offset)
  }

  function AllMapBytes(ms: seq<MapItem>): (bs: seq<byte>)
    ensures |bs| == 12 * |ms|
  {
    if ms == [] then [] else AllMapBytes(ms[..|ms| - 1]) + MapItemBytes(ms[|ms| - 1])
  }

  function MapListBytes(ms: seq<MapItem>): (bs: seq<byte>)
    ensures |bs| == 4 + 12 * |ms|
  {
    LE32(U32(|ms|)) + AllMapBytes(ms)
  }

  ghost predicate SortedByOffset(ms: seq<MapItem>) {
    forall i, j :: 0 <= i < j < |ms| ==> ms[i].offset <= ms[j].offset
  }

  lemma {:induction false} AddedSections(ir: Ir, secs: map<Kind, u32>, ks: seq<Kind>, m: MapItem)
    ensures m in AddSections(ir, secs, ks) <==> exists k :: k in ks && m == SectionItem(ir, secs, k) && m.size != 0
  {
    if ks != [] {
      AddedSections(ir, secs, ks[1..], m);
      var item := SectionItem(ir, secs, ks[0]);
      assert AddSections(ir, secs, ks) == (if item.size == 0 then [] else [item]) + AddSections(ir, secs, ks[1..]);
      if k :| k in ks && m == SectionItem(ir, secs, k) && m.size != 0 {
        assert k == ks[0] || k in ks[1..];
      }
    }
  }

  /** The map lists the header, itself and exactly the sections that are not empty. */
  lemma MapItemsExact(ir: Ir, secs: map<Kind, u32>, mapOffset: u32, m: MapItem)
    ensures m in MapItems(ir, secs, mapOffset) <==>
              || m == MapItem(0x0000, 1, 0) || m == MapItem(0x1000, 1, mapOffset)
              || exists k :: m == SectionItem(ir, secs, k) && m.size != 0
  {
    hide AddSections, SectionItem;
    AddedSections(ir, secs, IdKinds, m);
    AddedSections(ir, secs, DataKinds, m);
    if k :| m == SectionItem(ir, secs, k) && m.size != 0 {
      KindListed(k);
    }
  }

  lemma KindListed(k: Kind)
    ensures k in IdKinds || k in DataKinds
  {
    assert IdKinds[0] == StringIds && IdKinds[1] == TypeIds && IdKinds[2] == ProtoIds && IdKinds[3] == FieldIds;
    assert IdKinds[4] == MethodIds && IdKinds[5] == ClassDefs && IdKinds[6] == CallSiteIds
           && IdKinds[7] == MethodHandles;
    assert DataKinds[0] == TypeLists && DataKinds[1] == AnnotationSetRefs && DataKinds[2] == AnnotationSets;
    assert DataKinds[3] == ClassDatas && DataKinds[4] == CodeItems && DataKinds[5] == StringDatas
           && DataKinds[6] == DebugInfos;
    assert DataKinds[7] == Annotations && DataKinds[8] == EncodedArrays && DataKinds[9] == AnnotationsDirectories;
    assert DataKinds[10] == HiddenapiData;
  }

  lemma TypesDiffer(k: Kind, l: Kind)
    requires MapType(k) == MapType(l)
    ensures k == l
  {
  }

  lemma TypeOfSection(k: Kind)
    ensures MapType(k) != 0x0000 && MapType(k) != 0x1000
  {
  }

  /** A section is listed if it is not empty, and there is no other entry of its type. */
  lemma SectionListed(ir: Ir, secs: map<Kind, u32>, mapOffset: u32, k: Kind)
    ensures SectionItem(ir, secs, k) in MapItems(ir, secs, mapOffset) <==> U32(Count(ir, k)) != 0
    ensures forall m :: m in MapItems(ir, secs, mapOffset) && m.typ == MapType(k) ==> m == SectionItem(ir, secs, k)
  {
    hide MapItems, SectionOffset, U32, Count, MapType;
    TypeOfSection(k);
    forall m | m in MapItems(ir, secs, mapOffset) && m.typ == MapType(k)
      ensures m == SectionItem(ir, secs, k) && m.size != 0
    {
      MapItemsExact(ir, secs, mapOffset, m);
      var l :| m == SectionItem(ir, secs, l) && m.size != 0;
      TypesDiffer(k, l);
    }
    MapItemsExact(ir, secs, mapOffset, SectionItem(ir, secs, k));
  }

  lemma FewSections(ir: Ir, secs: map<Kind, u32>, mapOffset: u32)
    ensures |MapItems(ir, secs, mapOffset)| <= 21
  {
    AddedAtMost(ir, secs, IdKinds);
    AddedAtMost(ir, secs, DataKinds);
  }

  lemma {:induction false} AddedAtMost(ir: Ir, secs: map<Kind, u32>, ks: seq<Kind>)
    ensures |AddSections(ir, secs, ks)| <= |ks|
  {
    hide SectionItem;
    if ks != [] {
      AddedAtMost(ir, secs, ks[1..]);
    }
  }

  /** priority_queue::top: some item with the least offset. */
  method Top(queue: seq<MapItem>) returns (best: nat)
    requires queue != []
    ensures best < |queue| && forall i :: 0 <= i < |queue| ==> queue[best].offset <= queue[i].offset
  {
    best := 0;
    for j := 1 to |queue|
      invariant best < |queue| && forall i :: 0 <= i < j ==> queue[best].offset <= queue[i].offset
    {
      if queue[j].offset < queue[best].offset {
        best := j;
      }
    }
  }

  /** The map list in order of offsets; every queued item appears exactly once. */
  method WriteMapItems(stream: Stream, queue: seq<MapItem>) returns (order: seq<MapItem>)
    modifies stream, stream.section
    ensures multiset(order) == multiset(queue) && SortedByOffset(order)
    ensures stream.position == old(stream.position) + |MapListBytes(order)|
    ensures SameOutside(old(stream.section.data), stream.section.data, old(stream.position), stream.position)
    ensures Holds(stream.section.data, old(stream.position), MapListBytes(order))
    ensures Zero(old(stream.section.data), old(stream.position), stream.position) ==>
              stream.clobbered == old(stream.clobbered)
  {
    hide LE32, MapItemBytes, AllMapBytes, Draining;
    ghost var start, d := stream.position, stream.section.data;
    stream.Write(LE32(U32(|queue|)));
    order := [];
    var rest := queue;
    DrainStart(queue);
    while rest != []
      invariant Draining(queue, order, rest)
      invariant stream.position == start + |MapPrefix(queue, order)|
      invariant SameOutside(d, stream.section.data, start, stream.position)
      invariant Holds(stream.section.data, start, MapPrefix(queue, order))
      invariant Zero(d, start, stream.position) ==> stream.clobbered == old(stream.clobbered)
      decreases |rest|
    {
      var best := Top(rest);
      stream.Write(MapItemBytes(rest[best]));
      DrainStep(queue, order, rest, best);
      order := order + [rest[best]];
      rest := rest[..best] + rest[best + 1..];
    }
    DrainEnd(queue, order);
  }

  /** The map list with the items of `order`, before the others follow. */
  function MapPrefix(queue: seq<MapItem>, order: seq<MapItem>): seq<byte> {
    LE32(U32(|queue|)) + AllMapBytes(order)
  }

  /** `order` has been popped from the queue and `rest` is still in it. */
  ghost predicate Draining(queue: seq<MapItem>, order: seq<MapItem>, rest: seq<MapItem>) {
    && multiset(order) + multiset(rest) == multiset(queue) && |order| + |rest| == |queue|
    && SortedByOffset(order)
    && forall i, j :: 0 <= i < |order| && 0 <= j < |rest| ==> order[i].offset <= rest[j].offset
  }

  lemma DrainStart(queue: seq<MapItem>)
    ensures Draining(queue, [], queue) && AllMapBytes([]) == []
  {
  }

  lemma DrainStep(queue: seq<MapItem>, order: seq<MapItem>, rest: seq<MapItem>, best: nat)
    requires Draining(queue, order, rest) && best < |rest|
    requires forall i :: 0 <= i < |rest| ==> rest[best].offset <= rest[i].offset
    ensures Draining(queue, order + [rest[best]], rest[..best] + rest[best + 1..])
    ensures MapPrefix(queue, order + [rest[best]]) == MapPrefix(queue, order) + MapItemBytes(rest[best])
  {
    hide LE32, MapItemBytes;
    var order', rest' := order + [rest[best]], rest[..best] + rest[best + 1..];
    assert rest == rest[..best] + [rest[best]] + rest[best + 1..];
    assert order'[..|order'| - 1] == order;
    forall j | 0 <= j < |rest'| ensures rest'[j] in rest {
      assert rest'[j] == if j < best then rest[j] else rest[j + 1];
    }
  }

  lemma DrainEnd(queue: seq<MapItem>, order: seq<MapItem>)
    requires Draining(queue, order, [])
    ensures multiset(order) == multiset(queue) && SortedByOffset(order)
    ensures MapPrefix(queue, order) == MapListBytes(order)
  {
  }
}
