/** Reading a whole written file back: its header, its map list and every item. */
module DexReading {
  import opened Bytes
  import opened EncodedValues
  import opened DexIr
  import opened DexBook
  import opened DexWriting
  import opened DiskItems
  import opened MapLists
  import opened Streams
  import DebugInfo
  import HiddenApi

  // Sections that are read by index.

  predicate IsIdKind(k: Kind) {
    || k.StringIds? || k.TypeIds? || k.ProtoIds? || k.FieldIds? || k.MethodIds? || k.ClassDefs?
    || k.CallSiteIds? || k.MethodHandles?
  }

  function IdSize(k: Kind): nat {
    match k
    case ProtoIds => 12
    case FieldIds => 8
    case MethodIds => 8
    case MethodHandles => 8
    case ClassDefs => 32
    case _ => 4
  }

  lemma IdSizeRight(ir: Ir, r: Ref, offs: map<Ref, u32>)
    requires Valid(ir, r) && IsIdKind(r.kind)
    ensures |ItemBytes(Layout(ir, r), offs)| == IdSize(r.kind)
  {
    hide LE32, LE16, FieldsOf;
    var fs := Layout(ir, r);
    if r.kind.FieldIds? || r.kind.MethodIds? || r.kind.MethodHandles? {
      assert ItemBytes(fs[..0], offs) == [];
    } else {
      hide ItemBytes;
      WordFields(fs, offs);
    }
  }

  function Times(w: nat, i: nat): (r: nat)
    ensures r == w * i
  {
    if i == 0 then 0 else Times(w, i - 1) + w
  }

  lemma ChainStep(b: Book, k: Kind, start: nat, n: nat, w: nat, i: nat)
    requires Chain(b, k, start, n) && 0 < i < n && SectionAlignment(k) == 4 && w % 4 == 0
    requires Ref(k, i - 1) in b.place && Ref(k, i - 1) in b.len && b.len[Ref(k, i - 1)] == w
    requires b.place[Ref(k, i - 1)] % 4 == 0
    ensures Ref(k, i) in b.place && b.place[Ref(k, i)] == b.place[Ref(k, i - 1)] + w && b.place[Ref(k, i)] % 4 == 0
  {
    hide RoundUp, SectionAlignment;
    var end := b.place[Ref(k, i - 1)] + w;
    assert ChainEnd(b, k, start, i) == end;
    assert end % 4 == 0;
  }

  lemma ChainFirst(b: Book, k: Kind, start: nat, n: nat, i: nat)
    requires Chain(b, k, start, n) && i < n && SectionAlignment(k) == 4
    ensures Ref(k, i) in b.place && Ref(k, i) in b.len && b.place[Ref(k, i)] % 4 == 0
  {
    hide RoundUp, SectionAlignment;
    assert ChainEnd(b, k, start, i) >= 0;
  }

  /** Items of whole words that are chained follow each other without gaps. */
  lemma {:induction false} ChainContiguous(b: Book, k: Kind, start: nat, n: nat, w: nat, i: nat)
    requires Chain(b, k, start, n) && i < n && SectionAlignment(k) == 4 && w % 4 == 0
    requires forall j :: 0 <= j < n && Ref(k, j) in b.len ==> b.len[Ref(k, j)] == w
    ensures Ref(k, 0) in b.place && Ref(k, i) in b.place && b.place[Ref(k, i)] == b.place[Ref(k, 0)] + Times(w, i)
    ensures b.place[Ref(k, i)] % 4 == 0
  {
    hide Chain, SectionAlignment;
    ChainFirst(b, k, start, n, 0);
    if i > 0 {
      ChainFirst(b, k, start, n, i - 1);
      ChainContiguous(b, k, start, n, w, i - 1);
      ChainStep(b, k, start, n, w, i);
    }
  }

  /** Identifiers stand one behind the other, so that item `i` is found by its index. */
  lemma IdsContiguous(ir: Ir, offs: map<Ref, u32>, b: Book, secs: map<Kind, u32>, nt: Notes, k: Kind, i: nat)
    requires Right(ir, b, offs, secs, nt) && nt.next == 19 && LengthsExact(ir, offs, b) && IsIdKind(k)
    requires i < Count(ir, k)
    ensures Ref(k, 0) in b.place && Ref(k, i) in b.place && b.place[Ref(k, i)] == b.place[Ref(k, 0)] + IdSize(k) * i
    ensures b.place[Ref(k, i)] % 4 == 0 && b.place[Ref(k, 0)] <= b.place[Ref(k, i)]
  {
    hide Layout, ItemBytes, Count, Chain, AllRecorded, AllFilled, ReservedAt, U32;
    assert RightFor(ir, b, offs, secs, nt, k);
    forall j | 0 <= j < Count(ir, k) && Ref(k, j) in b.len ensures b.len[Ref(k, j)] == IdSize(k) {
      assert Valid(ir, Ref(k, j));
      IdSizeRight(ir, Ref(k, j), offs);
    }
    ChainContiguous(b, k, nt.bases[k], Count(ir, k), IdSize(k), i);
  }

  /** What the notes and the book say once everything is written. */
  ghost predicate Complete(ir: Ir, offs: map<Ref, u32>, b: Book, secs: map<Kind, u32>, nt: Notes) {
    Right(ir, b, offs, secs, nt) && Consecutive(ir, nt) && nt.next == 19 && LengthsExact(ir, offs, b)
  }

  lemma SectionNotes(ir: Ir, offs: map<Ref, u32>, b: Book, secs: map<Kind, u32>, nt: Notes, k: Kind)
    requires Complete(ir, offs, b, secs, nt)
    ensures k in nt.bases && k in nt.ends && Based(ir, b, secs, k, nt.bases[k], nt.ends[k])
    ensures nt.bases[k] == Begin(ir, nt, k) && nt.ends[k] == EndOf(nt, k)
  {
    hide AllRecorded, AllFilled, ReservedAt, Based, Begin, LengthsExact;
    assert RightFor(ir, b, offs, secs, nt, k);
  }

  lemma RoundUpGrows(n: nat, a: Alignment)
    ensures n <= RoundUp(n, a) < n + a
    ensures n % a == 0 ==> RoundUp(n, a) == n
  {
  }

  lemma ChainBounds(b: Book, k: Kind, start: nat, n: nat)
    requires Chain(b, k, start, n) && n > 0
    ensures Ref(k, 0) in b.place && start <= b.place[Ref(k, 0)] < start + SectionAlignment(k)
    ensures start % SectionAlignment(k) == 0 ==> b.place[Ref(k, 0)] == start
    ensures Ref(k, n - 1) in b.place && Ref(k, n - 1) in b.len
    ensures ChainEnd(b, k, start, n) == b.place[Ref(k, n - 1)] + b.len[Ref(k, n - 1)]
  {
    hide RoundUp, SectionAlignment;
    assert ChainEnd(b, k, start, 0) == start && ChainEnd(b, k, start, n - 1) >= 0;
    RoundUpGrows(start, SectionAlignment(k));
  }

  lemma IdLength(ir: Ir, offs: map<Ref, u32>, b: Book, r: Ref)
    requires LengthsExact(ir, offs, b) && Valid(ir, r) && IsIdKind(r.kind)
    ensures r in b.len && b.len[r] == IdSize(r.kind) && IdSize(r.kind) % 4 == 0 && IdSize(r.kind) >= 4
    ensures SectionAlignment(r.kind) == 4
  {
    hide Layout, ItemBytes, Count;
    IdSizeRight(ir, r, offs);
  }

  lemma Fours(start: nat, size: nat, n: nat)
    requires size % 4 == 0 && size > 0 && n > 0
    ensures start + size * (n - 1) + size > start
    ensures start % 4 == 0 ==> (start + size * (n - 1) + size) % 4 == 0
  {
    var q := size / 4;
    assert size * (n - 1) + size == size * n == 4 * (q * n);
  }

  /** A section of identifiers that begins at a multiple of four ends at one. */
  lemma IdSectionEnd(ir: Ir, offs: map<Ref, u32>, b: Book, secs: map<Kind, u32>, nt: Notes, k: Kind)
    requires Complete(ir, offs, b, secs, nt) && IsIdKind(k)
    ensures Begin(ir, nt, k) % 4 == 0 ==> EndOf(nt, k) % 4 == 0
    ensures Count(ir, k) > 0 ==> Begin(ir, nt, k) < EndOf(nt, k)
  {
    hide Count, Right, Consecutive, RoundUp, Begin, EndOf, U32, Chain, IdSize, SectionAlignment, LengthsExact, IsIdKind;
    SectionNotes(ir, offs, b, secs, nt, k);
    var n := Count(ir, k);
    if n > 0 {
      IdsContiguous(ir, offs, b, secs, nt, k, n - 1);
      IdLength(ir, offs, b, Ref(k, n - 1));
      ChainBounds(b, k, nt.bases[k], n);
      Fours(b.place[Ref(k, 0)], IdSize(k), n);
    }
  }

  /** The sections of identifiers begin at multiples of four. */
  lemma {:induction false} IdSectionAligned(ir: Ir, offs: map<Ref, u32>, b: Book, secs: map<Kind, u32>, nt: Notes,
                                            k: Kind)
    requires Complete(ir, offs, b, secs, nt) && IsIdKind(k)
    ensures Begin(ir, nt, k) % 4 == 0
    decreases Rank(k)
  {
    hide Complete, RoundUp, EndOf;
    if !k.StringIds? {
      var before: Kind := match k
        case TypeIds => StringIds
        case ProtoIds => TypeIds
        case FieldIds => ProtoIds
        case MethodIds => FieldIds
        case ClassDefs => MethodIds
        case CallSiteIds => ClassDefs
        case _ => CallSiteIds;
      IdSectionAligned(ir, offs, b, secs, nt, before);
      IdSectionEnd(ir, offs, b, secs, nt, before);
    }
  }

  /** The offset recorded for a section of identifiers is where its first one stands, and the others follow. */
  lemma IdsFound(ir: Ir, file: seq<byte>, offs: map<Ref, u32>, b: Book, secs: map<Kind, u32>, nt: Notes, k: Kind,
                 i: nat)
    requires Complete(ir, offs, b, secs, nt) && IsIdKind(k) && i < Count(ir, k)
    requires AllStand(ir, file, offs, b.place) && |file| < 0x1_0000_0000
    ensures Ref(k, 0) in b.place && Ref(k, i) in b.place && SectionOffset(secs, k) == b.place[Ref(k, 0)]
    ensures b.place[Ref(k, i)] == SectionOffset(secs, k) + IdSize(k) * i && b.place[Ref(k, i)] + IdSize(k) <= |file|
  {
    hide Count, Right, Consecutive, RoundUp, Begin, EndOf, Chain, ChainEnd, IdSize, SectionAlignment, LengthsExact,
      IsIdKind,
      AllStand, U32;
    SectionNotes(ir, offs, b, secs, nt, k);
    IdSectionAligned(ir, offs, b, secs, nt, k);
    IdSectionEnd(ir, offs, b, secs, nt, k);
    IdsContiguous(ir, offs, b, secs, nt, k, i);
    IdLength(ir, offs, b, Ref(k, i));
    ChainBounds(b, k, nt.bases[k], Count(ir, k));
    IdInside(ir, file, offs, b.place, Ref(k, 0));
    IdInside(ir, file, offs, b.place, Ref(k, i));
    assert U32(nt.bases[k]) == nt.bases[k] by { SmallU32(nt.bases[k]); }
  }

  lemma SmallU32(n: nat)
    requires n < 0x1_0000_0000
    ensures U32(n) == n
  {
  }

  lemma IdInside(ir: Ir, file: seq<byte>, offs: map<Ref, u32>, place: map<Ref, nat>, r: Ref)
    requires AllStand(ir, file, offs, place) && Valid(ir, r) && IsIdKind(r.kind)
    ensures r in place && place[r] + IdSize(r.kind) <= |file|
  {
    hide Layout, ItemBytes, Count, At, IdSize;
    AtLength(file, place[r], ItemBytes(Layout(ir, r), offs));
    IdSizeRight(ir, r, offs);
  }

  /** A file below 4 GiB has no room for 2^32 identifiers of a kind. */
  lemma IdCountFits(ir: Ir, file: seq<byte>, offs: map<Ref, u32>, b: Book, secs: map<Kind, u32>, nt: Notes, k: Kind)
    requires Complete(ir, offs, b, secs, nt) && IsIdKind(k)
    requires AllStand(ir, file, offs, b.place) && |file| < 0x1_0000_0000
    ensures U32(Count(ir, k)) == Count(ir, k)
  {
    hide Complete, AllStand, Count, SectionOffset;
    var n := Count(ir, k);
    if n > 0 {
      IdsFound(ir, file, offs, b, secs, nt, k, n - 1);
      assert IdSize(k) * (n - 1) >= n - 1;
    }
  }

  function ReadMapItem(s: seq<byte>, p: nat): MapItem
    requires p + 12 <= |s|
  {
    MapItem(ReadU16(s, p), ReadU32(s, p + 4), ReadU32(s, p + 8))
  }

  lemma {:induction false} MapItemBack(s: seq<byte>, p: nat, ms: seq<MapItem>, i: nat)
    requires At(s, p, AllMapBytes(ms)) && i < |ms|
    ensures p + 12 * i + 12 <= |s| && ReadMapItem(s, p + 12 * i) == ms[i]
    decreases ms
  {
    var n := |ms| - 1;
    hide LE16, LE32, At, ReadU16, ReadU32;
    AtConcat(s, p, AllMapBytes(ms[..n]), MapItemBytes(ms[n]));
    if i < n {
      MapItemBack(s, p, ms[..n], i);
    } else {
      var m, q := ms[n], p + 12 * n;
      AtLength(s, q, MapItemBytes(m));
      AtConcat(s, q, LE16(m.typ) + [0, 0] + LE32(m.size), LE32(m.offset));
      AtConcat(s, q, LE16(m.typ) + [0, 0], LE32(m.size));
      AtConcat(s, q, LE16(m.typ), [0, 0]);
      LE16RoundTrip(s, q, m.typ);
      LE32RoundTrip(s, q + 4, m.size);
      LE32RoundTrip(s, q + 8, m.offset);
    }
  }

  lemma MapListBack(s: seq<byte>, p: nat, ms: seq<MapItem>, i: nat)
    requires At(s, p, MapListBytes(ms)) && |ms| < 0x1_0000_0000
    ensures p + 4 + 12 * |ms| <= |s| && ReadU32(s, p) == |ms| && (i < |ms| ==> ReadMapItem(s, p + 4 + 12 * i) == ms[i])
  {
    hide At, LE32, ReadU32, AllMapBytes, ReadMapItem;
    AtLength(s, p, MapListBytes(ms));
    AtConcat(s, p, LE32(U32(|ms|)), AllMapBytes(ms));
    LE32RoundTrip(s, p, |ms|);
    if i < |ms| {
      MapItemBack(s, p + 4, ms, i);
    }
  }

  /** The size and offset of a section in the header, which stand at `p`. */
  lemma IdWordsBack(s: seq<byte>, p: nat, ir: Ir, secs: map<Kind, u32>, k: Kind)
    requires At(s, p, IdWords(ir, secs, k))
    ensures p + 8 <= |s| && ReadU32(s, p) == U32(Count(ir, k)) && ReadU32(s, p + 4) == SectionOffset(secs, k)
  {
    hide LE32, ReadU32, Count;
    AtConcat(s, p, LE32(U32(Count(ir, k))), LE32(SectionOffset(secs, k)));
    LE32RoundTrip(s, p, U32(Count(ir, k)));
    LE32RoundTrip(s, p + 4, SectionOffset(secs, k));
  }

  /** The header's fields at the offsets of the header structure. */
  lemma HeaderBack(s: seq<byte>, ir: Ir, secs: map<Kind, u32>, info: HeaderInfo, checksum: u32, file: FileInfo)
    requires |info.magic| == 8 && |info.signature| == 20 && At(s, 0, HeaderBytes(ir, secs, info, checksum, file))
    ensures |s| >= 0x70 && s[..8] == StandardMagic(info.magic) && ReadU32(s, 8) == checksum
    ensures s[12..32] == info.signature
    ensures ReadU32(s, 32) == file.fileSize && ReadU32(s, 36) == 0x70 && ReadU32(s, 40) == info.endianTag
    ensures ReadU32(s, 44) == U32(|info.linkData|) && ReadU32(s, 48) == file.linkOffset
    ensures ReadU32(s, 52) == file.mapOffset
    ensures forall j :: 0 <= j < 6 ==>
              && ReadU32(s, 56 + 8 * j) == U32(Count(ir, HEADER_KINDS[j]))
              && ReadU32(s, 60 + 8 * j) == SectionOffset(secs, HEADER_KINDS[j])
    ensures ReadU32(s, 104) == file.dataSize && ReadU32(s, 108) == file.dataOffset
  {
    hide LE32, ReadU32, Count, At, IdWords, StandardMagic;
    var m, c, rest := StandardMagic(info.magic), LE32(checksum), HeaderRest(ir, secs, info, file);
    var a := info.signature + LE32(file.fileSize) + LE32(0x70) + LE32(info.endianTag) + LE32(U32(|info.linkData|))
             + LE32(file.linkOffset) + LE32(file.mapOffset);
    var b := a + IdWords(ir, secs, StringIds) + IdWords(ir, secs, TypeIds) + IdWords(ir, secs, ProtoIds)
             + IdWords(ir, secs, FieldIds) + IdWords(ir, secs, MethodIds) + IdWords(ir, secs, ClassDefs);
    AtLength(s, 0, HeaderBytes(ir, secs, info, checksum, file));
    AtConcat(s, 0, m + c, rest);
    AtConcat(s, 0, m, c);
    AtSlice(s, 0, m);
    LE32RoundTrip(s, 8, checksum);
    AtConcat(s, 12, b + LE32(file.dataSize), LE32(file.dataOffset));
    AtConcat(s, 12, b, LE32(file.dataSize));
    LE32RoundTrip(s, 104, file.dataSize);
    LE32RoundTrip(s, 108, file.dataOffset);
    HeaderSections(s, a, ir, secs);
    HeaderFront(s, info, file);
  }

  const HEADER_KINDS: seq<Kind> := [StringIds, TypeIds, ProtoIds, FieldIds, MethodIds, ClassDefs]

  lemma HeaderSections(s: seq<byte>, a: seq<byte>, ir: Ir, secs: map<Kind, u32>)
    requires |a| == 44
    requires At(s, 12, a + IdWords(ir, secs, StringIds) + IdWords(ir, secs, TypeIds) + IdWords(ir, secs, ProtoIds)
                      + IdWords(ir, secs, FieldIds) + IdWords(ir, secs, MethodIds) + IdWords(ir, secs, ClassDefs))
    ensures |s| >= 104 && At(s, 12, a)
    ensures forall j :: 0 <= j < 6 ==>
              && ReadU32(s, 56 + 8 * j) == U32(Count(ir, HEADER_KINDS[j]))
              && ReadU32(s, 60 + 8 * j) == SectionOffset(secs, HEADER_KINDS[j])
  {
    hide ReadU32, Count, At, IdWords, U32, SectionOffset;
    var w0, w1, w2 := IdWords(ir, secs, StringIds), IdWords(ir, secs, TypeIds), IdWords(ir, secs, ProtoIds);
    var w3, w4, w5 := IdWords(ir, secs, FieldIds), IdWords(ir, secs, MethodIds), IdWords(ir, secs, ClassDefs);
    AtConcat(s, 12, a + w0 + w1 + w2 + w3 + w4, w5);
    AtConcat(s, 12, a + w0 + w1 + w2 + w3, w4);
    AtConcat(s, 12, a + w0 + w1 + w2, w3);
    AtConcat(s, 12, a + w0 + w1, w2);
    AtConcat(s, 12, a + w0, w1);
    AtConcat(s, 12, a, w0);
    IdWordsBack(s, 56, ir, secs, StringIds);
    IdWordsBack(s, 64, ir, secs, TypeIds);
    IdWordsBack(s, 72, ir, secs, ProtoIds);
    IdWordsBack(s, 80, ir, secs, FieldIds);
    IdWordsBack(s, 88, ir, secs, MethodIds);
    IdWordsBack(s, 96, ir, secs, ClassDefs);
  }

  lemma HeaderFront(s: seq<byte>, info: HeaderInfo, file: FileInfo)
    requires |info.signature| == 20
    requires At(s, 12, info.signature + LE32(file.fileSize) + LE32(0x70) + LE32(info.endianTag)
                       + LE32(U32(|info.linkData|)) + LE32(file.linkOffset) + LE32(file.mapOffset))
    ensures |s| >= 56 && s[12..32] == info.signature
    ensures ReadU32(s, 32) == file.fileSize && ReadU32(s, 36) == 0x70 && ReadU32(s, 40) == info.endianTag
    ensures ReadU32(s, 44) == U32(|info.linkData|) && ReadU32(s, 48) == file.linkOffset
    ensures ReadU32(s, 52) == file.mapOffset
  {
    hide ReadU32, At, LE32, U32;
    var t := info.signature;
    var x0, x1, x2 := LE32(file.fileSize), LE32(0x70), LE32(info.endianTag);
    var x3, x4, x5 := LE32(U32(|info.linkData|)), LE32(file.linkOffset), LE32(file.mapOffset);
    AtConcat(s, 12, t + x0 + x1 + x2 + x3 + x4, x5);
    AtConcat(s, 12, t + x0 + x1 + x2 + x3, x4);
    AtConcat(s, 12, t + x0 + x1 + x2, x3);
    AtConcat(s, 12, t + x0 + x1, x2);
    AtConcat(s, 12, t + x0, x1);
    AtConcat(s, 12, t, x0);
    AtLength(s, 52, x5);
    LE32RoundTrip(s, 32, file.fileSize);
    LE32RoundTrip(s, 36, 0x70);
    LE32RoundTrip(s, 40, info.endianTag);
    LE32RoundTrip(s, 44, U32(|info.linkData|));
    LE32RoundTrip(s, 48, file.linkOffset);
    LE32RoundTrip(s, 52, file.mapOffset);
    AtSlice(s, 12, info.signature);
  }

  // The whole file.

  /**
   * What the format asks of an item so that it can be read: counts of 32 bits, type indices of 16, no
   * zero inside a string.
   */
  ghost predicate ItemFits(ir: Ir, r: Ref)
    requires Valid(ir, r)
  {
    match r.kind
    case ProtoIds => ir.protoIds[r.index].returnType < 0x1_0000
    case ClassDefs => ClassFits(ir.classDefs[r.index])
    case TypeLists => |ir.typeLists[r.index]| < 0x1_0000_0000
    case AnnotationSets => |ir.annotationSets[r.index]| < 0x1_0000_0000
    case AnnotationSetRefs => |ir.annotationSetRefs[r.index]| < 0x1_0000_0000
    case AnnotationsDirectories => DirectoryFits(ir.directories[r.index])
    case ClassDatas => ListsFit(ir.classDatas[r.index])
    case CodeItems => |ir.codeItems[r.index].insns| < 0x1_0000_0000 && |ir.codeItems[r.index].tries| < 0x1_0000
    case DebugInfos => exists g :: DebugInfo.Valid(g) && DebugInfo.ProgramBytes(g) == ir.debugInfos[r.index]
    case EncodedArrays => |ir.encodedArrays[r.index]| < 0x1_0000_0000 && AllWritable(ir.encodedArrays[r.index])
    case Annotations =>
      var es := ir.annotations[r.index].elements; |es| < 0x1_0000_0000 && ElementsWritable(es)
    case StringDatas => forall j :: 0 <= j < |ir.stringDatas[r.index].data| ==> ir.stringDatas[r.index].data[j] != 0
    case _ => true
  }

  /** An identifier is read back from `p`. */
  ghost predicate IdRead(ir: Ir, r: Ref, s: seq<byte>, p: nat, place: map<Ref, nat>)
    requires Valid(ir, r) && IsIdKind(r.kind)
  {
    match r.kind
    case StringIds => StringIdRead(ir.stringIds[r.index], s, p, place)
    case TypeIds => TypeIdRead(ir.typeIds[r.index], s, p)
    case ProtoIds => ProtoIdRead(ir.protoIds[r.index], s, p, place)
    case FieldIds => p + 8 <= |s| && ReadFieldId(s, p) == ir.fieldIds[r.index]
    case MethodIds => p + 8 <= |s| && ReadMethodId(s, p) == ir.methodIds[r.index]
    case ClassDefs => ClassDefRead(ir.classDefs[r.index], s, p, place)
    case CallSiteIds => CallSiteRead(ir.callSiteIds[r.index], s, p, place)
    case MethodHandles => p + 8 <= |s| && ReadMethodHandle(s, p) == ir.methodHandles[r.index]
  }

  /** A data item is read back from `p`. */
  ghost predicate DataRead(ir: Ir, r: Ref, s: seq<byte>, p: nat, place: map<Ref, nat>)
    requires Valid(ir, r) && !IsIdKind(r.kind)
  {
    match r.kind
    case CodeItems => CodeItemRead(ir.codeItems[r.index], s, p, place)
    case DebugInfos => DebugInfoRead(ir.debugInfos[r.index], s, p)
    case EncodedArrays =>
      var a := ir.encodedArrays[r.index]; p <= |s| && ReadArray(s, p) == Some((Array(a), p + |EncodeArray(a)|))
    case Annotations => AnnotationRead(ir.annotations[r.index], s, p)
    case AnnotationSets => OffsetListRead(Annotations, Somes(ir.annotationSets[r.index]), s, p, place)
    case AnnotationSetRefs => OffsetListRead(AnnotationSets, ir.annotationSetRefs[r.index], s, p, place)
    case AnnotationsDirectories => DirectoryRead(ir.directories[r.index], s, p, place)
    case TypeLists => TypeListRead(ir.typeLists[r.index], s, p)
    case ClassDatas => ClassDataRead(ir.classDatas[r.index], s, p, place)
    case StringDatas => StringDataRead(ir.stringDatas[r.index], s, p)
    case HiddenapiData => HiddenApi.Fits(ir.hiddenapi) && At(s, p, HiddenApi.Section(ir.hiddenapi))
  }

  function Somes(a: seq<nat>): (r: seq<Option<nat>>)
    ensures |r| == |a| && forall j :: 0 <= j < |a| ==> r[j] == Some(a[j])
  {
    seq<Option<nat>>(|a|, j requires 0 <= j < |a| => Some(a[j]))
  }

  lemma IdBack(ir: Ir, r: Ref, s: seq<byte>, p: nat, offs: map<Ref, u32>, place: map<Ref, nat>)
    requires Valid(ir, r) && IsIdKind(r.kind) && ItemFits(ir, r) && Stored(s, p, Layout(ir, r), offs, place)
    ensures IdRead(ir, r, s, p, place)
  {
    hide At, ItemBytes, Linked, ClassFits, ClassDefFields, LE32, LE16, FieldsOf, StringIdRead, TypeIdRead, ProtoIdRead,
      ClassDefRead, CallSiteRead,
      ReadFieldId, ReadMethodId, ReadMethodHandle;
    match r.kind
    case StringIds => StringIdBack(ir.stringIds[r.index], s, p, offs, place);
    case TypeIds => TypeIdBack(ir.typeIds[r.index], s, p, offs);
    case ProtoIds => ProtoIdBack(ir.protoIds[r.index], s, p, offs, place);
    case FieldIds => FieldIdBack(ir.fieldIds[r.index], s, p, offs);
    case MethodIds => MethodIdBack(ir.methodIds[r.index], s, p, offs);
    case ClassDefs => ClassDefBack(ir.classDefs[r.index], s, p, offs, place);
    case CallSiteIds => CallSiteBack(ir.callSiteIds[r.index], s, p, offs, place);
    case MethodHandles => MethodHandleBack(ir.methodHandles[r.index], s, p, offs);
  }

  lemma DataBack(ir: Ir, r: Ref, s: seq<byte>, p: nat, offs: map<Ref, u32>, place: map<Ref, nat>)
    requires Valid(ir, r) && !IsIdKind(r.kind) && ItemFits(ir, r) && Stored(s, p, Layout(ir, r), offs, place)
    requires r.kind.HiddenapiData? ==> HiddenApi.Fits(ir.hiddenapi)
    ensures DataRead(ir, r, s, p, place)
  {
    hide At, ItemBytes, Linked, LE32, FieldsOf, Words, CodeFields, EncodeArray, EncodeAnnotation, ReadArray,
      AllWritable, ElementsWritable,
      OffsetList, DirectoryFields, ClassDataFields, CodeItemRead, DebugInfoRead, AnnotationRead,
      OffsetListRead, DirectoryRead,
      TypeListRead, ClassDataRead, StringDataRead, DirectoryFits, ListsFit, DebugInfo.Valid, DebugInfo.ProgramBytes;
    match r.kind
    case CodeItems => CodeItemBack(ir.codeItems[r.index], s, p, offs, place);
    case DebugInfos =>
      var g :| DebugInfo.Valid(g) && DebugInfo.ProgramBytes(g) == ir.debugInfos[r.index];
      DebugInfoBack(g, s, p, offs);
    case EncodedArrays => EncodedArrayBack(ir.encodedArrays[r.index], s, p, offs);
    case Annotations => AnnotationBack(ir.annotations[r.index], s, p, offs);
    case AnnotationSets =>
      var a := ir.annotationSets[r.index];
      assert Somes(a) == seq<Option<nat>>(|a|, j requires 0 <= j < |a| => Some(a[j]));
      OffsetListBack(AnnotationSets, Annotations, Somes(a), s, p, offs, place);
    case AnnotationSetRefs =>
      OffsetListBack(AnnotationSetRefs, AnnotationSets, ir.annotationSetRefs[r.index], s, p, offs, place);
    case AnnotationsDirectories => DirectoryBack(ir.directories[r.index], s, p, offs, place);
    case TypeLists => TypeListBack(ir.typeLists[r.index], s, p, offs);
    case ClassDatas => ClassDataBack(ir.classDatas[r.index], s, p, offs, place);
    case StringDatas => StringDataBack(ir.stringDatas[r.index], s, p, offs);
    case HiddenapiData => SingleField(s, p, Layout(ir, r), offs);
  }

  /** Every item of a well-written file is stored at its place, its references resolved. */
  lemma ItemStored(ir: Ir, file: seq<byte>, offs: map<Ref, u32>, place: map<Ref, nat>, r: Ref)
    requires WellWritten(ir, file, offs, place) && Closed(ir) && Valid(ir, r)
    ensures r in place && Stored(file, place[r], Layout(ir, r), offs, place)
  {
    hide Layout, ItemBytes, NoOverlap, At, Count;
    forall j | 0 <= j < |Layout(ir, r)| && Target(Layout(ir, r)[j]).Some?
      ensures var t := Target(Layout(ir, r)[j]).value; t in offs && t in place && offs[t] == place[t] && place[t] > 0
    {
      var t := Target(Layout(ir, r)[j]).value;
      assert Valid(ir, t) && t in offs;
    }
  }

  ghost predicate ItemRead(ir: Ir, file: seq<byte>, place: map<Ref, nat>, r: Ref)
    requires Valid(ir, r)
  {
    && r in place
    && if IsIdKind(r.kind) then IdRead(ir, r, file, place[r], place) else DataRead(ir, r, file, place[r], place)
  }

  /** Every item of a well-written file is read back from its place. */
  lemma FileReadsBack(ir: Ir, file: seq<byte>, offs: map<Ref, u32>, place: map<Ref, nat>, r: Ref)
    requires WellWritten(ir, file, offs, place) && Closed(ir) && Valid(ir, r) && ItemFits(ir, r)
    ensures ItemRead(ir, file, place, r)
  {
    hide WellWritten, Closed, ItemFits, IdRead, DataRead, Valid, Stored, Layout;
    ItemStored(ir, file, offs, place, r);
    if IsIdKind(r.kind) {
      IdBack(ir, r, file, place[r], offs, place);
    } else {
      ClosedHiddenapi(ir, r);
      DataBack(ir, r, file, place[r], offs, place);
    }
  }

  /** An item without any bytes. */
  ghost predicate EmptyItem(ir: Ir, r: Ref) {
    Valid(ir, r) && r.kind.DebugInfos? && ir.debugInfos[r.index] == []
  }

  lemma {:induction false} FirstFieldCounts(fs: seq<Field>, offs: map<Ref, u32>)
    requires fs != [] && |FieldBytes(fs[0], offs, 0)| > 0
    ensures |ItemBytes(fs, offs)| > 0
  {
    hide FieldBytes;
    if |fs| > 1 {
      FirstFieldCounts(fs[..|fs| - 1], offs);
    } else {
      assert ItemBytes(fs[..0], offs) == [];
    }
  }

  lemma OnlyEmptyItems(ir: Ir, r: Ref, offs: map<Ref, u32>)
    requires Valid(ir, r) && !EmptyItem(ir, r) && (r.kind.HiddenapiData? ==> HiddenApi.Fits(ir.hiddenapi))
    ensures |ItemBytes(Layout(ir, r), offs)| > 0
  {
    FirstField(ir, r, offs);
    hide Layout, ItemBytes, Count, FieldBytes, HiddenApi.Fits;
    FirstFieldCounts(Layout(ir, r), offs);
  }

  lemma FirstField(ir: Ir, r: Ref, offs: map<Ref, u32>)
    requires Valid(ir, r) && !EmptyItem(ir, r) && (r.kind.HiddenapiData? ==> HiddenApi.Fits(ir.hiddenapi))
    ensures Layout(ir, r) != [] && |FieldBytes(Layout(ir, r)[0], offs, 0)| > 0
  {
    hide EncodeAnnotation, Words, Pairs, FieldList, MethodList, TryBytes, FieldsOf, LE32, LE16, HiddenApi.Fits,
      HiddenApi.Section;
    if r.kind.HiddenapiData? {
      SectionNotEmpty(ir.hiddenapi);
    }
  }

  lemma SectionNotEmpty(cs: seq<HiddenApi.Class>)
    requires HiddenApi.Fits(cs)
    ensures |HiddenApi.Section(cs)| >= 4
  {
    HiddenApi.WordsLength(cs, |cs|);
  }

  /**
   * Different items have different offsets, unless one is empty, so the builder's maps from offsets to
   * items lose none.
   */
  lemma OffsetsApart(ir: Ir, file: seq<byte>, offs: map<Ref, u32>, place: map<Ref, nat>, r: Ref, s: Ref)
    requires WellWritten(ir, file, offs, place) && Closed(ir) && Valid(ir, r) && Valid(ir, s) && r != s
    ensures r in place && s in place
    ensures place[r] == place[s] ==> EmptyItem(ir, r) || EmptyItem(ir, s)
  {
    hide Layout, ItemBytes, OffsetsExact, At, Resolved, Count, EmptyItem, HiddenApi.Fits;
    ClosedHiddenapi(ir, r);
    ClosedHiddenapi(ir, s);
    if !EmptyItem(ir, r) && !EmptyItem(ir, s) {
      OnlyEmptyItems(ir, r, offs);
      OnlyEmptyItems(ir, s, offs);
    }
  }

  lemma ClosedHiddenapi(ir: Ir, r: Ref)
    requires Closed(ir) && Valid(ir, r)
    ensures r.kind.HiddenapiData? ==> ir.hiddenapi != [] && HiddenApi.Fits(ir.hiddenapi)
  {
  }

  /** The map list that the header refers to has this entry. */
  ghost predicate InMap(file: seq<byte>, m: MapItem) {
    && |file| >= 0x70 && ReadU32(file, 52) + 4 <= |file|
    && exists i :: 0 <= i < ReadU32(file, ReadU32(file, 52)) && MapEntryIs(file, ReadU32(file, 52) + 4 + 12 * i, m)
  }

  predicate MapEntryIs(file: seq<byte>, p: nat, m: MapItem) {
    p + 12 <= |file| && ReadMapItem(file, p) == m
  }

  /**
   * A reader who knows nothing but the file finds the identifiers: the number and the first offset of
   * each kind in the header and in the map list, and identifier `i` of a kind by its index.
   */
  ghost predicate IdsReached(ir: Ir, file: seq<byte>, place: map<Ref, nat>) {
    && |file| >= 0x70
    && (forall j :: 0 <= j < 6 ==> ReadU32(file, 56 + 8 * j) == Count(ir, HEADER_KINDS[j]))
    && (forall j, i {:trigger Ref(HEADER_KINDS[j], i)} :: 0 <= j < 6 && 0 <= i < Count(ir, HEADER_KINDS[j]) ==>
          && Ref(HEADER_KINDS[j], i) in place
          && place[Ref(HEADER_KINDS[j], i)] == ReadU32(file, 60 + 8 * j) + IdSize(HEADER_KINDS[j]) * i)
    && (forall k, i :: IsIdKind(k) && 0 <= i < Count(ir, k) ==> IdReachedByMap(ir, file, place, k, i))
  }

  /**
   * What the builder checks of the entries of the map list while it reads a file: each is of a type it
   * knows, those of the header, the map list and the six kinds of the header agree with the header, and
   * those of identifiers, call sites and method handles among them, give their number and where the
   * first of them stands.
   */
  ghost predicate MapAgrees(ir: Ir, file: seq<byte>, place: map<Ref, nat>) {
    && |file| >= 0x70
    && (forall m :: InMap(file, m) ==> KnownEntry(file, m))
    && (forall m, k :: InMap(file, m) && IsIdKind(k) && m.typ == MapType(k) ==>
          m.size == Count(ir, k) && Ref(k, 0) in place && m.offset == place[Ref(k, 0)])
  }

  ghost predicate KnownEntry(file: seq<byte>, m: MapItem)
    requires |file| >= 0x70
  {
    && (m.typ == 0x0000 || m.typ == 0x1000 || exists k :: m.typ == MapType(k))
    && (m.typ == 0x0000 ==> m == MapItem(0x0000, 1, 0))
    && (m.typ == 0x1000 ==> m == MapItem(0x1000, 1, ReadU32(file, 52)))
    && (forall j :: 0 <= j < 6 && m.typ == MapType(HEADER_KINDS[j]) ==>
          m.size == ReadU32(file, 56 + 8 * j) && m.offset == ReadU32(file, 60 + 8 * j))
  }

  /** Annotations are read one behind the other from the offset in the map list. */
  ghost predicate AnnotationsReached(ir: Ir, file: seq<byte>, offs: map<Ref, u32>, place: map<Ref, nat>) {
    && (ir.annotations != [] ==>
          && |ir.annotations| < 0x1_0000_0000
          && Ref(Annotations, 0) in place && place[Ref(Annotations, 0)] < 0x1_0000_0000
          && InMap(file, MapItem(0x2004, |ir.annotations|, place[Ref(Annotations, 0)])))
    && (forall i :: 0 <= i < |ir.annotations| - 1 ==>
          Follows(ir, offs, place, Ref(Annotations, i), Ref(Annotations, i + 1)))
  }

  /** Item `s` stands right behind item `r`. */
  ghost predicate Follows(ir: Ir, offs: map<Ref, u32>, place: map<Ref, nat>, r: Ref, s: Ref) {
    Valid(ir, r) && r in place && s in place && place[s] == place[r] + ItemLength(ir, offs, r)
  }

  ghost function ItemLength(ir: Ir, offs: map<Ref, u32>, r: Ref): nat
    requires Valid(ir, r)
  {
    |ItemBytes(Layout(ir, r), offs)|
  }

  /** And the hidden-API section, which is one item, in the map list. */
  ghost predicate HiddenapiReached(ir: Ir, file: seq<byte>, place: map<Ref, nat>) {
    ir.hiddenapi != [] ==>
      && Ref(HiddenapiData, 0) in place && place[Ref(HiddenapiData, 0)] < 0x1_0000_0000
      && InMap(file, MapItem(0xF000, 1, place[Ref(HiddenapiData, 0)]))
  }

  ghost predicate IdReachedByMap(ir: Ir, file: seq<byte>, place: map<Ref, nat>, k: Kind, i: nat) {
    exists m :: InMap(file, m) && m.typ == MapType(k) && m.size == Count(ir, k)
                && Ref(k, i) in place && place[Ref(k, i)] == m.offset + IdSize(k) * i
  }

  lemma MapEntryFound(ir: Ir, file: seq<byte>, secs: map<Kind, u32>, order: seq<MapItem>, mapOffset: u32, m: MapItem)
    requires |file| >= 0x70 && ReadU32(file, 52) == mapOffset && At(file, mapOffset, MapListBytes(order))
    requires multiset(order) == multiset(MapItems(ir, secs, mapOffset)) && m in MapItems(ir, secs, mapOffset)
    ensures InMap(file, m)
  {
    hide MapItems, ReadU32, ReadMapItem, MapListBytes, At;
    FewSections(ir, secs, mapOffset);
    var items := MapItems(ir, secs, mapOffset);
    assert |order| == |multiset(order)| == |items|;
    assert m in multiset(items) && m in multiset(order);
    var i :| 0 <= i < |order| && order[i] == m;
    MapListBack(file, mapOffset, order, i);
    assert MapEntryIs(file, mapOffset + 4 + 12 * i, m);
  }

  /** And every entry it has comes from the queue. */
  lemma MapEntryKnown(ir: Ir, file: seq<byte>, secs: map<Kind, u32>, order: seq<MapItem>, mapOffset: u32, m: MapItem)
    requires |file| >= 0x70 && ReadU32(file, 52) == mapOffset && At(file, mapOffset, MapListBytes(order))
    requires multiset(order) == multiset(MapItems(ir, secs, mapOffset)) && InMap(file, m)
    ensures m in MapItems(ir, secs, mapOffset)
  {
    hide MapItems, ReadU32, ReadMapItem, MapListBytes, At;
    FewSections(ir, secs, mapOffset);
    var items := MapItems(ir, secs, mapOffset);
    assert |order| == |multiset(order)| == |items|;
    MapListBack(file, mapOffset, order, 0);
    var i :| 0 <= i < ReadU32(file, ReadU32(file, 52)) && MapEntryIs(file, ReadU32(file, 52) + 4 + 12 * i, m);
    MapListBack(file, mapOffset, order, i);
    assert order[i] in multiset(order) && m in multiset(items);
  }

  lemma EntryKnown(ir: Ir, file: seq<byte>, secs: map<Kind, u32>, info: HeaderInfo, checksum: u32, head: FileInfo,
                   order: seq<MapItem>, m: MapItem)
    requires |info.magic| == 8 && |info.signature| == 20 && At(file, 0, HeaderBytes(ir, secs, info, checksum, head))
    requires At(file, head.mapOffset, MapListBytes(order))
    requires multiset(order) == multiset(MapItems(ir, secs, head.mapOffset)) && InMap(file, m)
    ensures |file| >= 0x70 && KnownEntry(file, m)
  {
    hide Count, ReadU32, HeaderBytes, At, MapListBytes, MapItems, InMap, U32, SectionOffset, MapType;
    HeaderBack(file, ir, secs, info, checksum, head);
    MapEntryKnown(ir, file, secs, order, head.mapOffset, m);
    MapItemsExact(ir, secs, head.mapOffset, m);
    if k :| m == SectionItem(ir, secs, k) && m.size != 0 {
      TypeOfSection(k);
    }
    forall j | 0 <= j < 6 && m.typ == MapType(HEADER_KINDS[j])
      ensures m.size == ReadU32(file, 56 + 8 * j) && m.offset == ReadU32(file, 60 + 8 * j)
    {
      SectionListed(ir, secs, head.mapOffset, HEADER_KINDS[j]);
    }
  }

  lemma IdEntry(ir: Ir, file: seq<byte>, offs: map<Ref, u32>, b: Book, secs: map<Kind, u32>, nt: Notes,
                order: seq<MapItem>, mapOffset: u32, m: MapItem, k: Kind)
    requires Complete(ir, offs, b, secs, nt) && AllStand(ir, file, offs, b.place) && |file| < 0x1_0000_0000
    requires |file| >= 0x70 && ReadU32(file, 52) == mapOffset && At(file, mapOffset, MapListBytes(order))
    requires multiset(order) == multiset(MapItems(ir, secs, mapOffset))
    requires InMap(file, m) && IsIdKind(k) && m.typ == MapType(k)
    ensures m.size == Count(ir, k) && Ref(k, 0) in b.place && m.offset == b.place[Ref(k, 0)]
  {
    hide Complete, AllStand, Count, MapItems, ReadU32, MapListBytes, At, InMap, U32, MapType;
    MapEntryKnown(ir, file, secs, order, mapOffset, m);
    SectionListed(ir, secs, mapOffset, k);
    IdCountFits(ir, file, offs, b, secs, nt, k);
    IdsFound(ir, file, offs, b, secs, nt, k, 0);
  }

  lemma MapChecked(ir: Ir, file: seq<byte>, offs: map<Ref, u32>, b: Book, secs: map<Kind, u32>, nt: Notes,
                   info: HeaderInfo, checksum: u32, head: FileInfo, order: seq<MapItem>)
    requires Complete(ir, offs, b, secs, nt) && AllStand(ir, file, offs, b.place) && |file| < 0x1_0000_0000
    requires |info.magic| == 8 && |info.signature| == 20 && At(file, 0, HeaderBytes(ir, secs, info, checksum, head))
    requires At(file, head.mapOffset, MapListBytes(order))
    requires multiset(order) == multiset(MapItems(ir, secs, head.mapOffset))
    ensures MapAgrees(ir, file, b.place)
  {
    hide Complete, AllStand, Count, ReadU32, HeaderBytes, At, MapListBytes, MapItems, InMap, KnownEntry, MapType;
    HeaderBack(file, ir, secs, info, checksum, head);
    forall m | InMap(file, m) ensures KnownEntry(file, m) {
      EntryKnown(ir, file, secs, info, checksum, head, order, m);
    }
    forall m, k | InMap(file, m) && IsIdKind(k) && m.typ == MapType(k)
      ensures m.size == Count(ir, k) && Ref(k, 0) in b.place && m.offset == b.place[Ref(k, 0)]
    {
      IdEntry(ir, file, offs, b, secs, nt, order, head.mapOffset, m, k);
    }
  }

  /** Items without alignment follow each other without gaps. */
  lemma DenseStep(ir: Ir, offs: map<Ref, u32>, b: Book, secs: map<Kind, u32>, nt: Notes, k: Kind, i: nat)
    requires Complete(ir, offs, b, secs, nt) && SectionAlignment(k) == 1 && i < Count(ir, k)
    ensures k in nt.bases && Ref(k, i) in b.place && Valid(ir, Ref(k, i))
    ensures i == 0 ==> b.place[Ref(k, i)] == nt.bases[k]
    ensures i > 0 ==> Ref(k, i - 1) in b.place && Valid(ir, Ref(k, i - 1))
    ensures i > 0 ==> b.place[Ref(k, i)] == b.place[Ref(k, i - 1)] + ItemLength(ir, offs, Ref(k, i - 1))
  {
    SectionNotes(ir, offs, b, secs, nt, k);
    hide Layout, ItemBytes, Count, Right, Consecutive, RoundUp, Begin, EndOf, U32, SectionAlignment;
    var base := nt.bases[k];
    RoundUpGrows(ChainEnd(b, k, base, i), 1);
    assert ChainEnd(b, k, base, 0) == base;
    if i > 0 {
      assert Valid(ir, Ref(k, i - 1));
      assert ChainEnd(b, k, base, i - 1) >= 0;
    }
  }

  lemma {:induction false} DenseGrows(ir: Ir, offs: map<Ref, u32>, b: Book, secs: map<Kind, u32>, nt: Notes, i: nat)
    requires Complete(ir, offs, b, secs, nt) && i < |ir.annotations|
    ensures Annotations in nt.bases && Ref(Annotations, i) in b.place
    ensures b.place[Ref(Annotations, i)] >= nt.bases[Annotations] + i
  {
    hide Complete, Layout, ItemBytes;
    DenseStep(ir, offs, b, secs, nt, Annotations, i);
    if i > 0 {
      DenseGrows(ir, offs, b, secs, nt, i - 1);
      OnlyEmptyItems(ir, Ref(Annotations, i - 1), offs);
    }
  }

  lemma AnnotationSection(ir: Ir, file: seq<byte>, offs: map<Ref, u32>, b: Book, secs: map<Kind, u32>, nt: Notes)
    requires Complete(ir, offs, b, secs, nt) && ir.annotations != []
    requires AllStand(ir, file, offs, b.place) && |file| < 0x1_0000_0000
    ensures |ir.annotations| < 0x1_0000_0000
    ensures Ref(Annotations, 0) in b.place && SectionOffset(secs, Annotations) == b.place[Ref(Annotations, 0)]
  {
    hide Complete, Layout, ItemBytes, At, U32, Begin, EndOf, Chain, ChainEnd;
    var n := |ir.annotations|;
    var r := Ref(Annotations, n - 1);
    DenseStep(ir, offs, b, secs, nt, Annotations, 0);
    DenseGrows(ir, offs, b, secs, nt, n - 1);
    OnlyEmptyItems(ir, r, offs);
    AtLength(file, b.place[r], ItemBytes(Layout(ir, r), offs));
    SectionNotes(ir, offs, b, secs, nt, Annotations);
    ChainBounds(b, Annotations, nt.bases[Annotations], n);
    LengthOf(ir, offs, b, secs, nt, r);
    SmallU32(nt.bases[Annotations]);
  }

  lemma LengthOf(ir: Ir, offs: map<Ref, u32>, b: Book, secs: map<Kind, u32>, nt: Notes, r: Ref)
    requires Complete(ir, offs, b, secs, nt) && Valid(ir, r)
    ensures r in b.len && b.len[r] == ItemLength(ir, offs, r)
  {
    hide Layout, ItemBytes, Right, Consecutive, Count;
  }

  lemma AnnotationsInMap(ir: Ir, file: seq<byte>, offs: map<Ref, u32>, b: Book, secs: map<Kind, u32>, nt: Notes,
                         order: seq<MapItem>, mapOffset: u32)
    requires Complete(ir, offs, b, secs, nt) && AllStand(ir, file, offs, b.place) && |file| < 0x1_0000_0000
    requires |file| >= 0x70 && ReadU32(file, 52) == mapOffset && At(file, mapOffset, MapListBytes(order))
    requires multiset(order) == multiset(MapItems(ir, secs, mapOffset))
    ensures AnnotationsReached(ir, file, offs, b.place)
  {
    hide Complete, AllStand, MapItems, ReadU32, MapListBytes, At, InMap, SectionOffset, ItemLength, U32;
    forall i | 0 <= i < |ir.annotations| - 1
      ensures Follows(ir, offs, b.place, Ref(Annotations, i), Ref(Annotations, i + 1))
    {
      DenseStep(ir, offs, b, secs, nt, Annotations, i + 1);
    }
    if ir.annotations != [] {
      AnnotationSection(ir, file, offs, b, secs, nt);
      SmallU32(|ir.annotations|);
      SectionListed(ir, secs, mapOffset, Annotations);
      MapEntryFound(ir, file, secs, order, mapOffset, SectionItem(ir, secs, Annotations));
      assert SectionItem(ir, secs, Annotations) == MapItem(0x2004, |ir.annotations|, b.place[Ref(Annotations, 0)]);
    }
  }

  lemma IdInMap(ir: Ir, file: seq<byte>, offs: map<Ref, u32>, b: Book, secs: map<Kind, u32>, nt: Notes,
                order: seq<MapItem>,
                mapOffset: u32, k: Kind, i: nat)
    requires Complete(ir, offs, b, secs, nt) && IsIdKind(k) && i < Count(ir, k)
    requires AllStand(ir, file, offs, b.place) && |file| < 0x1_0000_0000
    requires |file| >= 0x70 && ReadU32(file, 52) == mapOffset && At(file, mapOffset, MapListBytes(order))
    requires multiset(order) == multiset(MapItems(ir, secs, mapOffset))
    ensures IdReachedByMap(ir, file, b.place, k, i)
  {
    hide Complete, AllStand, Count, MapItems, ReadU32, MapListBytes, At, InMap, U32, MapType;
    IdsFound(ir, file, offs, b, secs, nt, k, i);
    IdCountFits(ir, file, offs, b, secs, nt, k);
    SectionListed(ir, secs, mapOffset, k);
    MapEntryFound(ir, file, secs, order, mapOffset, SectionItem(ir, secs, k));
  }

  lemma HiddenapiFound(ir: Ir, file: seq<byte>, offs: map<Ref, u32>, b: Book, secs: map<Kind, u32>, nt: Notes)
    requires Complete(ir, offs, b, secs, nt) && ir.hiddenapi != [] && HiddenApi.Fits(ir.hiddenapi)
    requires AllStand(ir, file, offs, b.place) && |file| < 0x1_0000_0000
    ensures Ref(HiddenapiData, 0) in b.place && SectionOffset(secs, HiddenapiData) == b.place[Ref(HiddenapiData, 0)]
  {
    hide Complete, Layout, ItemBytes, EndOf, At, RoundUp, U32;
    var r := Ref(HiddenapiData, 0);
    OnlyEmptyItems(ir, r, offs);
    SingleSection(ir, offs, b, secs, nt, HiddenapiData);
    AtLength(file, b.place[r], ItemBytes(Layout(ir, r), offs));
    RoundUpTwice(EndOf(nt, StringDatas));
    SmallU32(b.place[r]);
  }

  lemma RoundUpTwice(n: nat)
    ensures RoundUp(RoundUp(n, 4), 4) == RoundUp(n, 4)
  {
  }

  lemma HiddenapiInMap(ir: Ir, file: seq<byte>, offs: map<Ref, u32>, b: Book, secs: map<Kind, u32>, nt: Notes,
                       order: seq<MapItem>,
                       mapOffset: u32)
    requires Complete(ir, offs, b, secs, nt) && AllStand(ir, file, offs, b.place) && |file| < 0x1_0000_0000
    requires |file| >= 0x70 && ReadU32(file, 52) == mapOffset && At(file, mapOffset, MapListBytes(order))
    requires multiset(order) == multiset(MapItems(ir, secs, mapOffset))
    requires ir.hiddenapi != [] ==> HiddenApi.Fits(ir.hiddenapi)
    ensures HiddenapiReached(ir, file, b.place)
  {
    hide Complete, AllStand, MapItems, ReadU32, MapListBytes, At, InMap, SectionOffset;
    if ir.hiddenapi != [] {
      HiddenapiFound(ir, file, offs, b, secs, nt);
      SectionListed(ir, secs, mapOffset, HiddenapiData);
      MapEntryFound(ir, file, secs, order, mapOffset, SectionItem(ir, secs, HiddenapiData));
    }
  }

  lemma IdInHeader(ir: Ir, file: seq<byte>, offs: map<Ref, u32>, b: Book, secs: map<Kind, u32>, nt: Notes,
                   info: HeaderInfo,
                   checksum: u32, head: FileInfo, j: nat)
    requires Complete(ir, offs, b, secs, nt) && AllStand(ir, file, offs, b.place) && |file| < 0x1_0000_0000 && j < 6
    requires |info.magic| == 8 && |info.signature| == 20 && At(file, 0, HeaderBytes(ir, secs, info, checksum, head))
    ensures |file| >= 0x70 && ReadU32(file, 56 + 8 * j) == Count(ir, HEADER_KINDS[j])
    ensures forall i :: 0 <= i < Count(ir, HEADER_KINDS[j]) ==>
              && Ref(HEADER_KINDS[j], i) in b.place
              && b.place[Ref(HEADER_KINDS[j], i)] == ReadU32(file, 60 + 8 * j) + IdSize(HEADER_KINDS[j]) * i
  {
    hide Complete, AllStand, Count, ReadU32, HeaderBytes, At, U32, SectionOffset, IdSize;
    HeaderBack(file, ir, secs, info, checksum, head);
    var k := HEADER_KINDS[j];
    assert IsIdKind(k);
    IdCountFits(ir, file, offs, b, secs, nt, k);
    forall i | 0 <= i < Count(ir, k)
      ensures Ref(k, i) in b.place && b.place[Ref(k, i)] == ReadU32(file, 60 + 8 * j) + IdSize(k) * i
    {
      IdsFound(ir, file, offs, b, secs, nt, k, i);
    }
  }

  lemma AllIdsReached(ir: Ir, file: seq<byte>, offs: map<Ref, u32>, b: Book, secs: map<Kind, u32>, nt: Notes,
                      info: HeaderInfo,
                      checksum: u32, head: FileInfo, order: seq<MapItem>)
    requires Complete(ir, offs, b, secs, nt) && WellWritten(ir, file, offs, b.place) && |file| < 0x1_0000_0000
    requires |info.magic| == 8 && |info.signature| == 20 && At(file, 0, HeaderBytes(ir, secs, info, checksum, head))
    requires At(file, head.mapOffset, MapListBytes(order))
    requires multiset(order) == multiset(MapItems(ir, secs, head.mapOffset))
    requires ir.hiddenapi != [] ==> HiddenApi.Fits(ir.hiddenapi)
    ensures IdsReached(ir, file, b.place) && HiddenapiReached(ir, file, b.place)
    ensures AnnotationsReached(ir, file, offs, b.place) && MapAgrees(ir, file, b.place)
  {
    hide Complete, AllStand, NoOverlap, OffsetsExact, Count, ReadU32, HeaderBytes, At, MapListBytes, MapItems,
      IdReachedByMap, IdSize, HiddenapiReached, AnnotationsReached, MapAgrees;
    HeaderBack(file, ir, secs, info, checksum, head);
    HiddenapiInMap(ir, file, offs, b, secs, nt, order, head.mapOffset);
    AnnotationsInMap(ir, file, offs, b, secs, nt, order, head.mapOffset);
    MapChecked(ir, file, offs, b, secs, nt, info, checksum, head, order);
    forall j | 0 <= j < 6
      ensures ReadU32(file, 56 + 8 * j) == Count(ir, HEADER_KINDS[j])
      ensures forall i :: 0 <= i < Count(ir, HEADER_KINDS[j]) ==>
                && Ref(HEADER_KINDS[j], i) in b.place
                && b.place[Ref(HEADER_KINDS[j], i)] == ReadU32(file, 60 + 8 * j) + IdSize(HEADER_KINDS[j]) * i
    {
      IdInHeader(ir, file, offs, b, secs, nt, info, checksum, head, j);
    }
    forall k, i | IsIdKind(k) && 0 <= i < Count(ir, k) ensures IdReachedByMap(ir, file, b.place, k, i) {
      IdInMap(ir, file, offs, b, secs, nt, order, head.mapOffset, k, i);
    }
  }

  // Where everything stands, told from the first byte to the last.

  const FILE_ORDER: seq<Kind> := [
    StringIds, TypeIds, ProtoIds, FieldIds, MethodIds, ClassDefs, CallSiteIds, MethodHandles,
    CodeItems, DebugInfos, EncodedArrays, Annotations, AnnotationSets, AnnotationSetRefs, AnnotationsDirectories,
    TypeLists, ClassDatas, StringDatas, HiddenapiData]

  function KindAt(j: nat): Kind
    requires j < 19
  {
    FILE_ORDER[j]
  }

  /** Items of bytes need no alignment, all others that of a word. */
  function AlignmentOf(k: Kind): nat {
    if k in {ClassDatas, StringDatas, DebugInfos, Annotations, EncodedArrays} then 1 else 4
  }

  /** `p` is the first multiple of `a` from `from` on. */
  ghost predicate FirstMultiple(from: nat, a: nat, p: nat) {
    a > 0 && p % a == 0 && from <= p < from + a
  }

  /** The end of the first `i` items of section `j`; those of the data part begin at a multiple of eight. */
  ghost function Cursor(ir: Ir, offs: map<Ref, u32>, place: map<Ref, nat>, j: nat, i: nat): nat
    requires j < 19
    decreases j, i
  {
    if i > 0 then
      var r := Ref(KindAt(j), i - 1);
      if Valid(ir, r) && r in place then place[r] + ItemLength(ir, offs, r) else 0
    else if j == 0 then 0x70
    else
      var e := Cursor(ir, offs, place, j - 1, Count(ir, KindAt(j - 1)));
      if j == 8 then (e + 7) / 8 * 8 else e
  }

  /** Every item is at the first aligned place behind the one before it. */
  ghost predicate ItemsInOrder(ir: Ir, offs: map<Ref, u32>, place: map<Ref, nat>) {
    forall j, i {:trigger Ref(KindAt(j), i)} :: 0 <= j < 19 && 0 <= i < Count(ir, KindAt(j)) ==>
      && Ref(KindAt(j), i) in place
      && FirstMultiple(Cursor(ir, offs, place, j, i), AlignmentOf(KindAt(j)),
                       place[Ref(KindAt(j), i)])
  }

  /**
   * What the header says of the parts of the file. The data part goes from behind the identifiers to behind
   * the map list, which stands behind all items; link data follow, and then the file ends.
   */
  ghost predicate PartsInOrder(ir: Ir, file: seq<byte>, offs: map<Ref, u32>, place: map<Ref, nat>,
                               linkData: seq<byte>)
  {
    && |file| >= 0x70
    && var dataSize, dataOffset, mapOffset := ReadU32(file, 104), ReadU32(file, 108), ReadU32(file, 52);
       && FirstMultiple(Cursor(ir, offs, place, 7, Count(ir, MethodHandles)), 8, dataOffset) && dataSize > 0
       && FirstMultiple(Cursor(ir, offs, place, 18, Count(ir, HiddenapiData)), 4, mapOffset)
       && mapOffset + 4 <= |file|
       && FirstMultiple(mapOffset + 4 + 12 * ReadU32(file, mapOffset), 8, dataOffset + dataSize)
       && ReadU32(file, 44) == |linkData| && |file| == dataOffset + dataSize + |linkData|
       && (linkData != [] ==> ReadU32(file, 48) == dataOffset + dataSize && At(file, dataOffset + dataSize, linkData))
  }

  lemma FileOrderRight(j: nat)
    requires j < 19
    ensures Rank(KindAt(j)) == j
    ensures SectionAlignment(KindAt(j)) == AlignmentOf(KindAt(j))
    ensures KindAt(7) == MethodHandles && KindAt(18) == HiddenapiData && KindAt(8) == CodeItems
  {
  }

  lemma BeginBehind(ir: Ir, nt: Notes, j: nat)
    requires 0 < j < 19
    ensures Begin(ir, nt, KindAt(j))
            == var e := EndOf(nt, KindAt(j - 1));
               if j == 8 then (e + 7) / 8 * 8
               else if j == 18 && ir.hiddenapi != [] then RoundUp(e, 4)
               else e
  {
    hide EndOf;
  }

  lemma CursorBehind(ir: Ir, offs: map<Ref, u32>, b: Book, secs: map<Kind, u32>, nt: Notes, j: nat, i: nat)
    requires Complete(ir, offs, b, secs, nt) && j < 19 && 0 < i <= Count(ir, KindAt(j))
    ensures var k := KindAt(j);
            k in nt.bases && Cursor(ir, offs, b.place, j, i) == ChainEnd(b, k, nt.bases[k], i)
  {
    hide Complete, Count, ItemLength, Chain, Begin, EndOf, KindAt;
    var k := KindAt(j);
    SectionNotes(ir, offs, b, secs, nt, k);
    assert Valid(ir, Ref(k, i - 1));
    LengthOf(ir, offs, b, secs, nt, Ref(k, i - 1));
    ChainPlaced(b, k, nt.bases[k], Count(ir, k), i - 1);
  }

  lemma CursorStart(ir: Ir, offs: map<Ref, u32>, place: map<Ref, nat>, j: nat)
    requires j < 19
    ensures Cursor(ir, offs, place, 0, 0) == 0x70
    ensures j > 0 ==>
              Cursor(ir, offs, place, j, 0)
              == var e := Cursor(ir, offs, place, j - 1, Count(ir, KindAt(j - 1)));
                 if j == 8 then (e + 7) / 8 * 8 else e
  {
    hide Count, KindAt, ItemLength;
  }

  lemma SectionEnds(ir: Ir, offs: map<Ref, u32>, b: Book, secs: map<Kind, u32>, nt: Notes, k: Kind)
    requires Complete(ir, offs, b, secs, nt)
    ensures k in nt.bases && nt.bases[k] == Begin(ir, nt, k)
    ensures EndOf(nt, k) == ChainEnd(b, k, nt.bases[k], Count(ir, k)) && ChainEnd(b, k, nt.bases[k], 0) == nt.bases[k]
  {
    hide Complete, Count, Begin, EndOf, Chain;
    SectionNotes(ir, offs, b, secs, nt, k);
  }

  /** The cursor is where the writer's notes say. */
  lemma {:induction false} CursorRight(ir: Ir, offs: map<Ref, u32>, b: Book, secs: map<Kind, u32>, nt: Notes, j: nat,
                                       i: nat)
    requires Complete(ir, offs, b, secs, nt) && j < 19 && i <= Count(ir, KindAt(j))
    ensures var k := KindAt(j);
            k in nt.bases && (i > 0 || j < 18 ==> Cursor(ir, offs, b.place, j, i) == ChainEnd(b, k, nt.bases[k], i))
    ensures j == 18 && i == 0 ==> Cursor(ir, offs, b.place, j, i) == EndOf(nt, KindAt(17))
    decreases j, i
  {
    hide *;
    SectionEnds(ir, offs, b, secs, nt, KindAt(j));
    if i > 0 {
      CursorBehind(ir, offs, b, secs, nt, j, i);
    } else {
      CursorStart(ir, offs, b.place, j);
      if j > 0 {
        BeginBehind(ir, nt, j);
        CursorRight(ir, offs, b, secs, nt, j - 1, Count(ir, KindAt(j - 1)));
        SectionEnds(ir, offs, b, secs, nt, KindAt(j - 1));
      } else {
        FirstBegins(ir, nt);
      }
    }
  }

  lemma FirstBegins(ir: Ir, nt: Notes)
    ensures Begin(ir, nt, KindAt(0)) == 0x70
  {
  }

  lemma ChainPlaced(b: Book, k: Kind, start: nat, n: nat, i: nat)
    requires Chain(b, k, start, n) && i < n
    ensures Ref(k, i) in b.place && Ref(k, i) in b.len
    ensures b.place[Ref(k, i)] == RoundUp(ChainEnd(b, k, start, i), SectionAlignment(k))
  {
    assert ChainEnd(b, k, start, i) >= 0;
  }

  /** So the items stand in order, ... */
  lemma ItemsOrdered(ir: Ir, offs: map<Ref, u32>, b: Book, secs: map<Kind, u32>, nt: Notes)
    requires Complete(ir, offs, b, secs, nt)
    ensures ItemsInOrder(ir, offs, b.place)
  {
    hide *;
    forall j, i | 0 <= j < 19 && 0 <= i < Count(ir, KindAt(j))
      ensures Ref(KindAt(j), i) in b.place
      ensures FirstMultiple(Cursor(ir, offs, b.place, j, i), AlignmentOf(KindAt(j)),
                            b.place[Ref(KindAt(j), i)])
    {
      ItemOrdered(ir, offs, b, secs, nt, j, i);
    }
    InOrder(ir, offs, b.place);
  }

  lemma InOrder(ir: Ir, offs: map<Ref, u32>, place: map<Ref, nat>)
    requires forall j, i {:trigger Ref(KindAt(j), i)} :: 0 <= j < 19 && 0 <= i < Count(ir, KindAt(j)) ==>
               && Ref(KindAt(j), i) in place
               && FirstMultiple(Cursor(ir, offs, place, j, i), AlignmentOf(KindAt(j)),
                                place[Ref(KindAt(j), i)])
    ensures ItemsInOrder(ir, offs, place)
  {
    hide KindAt, Count, Cursor, FirstMultiple, AlignmentOf;
  }

  lemma ItemOrdered(ir: Ir, offs: map<Ref, u32>, b: Book, secs: map<Kind, u32>, nt: Notes, j: nat, i: nat)
    requires Complete(ir, offs, b, secs, nt) && j < 19 && i < Count(ir, KindAt(j))
    ensures Ref(KindAt(j), i) in b.place
    ensures FirstMultiple(Cursor(ir, offs, b.place, j, i), AlignmentOf(KindAt(j)),
                          b.place[Ref(KindAt(j), i)])
  {
    hide *;
    var k := KindAt(j);
    FileOrderRight(j);
    CursorRight(ir, offs, b, secs, nt, j, i);
    ChainOf(ir, offs, b, secs, nt, k);
    ChainPlaced(b, k, nt.bases[k], Count(ir, k), i);
    SectionEnds(ir, offs, b, secs, nt, k);
    if j == 18 && i == 0 {
      BeginBehind(ir, nt, j);
      HiddenapiCounted(ir);
      RoundUpTwice(EndOf(nt, KindAt(17)));
      Multiples(EndOf(nt, KindAt(17)), 4);
    } else {
      Multiples(ChainEnd(b, k, nt.bases[k], i), SectionAlignment(k));
    }
  }

  lemma HiddenapiCounted(ir: Ir)
    ensures KindAt(18) == HiddenapiData && (Count(ir, HiddenapiData) > 0 <==> ir.hiddenapi != [])
    ensures SectionAlignment(HiddenapiData) == AlignmentOf(HiddenapiData) == 4
  {
  }

  lemma Multiples(n: nat, a: Alignment)
    ensures FirstMultiple(n, a, RoundUp(n, a))
  {
  }

  lemma ChainOf(ir: Ir, offs: map<Ref, u32>, b: Book, secs: map<Kind, u32>, nt: Notes, k: Kind)
    requires Complete(ir, offs, b, secs, nt)
    ensures k in nt.bases && Chain(b, k, nt.bases[k], Count(ir, k))
  {
    hide Complete, Count, Begin, EndOf, Chain;
    SectionNotes(ir, offs, b, secs, nt, k);
  }

  /** ... and so do the parts of the file. */
  lemma PartsOrdered(ir: Ir, file: seq<byte>, offs: map<Ref, u32>, b: Book, secs: map<Kind, u32>, nt: Notes,
                     info: HeaderInfo, checksum: u32, head: FileInfo, order: seq<MapItem>)
    requires Complete(ir, offs, b, secs, nt) && |file| < 0x1_0000_0000
    requires |info.magic| == 8 && |info.signature| == 20 && At(file, 0, HeaderBytes(ir, secs, info, checksum, head))
    requires At(file, head.mapOffset, MapListBytes(order)) && |order| < 0x1_0000_0000
    requires head.dataOffset == Begin(ir, nt, CodeItems) && head.mapOffset == RoundUp(EndOf(nt, HiddenapiData), 4)
    requires head.dataOffset + head.dataSize == RoundUp(head.mapOffset + |MapListBytes(order)|, 8)
    requires info.linkData != [] ==>
               head.linkOffset == head.dataOffset + head.dataSize && At(file, head.linkOffset, info.linkData)
    requires |file| == head.dataOffset + head.dataSize + |info.linkData|
    ensures PartsInOrder(ir, file, offs, b.place, info.linkData)
  {
    hide *;
    HeaderBack(file, ir, secs, info, checksum, head);
    SmallU32(|info.linkData|);
    FileOrderRight(7);
    BeginBehind(ir, nt, 8);
    SectionEnds(ir, offs, b, secs, nt, MethodHandles);
    SectionEnds(ir, offs, b, secs, nt, HiddenapiData);
    CursorRight(ir, offs, b, secs, nt, 7, Count(ir, MethodHandles));
    LastCursor(ir, offs, b, secs, nt);
    Multiples(EndOf(nt, HiddenapiData), 4);
    Multiples(head.mapOffset + |MapListBytes(order)|, 8);
    MapListBack(file, head.mapOffset, order, 0);
    Eights(EndOf(nt, MethodHandles));
    DataFollows(ir, offs, b, secs, nt, head.mapOffset);
    PartsAre(ir, file, offs, b.place, info.linkData);
  }

  lemma PartsAre(ir: Ir, file: seq<byte>, offs: map<Ref, u32>, place: map<Ref, nat>, linkData: seq<byte>)
    requires |file| >= 0x70
    requires var dataSize, dataOffset, mapOffset := ReadU32(file, 104), ReadU32(file, 108), ReadU32(file, 52);
             && FirstMultiple(Cursor(ir, offs, place, 7, Count(ir, MethodHandles)), 8, dataOffset) && dataSize > 0
             && FirstMultiple(Cursor(ir, offs, place, 18, Count(ir, HiddenapiData)), 4, mapOffset)
             && mapOffset + 4 <= |file|
             && FirstMultiple(mapOffset + 4 + 12 * ReadU32(file, mapOffset), 8, dataOffset + dataSize)
             && ReadU32(file, 44) == |linkData| && |file| == dataOffset + dataSize + |linkData|
             && (linkData != [] ==>
                   ReadU32(file, 48) == dataOffset + dataSize && At(file, dataOffset + dataSize, linkData))
    ensures PartsInOrder(ir, file, offs, place, linkData)
  {
    hide Count, Cursor, FirstMultiple, ReadU32, At;
  }

  lemma Eights(n: nat)
    ensures FirstMultiple(n, 8, (n + 7) / 8 * 8)
  {
  }

  lemma FewOrdered(ir: Ir, secs: map<Kind, u32>, mapOffset: u32, order: seq<MapItem>)
    requires multiset(order) == multiset(MapItems(ir, secs, mapOffset))
    ensures |order| <= 21
  {
    hide MapItems;
    FewSections(ir, secs, mapOffset);
    assert |order| == |multiset(order)| == |MapItems(ir, secs, mapOffset)|;
  }

  lemma LastCursor(ir: Ir, offs: map<Ref, u32>, b: Book, secs: map<Kind, u32>, nt: Notes)
    requires Complete(ir, offs, b, secs, nt)
    ensures Cursor(ir, offs, b.place, 18, Count(ir, HiddenapiData)) == EndOf(nt, HiddenapiData)
  {
    hide *;
    HiddenapiCounted(ir);
    CursorRight(ir, offs, b, secs, nt, 18, Count(ir, HiddenapiData));
    SectionEnds(ir, offs, b, secs, nt, HiddenapiData);
    BeginBehind(ir, nt, 18);
  }

  /** The type codes of the map list, in the order of the sections. */
  const TYPE_CODES: seq<u16> := [
    0x0001, 0x0002, 0x0003, 0x0004, 0x0005, 0x0006, 0x0007, 0x0008,
    0x2001, 0x2003, 0x2005, 0x2004, 0x1003, 0x1002, 0x2006, 0x1001, 0x2000, 0x2002, 0xF000]

  function TypeCode(j: nat): u16
    requires j < 19
  {
    TYPE_CODES[j]
  }

  /** Where section `j` begins: behind the one before it, hidden-API data at a multiple of four. */
  ghost function SectionStart(ir: Ir, offs: map<Ref, u32>, place: map<Ref, nat>, j: nat): nat
    requires j < 19
  {
    var c := Cursor(ir, offs, place, j, 0);
    if j == 18 then (c + 3) / 4 * 4 else c
  }

  /** `m` is the entry of section `j`; if that takes any room the entry has its beginning. */
  ghost predicate ListsSection(ir: Ir, offs: map<Ref, u32>, place: map<Ref, nat>, j: int, m: MapItem) {
    && 0 <= j < 19 && m.typ == TypeCode(j) && m.size == U32(Count(ir, KindAt(j))) && m.size != 0
    && (Cursor(ir, offs, place, j, Count(ir, KindAt(j))) != SectionStart(ir, offs, place, j) ==>
          m.offset == U32(SectionStart(ir, offs, place, j)))
  }

  /** The map list has the header, itself and the sections that have items, and nothing else. */
  ghost predicate MapExact(ir: Ir, file: seq<byte>, offs: map<Ref, u32>, place: map<Ref, nat>) {
    && |file| >= 0x70 && InMap(file, MapItem(0x0000, 1, 0)) && InMap(file, MapItem(0x1000, 1, ReadU32(file, 52)))
    && (forall m :: InMap(file, m) ==>
          || m == MapItem(0x0000, 1, 0) || m == MapItem(0x1000, 1, ReadU32(file, 52))
          || exists j :: ListsSection(ir, offs, place, j, m))
    && (forall j {:trigger KindAt(j)} :: 0 <= j < 19 && U32(Count(ir, KindAt(j))) != 0 ==>
          exists m :: InMap(file, m) && ListsSection(ir, offs, place, j, m))
  }

  /** Entry `i` of the map list at `p`. */
  function MapEntry(file: seq<byte>, p: nat, i: nat): MapItem {
    if p + 16 + 12 * i <= |file| then ReadMapItem(file, p + 4 + 12 * i) else MapItem(0, 0, 0)
  }

  /** The entries are in the order of their offsets. */
  ghost predicate MapSorted(file: seq<byte>) {
    && |file| >= 0x70
    && var p := ReadU32(file, 52);
       && p + 4 <= |file| && p + 4 + 12 * ReadU32(file, p) <= |file|
       && forall i, j :: 0 <= i < j < ReadU32(file, p) ==> MapEntry(file, p, i).offset <= MapEntry(file, p, j).offset
  }

  lemma MapIsSorted(ir: Ir, file: seq<byte>, secs: map<Kind, u32>, info: HeaderInfo, checksum: u32, head: FileInfo,
                    order: seq<MapItem>)
    requires |info.magic| == 8 && |info.signature| == 20 && At(file, 0, HeaderBytes(ir, secs, info, checksum, head))
    requires At(file, head.mapOffset, MapListBytes(order)) && |order| < 0x1_0000_0000 && SortedByOffset(order)
    ensures MapSorted(file)
  {
    hide ReadU32, HeaderBytes, At, MapListBytes, ReadMapItem;
    HeaderBack(file, ir, secs, info, checksum, head);
    var p := head.mapOffset;
    MapListBack(file, p, order, 0);
    forall i | 0 <= i < |order| ensures MapEntry(file, p, i) == order[i] {
      MapListBack(file, p, order, i);
    }
  }

  lemma TypeCodeRight(j: nat)
    requires j < 19
    ensures MapType(KindAt(j)) == TypeCode(j)
  {
  }

  lemma RecordedStart(ir: Ir, offs: map<Ref, u32>, b: Book, secs: map<Kind, u32>, nt: Notes, k: Kind)
    requires Complete(ir, offs, b, secs, nt)
    ensures EndOf(nt, k) != Begin(ir, nt, k) ==> SectionOffset(secs, k) == U32(Begin(ir, nt, k))
  {
    hide Complete, Count, Begin, EndOf, Chain, U32;
    SectionNotes(ir, offs, b, secs, nt, k);
  }

  lemma StartRight(ir: Ir, offs: map<Ref, u32>, b: Book, secs: map<Kind, u32>, nt: Notes, j: nat)
    requires Complete(ir, offs, b, secs, nt) && j < 19 && Count(ir, KindAt(j)) > 0
    ensures SectionStart(ir, offs, b.place, j) == Begin(ir, nt, KindAt(j))
    ensures Cursor(ir, offs, b.place, j, Count(ir, KindAt(j))) == EndOf(nt, KindAt(j))
  {
    hide *;
    SectionEnds(ir, offs, b, secs, nt, KindAt(j));
    CursorRight(ir, offs, b, secs, nt, j, 0);
    CursorRight(ir, offs, b, secs, nt, j, Count(ir, KindAt(j)));
    StartIs(ir, offs, b.place, j);
    HiddenapiCounted(ir);
    if j == 18 {
      BeginBehind(ir, nt, j);
    }
  }

  lemma StartIs(ir: Ir, offs: map<Ref, u32>, place: map<Ref, nat>, j: nat)
    requires j < 19
    ensures SectionStart(ir, offs, place, j)
            == if j == 18 then RoundUp(Cursor(ir, offs, place, j, 0), 4) else Cursor(ir, offs, place, j, 0)
  {
    hide Cursor;
  }

  lemma SectionIsListed(ir: Ir, offs: map<Ref, u32>, b: Book, secs: map<Kind, u32>, nt: Notes, j: nat)
    requires Complete(ir, offs, b, secs, nt) && j < 19 && U32(Count(ir, KindAt(j))) != 0
    ensures ListsSection(ir, offs, b.place, j, SectionItem(ir, secs, KindAt(j)))
  {
    assert Count(ir, KindAt(j)) > 0;
    hide Complete, Count, KindAt, U32, Cursor, SectionStart, TypeCode, MapType, Begin, EndOf, SectionOffset;
    TypeCodeRight(j);
    StartRight(ir, offs, b, secs, nt, j);
    RecordedStart(ir, offs, b, secs, nt, KindAt(j));
  }

  lemma MapIsExact(ir: Ir, file: seq<byte>, offs: map<Ref, u32>, b: Book, secs: map<Kind, u32>, nt: Notes,
                   info: HeaderInfo, checksum: u32, head: FileInfo, order: seq<MapItem>)
    requires Complete(ir, offs, b, secs, nt)
    requires |info.magic| == 8 && |info.signature| == 20 && At(file, 0, HeaderBytes(ir, secs, info, checksum, head))
    requires At(file, head.mapOffset, MapListBytes(order))
    requires multiset(order) == multiset(MapItems(ir, secs, head.mapOffset))
    ensures MapExact(ir, file, offs, b.place)
  {
    hide Complete, Count, ReadU32, HeaderBytes, At, MapListBytes, MapItems, InMap, U32, KindAt, ListsSection,
      SectionItem;
    HeaderBack(file, ir, secs, info, checksum, head);
    var p := head.mapOffset;
    MapItemsExact(ir, secs, p, MapItem(0x0000, 1, 0));
    MapItemsExact(ir, secs, p, MapItem(0x1000, 1, p));
    MapEntryFound(ir, file, secs, order, p, MapItem(0x0000, 1, 0));
    MapEntryFound(ir, file, secs, order, p, MapItem(0x1000, 1, p));
    forall m | InMap(file, m)
      ensures || m == MapItem(0x0000, 1, 0) || m == MapItem(0x1000, 1, p)
              || exists j :: ListsSection(ir, offs, b.place, j, m)
    {
      MapEntryKnown(ir, file, secs, order, p, m);
      MapItemsExact(ir, secs, p, m);
      if k :| m == SectionItem(ir, secs, k) && m.size != 0 {
        KindRanked(k);
        ItemSize(ir, secs, k);
        SectionIsListed(ir, offs, b, secs, nt, Rank(k));
      }
    }
    forall j | 0 <= j < 19 && U32(Count(ir, KindAt(j))) != 0
      ensures exists m :: InMap(file, m) && ListsSection(ir, offs, b.place, j, m)
    {
      SectionListed(ir, secs, p, KindAt(j));
      MapEntryFound(ir, file, secs, order, p, SectionItem(ir, secs, KindAt(j)));
      SectionIsListed(ir, offs, b, secs, nt, j);
    }
  }

  lemma ItemSize(ir: Ir, secs: map<Kind, u32>, k: Kind)
    ensures SectionItem(ir, secs, k).size == U32(Count(ir, k))
  {
  }

  /** Identifiers stand before the data part, and all other items in it, before the map list. */
  ghost predicate ItemsInParts(ir: Ir, file: seq<byte>, offs: map<Ref, u32>, place: map<Ref, nat>) {
    && |file| >= 0x70
    && forall r :: Valid(ir, r) ==>
         && r in place
         && if IsIdKind(r.kind) then 0x70 <= place[r] && place[r] + ItemLength(ir, offs, r) <= ReadU32(file, 108)
            else ReadU32(file, 108) <= place[r] && place[r] + ItemLength(ir, offs, r) <= ReadU32(file, 52)
  }

  lemma PartsHold(ir: Ir, file: seq<byte>, offs: map<Ref, u32>, b: Book, secs: map<Kind, u32>, nt: Notes,
                  info: HeaderInfo, checksum: u32, head: FileInfo)
    requires Complete(ir, offs, b, secs, nt)
    requires |info.magic| == 8 && |info.signature| == 20 && At(file, 0, HeaderBytes(ir, secs, info, checksum, head))
    requires head.dataOffset == Begin(ir, nt, CodeItems) && head.mapOffset == RoundUp(EndOf(nt, HiddenapiData), 4)
    ensures ItemsInParts(ir, file, offs, b.place)
  {
    hide Complete, HeaderBytes, At, Begin, EndOf, ItemLength, ReadU32, Count, RoundUp, IsIdKind;
    HeaderBack(file, ir, secs, info, checksum, head);
    forall r | Valid(ir, r)
      ensures r in b.place
      ensures if IsIdKind(r.kind) then
                0x70 <= b.place[r] && b.place[r] + ItemLength(ir, offs, r) <= ReadU32(file, 108)
              else ReadU32(file, 108) <= b.place[r] && b.place[r] + ItemLength(ir, offs, r) <= ReadU32(file, 52)
    {
      PartHolds(ir, offs, b, secs, nt, r);
    }
  }

  lemma PartHolds(ir: Ir, offs: map<Ref, u32>, b: Book, secs: map<Kind, u32>, nt: Notes, r: Ref)
    requires Complete(ir, offs, b, secs, nt) && Valid(ir, r)
    ensures r in b.place
    ensures IsIdKind(r.kind) ==>
              0x70 <= b.place[r] && b.place[r] + ItemLength(ir, offs, r) <= Begin(ir, nt, CodeItems)
    ensures !IsIdKind(r.kind) ==>
              && Begin(ir, nt, CodeItems) <= b.place[r]
              && b.place[r] + ItemLength(ir, offs, r) <= RoundUp(EndOf(nt, HiddenapiData), 4)
  {
    hide *;
    var j := Rank(r.kind);
    KindRanked(r.kind);
    FileOrderRight(8);
    InSection(ir, offs, b, secs, nt, r);
    FirstBegins(ir, nt);
    SectionsGrow(ir, offs, b, secs, nt, 0, j);
    if j < 8 {
      SectionsGrow(ir, offs, b, secs, nt, j, 8);
    } else {
      SectionsGrow(ir, offs, b, secs, nt, 8, j);
      SectionsGrow(ir, offs, b, secs, nt, j, 18);
      SectionGrows(ir, offs, b, secs, nt, KindAt(18));
      Multiples(EndOf(nt, HiddenapiData), 4);
      FirstFrom(EndOf(nt, HiddenapiData), 4, RoundUp(EndOf(nt, HiddenapiData), 4));
    }
  }

  lemma KindRanked(k: Kind)
    ensures Rank(k) < 19 && KindAt(Rank(k)) == k && (IsIdKind(k) <==> Rank(k) < 8)
  {
  }

  /** An item lies between the beginning and the end of its section. */
  lemma InSection(ir: Ir, offs: map<Ref, u32>, b: Book, secs: map<Kind, u32>, nt: Notes, r: Ref)
    requires Complete(ir, offs, b, secs, nt) && Valid(ir, r)
    ensures r in b.place && Begin(ir, nt, r.kind) <= b.place[r]
    ensures b.place[r] + ItemLength(ir, offs, r) <= EndOf(nt, r.kind)
  {
    var n := Count(ir, r.kind);
    assert r.index < n && r == Ref(r.kind, r.index);
    hide *;
    SectionEnds(ir, offs, b, secs, nt, r.kind);
    ChainOf(ir, offs, b, secs, nt, r.kind);
    LengthOf(ir, offs, b, secs, nt, r);
    ChainWithin(b, r.kind, nt.bases[r.kind], n, r.index);
  }

  lemma {:induction false} ChainWithin(b: Book, k: Kind, start: nat, n: nat, i: nat)
    requires Chain(b, k, start, n) && i < n
    ensures Ref(k, i) in b.place && Ref(k, i) in b.len && start <= b.place[Ref(k, i)]
    ensures b.place[Ref(k, i)] + b.len[Ref(k, i)] <= ChainEnd(b, k, start, n)
  {
    hide RoundUp, SectionAlignment;
    ChainPlaced(b, k, start, n, n - 1);
    ChainShorter(b, k, start, n);
    ChainGrows(b, k, start, n - 1);
    RoundUpGrows(ChainEnd(b, k, start, n - 1), SectionAlignment(k));
    if i < n - 1 {
      ChainWithin(b, k, start, n - 1, i);
    }
  }

  /** Each section begins behind all before it. */
  lemma {:induction false} SectionsGrow(ir: Ir, offs: map<Ref, u32>, b: Book, secs: map<Kind, u32>, nt: Notes, i: nat,
                                        j: nat)
    requires Complete(ir, offs, b, secs, nt) && i <= j < 19
    ensures Begin(ir, nt, KindAt(i)) <= Begin(ir, nt, KindAt(j))
    ensures i < j ==> EndOf(nt, KindAt(i)) <= Begin(ir, nt, KindAt(j))
  {
    hide *;
    if i < j {
      SectionsGrow(ir, offs, b, secs, nt, i, j - 1);
      SectionGrows(ir, offs, b, secs, nt, KindAt(j - 1));
      BeginBehind(ir, nt, j);
      Multiples(EndOf(nt, KindAt(j - 1)), 4);
      FirstFrom(EndOf(nt, KindAt(j - 1)), 4, RoundUp(EndOf(nt, KindAt(j - 1)), 4));
      SectionGrows(ir, offs, b, secs, nt, KindAt(i));
    }
  }

  /** The data part begins before the map list. */
  lemma DataFollows(ir: Ir, offs: map<Ref, u32>, b: Book, secs: map<Kind, u32>, nt: Notes, mapOffset: nat)
    requires Complete(ir, offs, b, secs, nt) && mapOffset == RoundUp(EndOf(nt, HiddenapiData), 4)
    ensures Begin(ir, nt, CodeItems) <= mapOffset
  {
    hide *;
    FileOrderRight(8);
    SectionsGrow(ir, offs, b, secs, nt, 8, 18);
    SectionGrows(ir, offs, b, secs, nt, KindAt(18));
    SectionEnds(ir, offs, b, secs, nt, HiddenapiData);
    Multiples(EndOf(nt, HiddenapiData), 4);
    FirstFrom(EndOf(nt, HiddenapiData), 4, mapOffset);
  }

  lemma FirstFrom(n: nat, a: nat, p: nat)
    requires FirstMultiple(n, a, p)
    ensures n <= p
  {
  }

  lemma SectionGrows(ir: Ir, offs: map<Ref, u32>, b: Book, secs: map<Kind, u32>, nt: Notes, k: Kind)
    requires Complete(ir, offs, b, secs, nt)
    ensures Begin(ir, nt, k) <= EndOf(nt, k)
  {
    hide *;
    SectionEnds(ir, offs, b, secs, nt, k);
    ChainOf(ir, offs, b, secs, nt, k);
    ChainGrows(b, k, nt.bases[k], Count(ir, k));
  }

  lemma ChainShorter(b: Book, k: Kind, start: nat, n: nat)
    requires Chain(b, k, start, n) && n > 0
    ensures Chain(b, k, start, n - 1)
  {
    hide RoundUp, SectionAlignment;
    forall i | 0 <= i < n - 1
      ensures Ref(k, i) in b.place && Ref(k, i) in b.len
      ensures b.place[Ref(k, i)] == RoundUp(ChainEnd(b, k, start, i), SectionAlignment(k))
    {
      assert ChainEnd(b, k, start, i) >= 0;
    }
  }

  lemma {:induction false} ChainGrows(b: Book, k: Kind, start: nat, n: nat)
    requires Chain(b, k, start, n)
    ensures start <= ChainEnd(b, k, start, n)
  {
    hide RoundUp, SectionAlignment;
    if n > 0 {
      ChainPlaced(b, k, start, n, n - 1);
      ChainShorter(b, k, start, n);
      ChainGrows(b, k, start, n - 1);
      RoundUpGrows(ChainEnd(b, k, start, n - 1), SectionAlignment(k));
    }
  }

  /** The header names a standard file, the size of the file and its checksum. */
  ghost predicate HeaderSound(file: seq<byte>, info: HeaderInfo, sum: Option<seq<byte> -> u32>)
    requires |info.magic| == 8
  {
    && |file| >= 0x70 && file[..8] == StandardMagic(info.magic)
    && ReadU32(file, 32) == |file|
    && (sum.Some? ==> ReadU32(file, 8) == sum.value(file[SUMMED_FROM..]))
  }

  lemma HeaderIsSound(ir: Ir, file: seq<byte>, secs: map<Kind, u32>, info: HeaderInfo, checksum: u32, head: FileInfo,
                      sum: Option<seq<byte> -> u32>)
    requires |info.magic| == 8 && |info.signature| == 20 && At(file, 0, HeaderBytes(ir, secs, info, checksum, head))
    requires |file| < 0x1_0000_0000 && head.fileSize == U32(|file|)
    requires checksum == match sum case None => info.checksum case Some(f) => f(file[SUMMED_FROM..])
    ensures HeaderSound(file, info, sum)
  {
    hide StandardMagic, ReadU32, HeaderBytes, At, U32;
    HeaderBack(file, ir, secs, info, checksum, head);
    SmallU32(|file|);
  }

  /**
   * Writing a file and reading it back: what the writer is given is what the readers find. Identifiers
   * are found from the header and the map list by their index, everything else at the offsets they
   * and the items they lead to hold.
   */
  method WriteAndReadBack(ir: Ir, output: Section, info: HeaderInfo, sum: Option<seq<byte> -> u32>)
    returns (failed: bool, ghost size: nat, ghost offs: map<Ref, u32>, ghost place: map<Ref, nat>)
    requires Closed(ir) && output.data == [] && |info.magic| == 8 && |info.signature| == 20
    modifies output
    ensures size < 0x1_0000_0000 ==> !failed && |output.data| == size
    ensures size < 0x1_0000_0000 ==> WellWritten(ir, output.data, offs, place)
    ensures size < 0x1_0000_0000 ==> HeaderSound(output.data, info, sum)
    ensures size < 0x1_0000_0000 ==> ItemsInOrder(ir, offs, place) && ItemsInParts(ir, output.data, offs, place)
    ensures size < 0x1_0000_0000 ==> PartsInOrder(ir, output.data, offs, place, info.linkData)
    ensures size < 0x1_0000_0000 ==> IdsReached(ir, output.data, place) && HiddenapiReached(ir, output.data, place)
    ensures size < 0x1_0000_0000 ==> AnnotationsReached(ir, output.data, offs, place)
    ensures size < 0x1_0000_0000 ==> MapAgrees(ir, output.data, place) && MapExact(ir, output.data, offs, place)
    ensures size < 0x1_0000_0000 ==> MapSorted(output.data)
    ensures size < 0x1_0000_0000 ==> forall r :: Valid(ir, r) && ItemFits(ir, r) ==> ItemRead(ir, output.data, place, r)
    ensures size < 0x1_0000_0000 ==>
              forall r, s :: Valid(ir, r) && Valid(ir, s) && r != s && !EmptyItem(ir, r) && !EmptyItem(ir, s) ==>
                r in place && s in place && place[r] != place[s]
  {
    hide *;
    var w := new DexWriter(ir, output);
    var complete, file, checksum, order;
    complete, file, checksum, order, size := w.Write(info, sum);
    failed := !complete || w.stream.clobbered || w.unresolved;
    offs, place := w.offs, w.book.place;
    if size < 0x1_0000_0000 {
      forall r | Valid(ir, r) && ItemFits(ir, r) ensures ItemRead(ir, output.data, place, r) {
        FileReadsBack(ir, output.data, offs, place, r);
      }
      forall r, s | Valid(ir, r) && Valid(ir, s) && r != s && !EmptyItem(ir, r) && !EmptyItem(ir, s)
        ensures r in place && s in place && place[r] != place[s]
      {
        OffsetsApart(ir, output.data, offs, place, r, s);
      }
      CompleteNotes(ir, offs, w.book, w.sectionOffs, w.notes);
      if ir.hiddenapi != [] {
        OneHiddenapi(ir);
        ClosedHiddenapi(ir, Ref(HiddenapiData, 0));
      }
      AllIdsReached(ir, output.data, offs, w.book, w.sectionOffs, w.notes, info, checksum, file, order);
      HeaderIsSound(ir, output.data, w.sectionOffs, info, checksum, file, sum);
      ItemsOrdered(ir, offs, w.book, w.sectionOffs, w.notes);
      PartsHold(ir, output.data, offs, w.book, w.sectionOffs, w.notes, info, checksum, file);
      MapIsExact(ir, output.data, offs, w.book, w.sectionOffs, w.notes, info, checksum, file, order);
      FewOrdered(ir, w.sectionOffs, file.mapOffset, order);
      MapIsSorted(ir, output.data, w.sectionOffs, info, checksum, file, order);
      PartsOrdered(ir, output.data, offs, w.book, w.sectionOffs, w.notes, info, checksum, file, order);
    }
  }

  lemma OneHiddenapi(ir: Ir)
    requires ir.hiddenapi != []
    ensures Valid(ir, Ref(HiddenapiData, 0))
  {
  }

  lemma CompleteNotes(ir: Ir, offs: map<Ref, u32>, b: Book, secs: map<Kind, u32>, nt: Notes)
    requires Right(ir, b, offs, secs, nt) && Consecutive(ir, nt) && nt.next == 19 && LengthsExact(ir, offs, b)
    ensures Complete(ir, offs, b, secs, nt)
  {
  }

  // A section whose recorded offset is not that of its first item.

  /** One empty encoded array, which takes one byte, and one empty annotation set, which is aligned. */
  const PADDED := Ir([], [], [], [], [], [], [], [], [], [], [[]], [], [[]], [], [], [], [], [], [])

  lemma PaddedClosed()
    ensures Closed(PADDED)
  {
    forall r, j | Valid(PADDED, r) && 0 <= j < |Layout(PADDED, r)| ensures Target(Layout(PADDED, r)[j]).None? {
      assert r.kind.EncodedArrays? || r.kind.AnnotationSets?;
    }
  }

  lemma EmptySection(ir: Ir, offs: map<Ref, u32>, b: Book, secs: map<Kind, u32>, nt: Notes, k: Kind)
    requires Complete(ir, offs, b, secs, nt) && Count(ir, k) == 0
    ensures EndOf(nt, k) == Begin(ir, nt, k)
  {
    hide Begin, EndOf, Count, RoundUp, Right, Consecutive, LengthsExact;
    SectionNotes(ir, offs, b, secs, nt, k);
  }

  /** A section with one item. */
  lemma SingleSection(ir: Ir, offs: map<Ref, u32>, b: Book, secs: map<Kind, u32>, nt: Notes, k: Kind)
    requires Complete(ir, offs, b, secs, nt) && Count(ir, k) == 1
    ensures Ref(k, 0) in b.place && b.place[Ref(k, 0)] == RoundUp(Begin(ir, nt, k), SectionAlignment(k))
    ensures EndOf(nt, k) == b.place[Ref(k, 0)] + |ItemBytes(Layout(ir, Ref(k, 0)), offs)|
    ensures EndOf(nt, k) != Begin(ir, nt, k) ==> SectionOffset(secs, k) == U32(Begin(ir, nt, k))
  {
    hide Begin, EndOf, Count, RoundUp, Right, Consecutive, Layout, ItemBytes, U32, SectionAlignment;
    SectionNotes(ir, offs, b, secs, nt, k);
    assert ChainEnd(b, k, nt.bases[k], 0) == nt.bases[k];
    assert Valid(ir, Ref(k, 0));
  }

  lemma PaddedLengths(offs: map<Ref, u32>)
    ensures |ItemBytes(Layout(PADDED, Ref(EncodedArrays, 0)), offs)| == 1
    ensures |ItemBytes(Layout(PADDED, Ref(AnnotationSets, 0)), offs)| == 4
  {
    assert EncodeArray([]) == [0];
    assert Layout(PADDED, Ref(EncodedArrays, 0)) == [Loop(ArrayOf([]))];
    assert Layout(PADDED, Ref(AnnotationSets, 0)) == [Raw(LE32(0))];
    OneField([0], offs);
    OneField(LE32(0), offs);
  }

  lemma OneField(bs: seq<byte>, offs: map<Ref, u32>)
    ensures ItemBytes([Raw(bs)], offs) == bs
  {
    assert [Raw(bs)][..0] == [];
  }

  lemma PaddedCounts(k: Kind)
    ensures Count(PADDED, k) == if k.EncodedArrays? || k.AnnotationSets? then 1 else 0
  {
  }

  lemma PaddedBegins(offs: map<Ref, u32>, b: Book, secs: map<Kind, u32>, nt: Notes)
    requires Complete(PADDED, offs, b, secs, nt)
    ensures Begin(PADDED, nt, EncodedArrays) == 0x70
  {
    hide Complete, Count, EndOf;
    forall k: Kind | !k.EncodedArrays? && !k.AnnotationSets? ensures EndOf(nt, k) == Begin(PADDED, nt, k) {
      PaddedCounts(k);
      EmptySection(PADDED, offs, b, secs, nt, k);
    }
    assert EndOf(nt, StringIds) == EndOf(nt, TypeIds) == EndOf(nt, ProtoIds) == EndOf(nt, FieldIds) == 0x70;
    assert EndOf(nt, MethodIds) == EndOf(nt, ClassDefs) == EndOf(nt, CallSiteIds) == EndOf(nt, MethodHandles) == 0x70;
    assert EndOf(nt, CodeItems) == EndOf(nt, DebugInfos) == 0x70;
  }

  /** The section of annotation sets is recorded at 0x71, where nothing stands; the set itself is at 0x74. */
  lemma PaddedSection(offs: map<Ref, u32>, b: Book, secs: map<Kind, u32>, nt: Notes)
    requires Complete(PADDED, offs, b, secs, nt)
    ensures SectionOffset(secs, AnnotationSets) == 0x71
    ensures Ref(AnnotationSets, 0) in b.place && b.place[Ref(AnnotationSets, 0)] == 0x74
  {
    PaddedBegins(offs, b, secs, nt);
    PaddedLengths(offs);
    hide Complete, Count, EndOf, Layout, ItemBytes;
    PaddedCounts(EncodedArrays);
    PaddedCounts(Annotations);
    PaddedCounts(AnnotationSets);
    SingleSection(PADDED, offs, b, secs, nt, EncodedArrays);
    EmptySection(PADDED, offs, b, secs, nt, Annotations);
    SingleSection(PADDED, offs, b, secs, nt, AnnotationSets);
  }

  /** In the file this shows as a map entry that is not the offset of the section's first item. */
  method WritePadded(output: Section, info: HeaderInfo, sum: Option<seq<byte> -> u32>)
    returns (complete: bool, ghost size: nat, ghost place: map<Ref, nat>)
    requires output.data == [] && |info.magic| == 8 && |info.signature| == 20
    modifies output
    ensures !complete ==> size >= 0x1_0000_0000
    ensures size < 0x1_0000_0000 ==>
              && InMap(output.data, MapItem(0x1003, 1, 0x71))
              && Ref(AnnotationSets, 0) in place && place[Ref(AnnotationSets, 0)] == 0x74
              && At(output.data, 0x74, LE32(0))
  {
    PaddedClosed();
    var w := new DexWriter(PADDED, output);
    var file, checksum, order;
    hide *;
    complete, file, checksum, order, size := w.Write(info, sum);
    place := w.book.place;
    if size < 0x1_0000_0000 {
      CompleteNotes(PADDED, w.offs, w.book, w.sectionOffs, w.notes);
      PaddedSection(w.offs, w.book, w.sectionOffs, w.notes);
      PaddedEntry(output.data, w.offs, place, w.sectionOffs, info, checksum, file, order);
    }
  }

  lemma PaddedEntry(file: seq<byte>, offs: map<Ref, u32>, place: map<Ref, nat>, secs: map<Kind, u32>, info: HeaderInfo,
                    checksum: u32, head: FileInfo, order: seq<MapItem>)
    requires WellWritten(PADDED, file, offs, place) && SectionOffset(secs, AnnotationSets) == 0x71
    requires Ref(AnnotationSets, 0) in place && place[Ref(AnnotationSets, 0)] == 0x74
    requires |info.magic| == 8 && |info.signature| == 20 && At(file, 0, HeaderBytes(PADDED, secs, info, checksum, head))
    requires At(file, head.mapOffset, MapListBytes(order))
    requires multiset(order) == multiset(MapItems(PADDED, secs, head.mapOffset))
    ensures InMap(file, MapItem(0x1003, 1, 0x71)) && At(file, 0x74, LE32(0))
  {
    hide WellWritten, HeaderBytes, MapListBytes, MapItems, At, ReadU32, InMap, LE32, SectionOffset, Count;
    PaddedStands(file, offs, place);
    HeaderBack(file, PADDED, secs, info, checksum, head);
    PaddedCounts(AnnotationSets);
    SectionListed(PADDED, secs, head.mapOffset, AnnotationSets);
    MapEntryFound(PADDED, file, secs, order, head.mapOffset, SectionItem(PADDED, secs, AnnotationSets));
  }

  lemma PaddedStands(file: seq<byte>, offs: map<Ref, u32>, place: map<Ref, nat>)
    requires WellWritten(PADDED, file, offs, place)
    requires Ref(AnnotationSets, 0) in place && place[Ref(AnnotationSets, 0)] == 0x74
    ensures At(file, 0x74, LE32(0))
  {
    hide ItemBytes, NoOverlap, At;
    assert Layout(PADDED, Ref(AnnotationSets, 0)) == [Raw(LE32(0))];
    OneField(LE32(0), offs);
    assert Valid(PADDED, Ref(AnnotationSets, 0));
  }
}
