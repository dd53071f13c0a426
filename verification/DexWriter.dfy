/** DexWriter::Write of dexlayout/dex_writer.cc with computed offsets. */
module DexWriting {
  import opened Bytes
  import opened Leb128
  import opened Streams
  import opened DexIr
  import opened DexBook
  import opened MapLists
  import CatchHandlers
  import EncodedStreams
  import EncodedValues
  import HiddenApi

  /** The parts of the header that are not derived from the sections. */
  datatype HeaderInfo = HeaderInfo(magic: seq<byte>, checksum: u32, signature: seq<byte>, endianTag: u32,
                                   linkOffset: u32, linkData: seq<byte>)

  /** The part of the header that describes the file. */
  datatype FileInfo = FileInfo(fileSize: u32, linkOffset: u32, mapOffset: u32, dataSize: u32, dataOffset: u32)

  const COMPACT_MAGIC: seq<byte> := [0x63, 0x64, 0x65, 0x78]
  const CURRENT_MAGIC: seq<byte> := [0x64, 0x65, 0x78, 0x0a, 0x30, 0x33, 0x39, 0x00]

  /** Magic and version as written: those of a standard file are kept, those of a compact one replaced. */
  function StandardMagic(magic: seq<byte>): (r: seq<byte>)
    requires |magic| == 8
    ensures |r| == 8 && r[..4] != COMPACT_MAGIC
    ensures r != magic ==> magic[..4] == COMPACT_MAGIC && r == CURRENT_MAGIC
  {
    assert CURRENT_MAGIC[0] != COMPACT_MAGIC[0];
    if magic[..4] == COMPACT_MAGIC then CURRENT_MAGIC else magic
  }

  /** Where the checksum begins: behind the magic, the version and its own field. */
  const SUMMED_FROM := 12

  function IdWords(ir: Ir, secs: map<Kind, u32>, k: Kind): (bs: seq<byte>)
    ensures |bs| == 8
  {
    LE32(U32(Count(ir, k))) + LE32(SectionOffset(secs, k))
  }

  /** The header behind the checksum. */
  function HeaderRest(ir: Ir, secs: map<Kind, u32>, info: HeaderInfo, file: FileInfo): (bs: seq<byte>)
    requires |info.signature| == 20
    ensures |bs| == HEADER_SIZE - SUMMED_FROM
  {
    info.signature + LE32(file.fileSize) + LE32(0x70) + LE32(info.endianTag) + LE32(U32(|info.linkData|))
    + LE32(file.linkOffset) + LE32(file.mapOffset)
    + IdWords(ir, secs, StringIds) + IdWords(ir, secs, TypeIds) + IdWords(ir, secs, ProtoIds)
    + IdWords(ir, secs, FieldIds) + IdWords(ir, secs, MethodIds) + IdWords(ir, secs, ClassDefs)
    + LE32(file.dataSize) + LE32(file.dataOffset)
  }

  function HeaderBytes(ir: Ir, secs: map<Kind, u32>, info: HeaderInfo, checksum: u32, file: FileInfo): (bs: seq<byte>)
    requires |info.magic| == 8 && |info.signature| == 20
    ensures |bs| == HEADER_SIZE
  {
    StandardMagic(info.magic) + LE32(checksum) + HeaderRest(ir, secs, info, file)
  }

  /** The memory from `from` to `to`. */
  function Range(d: seq<byte>, from: nat, to: nat): seq<byte> {
    seq<byte>(if from <= to then to - from else 0, i requires 0 <= i => Get(d, from + i))
  }

  /** Every item stands complete in the file, with every pointer resolved. */
  ghost predicate AllStand(ir: Ir, file: seq<byte>, offs: map<Ref, u32>, place: map<Ref, nat>) {
    forall r :: Valid(ir, r) ==>
      && r in place && HEADER_SIZE <= place[r]
      && Resolved(Layout(ir, r), offs) && At(file, place[r], ItemBytes(Layout(ir, r), offs))
  }

  /** The items do not overlap. */
  ghost predicate NoOverlap(ir: Ir, offs: map<Ref, u32>, place: map<Ref, nat>) {
    forall r, s :: Valid(ir, r) && Valid(ir, s) && r in place && s in place && r != s ==>
      || place[r] + |ItemBytes(Layout(ir, r), offs)| <= place[s]
      || place[s] + |ItemBytes(Layout(ir, s), offs)| <= place[r]
  }

  /** The offsets that pointers are resolved with are the real places. */
  ghost predicate OffsetsExact(offs: map<Ref, u32>, place: map<Ref, nat>) {
    forall r :: r in offs ==> r in place && offs[r] == place[r]
  }

  ghost predicate WellWritten(ir: Ir, file: seq<byte>, offs: map<Ref, u32>, place: map<Ref, nat>) {
    AllStand(ir, file, offs, place) && NoOverlap(ir, offs, place) && OffsetsExact(offs, place)
  }

  /** The book knows how long every item is. */
  ghost predicate LengthsExact(ir: Ir, offs: map<Ref, u32>, b: Book) {
    forall r :: Valid(ir, r) ==> r in b.len && b.len[r] == |ItemBytes(Layout(ir, r), offs)|
  }

  /** Every offset stored in the file, in four bytes or in LEB128, is the place where its target stands. */
  lemma StoredPointer(ir: Ir, file: seq<byte>, offs: map<Ref, u32>, place: map<Ref, nat>, r: Ref, j: nat)
    requires WellWritten(ir, file, offs, place) && Valid(ir, r) && j < |Layout(ir, r)| && Target(Layout(ir, r)[j]).Some?
    ensures var f := Layout(ir, r)[j];
            var at := place[r] + |ItemBytes(Layout(ir, r)[..j], offs)|;
            && f.target.value in place && at + 1 <= |file|
            && (f.Off32? ==> at + 4 <= |file| && ReadU32(file, at) == place[f.target.value])
            && (f.OffLeb? ==> DecodeUnsigned(file, at).Some?)
            && (f.OffLeb? ==> DecodeUnsigned(file, at).value.0 == place[f.target.value])
  {
    hide Layout, ItemBytes, Valid, At, NoOverlap, DecodeUnsigned, Uleb, LE32, ReadU32, FieldsOf;
    var fs := Layout(ir, r);
    var tail := FieldStands(fs, offs, j);
    var init := ItemBytes(fs[..j], offs);
    var bs := FieldBytes(fs[j], offs, |init|);
    AtConcat(file, place[r], init + bs, tail);
    AtConcat(file, place[r], init, bs);
    var v := OffsetOf(fs[j].target, offs);
    if fs[j].Off32? {
      AtLength(file, place[r] + |init|, LE32(v));
      LE32RoundTrip(file, place[r] + |init|, v);
    } else {
      AtLength(file, place[r] + |init|, Uleb(v));
      UlebRoundTrip(file, place[r] + |init|, v);
    }
  }

  /**
   * The offset recorded for a section is the position before the padding of its first item; it is
   * the offset of that item exactly when the section happens to begin aligned.
   */
  lemma SectionPadding(ir: Ir, b: Book, offs: map<Ref, u32>, secs: map<Kind, u32>, nt: Notes, k: Kind)
    requires Right(ir, b, offs, secs, nt) && nt.next == 19 && Count(ir, k) > 0
    requires k in nt.bases ==> EndOf(nt, k) != nt.bases[k]
    ensures k in nt.bases && Ref(k, 0) in b.place && k in secs && secs[k] == U32(nt.bases[k])
    ensures nt.bases[k] <= b.place[Ref(k, 0)] < nt.bases[k] + SectionAlignment(k)
    ensures b.place[Ref(k, 0)] == nt.bases[k] <==> nt.bases[k] % SectionAlignment(k) == 0
  {
    hide Count, ReservedAt, AllFilled, AllRecorded, U32;
    assert RightFor(ir, b, offs, secs, nt, k);
    assert ChainEnd(b, k, nt.bases[k], 0) == nt.bases[k];
  }

  lemma InvIsWellWritten(ir: Ir, d: seq<byte>, file: seq<byte>, offs: map<Ref, u32>, secs: map<Kind, u32>, b: Book,
                         top: nat, nt: Notes)
    requires Inv(ir, d, offs, b, top) && Right(ir, b, offs, secs, nt) && nt.next == 19 && nt.reserved == map[]
    requires top <= |file| < 0x1_0000_0000
    requires forall i :: HEADER_SIZE <= i < top ==> Get(file, i) == Get(d, i)
    ensures WellWritten(ir, file, offs, b.place) && LengthsExact(ir, offs, b)
  {
    hide Layout, ItemBytes, Valid, AllStand, NoOverlap, Inv, Right, Get;
    forall r | Valid(ir, r) ensures r in b.len && b.len[r] == |ItemBytes(Layout(ir, r), offs)| {
      ItemStands(ir, d, file, offs, secs, b, top, nt, r);
    }
    InvAllStand(ir, d, file, offs, secs, b, top, nt);
    InvNoOverlap(ir, d, file, offs, secs, b, top, nt);
    forall r | r in offs ensures r in b.place && offs[r] == b.place[r] { InvFilled(ir, d, offs, b, top, r); }
  }

  lemma InvAllStand(ir: Ir, d: seq<byte>, file: seq<byte>, offs: map<Ref, u32>, secs: map<Kind, u32>, b: Book, top: nat,
                    nt: Notes)
    requires Inv(ir, d, offs, b, top) && Right(ir, b, offs, secs, nt) && nt.next == 19 && nt.reserved == map[]
    requires top <= |file| && forall i :: HEADER_SIZE <= i < top ==> Get(file, i) == Get(d, i)
    ensures AllStand(ir, file, offs, b.place)
  {
    hide Layout, ItemBytes, Valid, FieldsOf, Resolved, Right, Inv, At;
    forall r | Valid(ir, r)
      ensures r in b.place && HEADER_SIZE <= b.place[r]
      ensures Resolved(Layout(ir, r), offs) && At(file, b.place[r], ItemBytes(Layout(ir, r), offs))
    {
      ItemStands(ir, d, file, offs, secs, b, top, nt, r);
    }
  }

  lemma InvNoOverlap(ir: Ir, d: seq<byte>, file: seq<byte>, offs: map<Ref, u32>, secs: map<Kind, u32>, b: Book,
                     top: nat, nt: Notes)
    requires Inv(ir, d, offs, b, top) && Right(ir, b, offs, secs, nt) && nt.next == 19 && nt.reserved == map[]
    requires top <= |file| && forall i :: HEADER_SIZE <= i < top ==> Get(file, i) == Get(d, i)
    ensures NoOverlap(ir, offs, b.place)
  {
    hide Layout, ItemBytes, Valid, FieldsOf, Resolved, Right, Inv, At;
    forall r, s | Valid(ir, r) && Valid(ir, s) && r in b.place && s in b.place && r != s
      ensures || b.place[r] + |ItemBytes(Layout(ir, r), offs)| <= b.place[s]
              || b.place[s] + |ItemBytes(Layout(ir, s), offs)| <= b.place[r]
    {
      ItemStands(ir, d, file, offs, secs, b, top, nt, r);
      ItemStands(ir, d, file, offs, secs, b, top, nt, s);
      InvApart(ir, d, offs, b, top, r, s);
    }
  }

  lemma InvApart(ir: Ir, d: seq<byte>, offs: map<Ref, u32>, b: Book, top: nat, r: Ref, s: Ref)
    requires Inv(ir, d, offs, b, top) && r in b.place && s in b.place && r != s
    ensures r in b.len && s in b.len && Apart(b, r, s)
  {
    hide Layout, ItemBytes, Count;
  }

  lemma ItemStands(ir: Ir, d: seq<byte>, file: seq<byte>, offs: map<Ref, u32>, secs: map<Kind, u32>, b: Book, top: nat,
                   nt: Notes, r: Ref)
    requires Inv(ir, d, offs, b, top) && Right(ir, b, offs, secs, nt) && nt.next == 19 && nt.reserved == map[]
    requires top <= |file| && Valid(ir, r)
    requires forall i :: HEADER_SIZE <= i < top ==> Get(file, i) == Get(d, i)
    ensures r in b.place && r in b.len && HEADER_SIZE <= b.place[r] && b.len[r] == |ItemBytes(Layout(ir, r), offs)|
    ensures Resolved(Layout(ir, r), offs) && At(file, b.place[r], ItemBytes(Layout(ir, r), offs))
  {
    hide Layout, ItemBytes, Count, FieldsOf, Resolved, Based, ReservedAt, Holds, At, Get, Blank;
    assert RightFor(ir, b, offs, secs, nt, r.kind);
    assert r == Ref(r.kind, r.index);
    assert r in b.filled;
    assert Stands(ir, d, offs, b, r);
    StandsInFile(d, file, b.place[r], ItemBytes(Layout(ir, r), offs), top);
  }

  lemma StandsInFile(d: seq<byte>, file: seq<byte>, p: nat, bs: seq<byte>, top: nat)
    requires Holds(d, p, bs) && HEADER_SIZE <= p && p + |bs| <= top <= |file|
    requires forall i :: HEADER_SIZE <= i < top ==> Get(file, i) == Get(d, i)
    ensures At(file, p, bs)
  {
    forall i | p <= i < p + |bs| ensures file[i] == bs[i - p] {
      assert Get(file, i) == file[i] && Get(d, i) == bs[i - p];
    }
  }

  class DexWriter {
    const ir: Ir
    const stream: Stream
    /** Item::offset_ of every item that has one; an item not in the map still has the unassigned offset 0. */
    var offs: map<Ref, u32>
    /** CollectionBase::offset_ of the sections. */
    var sectionOffs: map<Kind, u32>
    /** An unassigned offset has been read, so the check in Item::GetOffset fires. */
    var unresolved: bool
    ghost var book: Book
    ghost var top: nat
    ghost var notes: Notes

    constructor (ir: Ir, output: Section)
      requires Closed(ir) && output.data == []
      ensures this.ir == ir && stream.section == output && fresh(stream)
      ensures Ready() && stream.position == top == HEADER_SIZE
      ensures Consistent() && notes == Notes(0, map[], map[], map[]) && sectionOffs == map[]
      modifies output
    {
      this.ir := ir;
      stream := new Stream(output);
      offs, sectionOffs, unresolved := map[], map[], false;
      book, top := Book(map[], map[], {}), HEADER_SIZE;
      notes := Notes(0, map[], map[], map[]);
      new;
      stream.Seek(HEADER_SIZE);
    }

    /** The state between two items. */
    ghost predicate Ready()
      reads this`offs, this`unresolved, this`book, this`top, stream, stream.section
    {
      && Inv(ir, stream.section.data, offs, book, top)
      && !stream.clobbered
      && (top < 0x1_0000_0000 ==> !unresolved)
      && Closed(ir)
    }

    /** The progress notes are right, and the sections follow each other. */
    ghost predicate Consistent()
      reads this`offs, this`sectionOffs, this`book, this`notes
    {
      Right(ir, book, offs, sectionOffs, notes) && Consecutive(ir, notes)
    }

    /** What GetOffset returns for a pointer, with zero for a null pointer. */
    method GetOffset(target: Option<Ref>) returns (offset: u32)
      modifies this`unresolved
      ensures offset == OffsetOf(target, offs)
      ensures unresolved <==> old(unresolved) || (target.Some? && offset == 0)
    {
      if target.None? {
        return 0;
      }
      offset := if target.value in offs then offs[target.value] else 0;
      if offset == 0 {
        unresolved := true;
      }
    }

    method WriteField(f: Field, ghost at: nat)
      requires f.Align4? ==> (stream.position - at) % 4 == 0 && at <= stream.position
      requires FieldSound(f) && (IsHiddenapi(f) ==> stream.position % 4 == 0)
      modifies this`unresolved, stream, stream.section
      ensures stream.position == old(stream.position) + |FieldBytes(f, offs, at)|
      ensures Zero(old(stream.section.data), old(stream.position), stream.position) ==>
                stream.clobbered == old(stream.clobbered)
                && Holds(stream.section.data, old(stream.position), FieldBytes(f, offs, at))
      ensures SameOutside(old(stream.section.data), stream.section.data, old(stream.position), stream.position)
      ensures unresolved <==> old(unresolved) || (Target(f).Some? && OffsetOf(Target(f), offs) == 0)
    {
      match f
      case Raw(bs) => stream.Write(bs);
      case Leb(v) => stream.WriteUleb128(v);
      case Off32(t) =>
        var offset := GetOffset(t);
        stream.Write(LE32(offset));
      case OffLeb(t) =>
        var offset := GetOffset(t);
        stream.WriteUleb128(offset);
      case Zeros(n) => stream.Skip(n);
      case Align4 =>
        Pad(stream.position, at);
        stream.AlignTo(4);
      case Loop(maker) => WriteLoop(maker);
    }

    /** The loops for encoded values, catch handlers and hidden-API flags. */
    method WriteLoop(m: Maker)
      requires m.HiddenapiOf? ==> m.classes != [] && HiddenApi.Fits(m.classes) && stream.position % 4 == 0
      modifies stream, stream.section
      ensures stream.position == old(stream.position) + |MakerBytes(m)|
      ensures Zero(old(stream.section.data), old(stream.position), stream.position) ==>
                stream.clobbered == old(stream.clobbered)
                && Holds(stream.section.data, old(stream.position), MakerBytes(m))
      ensures SameOutside(old(stream.section.data), stream.section.data, old(stream.position), stream.position)
    {
      hide EncodedValues.EncodeArray, EncodedValues.EncodeAnnotation, CatchHandlers.Overlay, HiddenApi.Fits,
        HiddenApi.Section;
      ghost var d, p := stream.section.data, stream.position;
      match m
      case ArrayOf(values) =>
        EncodedStreams.WriteEncodedArray(stream, values);
      case AnnotationOf(typ, elements) =>
        EncodedStreams.WriteEncodedAnnotation(stream, typ, elements);
      case HandlersOf(list) =>
        WriteHandlerList(list);
      case HiddenapiOf(classes) =>
        var start, failed := HiddenApi.WriteHiddenapiClassData(stream, classes);
        HeaderInside(classes);
        ZeroPart(d, start, start + 4 * (|classes| + 1), stream.position);
    }

    method WriteHandlerList(list: seq<CatchHandlers.Handler>)
      modifies stream`position, stream.section
      ensures stream.position == old(stream.position) + |CatchHandlers.Overlay(list)| <= |stream.section.data|
      ensures Zero(old(stream.section.data), old(stream.position), stream.position) ==>
                Holds(stream.section.data, old(stream.position), CatchHandlers.Overlay(list))
      ensures SameOutside(old(stream.section.data), stream.section.data, old(stream.position), stream.position)
    {
      hide CatchHandlers.Applied, CatchHandlers.Extent, Get;
      ghost var d, p := stream.section.data, stream.position;
      CatchHandlers.WriteHandlers(stream, list);
      CatchHandlers.OverlayStands(d, p, list);
      CatchHandlers.OverlayLength(list, |list|);
      ghost var e := CatchHandlers.Applied(d, p, list, |list|);
      forall i: nat | i < p || stream.position <= i ensures Get(stream.section.data, i) == Get(d, i) {
        assert Get(e, i) == Get(d, i);
      }
      if Zero(d, p, stream.position) {
        forall i | p <= i < stream.position ensures Get(stream.section.data, i) == CatchHandlers.Overlay(list)[i - p] {
          assert Get(e, i) == CatchHandlers.Overlay(list)[i - p];
        }
      }
    }

    lemma HeaderInside(cs: seq<HiddenApi.Class>)
      requires HiddenApi.Fits(cs)
      ensures 4 * (|cs| + 1) <= |HiddenApi.Section(cs)|
    {
      HiddenApi.WordsLength(cs, |cs|);
    }

    lemma ZeroPart(d: seq<byte>, from: nat, mid: nat, to: nat)
      requires mid <= to
      ensures Zero(d, from, to) ==> Zero(d, from, mid)
    {
    }

    lemma Pad(p: nat, at: nat)
      requires at <= p && (p - at) % 4 == 0
      ensures RoundUp(p, 4) == p + (4 - at % 4) % 4
    {
      assert p % 4 == at % 4;
    }

    method WriteItem(fs: seq<Field>)
      requires (exists j :: 0 <= j < |fs| && NeedsWord(fs[j])) ==> stream.position % 4 == 0
      requires forall j :: 0 <= j < |fs| ==> FieldSound(fs[j]) && (IsHiddenapi(fs[j]) ==> j == 0)
      modifies this`unresolved, stream, stream.section
      ensures stream.position == old(stream.position) + |ItemBytes(fs, offs)|
      ensures Zero(old(stream.section.data), old(stream.position), stream.position) ==>
                stream.clobbered == old(stream.clobbered)
                && Holds(stream.section.data, old(stream.position), ItemBytes(fs, offs))
      ensures SameOutside(old(stream.section.data), stream.section.data, old(stream.position), stream.position)
      ensures (forall j :: 0 <= j < |fs| && Target(fs[j]).Some? ==> OffsetOf(Target(fs[j]), offs) != 0) ==>
                unresolved == old(unresolved)
    {
      hide FieldBytes, OffsetOf;
      ghost var start, d := stream.position, stream.section.data;
      assert fs[..0] == [];
      for i := 0 to |fs|
        invariant stream.position == start + |ItemBytes(fs[..i], offs)|
        invariant Zero(d, start, stream.position) ==>
                    stream.clobbered == old(stream.clobbered)
                    && Holds(stream.section.data, start, ItemBytes(fs[..i], offs))
        invariant SameOutside(d, stream.section.data, start, stream.position)
        invariant (forall j :: 0 <= j < i && Target(fs[j]).Some? ==> OffsetOf(Target(fs[j]), offs) != 0) ==>
                    unresolved == old(unresolved)
      {
        assert fs[..i + 1][..i] == fs[..i];
        ghost var at := |ItemBytes(fs[..i], offs)|;
        WriteField(fs[i], at);
        assert ItemBytes(fs[..i + 1], offs) == ItemBytes(fs[..i], offs) + FieldBytes(fs[i], offs, at);
      }
      assert fs[..|fs|] == fs;
    }

    /** Item::SetOffset with the current position. */
    method ProcessOffset(r: Ref)
      modifies this`offs
      ensures offs == old(offs)[r := U32(stream.position)]
    {
      offs := offs[r := U32(stream.position)];
    }

    /** Appends one item. */
    method EmitItem(r: Ref)
      requires Ready() && stream.position == top && Valid(ir, r) && r !in book.place && Resolved(Layout(ir, r), offs)
      modifies this`offs, this`unresolved, this`book, this`top, stream, stream.section
      ensures Ready() && stream.position == top && top >= old(top)
      ensures book == Fill(Place(old(book), r, RoundUp(old(top), SectionAlignment(r.kind)),
                                 |ItemBytes(Layout(ir, r), offs)|), r)
      ensures offs == if Tracked(r.kind) then old(offs)[r := U32(book.place[r])] else old(offs)
      ensures r !in old(offs) && top == book.place[r] + book.len[r]
    {
      hide Inv, Layout, ItemBytes, Count, Closed, FieldsOf, SectionAlignment, Tracked;
      var fs := Layout(ir, r);
      ghost var d, was := stream.section.data, offs;
      InvFilled(ir, d, offs, book, top, r);
      RoomIsZero(ir, d, offs, book, top, r);
      stream.AlignTo(SectionAlignment(r.kind));
      ghost var p, d' := stream.position, stream.section.data;
      if Tracked(r.kind) {
        ProcessOffset(r);
      }
      assert Resolved(fs, offs);
      ghost var n := |ItemBytes(fs, offs)|;
      ItemAligned(ir, r, p);
      ClosedSound(ir, r);
      WriteItem(fs);
      if p + n < 0x1_0000_0000 {
        TargetsAssigned(ir, d, was, offs, book, top, fs);
      }
      EmitKeepsInv(ir, d, d', stream.section.data, was, offs, book, top, r, p, n);
      book, top := Fill(Place(book, r, p, n), r), p + n;
    }

    /** Reserves the room of an item of a delayed id section. */
    method ReserveItem(r: Ref)
      requires Ready() && stream.position == top && Valid(ir, r) && r !in book.place && Delayed(r.kind)
      modifies this`offs, this`book, this`top, stream, stream.section
      ensures Ready() && stream.position == top && top >= old(top)
      ensures book == Place(old(book), r, RoundUp(old(top), 4), FixedSize(r.kind)) && top == book.place[r] + book.len[r]
      ensures offs == if Tracked(r.kind) then old(offs)[r := U32(book.place[r])] else old(offs)
      ensures r !in old(offs)
    {
      hide Inv, Layout, ItemBytes, Count, Closed, FieldsOf;
      ghost var d := stream.section.data;
      InvFilled(ir, d, offs, book, top, r);
      stream.AlignTo(4);
      ghost var p := stream.position;
      PlaceKeepsInv(ir, d, offs, book, top, r, p, FixedSize(r.kind));
      book, top := Place(book, r, p, FixedSize(r.kind)), p + FixedSize(r.kind);
      if Tracked(r.kind) {
        RecordKeepsInv(ir, d, offs, book, top, r);
        ProcessOffset(r);
      }
      stream.Skip(FixedSize(r.kind));
      SameKeepsInv(ir, d, stream.section.data, offs, book, top);
    }

    /** Memory the C++ code writes without having initialised it. */
    method Uninitialised(n: nat) returns (bs: seq<byte>)
      ensures |bs| == n
    {
      bs := seq(n, i => 0);
    }

    /** The fields of a code item. */
    predicate CodeField(f: Field) {
      f.Raw? || f.Off32? || f.Align4? || (f.Loop? && f.maker.HandlersOf?)
    }

    /** Writes a code item with arbitrary bytes in the place of everything but its handlers. */
    method WriteJunk(fs: seq<Field>)
      requires (exists j :: 0 <= j < |fs| && fs[j].Align4?) ==> stream.position % 4 == 0
      requires forall j :: 0 <= j < |fs| ==> CodeField(fs[j])
      modifies stream, stream.section
      ensures stream.position == old(stream.position) + |ItemBytes(fs, offs)| <= |stream.section.data|
      ensures Zero(old(stream.section.data), old(stream.position), stream.position) ==>
                stream.clobbered == old(stream.clobbered)
      ensures SameOutside(old(stream.section.data), stream.section.data, old(stream.position), stream.position)
    {
      hide FieldBytes;
      ghost var start, d := stream.position, stream.section.data;
      assert fs[..0] == [];
      for i := 0 to |fs|
        invariant stream.position == start + |ItemBytes(fs[..i], offs)|
        invariant Zero(d, start, stream.position) ==> stream.clobbered == old(stream.clobbered)
        invariant SameOutside(d, stream.section.data, start, stream.position)
      {
        assert fs[..i + 1][..i] == fs[..i];
        ghost var at := |ItemBytes(fs[..i], offs)|;
        assert ItemBytes(fs[..i + 1], offs) == ItemBytes(fs[..i], offs) + FieldBytes(fs[i], offs, at);
        if fs[i].Align4? {
          Pad(stream.position, at);
          PadBytes(offs, at);
          stream.AlignTo(4);
        } else if fs[i].Loop? {
          PlainLength(fs[i], offs, at);
          WriteHandlerList(fs[i].maker.list);
        } else {
          PlainLength(fs[i], offs, at);
          var bs := Uninitialised(if fs[i].Raw? then |fs[i].bytes| else 4);
          stream.Write(bs);
        }
      }
      assert fs[..|fs|] == fs;
      stream.EnsureStorage(0);
    }

    lemma PadBytes(offs: map<Ref, u32>, at: nat)
      ensures |FieldBytes(Align4, offs, at)| == (4 - at % 4) % 4
    {
    }

    lemma PlainLength(f: Field, offs: map<Ref, u32>, at: nat)
      requires CodeField(f) && !f.Align4?
      ensures f.Loop? ==> FieldBytes(f, offs, at) == CatchHandlers.Overlay(f.maker.list)
      ensures !f.Loop? ==> |FieldBytes(f, offs, at)| == if f.Raw? then |f.bytes| else 4
    {
    }

    lemma CodeItemFields(r: Ref)
      requires Valid(ir, r) && r.kind == CodeItems
      ensures forall j :: 0 <= j < |Layout(ir, r)| ==> CodeField(Layout(ir, r)[j])
    {
      hide Count, TryBytes, Words;
    }

    /** Reserves the room of a code item by writing it and wiping it out again. */
    method ReserveCodeItem(r: Ref)
      requires Ready() && stream.position == top && Valid(ir, r) && r !in book.place && r.kind == CodeItems
      modifies this`offs, this`book, this`top, stream, stream.section
      ensures Ready() && stream.position == top && top >= old(top)
      ensures book == Place(old(book), r, RoundUp(old(top), 4), |ItemBytes(Layout(ir, r), old(offs))|)
      ensures top == book.place[r] + book.len[r]
      ensures offs == old(offs)[r := U32(book.place[r])]
      ensures r !in old(offs)
    {
      hide Inv, Layout, ItemBytes, Count, Closed;
      ghost var d := stream.section.data;
      InvFilled(ir, d, offs, book, top, r);
      RoomIsZero(ir, d, offs, book, top, r);
      var start := stream.position;
      var fs := Layout(ir, r);
      CodeItemFields(r);
      stream.AlignTo(4);
      ghost var p := stream.position;
      ghost var n := |ItemBytes(fs, offs)|;
      LengthFixed(fs, offs, offs[r := U32(p)]);
      PlaceKeepsInv(ir, d, offs, book, top, r, p, n);
      book, top := Place(book, r, p, n), p + n;
      RecordKeepsInv(ir, d, offs, book, top, r);
      ProcessOffset(r);
      WriteJunk(fs);
      stream.Clear(start, stream.position - start);
      assert Same(d, stream.section.data);
      SameKeepsInv(ir, d, stream.section.data, offs, book, top);
    }

    /** Writes an item into the room reserved for it. */
    method FillItem(r: Ref)
      requires Ready() && Valid(ir, r) && r in book.place && r !in book.filled && Resolved(Layout(ir, r), offs)
      requires RoundUp(stream.position, SectionAlignment(r.kind)) == book.place[r] && r in book.len
      requires book.len[r] == |ItemBytes(Layout(ir, r), offs)|
      requires Tracked(r.kind) ==> r in offs
      modifies this`offs, this`unresolved, this`book, stream, stream.section
      ensures Ready()
      ensures book == Fill(old(book), r) && offs == old(offs)
      ensures stream.position == book.place[r] + book.len[r]
    {
      hide Inv, Layout, ItemBytes, Count, Closed, FieldsOf, SectionAlignment, Tracked;
      var fs := Layout(ir, r);
      ghost var d := stream.section.data;
      InvFilled(ir, d, offs, book, top, r);
      stream.AlignTo(SectionAlignment(r.kind));
      ghost var d' := stream.section.data;
      SameKeepsInv(ir, d, d', offs, book, top);
      RoomIsZero(ir, d', offs, book, top, r);
      if Tracked(r.kind) {
        assert offs[r] == U32(stream.position);
        ProcessOffset(r);
        assert offs == old(offs);
      }
      ItemAligned(ir, r, stream.position);
      ClosedSound(ir, r);
      WriteItem(fs);
      if top < 0x1_0000_0000 {
        TargetsAssigned(ir, d, offs, offs, book, top, fs);
      }
      FillKeepsInv(ir, d', stream.section.data, offs, book, top, r);
      book := Fill(book, r);
    }

    /** A section written in one go, at the end of the file. */
    method EmitItems(k: Kind)
      requires Ready() && stream.position == top && Unplaced(book, k)
      requires forall o :: MayRefer(k, o) ==> AllRecorded(ir, offs, o)
      modifies this`offs, this`sectionOffs, this`unresolved, this`book, this`top, stream, stream.section
      ensures Ready() && stream.position == top && top >= old(top)
      ensures AllFilled(ir, book, k) && (Tracked(k) ==> AllRecorded(ir, offs, k))
      ensures Based(ir, book, sectionOffs, k, old(top), top)
      ensures Only(k, old(book), old(offs), book, offs) && SecsOnly(k, old(sectionOffs), sectionOffs)
    {
      hide Inv, Layout, ItemBytes, FieldsOf, MayRefer, Closed, SectionAlignment, Tracked, Only, Chain, ChainEnd,
        RoundUp, U32, Added, Extends, SetSection, SecsOnly, Based;
      var start := stream.position;
      EmptyChain(k, book, offs, start);
      for i := 0 to Count(ir, k)
        invariant Ready() && stream.position == top && top >= start && sectionOffs == old(sectionOffs)
        invariant Only(k, old(book), old(offs), book, offs)
        invariant forall j :: 0 <= j < i ==> Ref(k, j) in book.filled && (Tracked(k) ==> Ref(k, j) in offs)
        invariant forall j :: j >= i ==> Ref(k, j) !in book.place
        invariant Chain(book, k, start, i) && top == ChainEnd(book, k, start, i)
      {
        ghost var b, o := book, offs;
        OnlyKeepsRecorded(k, old(book), old(offs), b, o);
        PointersRecorded(ir, offs, Ref(k, i));
        InvFilled(ir, stream.section.data, offs, book, top, Ref(k, i));
        EmitItem(Ref(k, i));
        PlaceAdds(b, o, book, offs, Ref(k, i), book.place[Ref(k, i)], book.len[Ref(k, i)]);
        NextItem(k, old(book), old(offs), b, o, book, offs, start, i, book.len[Ref(k, i)]);
      }
      sectionOffs := SetSection(sectionOffs, k, start, stream.position);
      SectionSet(ir, book, old(sectionOffs), k, start, stream.position);
    }

    /** Reserves the room of an item whose section is written twice. */
    method ReserveRoom(r: Ref)
      requires Ready() && stream.position == top && Valid(ir, r) && r !in book.place
      requires (Delayed(r.kind) || r.kind == CodeItems)
      modifies this`offs, this`book, this`top, stream, stream.section
      ensures Ready() && stream.position == top && top >= old(top)
      ensures book == Place(old(book), r, RoundUp(old(top), SectionAlignment(r.kind)),
                            |ItemBytes(Layout(ir, r), old(offs))|)
      ensures offs == if Tracked(r.kind) then old(offs)[r := U32(book.place[r])] else old(offs)
      ensures r !in old(offs) && top == book.place[r] + book.len[r]
    {
      hide Inv, Layout, ItemBytes, Count, FieldsOf, Closed, RoundUp;
      if r.kind == CodeItems {
        ReserveCodeItem(r);
      } else {
        FixedSizeRight(ir, r, offs);
        ReserveItem(r);
      }
    }

    /** The first pass over a section that is written later: only its rooms are laid out. */
    method ReserveItems(k: Kind)
      requires Ready() && stream.position == top && Unplaced(book, k) && (Delayed(k) || k == CodeItems)
      modifies this`offs, this`sectionOffs, this`book, this`top, stream, stream.section
      ensures Ready() && stream.position == top && top >= old(top)
      ensures ReservedAt(ir, book, offs, k, old(top), top) && (Tracked(k) ==> AllRecorded(ir, offs, k))
      ensures Based(ir, book, sectionOffs, k, old(top), top)
      ensures Only(k, old(book), old(offs), book, offs) && SecsOnly(k, old(sectionOffs), sectionOffs)
    {
      hide Inv, Layout, ItemBytes, FieldsOf, Closed, Tracked, Only, Chain, ChainEnd, RoundUp, U32, Added, Extends,
        SectionAlignment, Delayed, SetSection, SecsOnly, Based;
      var start := stream.position;
      ghost var d0 := stream.section.data;
      EmptyChain(k, book, offs, start);
      for i := 0 to Count(ir, k)
        invariant Ready() && stream.position == top && top >= start && sectionOffs == old(sectionOffs)
        invariant Only(k, old(book), old(offs), book, offs) && book.filled == old(book).filled
        invariant forall j :: 0 <= j < i ==>
                    && (Tracked(k) ==> Ref(k, j) in offs)
                    && Ref(k, j) in book.len && book.len[Ref(k, j)] == |ItemBytes(Layout(ir, Ref(k, j)), old(offs))|
        invariant forall j :: j >= i ==> Ref(k, j) !in book.place
        invariant Chain(book, k, start, i) && top == ChainEnd(book, k, start, i)
      {
        var r := Ref(k, i);
        ghost var b, o := book, offs;
        InvFilled(ir, stream.section.data, offs, book, top, r);
        LayoutFixed(ir, k, i, offs, old(offs)) by { assert k != ClassDatas by { NotClassData(k); } }
        ReserveRoom(r);
        PlaceAdds(b, o, book, offs, r, book.place[r], book.len[r]);
        NextItem(k, old(book), old(offs), b, o, book, offs, start, i, book.len[r]);
      }
      sectionOffs := SetSection(sectionOffs, k, start, stream.position);
      SectionSet(ir, book, old(sectionOffs), k, start, stream.position);
      forall i | 0 <= i < Count(ir, k)
        ensures EmptyRoom(ir, book, offs, Ref(k, i))
      {
        NotClassData(k);
        LayoutFixed(ir, k, i, offs, old(offs));
        InvFilled(ir, d0, old(offs), old(book), old(top), Ref(k, i));
      }
    }

    lemma NotClassData(k: Kind)
      requires Delayed(k) || k == CodeItems
      ensures k != ClassDatas
    {
    }

    /** The second pass: every item goes into its room, and the pass ends where the first one did. */
    method FillItems(k: Kind, ghost end: nat)
      requires Ready() && ReservedAt(ir, book, offs, k, stream.position, end)
      requires Tracked(k) ==> AllRecorded(ir, offs, k)
      requires forall o :: MayRefer(k, o) ==> AllRecorded(ir, offs, o)
      modifies this`offs, this`sectionOffs, this`unresolved, this`book, stream, stream.section
      ensures Ready() && stream.position == end && top == old(top)
      ensures AllFilled(ir, book, k) && Based(ir, book, sectionOffs, k, old(stream.position), end)
      ensures Only(k, old(book), old(offs), book, offs) && SecsOnly(k, old(sectionOffs), sectionOffs)
      ensures book.place == old(book).place && book.len == old(book).len && offs == old(offs)
    {
      hide Inv, Layout, ItemBytes, FieldsOf, Closed, Tracked, RoundUp, U32, Extends, MayRefer, SectionAlignment,
        Delayed, SetSection, SecsOnly, Based, Only;
      var start := stream.position;
      ghost var b0 := book;
      for i := 0 to Count(ir, k)
        invariant Ready() && top == old(top) && sectionOffs == old(sectionOffs) && offs == old(offs)
        invariant book.place == b0.place && book.len == b0.len && b0.filled <= book.filled
        invariant forall j :: 0 <= j < i ==> Ref(k, j) in book.filled
        invariant forall r :: r in book.filled && r !in b0.filled ==> r.kind == k && r.index < i
        invariant stream.position == ChainEnd(b0, k, start, i)
      {
        PointersRecorded(ir, offs, Ref(k, i));
        assert EmptyRoom(ir, b0, offs, Ref(k, i));
        FillItem(Ref(k, i));
      }
      sectionOffs := SetSection(sectionOffs, k, start, stream.position);
      SamePlaces(b0, book, k, start, Count(ir, k));
      SectionSet(ir, book, old(sectionOffs), k, start, stream.position);
      OnlyFilled(k, old(book), book, offs);
    }

    lemma SamePlaces(b: Book, b': Book, k: Kind, start: nat, n: nat)
      requires b'.place == b.place && b'.len == b.len
      ensures Chain(b, k, start, n) ==> Chain(b', k, start, n)
      ensures ChainEnd(b', k, start, n) == ChainEnd(b, k, start, n)
    {
      hide RoundUp, SectionAlignment;
      if Chain(b, k, start, n) {
        ChainStable(b, b', k, start, n);
      }
    }

    /** Aligns the end of the file. */
    method AlignTop(a: Alignment)
      requires Ready() && stream.position == top
      modifies this`top, stream, stream.section
      ensures Ready() && stream.position == top == RoundUp(old(top), a)
    {
      hide Inv, Closed, RoundUp;
      ghost var d := stream.section.data;
      stream.AlignTo(a);
      SameKeepsInv(ir, d, stream.section.data, offs, book, top);
      TopGrows(ir, stream.section.data, offs, book, top, stream.position);
      top := stream.position;
    }

    lemma BeginValues(ir: Ir)
      ensures forall nt :: Begin(ir, nt, StringIds) == HEADER_SIZE
      ensures forall nt :: Begin(ir, nt, TypeIds) == EndOf(nt, StringIds)
      ensures forall nt :: Begin(ir, nt, ProtoIds) == EndOf(nt, TypeIds)
      ensures forall nt :: Begin(ir, nt, FieldIds) == EndOf(nt, ProtoIds)
      ensures forall nt :: Begin(ir, nt, MethodIds) == EndOf(nt, FieldIds)
      ensures forall nt :: Begin(ir, nt, ClassDefs) == EndOf(nt, MethodIds)
      ensures forall nt :: Begin(ir, nt, CallSiteIds) == EndOf(nt, ClassDefs)
      ensures forall nt :: Begin(ir, nt, MethodHandles) == EndOf(nt, CallSiteIds)
      ensures forall nt :: Begin(ir, nt, CodeItems) == RoundUp(EndOf(nt, MethodHandles), 8)
      ensures forall nt :: Begin(ir, nt, DebugInfos) == EndOf(nt, CodeItems)
      ensures forall nt :: Begin(ir, nt, EncodedArrays) == EndOf(nt, DebugInfos)
      ensures forall nt :: Begin(ir, nt, Annotations) == EndOf(nt, EncodedArrays)
      ensures forall nt :: Begin(ir, nt, AnnotationSets) == EndOf(nt, Annotations)
      ensures forall nt :: Begin(ir, nt, AnnotationSetRefs) == EndOf(nt, AnnotationSets)
      ensures forall nt :: Begin(ir, nt, AnnotationsDirectories) == EndOf(nt, AnnotationSetRefs)
      ensures forall nt :: Begin(ir, nt, TypeLists) == EndOf(nt, AnnotationsDirectories)
      ensures forall nt :: Begin(ir, nt, ClassDatas) == EndOf(nt, TypeLists)
      ensures forall nt :: Begin(ir, nt, StringDatas) == EndOf(nt, ClassDatas)
      ensures forall nt ::
                Begin(ir, nt, HiddenapiData) ==
                if ir.hiddenapi != [] then RoundUp(EndOf(nt, StringDatas), 4) else EndOf(nt, StringDatas)
    {
      hide EndOf, RoundUp;
    }

    method EmitSection(k: Kind)
      requires Ready() && Consistent() && stream.position == top && Rank(k) == notes.next
      requires TargetsBefore(k, notes.next)
      requires top == Begin(ir, notes, k)
      modifies this, stream, stream.section
      ensures Ready() && Consistent() && stream.position == top == EndOf(notes, k) && top >= old(top)
      ensures notes.next == old(notes).next + 1 && notes.reserved == old(notes).reserved
      ensures k != MethodHandles ==> EndOf(notes, MethodHandles) == EndOf(old(notes), MethodHandles)
    {
      hide Ready, Right, Consecutive, Begin, Based, AllFilled, AllRecorded, Unplaced, MayRefer, Tracked, Only,
        SecsOnly, Rank,
        TargetsBefore;
      RightNext(ir, book, offs, sectionOffs, notes, k);
      RightRecorded(ir, book, offs, sectionOffs, notes, k);
      EmitItems(k);
      notes := Emitted(notes, k, old(top), top);
      EmittedRight(ir, old(book), old(offs), old(sectionOffs), old(notes), book, offs, sectionOffs, k, old(top), top);
      ConsecutiveStep(ir, old(notes), notes, k);
    }

    method ReserveSection(k: Kind)
      requires Ready() && Consistent() && stream.position == top && Rank(k) == notes.next
      requires (Delayed(k) || k == CodeItems)
      requires top == Begin(ir, notes, k)
      modifies this, stream, stream.section
      ensures Ready() && Consistent() && stream.position == top == EndOf(notes, k) && top >= old(top)
      ensures notes.next == old(notes).next + 1 && notes.reserved == old(notes).reserved[k := (old(top), top)]
      ensures k != MethodHandles ==> EndOf(notes, MethodHandles) == EndOf(old(notes), MethodHandles)
    {
      hide Ready, Right, Consecutive, Begin, ReservedAt, Based, AllRecorded, Unplaced, Tracked, Only, SecsOnly,
        Delayed, Rank;
      RightNext(ir, book, offs, sectionOffs, notes, k);
      ReserveItems(k);
      notes := Reserving(notes, k, old(top), top);
      ReservedRight(ir, old(book), old(offs), old(sectionOffs), old(notes), book, offs, sectionOffs, k, old(top), top);
      ConsecutiveStep(ir, old(notes), notes, k);
    }

    /**
     * Stream::ScopedSeek around a second pass: fill the rooms and come back to the end of the file.
     * The position to come back to is kept in 32 bits, which is enough below 4 GiB.
     */
    method FillSection(k: Kind, start: u32)
      requires Ready() && Consistent() && stream.position == top < 0x1_0000_0000
      requires k in notes.reserved && start == notes.reserved[k].0 && TargetsBefore(k, notes.next)
      modifies this, stream, stream.section
      ensures Ready() && Consistent() && stream.position == top == old(top)
      ensures notes.next == old(notes).next && notes.reserved == old(notes).reserved - {k}
      ensures forall o :: EndOf(notes, o) == EndOf(old(notes), o)
    {
      hide Inv, Closed, MayRefer, ReservedAt, Based, AllFilled, AllRecorded, Unplaced, Tracked, Delayed, Only,
        SecsOnly, Rank,
        TargetsBefore, U32, Begin, Consecutive;
      var back := U32(stream.position);
      ghost var d := stream.section.data;
      assert RightFor(ir, book, offs, sectionOffs, notes, k);
      RightRecorded(ir, book, offs, sectionOffs, notes, k);
      stream.Seek(start);
      SameKeepsInv(ir, d, stream.section.data, offs, book, top);
      FillItems(k, notes.reserved[k].1);
      ghost var d' := stream.section.data;
      stream.Seek(back);
      Small(top);
      SameKeepsInv(ir, d', stream.section.data, offs, book, top);
      notes := Filling(notes, k);
      assert RightFor(ir, book, offs, sectionOffs, notes, k);
      FillingNotes(old(notes), k);
      RightStep(ir, old(book), old(offs), old(sectionOffs), old(notes), book, offs, sectionOffs, notes, k);
      FillingConsecutive(ir, old(notes), k);
    }

    /** The id sections; those that point into the data part are only reserved. */
    method WriteIdSections() returns (stringIds: u32, protoIds: u32, classDefs: u32, callSiteIds: u32)
      requires Ready() && Consistent() && stream.position == top == HEADER_SIZE
      requires notes == Notes(0, map[], map[], map[])
      modifies this, stream, stream.section
      ensures Ready() && Consistent() && stream.position == top == EndOf(notes, MethodHandles) && notes.next == 8
      ensures notes.reserved.Keys == {StringIds, ProtoIds, ClassDefs, CallSiteIds}
      ensures forall k :: k in notes.reserved ==> notes.reserved[k].0 <= top
      ensures stringIds == U32(notes.reserved[StringIds].0) && protoIds == U32(notes.reserved[ProtoIds].0)
      ensures classDefs == U32(notes.reserved[ClassDefs].0) && callSiteIds == U32(notes.reserved[CallSiteIds].0)
    {
      RankValues();
      WriteOrder();
      BeginValues(ir);
      hide *;
      stringIds := U32(stream.position);
      ReserveSection(StringIds);
      EmitSection(TypeIds);
      protoIds := U32(stream.position);
      ReserveSection(ProtoIds);
      EmitSection(FieldIds);
      EmitSection(MethodIds);
      classDefs := U32(stream.position);
      ReserveSection(ClassDefs);
      callSiteIds := U32(stream.position);
      ReserveSection(CallSiteIds);
      EmitSection(MethodHandles);
    }

    /**
     * The data part; code items are reserved first and written once the debug info stands. From 4 GiB
     * on coming back from that would lead to another place, and the model ends there.
     */
    method WriteDataSections() returns (fits: bool)
      requires Ready() && Consistent() && stream.position == top == Begin(ir, notes, CodeItems)
      requires notes.next == 8 && CodeItems !in notes.reserved
      modifies this, stream, stream.section
      ensures !fits ==> stream.position >= 0x1_0000_0000
      ensures fits ==> Ready() && Consistent() && stream.position == top && top >= old(top)
      ensures fits ==> notes.next == 19 && notes.reserved == old(notes).reserved
      ensures fits ==> top == EndOf(notes, HiddenapiData)
      ensures fits ==> EndOf(notes, MethodHandles) == EndOf(old(notes), MethodHandles)
    {
      RankValues();
      WriteOrder();
      BeginValues(ir);
      hide *;
      ghost var start := stream.position;
      var codeItems := U32(stream.position);
      ReserveSection(CodeItems);
      EmitSection(DebugInfos);
      if stream.position >= 0x1_0000_0000 {
        return false;
      }
      Small(start);
      FillSection(CodeItems, codeItems);
      WriteAnnotationSections();
      WriteLastSections();
      fits := true;
    }

    method WriteLastSections()
      requires Ready() && Consistent() && stream.position == top == EndOf(notes, AnnotationsDirectories)
      requires notes.next == 15
      modifies this, stream, stream.section
      ensures Ready() && Consistent() && stream.position == top == EndOf(notes, HiddenapiData) && top >= old(top)
      ensures notes.next == 19 && notes.reserved == old(notes).reserved
      ensures EndOf(notes, MethodHandles) == EndOf(old(notes), MethodHandles)
    {
      RankValues();
      WriteOrder();
      BeginValues(ir);
      hide *;
      EmitSection(TypeLists);
      EmitSection(ClassDatas);
      EmitSection(StringDatas);
      WriteHiddenapiSection();
    }

    method WriteHiddenapiSection()
      requires Ready() && Consistent() && stream.position == top == EndOf(notes, StringDatas) && notes.next == 18
      modifies this, stream, stream.section
      ensures Ready() && Consistent() && stream.position == top == EndOf(notes, HiddenapiData) && top >= old(top)
      ensures notes.next == 19 && notes.reserved == old(notes).reserved
      ensures EndOf(notes, MethodHandles) == EndOf(old(notes), MethodHandles)
    {
      RankValues();
      WriteOrder();
      BeginValues(ir);
      hide *;
      if ir.hiddenapi != [] {
        AlignTop(4);
      }
      EmitSection(HiddenapiData);
    }

    method WriteAnnotationSections()
      requires Ready() && Consistent() && stream.position == top == EndOf(notes, DebugInfos) && notes.next == 10
      modifies this, stream, stream.section
      ensures Ready() && Consistent() && stream.position == top == EndOf(notes, AnnotationsDirectories)
      ensures top >= old(top)
      ensures notes.next == 15 && notes.reserved == old(notes).reserved
      ensures EndOf(notes, MethodHandles) == EndOf(old(notes), MethodHandles)
    {
      RankValues();
      WriteOrder();
      BeginValues(ir);
      hide *;
      EmitSection(EncodedArrays);
      EmitSection(Annotations);
      EmitSection(AnnotationSets);
      EmitSection(AnnotationSetRefs);
      EmitSection(AnnotationsDirectories);
    }

    /** All sections, in the order that makes every offset known before it is written. */
    method WriteSections() returns (fits: bool, dataOffset: nat)
      requires Ready() && Consistent() && stream.position == top == HEADER_SIZE
      requires notes == Notes(0, map[], map[], map[])
      modifies this, stream, stream.section
      ensures !fits ==> stream.position >= 0x1_0000_0000
      ensures fits ==> Ready() && Consistent() && stream.position == top && notes.next == 19 && notes.reserved == map[]
      ensures fits ==> dataOffset == Begin(ir, notes, CodeItems) <= top == EndOf(notes, HiddenapiData)
    {
      WriteOrder();
      BeginValues(ir);
      hide *;
      var stringIds, protoIds, classDefs, callSiteIds := WriteIdSections();
      AlignTop(8);
      dataOffset := stream.position;
      ghost var r := notes.reserved;
      fits := WriteDataSections();
      if !fits || stream.position >= 0x1_0000_0000 {
        return false, dataOffset;
      }
      Small(r[StringIds].0);
      Small(r[ProtoIds].0);
      Small(r[ClassDefs].0);
      Small(r[CallSiteIds].0);
      FillSection(StringIds, stringIds);
      FillSection(ProtoIds, protoIds);
      FillSection(ClassDefs, classDefs);
      FillSection(CallSiteIds, callSiteIds);
    }

    method WriteHeader(info: HeaderInfo, checksum: u32, file: FileInfo)
      requires |info.magic| == 8 && |info.signature| == 20
      modifies stream`position, stream.section
      ensures Holds(stream.section.data, 0, HeaderBytes(ir, sectionOffs, info, checksum, file))
      ensures SameOutside(old(stream.section.data), stream.section.data, 0, HEADER_SIZE)
    {
      hide HeaderBytes;
      stream.Seek(0);
      stream.Overwrite(HeaderBytes(ir, sectionOffs, info, checksum, file));
    }

    /**
     * The header, and once more with the checksum of everything behind the checksum's own field, which
     * `sum` computes of a memory range. The second time changes nothing that has been summed.
     */
    method WriteHeaders(info: HeaderInfo, sum: Option<seq<byte> -> u32>, file: FileInfo) returns (checksum: u32)
      requires |info.magic| == 8 && |info.signature| == 20
      modifies stream`position, stream.section
      ensures Holds(stream.section.data, 0, HeaderBytes(ir, sectionOffs, info, checksum, file))
      ensures SameOutside(old(stream.section.data), stream.section.data, 0, HEADER_SIZE)
      ensures checksum == match sum
                case None => info.checksum
                case Some(f) => f(Range(stream.section.data, SUMMED_FROM, file.fileSize))
    {
      hide HeaderBytes;
      checksum := info.checksum;
      WriteHeader(info, checksum, file);
      if sum.Some? {
        ghost var d := stream.section.data;
        checksum := sum.value(Range(stream.section.data, SUMMED_FROM, file.fileSize));
        WriteHeader(info, checksum, file);
        SummedKept(info, checksum, file, d, stream.section.data);
      }
    }

    lemma SummedKept(info: HeaderInfo, checksum: u32, file: FileInfo, d: seq<byte>, e: seq<byte>)
      requires |info.magic| == 8 && |info.signature| == 20 && SameOutside(d, e, 0, HEADER_SIZE)
      requires Holds(d, 0, HeaderBytes(ir, sectionOffs, info, info.checksum, file))
      requires Holds(e, 0, HeaderBytes(ir, sectionOffs, info, checksum, file))
      ensures Range(d, SUMMED_FROM, file.fileSize) == Range(e, SUMMED_FROM, file.fileSize)
    {
      hide LE32, HeaderRest, StandardMagic;
      var rest := HeaderRest(ir, sectionOffs, info, file);
      forall i: nat | SUMMED_FROM <= i < file.fileSize ensures Get(d, i) == Get(e, i) {
        if i < HEADER_SIZE {
          assert Get(d, i) == rest[i - SUMMED_FROM];
          assert Get(e, i) == rest[i - SUMMED_FROM];
        }
      }
    }

    /** The map list and the link data, behind the sections. */
    method WriteTail(linkData: seq<byte>,
                     ghost d: seq<byte>) returns (mapOffset: nat, dataEnd: nat, order: seq<MapItem>)
      requires Same(d, stream.section.data) && ZeroFrom(d, stream.position) && !stream.clobbered
      modifies stream, stream.section
      ensures !stream.clobbered
      ensures multiset(order) == multiset(MapItems(ir, sectionOffs, U32(mapOffset))) && SortedByOffset(order)
      ensures mapOffset == RoundUp(old(stream.position), 4)
      ensures dataEnd == RoundUp(mapOffset + |MapListBytes(order)|, 8)
      ensures stream.position == dataEnd + |linkData|
      ensures forall i: nat :: i < old(stream.position) ==> Get(stream.section.data, i) == Get(d, i)
      ensures Holds(stream.section.data, mapOffset, MapListBytes(order))
      ensures Holds(stream.section.data, dataEnd, linkData)
    {
      hide MapListBytes, MapItems, RoundUp, U32, SortedByOffset;
      stream.AlignTo(4);
      mapOffset := stream.position;
      order := WriteMapItems(stream, MapItems(ir, sectionOffs, U32(mapOffset)));
      stream.AlignTo(8);
      dataEnd := stream.position;
      if linkData != [] {
        stream.Write(linkData);
      }
    }

    /**
     * The whole run on an empty container. `size` is the real size of the output; below 4 GiB no
     * check fires, the file is well written, and the map, the link data and the header stand where
     * the header says. Only from 4 GiB on may the run end before it is complete, where the stream
     * would come back from a second pass to another place.
     */
    method Write(info: HeaderInfo, sum: Option<seq<byte> -> u32>)
      returns (complete: bool, file: FileInfo, checksum: u32, order: seq<MapItem>, ghost size: nat)
      requires Ready() && Consistent() && stream.position == top == HEADER_SIZE
      requires notes == Notes(0, map[], map[], map[])
      requires |info.magic| == 8 && |info.signature| == 20
      modifies this, stream, stream.section
      ensures !complete ==> size >= 0x1_0000_0000
      ensures complete ==>
                && !stream.clobbered && file.fileSize == U32(size)
                && multiset(order) == multiset(MapItems(ir, sectionOffs, file.mapOffset)) && SortedByOffset(order)
                && Right(ir, book, offs, sectionOffs, notes) && Consecutive(ir, notes)
                && notes.next == 19 && notes.reserved == map[]
      ensures size < 0x1_0000_0000 ==>
                && !unresolved
                && WellWritten(ir, stream.section.data, offs, book.place) && LengthsExact(ir, offs, book)
                && |stream.section.data| == size
                && At(stream.section.data, file.mapOffset, MapListBytes(order))
                && (info.linkData != [] ==> At(stream.section.data, file.linkOffset, info.linkData))
                && file.dataOffset == Begin(ir, notes, CodeItems)
                && file.mapOffset == RoundUp(EndOf(notes, HiddenapiData), 4)
                && file.dataOffset + file.dataSize == RoundUp(file.mapOffset + |MapListBytes(order)|, 8)
                && file.linkOffset == (if info.linkData == [] then info.linkOffset
                                       else file.dataOffset + file.dataSize)
                && size == file.dataOffset + file.dataSize + |info.linkData|
                && At(stream.section.data, 0, HeaderBytes(ir, sectionOffs, info, checksum, file))
                && checksum == match sum
                   case None => info.checksum
                   case Some(f) => f(stream.section.data[SUMMED_FROM..])
    {
      hide HeaderBytes, MapListBytes, MapItems, Closed, Inv, Right, Consecutive, RoundUp, U32, SortedByOffset,
        WellWritten,
        LengthsExact, Holds, At;
      var dataOffset;
      complete, dataOffset := WriteSections();
      if !complete {
        size := stream.position;
        return false, FileInfo(0, 0, 0, 0, 0), 0, [], size;
      }
      ghost var d := stream.section.data;
      RoomIsZero(ir, d, offs, book, top, Ref(StringIds, 0));
      InvFilled(ir, d, offs, book, top, Ref(StringIds, 0));
      var mapOffset, dataEnd;
      mapOffset, dataEnd, order := WriteTail(info.linkData, d);
      ghost var d1 := stream.section.data;
      size := stream.position;
      file := FileInfo(U32(stream.position),
                       if info.linkData == [] then info.linkOffset else U32(dataEnd), U32(mapOffset),
                       U32(dataEnd - dataOffset), if U32(dataEnd - dataOffset) != 0 then U32(dataOffset) else 0);
      checksum := WriteHeaders(info, sum, file);
      ghost var d2 := stream.section.data;
      StandsAbove(d1, d2, mapOffset, MapListBytes(order));
      StandsAbove(d1, d2, dataEnd, info.linkData);
      stream.section.Resize(file.fileSize);
      if size < 0x1_0000_0000 {
        Small(size);
        Small(mapOffset);
        Small(dataEnd);
        Finished(d2, stream.section.data, 0, HeaderBytes(ir, sectionOffs, info, checksum, file));
        RangeFinished(d2, stream.section.data, SUMMED_FROM);
        Finished(d2, stream.section.data, mapOffset, MapListBytes(order));
        Finished(d2, stream.section.data, dataEnd, info.linkData);
        FieldsRight(top, dataOffset, mapOffset, dataEnd, |MapListBytes(order)|, file);
        InvIsWellWritten(ir, d, stream.section.data, offs, sectionOffs, book, top, notes);
      }
    }

    /** What the header says of the data part, if it fits into 32 bits. */
    lemma FieldsRight(p: nat, dataOffset: nat, mapOffset: nat, dataEnd: nat, n: nat, file: FileInfo)
      requires dataOffset <= p && mapOffset == RoundUp(p, 4) && dataEnd == RoundUp(mapOffset + n, 8) && n > 0
      requires dataEnd < 0x1_0000_0000 && file.dataSize == U32(dataEnd - dataOffset)
      requires file.dataOffset == if U32(dataEnd - dataOffset) != 0 then U32(dataOffset) else 0
      ensures file.dataOffset == dataOffset && file.dataOffset + file.dataSize == dataEnd
    {
    }

    /** Writing the header leaves what stands behind it alone. */
    lemma StandsAbove(d: seq<byte>, d': seq<byte>, p: nat, bs: seq<byte>)
      requires SameOutside(d, d', 0, HEADER_SIZE) && Holds(d, p, bs) && HEADER_SIZE <= p
      ensures Holds(d', p, bs)
    {
    }

    lemma RangeFinished(d: seq<byte>, file: seq<byte>, from: nat)
      requires from <= |file| && forall i :: 0 <= i < |file| ==> file[i] == Get(d, i)
      ensures Range(d, from, |file|) == file[from..]
    {
    }

    lemma Small(n: nat)
      requires n < 0x1_0000_0000
      ensures U32(n) == n
    {
    }

    lemma Finished(d: seq<byte>, file: seq<byte>, p: nat, bs: seq<byte>)
      requires Holds(d, p, bs) && p + |bs| <= |file| && forall i :: 0 <= i < |file| ==> file[i] == Get(d, i)
      ensures At(file, p, bs)
    {
    }
  }
}
