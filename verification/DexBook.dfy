/**
 * The bookkeeping behind DexWriter::Write: which room of the file belongs to which item, what
 * has been written, and how far each section has come.
 */
module DexBook {
  import opened Bytes
  import opened Leb128
  import opened Streams
  import opened DexIr

  const HEADER_SIZE: nat := 0x70

  function SectionAlignment(k: Kind): Alignment {
    match k
    case ClassDatas => 1
    case StringDatas => 1
    case DebugInfos => 1
    case Annotations => 1
    case EncodedArrays => 1
    case _ => 4
  }

  /** The sections whose items get their offset recorded. */
  predicate Tracked(k: Kind) {
    k != StringIds && k != ClassDefs && k != CallSiteIds && k != MethodHandles
  }

  /** Where items have been placed, how long they are, and which of them have been written. */
  datatype Book = Book(place: map<Ref, nat>, len: map<Ref, nat>, filled: set<Ref>)

  ghost predicate Apart(b: Book, r: Ref, s: Ref)
    requires r in b.place && r in b.len && s in b.place && s in b.len
  {
    b.place[r] + b.len[r] <= b.place[s] || b.place[s] + b.len[s] <= b.place[r]
  }

  ghost predicate Covered(b: Book, r: Ref, i: nat) {
    r in b.filled && r in b.place && r in b.len && b.place[r] <= i < b.place[r] + b.len[r]
  }

  /** Every placed item has its own room between the header and `top`. */
  ghost predicate Rooms(ir: Ir, b: Book, top: nat) {
    && b.place.Keys == b.len.Keys && b.filled <= b.place.Keys && HEADER_SIZE <= top
    && (forall r :: r in b.place ==> Valid(ir, r) && HEADER_SIZE <= b.place[r] && b.place[r] + b.len[r] <= top)
    && (forall r, s :: r in b.place && s in b.place && r != s ==> Apart(b, r, s))
  }

  /** A written item stands in its room. */
  ghost predicate Stands(ir: Ir, d: seq<byte>, offs: map<Ref, u32>, b: Book, r: Ref) {
    && Valid(ir, r) && r in b.place && r in b.len
    && Resolved(Layout(ir, r), offs)
    && b.len[r] == |ItemBytes(Layout(ir, r), offs)|
    && Holds(d, b.place[r], ItemBytes(Layout(ir, r), offs))
  }

  ghost predicate Written(ir: Ir, d: seq<byte>, offs: map<Ref, u32>, b: Book) {
    forall r :: r in b.filled ==> Stands(ir, d, offs, b, r)
  }

  /** Nothing else has been written. */
  ghost predicate Blank(d: seq<byte>, b: Book) {
    forall i: nat {:trigger Get(d, i)} :: Get(d, i) != 0 ==> exists r :: Covered(b, r, i)
  }

  /** Recorded offsets are the low 32 bits of the real positions. */
  ghost predicate Recorded(offs: map<Ref, u32>, b: Book) {
    forall r :: r in offs ==> r in b.place && offs[r] == U32(b.place[r])
  }

  ghost predicate Inv(ir: Ir, d: seq<byte>, offs: map<Ref, u32>, b: Book, top: nat) {
    Rooms(ir, b, top) && Written(ir, d, offs, b) && Blank(d, b) && Recorded(offs, b)
  }

  function Place(b: Book, r: Ref, p: nat, n: nat): Book {
    b.(place := b.place[r := p], len := b.len[r := n])
  }

  function Fill(b: Book, r: Ref): Book {
    b.(filled := b.filled + {r})
  }

  lemma PlaceKeepsInv(ir: Ir, d: seq<byte>, offs: map<Ref, u32>, b: Book, top: nat, r: Ref, p: nat, n: nat)
    requires Inv(ir, d, offs, b, top) && Valid(ir, r) && r !in b.place && top <= p
    ensures Inv(ir, d, offs, Place(b, r, p, n), p + n)
  {
    hide Layout, ItemBytes, Count, FieldsOf, Resolved, Holds, Get, Rooms;
    var b' := Place(b, r, p, n);
    forall q | q in b'.filled ensures Stands(ir, d, offs, b', q) { assert Stands(ir, d, offs, b, q); }
    forall i: nat | Get(d, i) != 0 ensures exists q :: Covered(b', q, i) {
      var q :| Covered(b, q, i);
      assert Covered(b', q, i);
    }
    RoomAdded(ir, b, top, r, p, n);
  }

  lemma RoomAdded(ir: Ir, b: Book, top: nat, r: Ref, p: nat, n: nat)
    requires Rooms(ir, b, top) && Valid(ir, r) && r !in b.place && top <= p
    ensures Rooms(ir, Place(b, r, p, n), p + n)
  {
    hide Count;
    var b' := Place(b, r, p, n);
    forall q, s | q in b'.place && s in b'.place && q != s ensures Apart(b', q, s) {
      assert q != r && s != r ==> Apart(b, q, s);
    }
  }

  /** A room that has not been written is still zero, and so is everything above `top`. */
  lemma RoomIsZero(ir: Ir, d: seq<byte>, offs: map<Ref, u32>, b: Book, top: nat, r: Ref)
    requires Inv(ir, d, offs, b, top)
    ensures ZeroFrom(d, top)
    ensures r in b.place && r !in b.filled ==> Zero(d, b.place[r], b.place[r] + b.len[r])
  {
    hide Layout, ItemBytes, Count, FieldsOf, Resolved;
    forall i: nat | Get(d, i) != 0
      ensures i < top && (r in b.place && r !in b.filled ==> !(b.place[r] <= i < b.place[r] + b.len[r]))
    {
      var q :| Covered(b, q, i);
      assert r in b.place && r !in b.filled ==> Apart(b, r, q);
    }
  }

  lemma FillKeepsInv(ir: Ir, d: seq<byte>, d': seq<byte>, offs: map<Ref, u32>, b: Book, top: nat, r: Ref)
    requires Inv(ir, d, offs, b, top) && r in b.place && r !in b.filled
    requires SameOutside(d, d', b.place[r], b.place[r] + b.len[r])
    requires Stands(ir, d', offs, b, r)
    ensures Inv(ir, d', offs, Fill(b, r), top)
  {
    hide Layout, ItemBytes, Count, FieldsOf, Resolved;
    var b' := Fill(b, r);
    forall q | q in b'.filled ensures Stands(ir, d', offs, b', q) {
      if q != r {
        assert Stands(ir, d, offs, b, q) && Apart(b, q, r);
      }
    }
    forall i: nat | Get(d', i) != 0 ensures exists q :: Covered(b', q, i) {
      if b.place[r] <= i < b.place[r] + b.len[r] {
        assert Covered(b', r, i);
      } else {
        assert Get(d, i) != 0;
        var q :| Covered(b, q, i);
        assert Covered(b', q, i);
      }
    }
  }

  lemma RecordKeepsInv(ir: Ir, d: seq<byte>, offs: map<Ref, u32>, b: Book, top: nat, r: Ref)
    requires Inv(ir, d, offs, b, top) && r in b.place
    ensures Inv(ir, d, offs[r := U32(b.place[r])], b, top)
  {
    hide Layout, ItemBytes, Count, FieldsOf, Resolved;
    var offs' := offs[r := U32(b.place[r])];
    forall q | q in b.filled ensures Stands(ir, d, offs', b, q) {
      assert Stands(ir, d, offs, b, q);
      ItemBytesStable(Layout(ir, q), offs, offs');
    }
  }

  lemma SameKeepsInv(ir: Ir, d: seq<byte>, d': seq<byte>, offs: map<Ref, u32>, b: Book, top: nat)
    requires Inv(ir, d, offs, b, top) && Same(d, d')
    ensures Inv(ir, d', offs, b, top)
  {
    hide Layout, ItemBytes, Count, FieldsOf, Resolved;
    forall q | q in b.filled ensures Stands(ir, d', offs, b, q) {
      assert Stands(ir, d, offs, b, q);
    }
    forall i: nat | Get(d', i) != 0 ensures exists q :: Covered(b, q, i) { assert Get(d, i) != 0; }
  }

  /** Appending an item: align, record, write. */
  lemma EmitKeepsInv(ir: Ir, d: seq<byte>, d': seq<byte>, d'': seq<byte>, offs: map<Ref, u32>, offs': map<Ref, u32>,
                     b: Book, top: nat, r: Ref, p: nat, n: nat)
    requires Inv(ir, d, offs, b, top) && Valid(ir, r) && r !in b.place && top <= p && Same(d, d')
    requires offs' == if Tracked(r.kind) then offs[r := U32(p)] else offs
    requires Resolved(Layout(ir, r), offs') && n == |ItemBytes(Layout(ir, r), offs')|
    requires SameOutside(d', d'', p, p + n) && Holds(d'', p, ItemBytes(Layout(ir, r), offs'))
    ensures Inv(ir, d'', offs', Fill(Place(b, r, p, n), r), p + n)
  {
    hide Inv, Layout, ItemBytes, Count, FieldsOf, Resolved, Holds, SameOutside, Same;
    SameKeepsInv(ir, d, d', offs, b, top);
    PlaceKeepsInv(ir, d', offs, b, top, r, p, n);
    RecordKeepsInv(ir, d', offs, Place(b, r, p, n), p + n, r);
    assert r !in b.filled by { InvFilled(ir, d, offs, b, top, r); }
    FillKeepsInv(ir, d', d'', offs', Place(b, r, p, n), p + n, r);
  }

  lemma InvFilled(ir: Ir, d: seq<byte>, offs: map<Ref, u32>, b: Book, top: nat, r: Ref)
    requires Inv(ir, d, offs, b, top)
    ensures r in b.filled ==> r in b.place
    ensures r in offs ==> r in b.place && offs[r] == U32(b.place[r]) && HEADER_SIZE <= b.place[r] <= top
    ensures HEADER_SIZE <= top && b.place.Keys == b.len.Keys
  {
  }

  /** Below 4 GiB a recorded offset is never mistaken for the unassigned one. */
  lemma TargetsAssigned(ir: Ir, d: seq<byte>, offs: map<Ref, u32>, offs': map<Ref, u32>, b: Book, top: nat,
                        fs: seq<Field>)
    requires Inv(ir, d, offs, b, top) && Resolved(fs, offs) && top < 0x1_0000_0000
    requires forall r :: r in offs ==> r in offs' && offs'[r] == offs[r]
    ensures forall j :: 0 <= j < |fs| && Target(fs[j]).Some? ==> OffsetOf(Target(fs[j]), offs') != 0
  {
    hide Layout, ItemBytes, Count, FieldsOf, Holds, Written, Blank;
    forall j | 0 <= j < |fs| && Target(fs[j]).Some? ensures OffsetOf(Target(fs[j]), offs') != 0 {
      InvFilled(ir, d, offs, b, top, Target(fs[j]).value);
    }
  }

  /** The fields of `r` have the alignment they count on. */
  lemma ItemAligned(ir: Ir, r: Ref, p: nat)
    requires Valid(ir, r) && p % SectionAlignment(r.kind) == 0
    ensures (exists j :: 0 <= j < |Layout(ir, r)| && NeedsWord(Layout(ir, r)[j])) ==> p % 4 == 0
  {
    hide Layout;
  }

  /** Nothing placed, recorded or written is ever taken back. */
  ghost predicate Extends(b: Book, offs: map<Ref, u32>, b': Book, offs': map<Ref, u32>) {
    && (forall r :: r in b.place ==> r in b'.place && b'.place[r] == b.place[r])
    && (forall r :: r in b.len ==> r in b'.len && b'.len[r] == b.len[r])
    && (forall r :: r in offs ==> r in offs' && offs'[r] == offs[r])
    && b.filled <= b'.filled
  }

  lemma PlaceAdds(b: Book, offs: map<Ref, u32>, b': Book, offs': map<Ref, u32>, r: Ref, p: nat, n: nat)
    requires r !in b.place && r !in b.len && r !in offs
    requires b' == Place(b, r, p, n) || b' == Fill(Place(b, r, p, n), r)
    requires offs' == offs || offs' == offs[r := U32(p)]
    ensures Added(b, offs, b', offs', r, p, n)
  {
  }

  /** What WriteStringIds, WriteProtoIds, WriteClassDefs and WriteCallSiteIds skip for each item (GetSize). */
  function FixedSize(k: Kind): nat {
    match k
    case ProtoIds => 12
    case ClassDefs => 32
    case _ => 4
  }

  predicate Delayed(k: Kind) {
    k == StringIds || k == ProtoIds || k == ClassDefs || k == CallSiteIds
  }

  lemma {:induction false} WordFields(fs: seq<Field>, offs: map<Ref, u32>)
    requires forall j :: 0 <= j < |fs| ==> fs[j].Off32? || (fs[j].Raw? && |fs[j].bytes| == 4)
    ensures |ItemBytes(fs, offs)| == 4 * |fs|
  {
    if fs != [] {
      WordFields(fs[..|fs| - 1], offs);
    }
  }

  lemma FixedSizeRight(ir: Ir, r: Ref, offs: map<Ref, u32>)
    requires Valid(ir, r) && Delayed(r.kind)
    ensures |ItemBytes(Layout(ir, r), offs)| == FixedSize(r.kind)
  {
    hide LE32, ItemBytes;
    WordFields(Layout(ir, r), offs);
  }

  /** The first `n` items of section `k` are placed one after the other from `start`, each aligned. */
  ghost predicate Chain(b: Book, k: Kind, start: nat, n: nat) {
    forall i {:trigger ChainEnd(b, k, start, i)} :: 0 <= i < n ==>
      && Ref(k, i) in b.place && Ref(k, i) in b.len
      && b.place[Ref(k, i)] == RoundUp(ChainEnd(b, k, start, i), SectionAlignment(k))
  }

  /** Where the chain of the first `i` items ends. */
  ghost function ChainEnd(b: Book, k: Kind, start: nat, i: nat): nat {
    if i > 0 && Ref(k, i - 1) in b.place && Ref(k, i - 1) in b.len
    then b.place[Ref(k, i - 1)] + b.len[Ref(k, i - 1)]
    else start
  }

  /** New entries belong to section `k`. */
  ghost predicate Only(k: Kind, b: Book, offs: map<Ref, u32>, b': Book, offs': map<Ref, u32>) {
    && Extends(b, offs, b', offs')
    && (forall r :: r in b'.place && r !in b.place ==> r.kind == k)
    && (forall r :: r in b'.filled && r !in b.filled ==> r.kind == k)
  }

  /** Item `r` has been placed at `p`, and perhaps recorded and filled. */
  ghost predicate Added(b: Book, offs: map<Ref, u32>, b': Book, offs': map<Ref, u32>, r: Ref, p: nat, n: nat) {
    && r in b'.place && b'.place[r] == p && r in b'.len && b'.len[r] == n
    && (forall q :: q in b.place ==> q in b'.place && b'.place[q] == b.place[q])
    && (forall q :: q in b.len ==> q in b'.len && b'.len[q] == b.len[q])
    && (forall q :: q in offs ==> q in offs' && offs'[q] == offs[q])
    && (forall q :: q in b'.place ==> q in b.place || q == r)
    && (forall q :: q in b'.filled ==> q in b.filled || q == r)
    && b.filled <= b'.filled
  }

  lemma NextItem(k: Kind, b0: Book, offs0: map<Ref, u32>, b: Book, offs: map<Ref, u32>, b': Book, offs': map<Ref, u32>,
                 start: nat, i: nat, n: nat)
    requires Only(k, b0, offs0, b, offs) && Chain(b, k, start, i) && Ref(k, i) !in b.place
    requires Added(b, offs, b', offs', Ref(k, i), RoundUp(ChainEnd(b, k, start, i), SectionAlignment(k)), n)
    ensures Only(k, b0, offs0, b', offs') && Chain(b', k, start, i + 1)
    ensures ChainEnd(b', k, start, i + 1) == b'.place[Ref(k, i)] + n
  {
    assert Only(k, b0, offs0, b', offs') by { hide Chain, ChainEnd, RoundUp, SectionAlignment; }
    assert Chain(b', k, start, i + 1) by {
      hide RoundUp, SectionAlignment, Only;
      ChainStable(b, b', k, start, i);
      forall j | 0 <= j < i + 1
        ensures && Ref(k, j) in b'.place && Ref(k, j) in b'.len
                && b'.place[Ref(k, j)] == RoundUp(ChainEnd(b', k, start, j), SectionAlignment(k))
      {
        assert ChainEnd(b', k, start, j) == ChainEnd(b, k, start, j);
      }
    }
  }

  /** A chain stays as it is while other items are added. */
  lemma ChainStable(b: Book, b': Book, k: Kind, start: nat, n: nat)
    requires Chain(b, k, start, n)
    requires forall q :: q in b.place ==> q in b'.place && b'.place[q] == b.place[q]
    requires forall q :: q in b.len ==> q in b'.len && b'.len[q] == b.len[q]
    ensures Chain(b', k, start, n)
    ensures forall j :: 0 <= j <= n ==> ChainEnd(b', k, start, j) == ChainEnd(b, k, start, j)
  {
    hide RoundUp, SectionAlignment;
    forall j | 0 <= j <= n ensures ChainEnd(b', k, start, j) == ChainEnd(b, k, start, j) {
      if j > 0 {
        assert 0 <= j - 1 < n && ChainEnd(b, k, start, j - 1) >= 0;
      }
    }
    forall j | 0 <= j < n
      ensures && Ref(k, j) in b'.place && Ref(k, j) in b'.len
              && b'.place[Ref(k, j)] == RoundUp(ChainEnd(b', k, start, j), SectionAlignment(k))
    {
      assert ChainEnd(b', k, start, j) == ChainEnd(b, k, start, j);
    }
  }

  ghost predicate AllFilled(ir: Ir, b: Book, k: Kind) {
    forall i :: 0 <= i < Count(ir, k) ==> Ref(k, i) in b.filled
  }

  ghost predicate AllRecorded(ir: Ir, offs: map<Ref, u32>, k: Kind) {
    forall i :: 0 <= i < Count(ir, k) ==> Ref(k, i) in offs
  }

  ghost predicate Unplaced(b: Book, k: Kind) {
    forall i :: Ref(k, i) !in b.place
  }

  /** The rooms of section `k` are reserved from `start` to `end`, and nothing is in them yet. */
  ghost predicate ReservedAt(ir: Ir, b: Book, offs: map<Ref, u32>, k: Kind, start: nat, end: nat) {
    && (Delayed(k) || k == CodeItems)
    && Chain(b, k, start, Count(ir, k)) && end == ChainEnd(b, k, start, Count(ir, k))
    && forall i :: 0 <= i < Count(ir, k) ==> EmptyRoom(ir, b, offs, Ref(k, i))
  }

  ghost predicate EmptyRoom(ir: Ir, b: Book, offs: map<Ref, u32>, r: Ref)
    requires Valid(ir, r)
  {
    r !in b.filled && r in b.len && b.len[r] == |ItemBytes(Layout(ir, r), offs)|
  }

  /** Section `k` goes from `base` to `end`, and if it is not empty `base` is its recorded offset. */
  ghost predicate Based(ir: Ir, b: Book, secs: map<Kind, u32>, k: Kind, base: nat, end: nat) {
    && Chain(b, k, base, Count(ir, k)) && end == ChainEnd(b, k, base, Count(ir, k))
    && (end != base ==> k in secs && secs[k] == U32(base))
  }

  /** The place of a section in the file. */
  function Rank(k: Kind): nat {
    match k
    case StringIds => 0
    case TypeIds => 1
    case ProtoIds => 2
    case FieldIds => 3
    case MethodIds => 4
    case ClassDefs => 5
    case CallSiteIds => 6
    case MethodHandles => 7
    case CodeItems => 8
    case DebugInfos => 9
    case EncodedArrays => 10
    case Annotations => 11
    case AnnotationSets => 12
    case AnnotationSetRefs => 13
    case AnnotationsDirectories => 14
    case TypeLists => 15
    case ClassDatas => 16
    case StringDatas => 17
    case HiddenapiData => 18
  }

  /**
   * Progress: the sections before `next` are laid out and, except for those in `reserved`,
   * written; `bases` says where they begin, before any padding, and `ends` where they end.
   */
  datatype Notes = Notes(next: nat, reserved: map<Kind, (nat, nat)>, bases: map<Kind, nat>, ends: map<Kind, nat>)

  function EndOf(nt: Notes, k: Kind): nat {
    if k in nt.ends then nt.ends[k] else 0
  }

  /** Where section `k` begins: behind the one before it, and the data part at a multiple of eight. */
  function Begin(ir: Ir, nt: Notes, k: Kind): nat {
    match k
    case StringIds => HEADER_SIZE
    case TypeIds => EndOf(nt, StringIds)
    case ProtoIds => EndOf(nt, TypeIds)
    case FieldIds => EndOf(nt, ProtoIds)
    case MethodIds => EndOf(nt, FieldIds)
    case ClassDefs => EndOf(nt, MethodIds)
    case CallSiteIds => EndOf(nt, ClassDefs)
    case MethodHandles => EndOf(nt, CallSiteIds)
    case CodeItems => RoundUp(EndOf(nt, MethodHandles), 8)
    case DebugInfos => EndOf(nt, CodeItems)
    case EncodedArrays => EndOf(nt, DebugInfos)
    case Annotations => EndOf(nt, EncodedArrays)
    case AnnotationSets => EndOf(nt, Annotations)
    case AnnotationSetRefs => EndOf(nt, AnnotationSets)
    case AnnotationsDirectories => EndOf(nt, AnnotationSetRefs)
    case TypeLists => EndOf(nt, AnnotationsDirectories)
    case ClassDatas => EndOf(nt, TypeLists)
    case StringDatas => EndOf(nt, ClassDatas)
    case HiddenapiData =>
      if ir.hiddenapi != [] then RoundUp(EndOf(nt, StringDatas), 4) else EndOf(nt, StringDatas)
  }

  /** The sections laid out so far follow each other. */
  ghost predicate Consecutive(ir: Ir, nt: Notes) {
    forall k {:trigger Rank(k)} :: Rank(k) < nt.next ==>
      k in nt.bases && k in nt.ends && nt.bases[k] == Begin(ir, nt, k)
  }

  /** Another section behind the last one. */
  lemma ConsecutiveStep(ir: Ir, nt: Notes, nt': Notes, k: Kind)
    requires Consecutive(ir, nt) && Rank(k) == nt.next && nt'.next == nt.next + 1
    requires k in nt'.bases && nt'.bases[k] == Begin(ir, nt, k)
    requires nt'.bases == nt.bases[k := nt'.bases[k]] && k in nt'.ends && nt'.ends == nt.ends[k := nt'.ends[k]]
    ensures Consecutive(ir, nt')
  {
    hide RoundUp;
    NextOnly(k);
    forall o | Rank(o) < nt'.next ensures o in nt'.bases && o in nt'.ends && nt'.bases[o] == Begin(ir, nt', o) {
      SameBegin(ir, nt, nt', k, o);
    }
  }

  /** Where a section begins does not depend on what comes later. */
  lemma SameBegin(ir: Ir, nt: Notes, nt': Notes, k: Kind, o: Kind)
    requires Rank(o) <= Rank(k) && k in nt'.ends && nt'.ends == nt.ends[k := nt'.ends[k]]
    ensures Begin(ir, nt', o) == Begin(ir, nt, o)
  {
    hide RoundUp;
  }

  ghost predicate RightFor(ir: Ir, b: Book, offs: map<Ref, u32>, secs: map<Kind, u32>, nt: Notes, k: Kind) {
    if Rank(k) < nt.next then
      && (Tracked(k) ==> AllRecorded(ir, offs, k))
      && k in nt.bases && k in nt.ends && Based(ir, b, secs, k, nt.bases[k], nt.ends[k])
      && (k !in nt.reserved ==> AllFilled(ir, b, k))
      && (k in nt.reserved ==> nt.reserved[k] == (nt.bases[k], nt.ends[k]))
      && (k in nt.reserved ==> ReservedAt(ir, b, offs, k, nt.bases[k], nt.ends[k]))
    else
      Unplaced(b, k) && k !in nt.reserved
  }

  ghost predicate Right(ir: Ir, b: Book, offs: map<Ref, u32>, secs: map<Kind, u32>, nt: Notes) {
    forall k :: RightFor(ir, b, offs, secs, nt, k)
  }

  function Emitted(nt: Notes, k: Kind, start: nat, end: nat): Notes {
    Notes(nt.next + 1, nt.reserved, nt.bases[k := start], nt.ends[k := end])
  }

  function Reserving(nt: Notes, k: Kind, start: nat, end: nat): Notes {
    Notes(nt.next + 1, nt.reserved[k := (start, end)], nt.bases[k := start], nt.ends[k := end])
  }

  function Filling(nt: Notes, k: Kind): Notes {
    nt.(reserved := nt.reserved - {k})
  }

  ghost predicate SecsOnly(k: Kind, secs: map<Kind, u32>, secs': map<Kind, u32>) {
    forall o :: o != k ==> (o in secs <==> o in secs') && (o in secs ==> secs'[o] == secs[o])
  }

  /** The end of a Write function: the section gets its offset if something was written. */
  function SetSection(secs: map<Kind, u32>, k: Kind, start: nat, end: nat): map<Kind, u32> {
    if start != end then secs[k := U32(start)] else secs
  }

  lemma SectionSet(ir: Ir, b: Book, secs: map<Kind, u32>, k: Kind, start: nat, end: nat)
    requires Chain(b, k, start, Count(ir, k)) && end == ChainEnd(b, k, start, Count(ir, k))
    ensures SecsOnly(k, secs, SetSection(secs, k, start, end))
    ensures Based(ir, b, SetSection(secs, k, start, end), k, start, end)
  {
    hide Count, Chain, ChainEnd, U32;
  }

  lemma LayoutFixed(ir: Ir, k: Kind, i: nat, offs: map<Ref, u32>, offs': map<Ref, u32>)
    requires i < Count(ir, k) && k != ClassDatas
    ensures |ItemBytes(Layout(ir, Ref(k, i)), offs)| == |ItemBytes(Layout(ir, Ref(k, i)), offs')|
  {
    hide Layout, ItemBytes, Count;
    LengthFixed(Layout(ir, Ref(k, i)), offs, offs');
  }

  /** Work on section `k` does not disturb the notes on another section. */
  lemma OtherKept(ir: Ir, b: Book, offs: map<Ref, u32>, secs: map<Kind, u32>, nt: Notes,
                  b': Book, offs': map<Ref, u32>, secs': map<Kind, u32>, k: Kind, o: Kind)
    requires o != k && Only(k, b, offs, b', offs') && SecsOnly(k, secs, secs')
    requires RightFor(ir, b, offs, secs, nt, o)
    ensures RightFor(ir, b', offs', secs', nt, o)
  {
    hide Only, SecsOnly, Unplaced, AllRecorded, AllFilled, ReservedAt, Based, Rank, Tracked;
    ItemsKept(ir, b, offs, b', offs', k, o);
    if Rank(o) < nt.next {
      BasedKept(ir, b, offs, secs, b', offs', secs', k, o, nt.bases[o], nt.ends[o]);
    }
    if o in nt.reserved {
      ReservedKept(ir, b, offs, b', offs', k, o, nt.reserved[o].0, nt.reserved[o].1);
    }
  }

  lemma ItemsKept(ir: Ir, b: Book, offs: map<Ref, u32>, b': Book, offs': map<Ref, u32>, k: Kind, o: Kind)
    requires o != k && Only(k, b, offs, b', offs')
    ensures AllRecorded(ir, offs, o) ==> AllRecorded(ir, offs', o)
    ensures AllFilled(ir, b, o) ==> AllFilled(ir, b', o)
    ensures Unplaced(b, o) ==> Unplaced(b', o)
  {
    hide Count;
  }

  lemma BasedKept(ir: Ir, b: Book, offs: map<Ref, u32>, secs: map<Kind, u32>,
                  b': Book, offs': map<Ref, u32>, secs': map<Kind, u32>, k: Kind, o: Kind, base: nat,
                  end: nat)
    requires o != k && Only(k, b, offs, b', offs') && SecsOnly(k, secs, secs') && Based(ir, b, secs, o, base, end)
    ensures Based(ir, b', secs', o, base, end)
  {
    hide Layout, Count, U32, Chain, ChainEnd;
    ChainStable(b, b', o, base, Count(ir, o));
  }

  lemma ReservedKept(ir: Ir, b: Book, offs: map<Ref, u32>, b': Book, offs': map<Ref, u32>, k: Kind, o: Kind, start: nat,
                     end: nat)
    requires o != k && Only(k, b, offs, b', offs') && ReservedAt(ir, b, offs, o, start, end)
    ensures ReservedAt(ir, b', offs', o, start, end)
  {
    hide Layout, ItemBytes, Count, FieldsOf, Chain, ChainEnd;
    ChainStable(b, b', o, start, Count(ir, o));
    forall i | 0 <= i < Count(ir, o) ensures EmptyRoom(ir, b', offs', Ref(o, i)) {
      assert EmptyRoom(ir, b, offs, Ref(o, i));
      LayoutFixed(ir, o, i, offs, offs');
    }
  }

  /** Offsets are only written once the sections they point into have been laid out. */
  ghost predicate TargetsBefore(k: Kind, next: nat) {
    forall o :: MayRefer(k, o) ==> Rank(o) < next
  }

  lemma RightRecorded(ir: Ir, b: Book, offs: map<Ref, u32>, secs: map<Kind, u32>, nt: Notes, k: Kind)
    requires Right(ir, b, offs, secs, nt) && TargetsBefore(k, nt.next)
    ensures forall o :: MayRefer(k, o) ==> AllRecorded(ir, offs, o)
  {
    hide AllRecorded, Rank;
    forall o | MayRefer(k, o) ensures AllRecorded(ir, offs, o) {
      assert RightFor(ir, b, offs, secs, nt, o) && Tracked(o);
    }
  }

  lemma RightStep(ir: Ir, b: Book, offs: map<Ref, u32>, secs: map<Kind, u32>, nt: Notes,
                  b': Book, offs': map<Ref, u32>, secs': map<Kind, u32>, nt': Notes, k: Kind)
    requires Right(ir, b, offs, secs, nt) && Only(k, b, offs, b', offs') && SecsOnly(k, secs, secs')
    requires NotesOnly(k, nt, nt')
    requires RightFor(ir, b', offs', secs', nt', k)
    ensures Right(ir, b', offs', secs', nt')
  {
    hide Only, SecsOnly, Unplaced, AllRecorded, AllFilled, Based, ReservedAt, Rank, Tracked;
    forall o ensures RightFor(ir, b', offs', secs', nt', o) {
      if o != k {
        assert RightFor(ir, b, offs, secs, nt, o);
        OtherKept(ir, b, offs, secs, nt, b', offs', secs', k, o);
      }
    }
  }

  /** The section whose turn it is has not been touched. */
  lemma RightNext(ir: Ir, b: Book, offs: map<Ref, u32>, secs: map<Kind, u32>, nt: Notes, k: Kind)
    requires Right(ir, b, offs, secs, nt) && Rank(k) == nt.next
    ensures Unplaced(b, k) && k !in nt.reserved
  {
    hide Unplaced, AllRecorded, AllFilled, Based, ReservedAt, Rank, Tracked;
    assert RightFor(ir, b, offs, secs, nt, k);
  }

  /** Only the notes on section `k` change. */
  ghost predicate NotesOnly(k: Kind, nt: Notes, nt': Notes) {
    && (forall o :: o != k ==> (Rank(o) < nt.next <==> Rank(o) < nt'.next))
    && (forall o :: o != k ==> (o in nt.reserved <==> o in nt'.reserved))
    && (forall o :: o != k && o in nt.reserved ==> nt'.reserved[o] == nt.reserved[o])
    && (forall o :: o != k ==> (o in nt.bases <==> o in nt'.bases))
    && (forall o :: o != k && o in nt.bases ==> nt'.bases[o] == nt.bases[o])
    && (forall o :: o != k ==> (o in nt.ends <==> o in nt'.ends))
    && (forall o :: o != k && o in nt.ends ==> nt'.ends[o] == nt.ends[o])
  }

  lemma EmittedNotes(nt: Notes, k: Kind, start: nat, end: nat)
    requires Rank(k) == nt.next
    ensures NotesOnly(k, nt, Emitted(nt, k, start, end))
  {
    hide Rank;
    NextOnly(k);
  }

  lemma ReservingNotes(nt: Notes, k: Kind, start: nat, end: nat)
    requires Rank(k) == nt.next
    ensures NotesOnly(k, nt, Reserving(nt, k, start, end))
  {
    hide Rank;
    NextOnly(k);
  }

  lemma FillingNotes(nt: Notes, k: Kind)
    ensures NotesOnly(k, nt, Filling(nt, k))
  {
    hide Rank;
  }

  lemma EmittedRight(ir: Ir, b: Book, offs: map<Ref, u32>, secs: map<Kind, u32>, nt: Notes,
                     b': Book, offs': map<Ref, u32>, secs': map<Kind, u32>, k: Kind, start: nat, end: nat)
    requires Right(ir, b, offs, secs, nt) && Only(k, b, offs, b', offs') && SecsOnly(k, secs, secs')
    requires Rank(k) == nt.next
    requires AllFilled(ir, b', k) && (Tracked(k) ==> AllRecorded(ir, offs', k)) && Based(ir, b', secs', k, start, end)
    ensures Right(ir, b', offs', secs', Emitted(nt, k, start, end))
  {
    hide Only, SecsOnly, Unplaced, AllRecorded, AllFilled, Based, ReservedAt, Rank, Tracked, Right;
    RightNext(ir, b, offs, secs, nt, k);
    EmittedNotes(nt, k, start, end);
    hide NotesOnly;
    var nt' := Emitted(nt, k, start, end);
    assert RightFor(ir, b', offs', secs', nt', k);
    RightStep(ir, b, offs, secs, nt, b', offs', secs', nt', k);
  }

  lemma ReservedRight(ir: Ir, b: Book, offs: map<Ref, u32>, secs: map<Kind, u32>, nt: Notes,
                      b': Book, offs': map<Ref, u32>, secs': map<Kind, u32>, k: Kind, start: nat, end: nat)
    requires Right(ir, b, offs, secs, nt) && Only(k, b, offs, b', offs') && SecsOnly(k, secs, secs')
    requires Rank(k) == nt.next
    requires ReservedAt(ir, b', offs', k, start, end) && (Tracked(k) ==> AllRecorded(ir, offs', k))
    requires Based(ir, b', secs', k, start, end)
    ensures Right(ir, b', offs', secs', Reserving(nt, k, start, end))
  {
    hide Only, SecsOnly, Unplaced, AllRecorded, AllFilled, Based, ReservedAt, Rank, Tracked, Right;
    ReservingNotes(nt, k, start, end);
    hide NotesOnly;
    var nt' := Reserving(nt, k, start, end);
    assert RightFor(ir, b', offs', secs', nt', k);
    RightStep(ir, b, offs, secs, nt, b', offs', secs', nt', k);
  }

  lemma FillingConsecutive(ir: Ir, nt: Notes, k: Kind)
    requires Consecutive(ir, nt)
    ensures Consecutive(ir, Filling(nt, k))
  {
    hide Rank, RoundUp;
    forall o | Rank(o) < nt.next ensures o in nt.bases && o in nt.ends && nt.bases[o] == Begin(ir, Filling(nt, k), o) {
      assert Begin(ir, Filling(nt, k), o) == Begin(ir, nt, o);
    }
  }

  /** The order of DexWriter::Write is one in which every section comes after those its items point into. */
  lemma WriteOrder()
    ensures TargetsBefore(TypeIds, 1) && TargetsBefore(FieldIds, 3) && TargetsBefore(MethodIds, 4)
    ensures TargetsBefore(MethodHandles, 7)
    ensures TargetsBefore(DebugInfos, 9) && TargetsBefore(CodeItems, 10)
    ensures TargetsBefore(EncodedArrays, 10) && TargetsBefore(Annotations, 11) && TargetsBefore(AnnotationSets, 12)
    ensures TargetsBefore(AnnotationSetRefs, 13) && TargetsBefore(AnnotationsDirectories, 14)
    ensures TargetsBefore(TypeLists, 15)
    ensures TargetsBefore(ClassDatas, 16) && TargetsBefore(StringDatas, 17) && TargetsBefore(HiddenapiData, 18)
    ensures forall k :: TargetsBefore(k, 19)
  {
    hide *;
    RankValues();
    forall k ensures TargetsBefore(k, 19) { SectionOrder(k); }
    SectionOrder(TypeIds);
    SectionOrder(FieldIds);
    SectionOrder(MethodIds);
    SectionOrder(MethodHandles);
    SectionOrder(CodeItems);
    SectionOrder(DebugInfos);
    SectionOrder(EncodedArrays);
    SectionOrder(Annotations);
    SectionOrder(AnnotationSets);
    SectionOrder(AnnotationSetRefs);
    SectionOrder(AnnotationsDirectories);
    SectionOrder(TypeLists);
    SectionOrder(ClassDatas);
    SectionOrder(StringDatas);
    SectionOrder(HiddenapiData);
  }

  lemma RankValues()
    ensures Rank(StringIds) == 0 && Rank(TypeIds) == 1 && Rank(ProtoIds) == 2 && Rank(FieldIds) == 3
    ensures Rank(MethodIds) == 4
    ensures Rank(ClassDefs) == 5 && Rank(CallSiteIds) == 6 && Rank(MethodHandles) == 7 && Rank(CodeItems) == 8
    ensures Rank(DebugInfos) == 9
    ensures Rank(EncodedArrays) == 10 && Rank(Annotations) == 11 && Rank(AnnotationSets) == 12
    ensures Rank(AnnotationSetRefs) == 13
    ensures Rank(AnnotationsDirectories) == 14 && Rank(TypeLists) == 15 && Rank(ClassDatas) == 16
    ensures Rank(StringDatas) == 17
    ensures Rank(HiddenapiData) == 18
    ensures Delayed(StringIds) && Delayed(ProtoIds) && Delayed(ClassDefs) && Delayed(CallSiteIds)
  {
  }

  lemma SectionOrder(k: Kind)
    ensures TargetsBefore(k, 19) && TargetsBefore(CodeItems, 10)
    ensures k != StringIds && k != ProtoIds && k != ClassDefs && k != CallSiteIds && k != CodeItems ==>
              TargetsBefore(k, Rank(k))
  {
  }

  lemma RankDistinct(k: Kind, o: Kind)
    requires Rank(k) == Rank(o)
    ensures k == o
  {
  }

  lemma NextOnly(k: Kind)
    ensures forall o :: o != k ==> (Rank(o) < Rank(k) <==> Rank(o) < Rank(k) + 1)
  {
    hide Rank;
    forall o | o != k ensures Rank(o) != Rank(k) {
      if Rank(o) == Rank(k) {
        RankDistinct(k, o);
      }
    }
  }

  lemma EmptyChain(k: Kind, b: Book, offs: map<Ref, u32>, start: nat)
    ensures Only(k, b, offs, b, offs) && Chain(b, k, start, 0) && ChainEnd(b, k, start, 0) == start
  {
  }

  lemma OnlyKeepsRecorded(k: Kind, b: Book, offs: map<Ref, u32>, b': Book, offs': map<Ref, u32>)
    requires Only(k, b, offs, b', offs')
    ensures offs.Keys <= offs'.Keys
  {
  }

  lemma OnlyFilled(k: Kind, b: Book, b': Book, offs: map<Ref, u32>)
    requires b'.place == b.place && b'.len == b.len && b.filled <= b'.filled
    requires forall r :: r in b'.filled && r !in b.filled ==> r.kind == k
    ensures Only(k, b, offs, b', offs)
  {
  }

  lemma TopGrows(ir: Ir, d: seq<byte>, offs: map<Ref, u32>, b: Book, top: nat, top': nat)
    requires Inv(ir, d, offs, b, top) && top <= top'
    ensures Inv(ir, d, offs, b, top')
  {
    hide Layout, ItemBytes, Count;
  }

  /** When the kinds it may refer to are recorded, all pointers of an item are. */
  lemma PointersRecorded(ir: Ir, offs: map<Ref, u32>, r: Ref)
    requires Closed(ir) && Valid(ir, r) && forall o :: MayRefer(r.kind, o) ==> AllRecorded(ir, offs, o)
    ensures Resolved(Layout(ir, r), offs)
  {
    hide Layout, Count, MayRefer;
    var fs := Layout(ir, r);
    forall j | 0 <= j < |fs| && Target(fs[j]).Some? ensures Target(fs[j]).value in offs {
      var t := Target(fs[j]).value;
      assert Valid(ir, t) && MayRefer(r.kind, t.kind);
      assert t == Ref(t.kind, t.index);
    }
  }
}
