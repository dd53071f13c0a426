/**
 * Deduplication in compact dex files: Deduper and ScopedDataSectionItem of
 * dexlayout/compact_dex_writer.h and dexlayout/compact_dex_writer.cc.
 */
module CompactDedupe {
  import opened Bytes
  import opened Streams

  /** A range of the section, keyed by what it holds, and the offset of the item in it. */
  datatype Entry = Entry(offset: nat, length: nat, item: nat)

  /** The bytes of a range. */
  function Content(d: seq<byte>, offset: nat, length: nat): (r: seq<byte>)
    ensures |r| == length
  {
    seq<byte>(length, i requires 0 <= i => Get(d, offset + i))
  }

  class Deduper {
    const enabled: bool
    var entries: seq<Entry>

    constructor (on: bool)
      ensures entries == [] && enabled == on
    {
      entries, enabled := [], on;
    }

    /** The item offset of a range with the same contents, or 0 after entering the new range. */
    method Dedupe(section: Section, start: nat, end: nat, item: nat) returns (found: nat)
      requires start <= end <= |section.data|
      requires forall i :: 0 <= i < |entries| ==>
                 entries[i].offset + entries[i].length <= |section.data| && entries[i].item != 0
      modifies this
      ensures !enabled ==> found == 0 && entries == old(entries)
      ensures enabled && found == 0 ==>
                && entries == old(entries) + [Entry(start, end - start, item)]
                && forall e :: e in old(entries) ==>
                     Content(section.data, e.offset, e.length) != Content(section.data, start, end - start)
      ensures found != 0 ==>
                && entries == old(entries)
                && exists e ::
                     && e in entries && e.item == found
                     && Content(section.data, e.offset, e.length) == Content(section.data, start, end - start)
    {
      if !enabled {
        return 0;
      }
      var range := Entry(start, end - start, item);
      for i := 0 to |entries|
        invariant entries == old(entries)
        invariant forall j :: 0 <= j < i ==>
                    Content(section.data, entries[j].offset, entries[j].length)
                    != Content(section.data, start, end - start)
      {
        var same := HashEqual(section, entries[i], range);
        if same {
          return entries[i].item;
        }
      }
      entries := entries + [range];
      found := 0;
    }

    method Clear()
      modifies this
      ensures entries == []
    {
      entries := [];
    }

    /** HashedMemoryRange::HashEqual: the ranges hold the same bytes. */
    method HashEqual(section: Section, a: Entry, b: Entry) returns (same: bool)
      requires a.offset + a.length <= |section.data| && b.offset + b.length <= |section.data|
      ensures same <==> Content(section.data, a.offset, a.length) == Content(section.data, b.offset, b.length)
    {
      if a.length != b.length {
        return false;
      }
      ghost var x, y := Content(section.data, a.offset, a.length), Content(section.data, b.offset, b.length);
      for i := 0 to a.length
        invariant forall j :: 0 <= j < i ==> x[j] == y[j]
      {
        assert x[i] == section.data[a.offset + i] && y[i] == section.data[b.offset + i];
        if section.data[a.offset + i] != section.data[b.offset + i] {
          return false;
        }
      }
      same := true;
    }
  }

  lemma ContentHolds(d: seq<byte>, p: nat, bs: seq<byte>)
    ensures Content(d, p, |bs|) == bs <==> Holds(d, p, bs)
  {
    if Content(d, p, |bs|) == bs {
      forall i | p <= i < p + |bs| ensures Get(d, i) == bs[i - p] {
        assert Content(d, p, |bs|)[i - p] == Get(d, p + (i - p));
      }
    }
  }

  lemma ContentSame(d: seq<byte>, e: seq<byte>, end: nat, p: nat, n: nat)
    requires p + n <= end && forall i: nat :: i < end ==> Get(e, i) == Get(d, i)
    ensures Content(e, p, n) == Content(d, p, n)
  {
  }

  /** Everything below `p` is as before. */
  ghost predicate SameBelow(d: seq<byte>, e: seq<byte>, p: nat) {
    forall i: nat {:trigger Get(d, i)} {:trigger Get(e, i)} :: i < p ==> Get(e, i) == Get(d, i)
  }

  /** All keyed ranges end below `end`, and the items in them are aligned. */
  ghost predicate Inside(entries: seq<Entry>, end: nat, alignment: Alignment) {
    forall i :: 0 <= i < |entries| ==>
      entries[i].offset + entries[i].length <= end && entries[i].item != 0 && entries[i].item % alignment == 0
  }

  /**
   * What becomes of an item with the bytes `bs` that is begun at `start` and registered at `item`. If its
   * bytes are keyed, by `hit`, nothing is left of it and it gets the offset of that entry; if not it
   * stands at `start`, and its range is keyed.
   */
  ghost predicate Outcome(enabled: bool, d: seq<byte>, entries: seq<Entry>, d': seq<byte>, entries': seq<Entry>,
                          start: nat, end: nat, bs: seq<byte>, item: nat, offset: nat, hit: Option<Entry>)
  {
    match hit
    case None =>
      && Put(d, d', start, bs) && end == start + |bs| && offset == item
      && (!enabled ==> entries' == entries)
      && (enabled ==>
            && entries' == entries + [Entry(start, |bs|, item)]
            && forall e :: e in entries ==> Content(d, e.offset, e.length) != bs)
    case Some(e) =>
      && enabled && e in entries && Content(d, e.offset, e.length) == bs && offset == e.item
      && SameBelow(d, d', start) && ZeroFrom(d', start) && end == start && entries' == entries
  }

  /** Clearing what was written since `start` leads back to what was there before. */
  lemma Wiped(d: seq<byte>, d1: seq<byte>, d2: seq<byte>, d3: seq<byte>, start: nat, bs: seq<byte>)
    requires ZeroFrom(d, start) && Put(d, d1, start, bs)
    requires SameOutside(d1, d2, start, start + |bs|) && Zero(d2, start, start + |bs|) && Same(d2, d3)
    ensures SameBelow(d, d3, start) && ZeroFrom(d3, start)
  {
    hide Get;
    forall i: nat | i < start ensures Get(d3, i) == Get(d, i) {
      assert Get(d2, i) == Get(d1, i) && Get(d1, i) == Get(d, i);
    }
    forall i: nat | start <= i ensures Get(d3, i) == 0 {
      if i >= start + |bs| {
        assert Get(d2, i) == Get(d1, i) && Get(d1, i) == Get(d, i);
      } else {
        assert Get(d2, i) == 0;
      }
    }
  }

  lemma JustWritten(d: seq<byte>, d1: seq<byte>, start: nat, bs: seq<byte>)
    requires Put(d, d1, start, bs)
    ensures Content(d1, start, |bs|) == bs && SameBelow(d, d1, start)
  {
    hide Content;
    ContentHolds(d1, start, bs);
  }

  /** The end of a ScopedDataSectionItem. */
  method EndItem(stream: Stream, deduper: Deduper, start: nat, alignment: Alignment, item: nat, ghost d: seq<byte>,
                 ghost bs: seq<byte>)
    returns (offset: nat, ghost hit: Option<Entry>)
    requires ZeroFrom(d, start) && Put(d, stream.section.data, start, bs) && Inside(deduper.entries, start, alignment)
    requires stream.position == start + |bs| <= |stream.section.data|
    modifies stream`position, stream.section, deduper
    ensures Outcome(deduper.enabled, d, old(deduper.entries), stream.section.data, deduper.entries, start,
                    stream.position, bs, item, offset, hit)
    ensures stream.position <= |stream.section.data|
  {
    hide Get, Content, Zero, ZeroFrom, Put, Same, SameOutside;
    ghost var d1 := stream.section.data;
    JustWritten(d, d1, start, bs);
    forall e | e in deduper.entries ensures Content(d1, e.offset, e.length) == Content(d, e.offset, e.length) {
      ContentSame(d, d1, start, e.offset, e.length);
    }
    offset := item;
    hit := None;
    var found := deduper.Dedupe(stream.section, start, stream.position, item);
    if found != 0 {
      ghost var e :| && e in deduper.entries && e.item == found
                     && Content(d1, e.offset, e.length) == Content(d1, start, stream.position - start);
      if found % alignment == 0 {
        hit := Some(e);
        offset := found;
        stream.Clear(start, stream.position - start);
        ghost var d2 := stream.section.data;
        stream.Seek(start);
        Wiped(d, d1, d2, stream.section.data, start, bs);
      }
    }
  }
}
