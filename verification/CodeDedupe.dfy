/**
 * Writing compact code items: WriteCodeItem of dexlayout/compact_dex_writer.cc. The range that is keyed
 * for deduplication begins before the padding, but the offset handed out is the registered one, behind
 * padding and preheader. Two different code items can have the same range.
 */
module CodeDedupe {
  import opened Bytes
  import opened Streams
  import opened DexIr
  import opened CompactCode
  import CatchHandlers
  import DiskItems
  import Leb128

  // Writing.

  lemma ZerosPut(d0: seq<byte>, d: seq<byte>, d': seq<byte>, start: nat, acc: seq<byte>, n: nat)
    requires ZeroFrom(d0, start) && Put(d0, d, start, acc) && Same(d, d')
    ensures Put(d0, d', start, acc + ZeroBytes(n))
  {
    hide Get;
    forall i: nat | start <= i < start + |acc + ZeroBytes(n)| ensures Get(d', i) == (acc + ZeroBytes(n))[i - start] {
      assert Get(d', i) == Get(d, i);
      if i >= start + |acc| {
        assert Get(d, i) == Get(d0, i);
      }
    }
    forall i: nat | i < start || start + |acc + ZeroBytes(n)| <= i ensures Get(d', i) == Get(d0, i) {
      assert Get(d', i) == Get(d, i);
    }
  }

  lemma ZeroBehind(d0: seq<byte>, d: seq<byte>, start: nat, acc: seq<byte>, n: nat)
    requires ZeroFrom(d0, start) && Put(d0, d, start, acc)
    ensures Zero(d, start + |acc|, start + |acc| + n)
  {
    hide Get;
    forall i | start + |acc| <= i < start + |acc| + n ensures Get(d, i) == 0 { assert Get(d, i) == Get(d0, i); }
  }

  /** Writes `bs` behind what has been written since `start`. */
  method PutBytes(stream: Stream, bs: seq<byte>, ghost d0: seq<byte>, ghost start: nat, ghost acc: seq<byte>)
    requires ZeroFrom(d0, start) && stream.position == start + |acc| && Put(d0, stream.section.data, start, acc)
    modifies stream, stream.section
    ensures stream.position == start + |acc + bs| <= |stream.section.data| && stream.clobbered == old(stream.clobbered)
    ensures Put(d0, stream.section.data, start, acc + bs)
  {
    hide Put, Zero, ZeroFrom;
    ghost var d := stream.section.data;
    ZeroBehind(d0, d, start, acc, |bs|);
    stream.Write(bs);
    PutIntro(d, stream.section.data, start + |acc|, bs);
    PutMore(d0, d, stream.section.data, start, acc, bs);
  }

  method PadTo(stream: Stream, a: Alignment, ghost d0: seq<byte>, ghost start: nat, ghost acc: seq<byte>)
    requires ZeroFrom(d0, start) && stream.position == start + |acc| && Put(d0, stream.section.data, start, acc)
    modifies stream`position, stream.section
    ensures var n := RoundUp(start + |acc|, a) - (start + |acc|);
            stream.position == start + |acc + ZeroBytes(n)| && Put(d0, stream.section.data, start, acc + ZeroBytes(n))
  {
    hide Put, RoundUp;
    ghost var d := stream.section.data;
    stream.AlignTo(a);
    ZerosPut(d0, d, stream.section.data, start, acc, stream.position - (start + |acc|));
  }

  /** WriteCodeItemPostInstructionData, where the handler table is a byte string. */
  method WritePostInstructionData(stream: Stream, c: Code, ghost d0: seq<byte>, ghost start: nat, ghost acc: seq<byte>)
    requires ZeroFrom(d0, start) && stream.position == start + |acc| <= |stream.section.data|
    requires Put(d0, stream.section.data, start, acc)
    modifies stream, stream.section
    ensures var more := acc + TailBytes(c, start + |acc|);
            stream.position == start + |more| <= |stream.section.data| && Put(d0, stream.section.data, start, more)
    ensures stream.clobbered == old(stream.clobbered)
  {
    hide Put, RoundUp, TryBytes, ZeroBytes;
    if |c.tries| != 0 {
      ghost var z := ZeroBytes(RoundUp(start + |acc|, 4) - (start + |acc|));
      PadTo(stream, 4, d0, start, acc);
      PutBytes(stream, TryBytes(c.tries), d0, start, acc + z);
      PutBytes(stream, c.handlers, d0, start, acc + z + TryBytes(c.tries));
      assert acc + z + TryBytes(c.tries) + c.handlers == acc + TailBytes(c, start + |acc|);
    } else {
      assert acc + TailBytes(c, start + |acc|) == acc;
    }
  }

  /** Aligns the stream, and if the preheader would leave payloads unaligned skips further. */
  method WriteLead(stream: Stream, f: Payloads, c: Code, preheaderBytes: nat)
    requires ZeroFrom(stream.section.data, stream.position) && preheaderBytes == |PreBytes(c)|
    modifies stream`position, stream.section
    ensures var n := Lead(f, c, old(stream.position));
            && stream.position == old(stream.position) + n
            && Put(old(stream.section.data), stream.section.data, old(stream.position), ZeroBytes(n))
  {
    hide Put, RoundUp, ZeroBytes, ZeroFrom, PreBytes;
    var start := stream.position;
    ghost var d0 := stream.section.data;
    PutNothing(d0, start);
    PadTo(stream, 2, d0, start, []);
    ghost var m := RoundUp(start, 2) - start;
    ZerosJoin(m, 0);
    var q := stream.position + preheaderBytes;
    if q % 4 != 0 && f(c.insns) {
      ghost var d := stream.section.data;
      stream.Skip(RoundUp(q, 4) - q);
      ZerosPut(d0, d, stream.section.data, start, [] + ZeroBytes(m), RoundUp(q, 4) - q);
      ZerosJoin(m, RoundUp(q, 4) - q);
    }
  }

  /** The fixed part of a code item and its instructions. */
  method WriteHead(stream: Stream, c: Code, fields: u16, countAndFlags: u16, ghost d0: seq<byte>, ghost start: nat,
                   ghost acc: seq<byte>)
    requires fields == Fields(SizesOf(c)) && countAndFlags == CountAndFlags(SizesOf(c))
    requires ZeroFrom(d0, start) && stream.position == start + |acc| && Put(d0, stream.section.data, start, acc)
    modifies stream, stream.section
    ensures stream.position == start + |acc + HeadBytes(c)| <= |stream.section.data|
    ensures Put(d0, stream.section.data, start, acc + HeadBytes(c)) && stream.clobbered == old(stream.clobbered)
  {
    hide Put, Words, LE16, Fields, CountAndFlags, ZeroFrom, SizesOf;
    ghost var head := LE16(fields) + LE16(countAndFlags);
    PutBytes(stream, LE16(fields) + LE16(countAndFlags), d0, start, acc);
    PutBytes(stream, Words(c.insns), d0, start, acc + head);
    assert acc + head + Words(c.insns) == acc + (head + Words(c.insns));
  }

  /** WriteCodeItem up to the end of its scope; `item` is the registered offset. */
  method WriteCodeItem(stream: Stream, f: Payloads, c: Code) returns (item: nat, failed: bool)
    requires ZeroFrom(stream.section.data, stream.position)
    modifies stream, stream.section
    ensures stream.position == old(stream.position) + |Range(f, c, old(stream.position))| <= |stream.section.data|
    ensures Put(old(stream.section.data), stream.section.data, old(stream.position), Range(f, c, old(stream.position)))
    ensures item == ItemStart(f, c, old(stream.position)) && stream.clobbered == old(stream.clobbered)
    ensures failed <==> c.registers < c.ins
  {
    hide Put, Words, Fields, CountAndFlags, TailBytes, ZeroBytes, ZeroFrom, Lead, HeadBytes, SizesOf;
    var start := stream.position;
    ghost var d0 := stream.section.data;
    var fields, countAndFlags, preheader;
    failed, fields, countAndFlags, preheader := Create(SizesOf(c));
    RegistersAndIns(c);
    DiskItems.WordsLength(preheader);
    hide Preheader;
    WriteLead(stream, f, c, 2 * |preheader|);
    ghost var acc := ZeroBytes(Lead(f, c, start));
    PutBytes(stream, Words(preheader), d0, start, acc);
    acc := acc + PreBytes(c);
    item := stream.position;
    WriteHead(stream, c, fields, countAndFlags, d0, start, acc);
    acc := acc + HeadBytes(c);
    WritePostInstructionData(stream, c, d0, start, acc);
  }

  lemma RegistersAndIns(c: Code)
    ensures SizesOf(c).registers == c.registers && SizesOf(c).ins == c.ins
  {
  }

  lemma ZerosJoin(m: nat, n: nat)
    ensures [] + ZeroBytes(m) + ZeroBytes(n) == ZeroBytes(m + n) && [] + ZeroBytes(m) == ZeroBytes(m)
  {
  }

  /** The offset that is registered is never before the range, and it is even. */
  lemma ItemEven(f: Payloads, c: Code, s: nat)
    ensures s <= ItemStart(f, c, s) && ItemStart(f, c, s) % 2 == 0
  {
    hide Words, Preheader;
    DiskItems.WordsLength(Preheader(SizesOf(c)));
  }

  /** Where a code item stands the accessors find it, and no other. */
  lemma StandsExact(d: seq<byte>, f: Payloads, s: nat, b: Code, c: Code)
    requires Holds(d, s, Range(f, b, s)) && WellFormed(b) && WellFormed(c)
    ensures CodeAt(d, ItemStart(f, b, s), b) && (CodeAt(d, ItemStart(f, b, s), c) <==> b == c)
  {
    hide CodeAt, Holds, WellFormed, Range, ItemStart;
    RangeDecodes(d, f, b, s);
    if CodeAt(d, ItemStart(f, b, s), c) {
      CodeUnique(d, ItemStart(f, b, s), b, c);
    }
  }

  /** Two code items that have the same range in some two places. */
  ghost predicate Collide(f: Payloads, b: Code, c: Code) {
    exists s: nat, t: nat :: Range(f, b, s) == Range(f, c, t)
  }

  // Code items that end wherever one wants, and differ from given ones.

  lemma RoundUpFour(s: nat)
    ensures RoundUp(s + 4, 2) == RoundUp(s, 2) + 4 && RoundUp(s + 4, 4) == RoundUp(s, 4) + 4
  {
  }

  lemma LeadFour(f: Payloads, c: Code, s: nat)
    ensures Lead(f, c, s + 4) == Lead(f, c, s)
  {
    hide PreBytes, RoundUp;
    RoundUpFour(s);
    RoundUpFour(RoundUp(s, 2) + |PreBytes(c)|);
  }

  lemma TailFour(c: Code, q: nat)
    ensures TailBytes(c, q + 4) == TailBytes(c, q)
  {
    hide RoundUp, ZeroBytes, TryBytes;
    RoundUpFour(q);
  }

  /** A range depends on where it begins only through the place modulo four. */
  lemma RangeFour(f: Payloads, c: Code, s: nat)
    ensures Range(f, c, s + 4) == Range(f, c, s)
  {
    hide HeadBytes, PreBytes, ZeroBytes, Lead, TailBytes;
    LeadFour(f, c, s);
    TailFour(c, ItemStart(f, c, s) + |HeadBytes(c)|);
  }

  lemma {:induction false} RangeAgain(f: Payloads, c: Code, s: nat, t: nat)
    requires s % 4 == t % 4
    ensures Range(f, c, s) == Range(f, c, t)
    decreases s + t
  {
    hide Range;
    if s < t {
      RangeAgain(f, c, s, t - 4);
      RangeFour(f, c, t - 4);
    } else if t < s {
      RangeAgain(f, c, s - 4, t);
      RangeFour(f, c, s - 4);
    }
  }

  /** A method that returns at once, with a catch-all handler whose address gives the table its length. */
  function Filler(r: nat, x: u32): Code {
    var address: u32 := if r == 3 then 0 else if r == 0 then 0x80 else if r == 1 then 0x4000 else 0x20_0000;
    Code(0, 0, 0, [0x000E], [TryItem(x, 1, 1)], CatchHandlers.Table([CatchHandlers.Entry([], Some(address))]))
  }

  lemma FillerHandlers(r: nat, x: u32)
    requires r < 4
    ensures |Filler(r, x).handlers| % 4 == r && IsTable(Filler(r, x).handlers) && WellFormed(Filler(r, x))
  {
    var address: u32 := if r == 3 then 0 else if r == 0 then 0x80 else if r == 1 then 0x4000 else 0x20_0000;
    var e := CatchHandlers.Entry([], Some(address));
    assert CatchHandlers.ValidTable([e]);
    assert |CatchHandlers.Table([e])| == 2 + |Leb128.Uleb(address)| by {
      CatchHandlers.EntryLength(e);
      assert CatchHandlers.Prefix([e], 1) == CatchHandlers.Prefix([e], 0) + CatchHandlers.EntryBytes(e);
    }
    AddressLength();
  }

  lemma AddressLength()
    ensures |Leb128.Uleb(0)| == 1 && |Leb128.Uleb(0x80)| == 2
    ensures |Leb128.Uleb(0x4000)| == 3 && |Leb128.Uleb(0x20_0000)| == 4
  {
    assert |Leb128.Uleb(1)| == 1;
  }

  lemma RangeEnd(f: Payloads, c: Code, s: nat)
    requires c.tries != []
    ensures var q := ItemStart(f, c, s) + |HeadBytes(c)|;
            s + |Range(f, c, s)| == RoundUp(q, 4) + 8 * |c.tries| + |c.handlers|
  {
    hide HeadBytes, PreBytes, Lead, TryBytes, RoundUp;
    DiskItems.TryLength(c.tries);
  }

  lemma Residue(n: nat, m: nat)
    requires n % 4 == 0
    ensures (n + 8 + m) % 4 == m % 4
  {
  }

  /** Behind a filler the stream is wherever modulo four one wants it. */
  lemma FillerEnd(f: Payloads, r: nat, x: u32, s: nat)
    requires r < 4
    ensures (s + |Range(f, Filler(r, x), s)|) % 4 == r
  {
    hide HeadBytes, ItemStart, Range, RoundUp, CatchHandlers.Table;
    var c := Filler(r, x);
    FillerHandlers(r, x);
    RangeEnd(f, c, s);
    Residue(RoundUp(ItemStart(f, c, s) + |HeadBytes(c)|, 4), |c.handlers|);
  }

  lemma SameStart(f: Payloads, a: Code, b: Code, s: nat)
    requires SizesOf(a) == SizesOf(b) && a.insns == b.insns
    ensures ItemStart(f, a, s) == ItemStart(f, b, s)
  {
    hide Preheader, Words, RoundUp;
  }

  lemma FillersDiffer(f: Payloads, r: nat, x: u32, y: u32, s: nat)
    requires r < 4 && Range(f, Filler(r, x), s) == Range(f, Filler(r, y), s)
    ensures x == y
  {
    hide Range, ItemStart, CodeAt, WellFormed, IsTable, CatchHandlers.Table;
    FillerHandlers(r, x);
    FillerHandlers(r, y);
    var a, b := Filler(r, x), Filler(r, y);
    SameStart(f, a, b, s);
    var d := ZeroBytes(s) + Range(f, a, s);
    assert Holds(d, s, Range(f, a, s));
    RangeDecodes(d, f, a, s);
    RangeDecodes(d, f, b, s);
    CodeUnique(d, ItemStart(f, a, s), a, b);
  }

  /** Of three fillers one has neither of two ranges. */
  lemma OneFree(f: Payloads, r: nat, s: nat, u: seq<byte>, v: seq<byte>)
    requires r < 4
    ensures var x := FreeFiller(f, r, s, u, v); Range(f, Filler(r, x), s) != u && Range(f, Filler(r, x), s) != v
  {
    hide Range, Filler;
    var R0, R1, R2 := Range(f, Filler(r, 0), s), Range(f, Filler(r, 1), s), Range(f, Filler(r, 2), s);
    if R0 == R1 { FillersDiffer(f, r, 0, 1, s); }
    if R0 == R2 { FillersDiffer(f, r, 0, 2, s); }
    if R1 == R2 { FillersDiffer(f, r, 1, 2, s); }
  }

  function FreeFiller(f: Payloads, r: nat, s: nat, u: seq<byte>, v: seq<byte>): u32 {
    if Range(f, Filler(r, 0), s) != u && Range(f, Filler(r, 0), s) != v then 0
    else if Range(f, Filler(r, 1), s) != u && Range(f, Filler(r, 1), s) != v then 1
    else 2
  }

  // Two such code items.

  /** 273 registers: the number of locals above 15 goes into a preheader. */
  const LARGE := Code(273, 1, 0, [0x0000, 0x000E, 0, 0, 0, 0, 0], [], [])

  /** One register and one outgoing argument: no preheader. */
  const SMALL := Code(1, 1, 1, [0x00E1, 0x0000, 0x000E, 0, 0, 0, 0, 0], [], [])

  lemma Highs()
    ensures High(0) == 0 && High(1) == 0 && High(272) == 272 && HighInsns(7) == 0 && HighInsns(8) == 0
    ensures Word(0) == [] && LongWord(0) == [] && Word(272) == [272] && Bit(0) == 0 && Bit(272) == 1
  {
  }

  lemma Numbers()
    ensures Nibbles(0, 1, 0, 0) == 0x100 && Nibbles(0, 1, 1, 0) == 0x110
    ensures Bits(7, 0, 0, 0, 0, 1) == 0xE1 && Bits(8, 0, 0, 0, 0, 0) == 0x100
    ensures LE16(0x100) == [0x00, 0x01] && LE16(0x110) == [0x10, 0x01] && LE16(0xE1) == [0xE1, 0x00]
  {
  }

  lemma LargeSizes(z: Sizes)
    requires z == Sizes(273, 1, 0, 0, 7)
    ensures Preheader(z) == [0x110] && Fields(z) == 0x100 && CountAndFlags(z) == 0xE1
  {
    hide High, HighInsns, Word, LongWord, Bit, Nibbles, Bits;
    Highs();
    Numbers();
    assert Locals(z) == 272;
    hide Locals;
    assert Preheader(z) == [] + [] + [] + [0x110] + [];
  }

  lemma SmallSizes(z: Sizes)
    requires z == Sizes(1, 1, 1, 0, 8)
    ensures Preheader(z) == [] && Fields(z) == 0x110 && CountAndFlags(z) == 0x100
  {
    hide High, HighInsns, Word, LongWord, Bit, Nibbles, Bits;
    Highs();
    Numbers();
    assert Locals(z) == 0;
    hide Locals;
    assert Preheader(z) == [] + [] + [] + [] + [];
  }

  lemma OneWord(w: u16)
    ensures Words([w]) == LE16(w) && Words([]) == []
  {
    assert [w][1..] == [];
    assert LE16(w) + [] == LE16(w);
  }

  lemma LargeBytes()
    ensures PreBytes(LARGE) == [0x10, 0x01]
    ensures HeadBytes(LARGE) == [0x00, 0x01, 0xE1, 0x00] + Words(LARGE.insns)
  {
    hide Preheader, Fields, CountAndFlags, Words, LE16, Nibbles, Bits;
    Numbers();
    LargeSizes(SizesOf(LARGE));
    OneWord(0x110);
    assert [0x00, 0x01] + [0xE1, 0x00] == [0x00, 0x01, 0xE1, 0x00];
  }

  lemma SmallBytes()
    ensures PreBytes(SMALL) == []
    ensures HeadBytes(SMALL) == [0x10, 0x01, 0x00, 0x01] + Words(SMALL.insns)
  {
    hide Preheader, Fields, CountAndFlags, Words, LE16, Nibbles, Bits;
    Numbers();
    SmallSizes(SizesOf(SMALL));
    OneWord(0);
    assert [0x10, 0x01] + [0x00, 0x01] == [0x10, 0x01, 0x00, 0x01];
  }

  lemma InsnsShifted()
    ensures Words(SMALL.insns) == [0xE1, 0x00] + Words(LARGE.insns)
  {
    var ws := SMALL.insns;
    assert ws[1..] == LARGE.insns && ws != [] && ws[0] == 0xE1;
    assert Words(ws) == LE16(ws[0]) + Words(ws[1..]);
  }

  /** They have the same twenty bytes, wherever they are written, if neither needs aligned payloads. */
  lemma SameRange(f: Payloads, s: nat)
    requires !f(LARGE.insns) && !f(SMALL.insns)
    ensures WellFormed(LARGE) && WellFormed(SMALL) && LARGE != SMALL && Range(f, LARGE, s) == Range(f, SMALL, s)
    ensures ItemStart(f, LARGE, s) == ItemStart(f, SMALL, s) + 2
  {
    hide Words, RoundUp, HeadBytes, PreBytes, ZeroBytes, IsTable;
    LargeBytes();
    SmallBytes();
    InsnsShifted();
    JoinSame(ZeroBytes(RoundUp(s, 2) - s), Words(LARGE.insns));
  }

  lemma RangesCollide(f: Payloads, b: Code, c: Code, s: nat, t: nat)
    requires Range(f, b, s) == Range(f, c, t)
    ensures Collide(f, b, c)
  {
  }

  lemma JoinSame(z: seq<byte>, w: seq<byte>)
    ensures z + [0x10, 0x01] + ([0x00, 0x01, 0xE1, 0x00] + w) + [] ==
            z + [] + ([0x10, 0x01, 0x00, 0x01] + ([0xE1, 0x00] + w)) + []
  {
  }
}
