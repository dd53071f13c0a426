/**
 * Compact code items: their packed sizes and preheader (libdexfile/dex/compact_dex_file.h), and how
 * WriteCodeItem of dexlayout/compact_dex_writer.cc lays them out behind one another.
 */
module CompactCode {
  import opened Bytes
  import opened Streams
  import opened DexIr
  import CatchHandlers
  import DiskItems

  datatype Sizes = Sizes(registers: u16, ins: u16, outs: u16, tries: u16, insns: u32)

  datatype Code = Code(registers: u16, ins: u16, outs: u16, insns: seq<u16>, tries: seq<TryItem>, handlers: seq<byte>)

  /** The handlers behind the try items are a table, and without try items there are none. */
  ghost predicate WellFormed(c: Code) {
    && |c.insns| < 0x1_0000_0000 && |c.tries| < 0x1_0000
    && if c.tries == [] then c.handlers == [] else IsTable(c.handlers)
  }

  ghost predicate IsTable(bs: seq<byte>) {
    exists es :: CatchHandlers.ValidTable(es) && bs == CatchHandlers.Table(es)
  }

  function SizesOf(c: Code): Sizes {
    Sizes(c.registers, c.ins, c.outs, |c.tries| % 0x1_0000, |c.insns| % 0x1_0000_0000)
  }

  // The packed form. Four bits of each size and eleven of the instruction count stand in the item.

  function High(n: nat): (h: nat)
    ensures h <= n
  {
    n - n % 16
  }

  function HighInsns(n: nat): (h: nat)
    ensures h <= n
  {
    n - n % 0x800
  }

  /** Registers are stored without the ins, in sixteen bits. */
  function Locals(z: Sizes): u16 { (z.registers - z.ins) % 0x1_0000 }

  function Nibbles(a: nat, b: nat, c: nat, d: nat): nat { ((a * 16 + b) * 16 + c) * 16 + d }

  function Fields(z: Sizes): u16 {
    Nibbles(Locals(z) % 16, z.ins % 16, z.outs % 16, z.tries % 16)
  }

  function Bit(n: nat): nat { if n != 0 then 1 else 0 }

  function Bits(n: nat, a: nat, b: nat, c: nat, d: nat, e: nat): nat {
    ((((n * 2 + a) * 2 + b) * 2 + c) * 2 + d) * 2 + e
  }

  /** The count and, from bit 4 down, whether there is a preheader for insns, tries, outs, ins and registers. */
  function CountAndFlags(z: Sizes): u16 {
    Bits(z.insns % 0x800, Bit(HighInsns(z.insns)), Bit(High(z.tries)), Bit(High(z.outs)), Bit(High(z.ins)),
         Bit(High(Locals(z))))
  }

  function Word(n: nat): (ws: seq<u16>)
    ensures |ws| == Bit(n) && (n != 0 ==> ws[0] == n % 0x1_0000)
  {
    if n == 0 then [] else [n % 0x1_0000]
  }

  function LongWord(n: nat): (ws: seq<u16>)
    ensures |ws| == 2 * Bit(n)
  {
    if n == 0 then [] else [n / 0x1_0000 % 0x1_0000, n % 0x1_0000]
  }

  /** The preheader from low to high addresses, ending where the item begins. */
  function Preheader(z: Sizes): (ws: seq<u16>)
    ensures |ws| <= 6
  {
    Word(High(z.tries)) + Word(High(z.outs)) + Word(High(z.ins)) + Word(High(Locals(z))) + LongWord(HighInsns(z.insns))
  }

  /** The preheader grows downwards. */
  method PreheaderEncode(size: u16, flag: nat, countAndFlags: nat, preheader: seq<u16>)
    returns (countAndFlags': nat, preheader': seq<u16>)
    ensures countAndFlags' == countAndFlags + Bit(size) * flag && preheader' == Word(size) + preheader
  {
    countAndFlags', preheader' := countAndFlags, preheader;
    if size != 0 {
      countAndFlags', preheader' := countAndFlags' + flag, [size] + preheader';
    } else {
      assert preheader == [] + preheader;
    }
  }

  /** CodeItem::Create; its check fails if there are fewer registers than ins. */
  method Create(z: Sizes) returns (failed: bool, fields: u16, countAndFlags: u16, preheader: seq<u16>)
    ensures failed <==> z.registers < z.ins
    ensures fields == Fields(z) && countAndFlags == CountAndFlags(z) && preheader == Preheader(z)
  {
    hide Word, Bit, High;
    failed := z.registers < z.ins;
    var registers := (z.registers - z.ins) % 0x1_0000;
    fields := registers % 16 * 0x1000 + z.ins % 16 * 0x100 + z.outs % 16 * 0x10 + z.tries % 16;
    var masked := z.insns % 0x800;
    var flags, pre := masked * 32, [];
    var insns := z.insns - masked;
    assert insns == HighInsns(z.insns);
    if insns != 0 {
      flags := flags + 16;
      pre := [insns % 0x1_0000] + pre;
      pre := [insns / 0x1_0000] + pre;
    }
    assert pre == LongWord(insns) && flags == masked * 32 + 16 * Bit(insns) by { BitOf(insns); }
    hide LongWord, HighInsns;
    flags, pre := PreheaderEncode(High(registers), 1, flags, pre);
    flags, pre := PreheaderEncode(High(z.ins), 2, flags, pre);
    flags, pre := PreheaderEncode(High(z.outs), 4, flags, pre);
    flags, pre := PreheaderEncode(High(z.tries), 8, flags, pre);
    assert flags == CountAndFlags(z);
    countAndFlags, preheader := flags, pre;
  }

  lemma BitOf(n: nat)
    ensures Bit(n) == if n != 0 then 1 else 0
  {
  }

  /** The parts put together, where `word(k)` is the k-th word below the item and the bits say which are there. */
  function Assemble(n: nat, bits: (nat, nat, nat, nat, nat), nibbles: (nat, nat, nat, nat), word: nat -> u16): Sizes {
    var insns := n + if bits.0 == 1 then word(0) + word(1) * 0x1_0000 else 0;
    var k1 := 2 * bits.0;
    var registers := nibbles.0 + if bits.4 == 1 then word(k1) else 0;
    var k2 := k1 + bits.4;
    var ins := nibbles.1 + if bits.3 == 1 then word(k2) else 0;
    var k3 := k2 + bits.3;
    var outs := nibbles.2 + if bits.2 == 1 then word(k3) else 0;
    var k4 := k3 + bits.2;
    var tries := nibbles.3 + if bits.1 == 1 then word(k4) else 0;
    Sizes((registers + ins) % 0x1_0000, ins % 0x1_0000, outs % 0x1_0000, tries % 0x1_0000, insns % 0x1_0000_0000)
  }

  /** DecodeFields. */
  function Decode(fields: u16, countAndFlags: u16, word: nat -> u16): Sizes {
    var f, g := countAndFlags, fields;
    Assemble(f / 2 / 2 / 2 / 2 / 2, (f / 2 / 2 / 2 / 2 % 2, f / 2 / 2 / 2 % 2, f / 2 / 2 % 2, f / 2 % 2, f % 2),
             (g / 16 / 16 / 16, g / 16 / 16 % 16, g / 16 % 16, g % 16), word)
  }

  lemma NibblesSplit(a: nat, b: nat, c: nat, d: nat)
    requires b < 16 && c < 16 && d < 16
    ensures var g := Nibbles(a, b, c, d);
            g / 16 / 16 / 16 == a && g / 16 / 16 % 16 == b && g / 16 % 16 == c && g % 16 == d
  {
    var x := a * 16 + b;
    var y := x * 16 + c;
    assert (y * 16 + d) / 16 == y && (x * 16 + c) / 16 == x;
  }

  lemma BitsSplit(n: nat, a: nat, b: nat, c: nat, d: nat, e: nat)
    requires a < 2 && b < 2 && c < 2 && d < 2 && e < 2
    ensures var f := Bits(n, a, b, c, d, e);
            && f % 2 == e && f / 2 % 2 == d && f / 2 / 2 % 2 == c && f / 2 / 2 / 2 % 2 == b
            && f / 2 / 2 / 2 / 2 % 2 == a && f / 2 / 2 / 2 / 2 / 2 == n
  {
    Halved(((((n * 2 + a) * 2 + b) * 2 + c) * 2 + d), e);
    Halved((((n * 2 + a) * 2 + b) * 2 + c), d);
    Halved(((n * 2 + a) * 2 + b), c);
    Halved((n * 2 + a), b);
    Halved(n, a);
  }

  lemma Halved(n: nat, bit: nat)
    requires bit < 2
    ensures (n * 2 + bit) / 2 == n && (n * 2 + bit) % 2 == bit
  {
  }

  function FromEnd(ws: seq<u16>, k: nat): u16
    requires k < |ws|
  {
    ws[|ws| - 1 - k]
  }

  /** Where the five parts of a preheader are found from its end. */
  lemma PartsFromEnd(t: seq<u16>, o: seq<u16>, i: seq<u16>, l: seq<u16>, n: seq<u16>, word: nat -> u16)
    requires var ws := t + o + i + l + n; forall k :: 0 <= k < |ws| ==> word(k) == FromEnd(ws, k)
    requires |t| <= 1 && |o| <= 1 && |i| <= 1 && |l| <= 1
    ensures |n| == 2 ==> word(0) == n[1] && word(1) == n[0]
    ensures l != [] ==> word(|n|) == l[0]
    ensures i != [] ==> word(|n| + |l|) == i[0]
    ensures o != [] ==> word(|n| + |l| + |i|) == o[0]
    ensures t != [] ==> word(|n| + |l| + |i| + |o|) == t[0]
  {
    var ws := t + o + i + l + n;
    if |n| == 2 {
      assert word(0) == FromEnd(ws, 0) && word(1) == FromEnd(ws, 1);
    }
    if l != [] { assert word(|n|) == FromEnd(ws, |n|); }
    if i != [] { assert word(|n| + |l|) == FromEnd(ws, |n| + |l|); }
    if o != [] { assert word(|n| + |l| + |i|) == FromEnd(ws, |n| + |l| + |i|); }
    if t != [] { assert word(|n| + |l| + |i| + |o|) == FromEnd(ws, |n| + |l| + |i| + |o|); }
  }

  lemma Rejoined(n: u16)
    ensures n % 16 + (if Bit(High(n)) == 1 then High(n) % 0x1_0000 else 0) == n
  {
  }

  lemma RejoinedInsns(n: u32)
    ensures n % 0x800 + (if Bit(HighInsns(n)) == 1
                         then HighInsns(n) % 0x1_0000 + HighInsns(n) / 0x1_0000 % 0x1_0000 * 0x1_0000
                         else 0) == n
  {
  }

  function BitsOf(z: Sizes): (nat, nat, nat, nat, nat) {
    (Bit(HighInsns(z.insns)), Bit(High(z.tries)), Bit(High(z.outs)), Bit(High(z.ins)), Bit(High(Locals(z))))
  }

  function NibblesOf(z: Sizes): (nat, nat, nat, nat) {
    (Locals(z) % 16, z.ins % 16, z.outs % 16, z.tries % 16)
  }

  lemma Unpacked(z: Sizes, word: nat -> u16)
    ensures Decode(Fields(z), CountAndFlags(z), word) == Assemble(z.insns % 0x800, BitsOf(z), NibblesOf(z), word)
  {
    hide Assemble, High, HighInsns, Locals;
    NibblesSplit(Locals(z) % 16, z.ins % 16, z.outs % 16, z.tries % 16);
    BitsSplit(z.insns % 0x800, Bit(HighInsns(z.insns)), Bit(High(z.tries)), Bit(High(z.outs)), Bit(High(z.ins)),
              Bit(High(Locals(z))));
    hide Nibbles, Bits, Bit;
  }

  /** The words of the preheader are found where the bits say. */
  lemma WordsFound(z: Sizes, word: nat -> u16)
    requires forall k :: 0 <= k < |Preheader(z)| ==> word(k) == FromEnd(Preheader(z), k)
    ensures var b := BitsOf(z);
            && Part(word, 2 * b.0, High(Locals(z))) && Part(word, 2 * b.0 + b.4, High(z.ins))
            && Part(word, 2 * b.0 + b.4 + b.3, High(z.outs)) && Part(word, 2 * b.0 + b.4 + b.3 + b.2, High(z.tries))
            && LongPart(word, HighInsns(z.insns))
  {
    hide High, HighInsns, Locals, FromEnd, Word, LongWord, Bit;
    Sized(High(Locals(z)));
    Sized(High(z.ins));
    Sized(High(z.outs));
    Sized(High(z.tries));
    LongSized(HighInsns(z.insns));
    PartsFromEnd(Word(High(z.tries)), Word(High(z.outs)), Word(High(z.ins)), Word(High(Locals(z))),
                 LongWord(HighInsns(z.insns)), word);
  }

  predicate Part(word: nat -> u16, k: nat, n: nat) {
    Bit(n) == 1 ==> word(k) == n % 0x1_0000
  }

  predicate LongPart(word: nat -> u16, n: nat) {
    Bit(n) == 1 ==> word(0) == n % 0x1_0000 && word(1) == n / 0x1_0000 % 0x1_0000
  }

  lemma PartIs(word: nat -> u16, k: nat, n: u16)
    requires Part(word, k, High(n))
    ensures n == n % 16 + if Bit(High(n)) == 1 then word(k) else 0
  {
    Rejoined(n);
  }

  lemma LongPartIs(word: nat -> u16, n: u32)
    requires LongPart(word, HighInsns(n))
    ensures n == n % 0x800 + if Bit(HighInsns(n)) == 1 then word(0) + word(1) * 0x1_0000 else 0
  {
    RejoinedInsns(n);
  }

  lemma Assembled(z: Sizes, word: nat -> u16)
    requires forall k :: 0 <= k < |Preheader(z)| ==> word(k) == FromEnd(Preheader(z), k)
    ensures Assemble(z.insns % 0x800, BitsOf(z), NibblesOf(z), word) == z
  {
    hide High, HighInsns, Locals, FromEnd, Preheader, Bit, Assemble, Part, LongPart;
    var b := BitsOf(z);
    WordsFound(z, word);
    PartIs(word, 2 * b.0, Locals(z));
    PartIs(word, 2 * b.0 + b.4, z.ins);
    PartIs(word, 2 * b.0 + b.4 + b.3, z.outs);
    PartIs(word, 2 * b.0 + b.4 + b.3 + b.2, z.tries);
    LongPartIs(word, z.insns);
    LocalsBack(z);
    AssembleIs(z, z.insns % 0x800, b, NibblesOf(z), word, Locals(z));
  }

  lemma AssembleIs(z: Sizes, n: nat, b: (nat, nat, nat, nat, nat), m: (nat, nat, nat, nat), word: nat -> u16, l: u16)
    requires z.insns == n + if b.0 == 1 then word(0) + word(1) * 0x1_0000 else 0
    requires l == m.0 + if b.4 == 1 then word(2 * b.0) else 0
    requires z.ins == m.1 + if b.3 == 1 then word(2 * b.0 + b.4) else 0
    requires z.outs == m.2 + if b.2 == 1 then word(2 * b.0 + b.4 + b.3) else 0
    requires z.tries == m.3 + if b.1 == 1 then word(2 * b.0 + b.4 + b.3 + b.2) else 0
    requires (l + z.ins) % 0x1_0000 == z.registers
    ensures Assemble(n, b, m, word) == z
  {
  }

  lemma Sized(n: nat)
    ensures |Word(n)| == Bit(n) < 2 && (Bit(n) == 1 ==> n % 0x1_0000 == Word(n)[0])
  {
  }

  lemma LongSized(n: nat)
    ensures Bit(n) < 2 && |LongWord(n)| == 2 * Bit(n)
    ensures Bit(n) == 1 ==> LongWord(n)[1] == n % 0x1_0000 && LongWord(n)[0] == n / 0x1_0000 % 0x1_0000
  {
  }

  /** Whatever the sizes, unpacking gives them back. */
  lemma SizesRoundTrip(z: Sizes, word: nat -> u16)
    requires forall k :: 0 <= k < |Preheader(z)| ==> word(k) == FromEnd(Preheader(z), k)
    ensures Decode(Fields(z), CountAndFlags(z), word) == z
  {
    hide *;
    Unpacked(z, word);
    Assembled(z, word);
  }

  lemma LocalsBack(z: Sizes)
    ensures (Locals(z) + z.ins) % 0x1_0000 == z.registers
  {
  }

  // Where things stand. Whether instructions need aligned payloads is a parameter.

  type Payloads = seq<u16> -> bool

  function ZeroBytes(n: nat): (bs: seq<byte>)
    ensures |bs| == n && forall i :: 0 <= i < n ==> bs[i] == 0
  {
    seq<byte>(n, i requires 0 <= i < n => 0)
  }

  function PreBytes(c: Code): seq<byte> {
    Words(Preheader(SizesOf(c)))
  }

  /** The zero bytes before the preheader of a code item that is begun at `s`: alignment, and room to align payloads. */
  function Lead(f: Payloads, c: Code, s: nat): nat {
    var p := RoundUp(s, 2);
    var q := p + |PreBytes(c)|;
    p - s + if f(c.insns) then RoundUp(q, 4) - q else 0
  }

  /** The offset under which the code item is registered. */
  function ItemStart(f: Payloads, c: Code, s: nat): nat {
    s + Lead(f, c, s) + |PreBytes(c)|
  }

  /**
   * Where a code item that is begun at `s` has to be registered: behind its preheader, at the next even
   * place and, if it has payloads, at the next multiple of four.
   */
  ghost predicate Placed(f: Payloads, c: Code, s: nat, p: nat) {
    var q := s + s % 2 + 2 * |Preheader(SizesOf(c))|;
    if f(c.insns) then p % 4 == 0 && q <= p < q + 4 else p == q
  }

  lemma ItemPlaced(f: Payloads, c: Code, s: nat)
    ensures Placed(f, c, s, ItemStart(f, c, s))
  {
    hide Preheader, Words;
    DiskItems.WordsLength(Preheader(SizesOf(c)));
  }

  lemma HeadLength(c: Code)
    ensures |HeadBytes(c)| == 4 + 2 * |c.insns|
  {
    hide Words, Fields, CountAndFlags, SizesOf;
    DiskItems.WordsLength(c.insns);
  }

  lemma TailLength(c: Code, q: nat)
    ensures q + |TailBytes(c, q)|
            == if c.tries == [] then q else (q + 3) / 4 * 4 + 8 * |c.tries| + |c.handlers|
  {
    hide TryBytes;
    DiskItems.TryLength(c.tries);
  }

  /** And where it ends: behind its instructions or, if it has any, its aligned try items and their handlers. */
  lemma RangeEnds(f: Payloads, c: Code, s: nat)
    ensures var q := ItemStart(f, c, s) + 4 + 2 * |c.insns|;
            s + |Range(f, c, s)| == if c.tries == [] then q else (q + 3) / 4 * 4 + 8 * |c.tries| + |c.handlers|
  {
    hide PreBytes, HeadBytes, TailBytes, Lead;
    HeadLength(c);
    TailLength(c, ItemStart(f, c, s) + |HeadBytes(c)|);
  }

  function HeadBytes(c: Code): seq<byte> {
    LE16(Fields(SizesOf(c))) + LE16(CountAndFlags(SizesOf(c))) + Words(c.insns)
  }

  /** Try items and handlers, behind instructions that end at `q`. */
  function TailBytes(c: Code, q: nat): seq<byte> {
    if c.tries == [] then [] else ZeroBytes(RoundUp(q, 4) - q) + TryBytes(c.tries) + c.handlers
  }

  /** Everything from `s` to the end of a code item that is begun there. */
  function Range(f: Payloads, c: Code, s: nat): seq<byte> {
    ZeroBytes(Lead(f, c, s)) + PreBytes(c) + HeadBytes(c) + TailBytes(c, ItemStart(f, c, s) + |HeadBytes(c)|)
  }

  // Reading a code item at the offset where it is registered.

  function Half(d: seq<byte>, i: int): u16 {
    if i < 0 then 0 else Get(d, i) + 0x100 * Get(d, i + 1)
  }

  function DecodeAt(d: seq<byte>, p: nat): Sizes {
    Decode(Half(d, p), Half(d, p + 2), WordsBelow(d, p))
  }

  function WordsBelow(d: seq<byte>, p: nat): nat -> u16 {
    k => Half(d, p - 2 * (k + 1))
  }

  /** The accessors find code item `c` at `p`. */
  ghost predicate CodeAt(d: seq<byte>, p: nat, c: Code) {
    && DecodeAt(d, p) == SizesOf(c) && Holds(d, p + 4, Words(c.insns))
    && (c.tries != [] ==>
          var q := RoundUp(p + 4 + 2 * |c.insns|, 4);
          Holds(d, q, TryBytes(c.tries)) && Holds(d, q + 8 * |c.tries|, c.handlers))
  }

  lemma HoldsConcat(d: seq<byte>, p: nat, a: seq<byte>, b: seq<byte>)
    requires Holds(d, p, a + b)
    ensures Holds(d, p, a) && Holds(d, p + |a|, b)
  {
    hide Get;
    forall i | p <= i < p + |a| ensures Get(d, i) == a[i - p] { assert Get(d, i) == (a + b)[i - p]; }
    forall i | p + |a| <= i < p + |a| + |b| ensures Get(d, i) == b[i - p - |a|] { assert Get(d, i) == (a + b)[i - p]; }
  }

  lemma HalfIs(d: seq<byte>, p: nat, v: u16)
    requires Holds(d, p, LE16(v))
    ensures Half(d, p) == v
  {
    hide Get;
    assert Get(d, p) == LE16(v)[0] && Get(d, p + 1) == LE16(v)[1];
  }

  lemma {:induction false} WordIs(d: seq<byte>, p: nat, ws: seq<u16>, i: nat)
    requires Holds(d, p, Words(ws)) && i < |ws|
    ensures Half(d, p + 2 * i) == ws[i]
    decreases i
  {
    hide Get, LE16, Half, Holds;
    HoldsConcat(d, p, LE16(ws[0]), Words(ws[1..]));
    if i == 0 {
      HalfIs(d, p, ws[0]);
    } else {
      WordIs(d, p + 2, ws[1..], i - 1);
    }
  }

  /** The preheader and the packed sizes are decoded. */
  lemma SizesStand(d: seq<byte>, p: nat, z: Sizes)
    requires p >= 2 * |Preheader(z)| && Holds(d, p - 2 * |Preheader(z)|, Words(Preheader(z)))
    requires Holds(d, p, LE16(Fields(z)) + LE16(CountAndFlags(z)))
    ensures DecodeAt(d, p) == z
  {
    hide Get, LE16, Half, Holds, Preheader, Fields, CountAndFlags, Decode;
    HoldsConcat(d, p, LE16(Fields(z)), LE16(CountAndFlags(z)));
    HalfIs(d, p, Fields(z));
    HalfIs(d, p + 2, CountAndFlags(z));
    var word := WordsBelow(d, p);
    var pre := Preheader(z);
    forall k | 0 <= k < |pre| ensures word(k) == FromEnd(pre, k) {
      WordIs(d, p - 2 * |pre|, pre, |pre| - 1 - k);
    }
    SizesRoundTrip(z, word);
  }

  lemma RangeParts(d: seq<byte>, f: Payloads, c: Code, s: nat)
    requires Holds(d, s, Range(f, c, s))
    ensures var p := ItemStart(f, c, s);
            && Holds(d, p - |PreBytes(c)|, PreBytes(c)) && Holds(d, p, HeadBytes(c))
            && Holds(d, p + |HeadBytes(c)|, TailBytes(c, p + |HeadBytes(c)|))
  {
    hide Holds, Lead, PreBytes, HeadBytes, TailBytes;
    var p := ItemStart(f, c, s);
    var tail := TailBytes(c, p + |HeadBytes(c)|);
    HoldsConcat(d, s, ZeroBytes(Lead(f, c, s)) + PreBytes(c) + HeadBytes(c), tail);
    HoldsConcat(d, s, ZeroBytes(Lead(f, c, s)) + PreBytes(c), HeadBytes(c));
    HoldsConcat(d, s, ZeroBytes(Lead(f, c, s)), PreBytes(c));
  }

  lemma TailParts(d: seq<byte>, c: Code, q: nat)
    requires Holds(d, q, TailBytes(c, q)) && c.tries != []
    ensures Holds(d, RoundUp(q, 4), TryBytes(c.tries)) && Holds(d, RoundUp(q, 4) + 8 * |c.tries|, c.handlers)
  {
    hide Holds, TryBytes, RoundUp;
    var n := RoundUp(q, 4) - q;
    HoldsConcat(d, q, ZeroBytes(n) + TryBytes(c.tries), c.handlers);
    HoldsConcat(d, q, ZeroBytes(n), TryBytes(c.tries));
    DiskItems.TryLength(c.tries);
  }

  /** A code item that was laid out is found again. */
  lemma RangeDecodes(d: seq<byte>, f: Payloads, c: Code, s: nat)
    requires Holds(d, s, Range(f, c, s))
    ensures CodeAt(d, ItemStart(f, c, s), c)
  {
    hide Holds, Words, TryBytes, TailBytes, Preheader, Fields, CountAndFlags, LE16, RoundUp, Decode, Range, Lead,
      DecodeAt;
    var p, z := ItemStart(f, c, s), SizesOf(c);
    RangeParts(d, f, c, s);
    DiskItems.WordsLength(Preheader(z));
    DiskItems.WordsLength(c.insns);
    HoldsConcat(d, p, LE16(Fields(z)) + LE16(CountAndFlags(z)), Words(c.insns));
    SizesStand(d, p, z);
    if c.tries != [] {
      TailParts(d, c, p + |HeadBytes(c)|);
    }
  }

  lemma SameBytes(d: seq<byte>, p: nat, x: seq<byte>, y: seq<byte>)
    requires Holds(d, p, x) && Holds(d, p, y) && |x| == |y|
    ensures x == y
  {
    hide Get;
    forall i | 0 <= i < |x| ensures x[i] == y[i] { assert Get(d, p + i) == x[i]; }
  }

  lemma WordsInjective(x: seq<u16>, y: seq<u16>)
    requires Words(x) == Words(y) && |x| == |y|
    ensures x == y
  {
    hide Words;
    DiskItems.HalvesBack(Words(x), 0, x);
    DiskItems.HalvesBack(Words(x), 0, y);
  }

  lemma TriesInjective(x: seq<TryItem>, y: seq<TryItem>)
    requires TryBytes(x) == TryBytes(y) && |x| == |y|
    ensures x == y
  {
    hide TryBytes;
    DiskItems.TriesBack(TryBytes(x), 0, x);
    DiskItems.TriesBack(TryBytes(x), 0, y);
  }

  lemma TablesEqual(d: seq<byte>, p: nat, x: seq<byte>, y: seq<byte>)
    requires Holds(d, p, x) && Holds(d, p, y) && IsTable(x) && IsTable(y)
    ensures x == y
  {
    hide CatchHandlers.Table, CatchHandlers.ValidTable, Get;
    var es :| CatchHandlers.ValidTable(es) && x == CatchHandlers.Table(es);
    var fs :| CatchHandlers.ValidTable(fs) && y == CatchHandlers.Table(fs);
    var n := if |x| > |y| then |x| else |y|;
    var s := seq<byte>(n, i requires 0 <= i => Get(d, p + i));
    assert At(s, 0, x) by { forall i | 0 <= i < |x| ensures s[i] == x[i] { assert Get(d, p + i) == x[i]; } }
    assert At(s, 0, y) by { forall i | 0 <= i < |y| ensures s[i] == y[i] { assert Get(d, p + i) == y[i]; } }
    CatchHandlers.TableUnique(s, 0, es, fs);
  }

  /** At one offset only one code item is found. */
  lemma CodeUnique(d: seq<byte>, p: nat, b: Code, c: Code)
    requires CodeAt(d, p, b) && CodeAt(d, p, c) && WellFormed(b) && WellFormed(c)
    ensures b == c
  {
    hide DecodeAt, Holds, Words, TryBytes, IsTable, RoundUp;
    assert |b.insns| == |c.insns| && |b.tries| == |c.tries|;
    DiskItems.WordsLength(b.insns);
    DiskItems.WordsLength(c.insns);
    SameBytes(d, p + 4, Words(b.insns), Words(c.insns));
    WordsInjective(b.insns, c.insns);
    if b.tries != [] {
      var q := RoundUp(p + 4 + 2 * |c.insns|, 4);
      DiskItems.TryLength(b.tries);
      DiskItems.TryLength(c.tries);
      SameBytes(d, q, TryBytes(b.tries), TryBytes(c.tries));
      TriesInjective(b.tries, c.tries);
      TablesEqual(d, q + 8 * |c.tries|, b.handlers, c.handlers);
    }
  }
}
