/**
 * The hidden-API section: a word with its size, a word per class with the position of its flags or 0,
 * and the flags of each class's members as unsigned LEB128. Written by WriteHiddenapiClassData of
 * dexlayout/dex_writer.cc, read by AddHiddenapiClassDataFromMapListSection of dexlayout/dex_ir_builder.cc.
 */
module HiddenApi {
  import opened Bytes
  import opened Leb128
  import opened Sequences
  import opened Streams

  /** A class by its members, each a distinct item, and their flags if it has any. */
  datatype Class = Class(
    staticFields: seq<nat>,
    instanceFields: seq<nat>,
    directMethods: seq<nat>,
    virtualMethods: seq<nat>,
    flags: Option<map<nat, u32>>)

  function Members(c: Class): seq<nat> {
    c.staticFields + c.instanceFields + c.directMethods + c.virtualMethods
  }

  /** If a class has flags, each of its members does, and nothing else. */
  ghost predicate ValidClass(c: Class) {
    Distinct(Members(c)) && (c.flags.Some? ==> forall m :: m in c.flags.value <==> m in Members(c))
  }

  /** The flags of a member: 0 if its class has none. */
  function GetFlags(flags: Option<map<nat, u32>>, m: nat): u32
    requires flags.Some? ==> m in flags.value
  {
    if flags.None? then 0 else flags.value[m]
  }

  // The section, independently of how it is written.

  function FlagBytes(flags: map<nat, u32>, ms: seq<nat>): seq<byte>
    requires forall m :: m in ms ==> m in flags
  {
    if ms == [] then [] else FlagBytes(flags, ms[..|ms| - 1]) + Uleb(flags[ms[|ms| - 1]])
  }

  /** A class has an entry exactly when some member's flags are not zero. */
  ghost predicate Present(c: Class) {
    c.flags.Some? && exists m :: m in c.flags.value && c.flags.value[m] != 0
  }

  ghost function ClassBytes(c: Class): seq<byte>
    requires ValidClass(c)
  {
    if Present(c) then FlagBytes(c.flags.value, Members(c)) else []
  }

  ghost predicate ValidAll(cs: seq<Class>) {
    forall i :: 0 <= i < |cs| ==> ValidClass(cs[i])
  }

  /** The flags of the first `k` classes. */
  ghost function Bodies(cs: seq<Class>, k: nat): seq<byte>
    requires ValidAll(cs) && k <= |cs|
  {
    if k == 0 then [] else Bodies(cs, k - 1) + ClassBytes(cs[k - 1])
  }

  /** Where the flags of class `k` start, or where they would. */
  ghost function Start(cs: seq<Class>, k: nat): nat
    requires ValidAll(cs) && k <= |cs|
  {
    4 * (|cs| + 1) + |Bodies(cs, k)|
  }

  ghost predicate Fits(cs: seq<Class>) {
    ValidAll(cs) && Start(cs, |cs|) < 0x1_0000_0000
  }

  ghost function Word(cs: seq<Class>, i: nat): u32
    requires Fits(cs) && i < |cs|
  {
    StartsGrow(cs, i, |cs|);
    if Present(cs[i]) then Start(cs, i) else 0
  }

  lemma {:induction false} StartsGrow(cs: seq<Class>, i: nat, k: nat)
    requires ValidAll(cs) && i <= k <= |cs|
    ensures Start(cs, i) <= Start(cs, k)
    decreases k
  {
    hide ClassBytes, ValidClass;
    if i < k {
      StartsGrow(cs, i, k - 1);
    }
  }

  /** The header: total size, and a word per class. */
  ghost function Words(cs: seq<Class>, k: nat): seq<byte>
    requires Fits(cs) && k <= |cs|
  {
    if k == 0 then LE32(Start(cs, |cs|)) else Words(cs, k - 1) + LE32(Word(cs, k - 1))
  }

  ghost function Section(cs: seq<Class>): seq<byte>
    requires Fits(cs)
  {
    Words(cs, |cs|) + Bodies(cs, |cs|)
  }

  lemma {:induction false} WordsLength(cs: seq<Class>, k: nat)
    requires Fits(cs) && k <= |cs|
    ensures |Words(cs, k)| == 4 * (k + 1)
  {
    if k > 0 {
      WordsLength(cs, k - 1);
    }
  }

  // Sizes are summed in the order of the map, flags are written in the order of the members.

  function Size(flags: map<nat, u32>, ms: seq<nat>): nat
    requires forall m :: m in ms ==> m in flags
  {
    if ms == [] then 0 else Size(flags, ms[..|ms| - 1]) + |Uleb(flags[ms[|ms| - 1]])|
  }

  lemma {:induction false} SizeIsLength(flags: map<nat, u32>, ms: seq<nat>)
    requires forall m :: m in ms ==> m in flags
    ensures Size(flags, ms) == |FlagBytes(flags, ms)|
  {
    if ms != [] {
      SizeIsLength(flags, ms[..|ms| - 1]);
    }
  }

  function Without(ms: seq<nat>, j: nat): seq<nat>
    requires j < |ms|
  {
    ms[..j] + ms[j + 1..]
  }

  lemma {:induction false} SizeWithout(flags: map<nat, u32>, ms: seq<nat>, j: nat)
    requires j < |ms| && forall m :: m in ms ==> m in flags
    ensures forall m :: m in Without(ms, j) ==> m in flags
    ensures Size(flags, Without(ms, j)) + |Uleb(flags[ms[j]])| == Size(flags, ms)
  {
    hide Uleb;
    var n := |ms| - 1;
    if j < n {
      SizeWithout(flags, ms[..n], j);
      assert Without(ms, j)[..n - 1] == Without(ms[..n], j);
    } else {
      assert Without(ms, j) == ms[..n];
    }
  }

  /** What is left of the members when the keys `rest` of the map have not been visited. */
  ghost predicate Left(ms: seq<nat>, rest: set<nat>) {
    Distinct(ms) && forall m :: m in ms <==> m in rest
  }

  lemma LeftLess(ms: seq<nat>, rest: set<nat>, j: nat)
    requires Left(ms, rest) && j < |ms|
    ensures Left(Without(ms, j), rest - {ms[j]})
  {
    var less := Without(ms, j);
    forall m | m in rest && m != ms[j] ensures m in less {
      var i :| 0 <= i < |ms| && ms[i] == m;
      assert less[if i < j then i else i - 1] == m;
    }
  }

  /** ItemSize: the keys of the map come in any order. */
  method ItemSize(c: Class) returns (size: u32)
    requires ValidClass(c) && |ClassBytes(c)| < 0x1_0000_0000
    ensures size == |ClassBytes(c)|
    ensures size == 0 <==> !Present(c)
  {
    hide FlagBytes, Size, Uleb, Without, Members, Distinct;
    var sum := 0;
    var nonZero := false;
    if c.flags.Some? {
      var flags := c.flags.value;
      var rest := flags.Keys;
      ghost var ms := Members(c);
      while rest != {}
        invariant rest <= flags.Keys && Left(ms, rest)
        invariant sum + Size(flags, ms) == Size(flags, Members(c))
        invariant nonZero <==> exists m :: m in flags && m !in rest && flags[m] != 0
      {
        var m :| m in rest;
        ghost var j :| 0 <= j < |ms| && ms[j] == m;
        SizeWithout(flags, ms, j);
        LeftLess(ms, rest, j);
        sum := sum + UnsignedLeb128Size(flags[m]);
        nonZero := nonZero || flags[m] != 0;
        rest := rest - {m};
        ms := Without(ms, j);
      }
      if ms != [] {
        SomeLeft(ms, rest);
      }
      NoSize(flags);
      SizeIsLength(flags, Members(c));
      SomeSize(flags, Members(c));
    }
    size := if nonZero then sum else 0;
  }

  lemma SomeLeft(ms: seq<nat>, rest: set<nat>)
    requires Left(ms, rest) && ms != []
    ensures rest != {}
  {
    assert ms[0] in rest;
  }

  lemma NoSize(flags: map<nat, u32>)
    ensures Size(flags, []) == 0
  {
  }

  lemma SomeSize(flags: map<nat, u32>, ms: seq<nat>)
    requires forall m :: m in ms ==> m in flags
    ensures ms != [] ==> Size(flags, ms) > 0
  {
  }

  // Writing.

  /** The words of the header. */
  ghost predicate HeaderRight(cs: seq<Class>, header: seq<u32>, k: nat)
    requires Fits(cs) && k <= |cs|
  {
    |header| == |cs| + 1 && header[0] == Start(cs, k) && forall j :: 0 <= j < k ==> header[j + 1] == Word(cs, j)
  }

  method ComputeHeader(cs: seq<Class>) returns (header: seq<u32>)
    requires Fits(cs)
    ensures HeaderRight(cs, header, |cs|)
  {
    hide ClassBytes, ValidClass, Present;
    header := seq<u32>(|cs| + 1, i => 0);
    StartsGrow(cs, 0, |cs|);
    header := header[0 := 4 * (|cs| + 1)];
    for i := 0 to |cs|
      invariant HeaderRight(cs, header, i)
    {
      StartsGrow(cs, i + 1, |cs|);
      var itemSize := ItemSize(cs[i]);
      header := header[i + 1 := if itemSize == 0 then 0 else header[0]];
      header := header[0 := header[0] + itemSize];
    }
  }

  function WordBytes(header: seq<u32>): seq<byte> {
    if header == [] then [] else WordBytes(header[..|header| - 1]) + LE32(header[|header| - 1])
  }

  lemma {:induction false} HeaderBytes(cs: seq<Class>, header: seq<u32>, k: nat)
    requires Fits(cs) && HeaderRight(cs, header, |cs|) && k <= |cs|
    ensures WordBytes(header[..k + 1]) == Words(cs, k)
  {
    hide LE32, Word, Start, Fits;
    if k == 0 {
      assert header[..1] == [header[0]] && header[..1][..0] == [];
      assert WordBytes([]) == [];
      assert Words(cs, 0) == LE32(header[0]);
    } else {
      HeaderBytes(cs, header, k - 1);
      assert header[..k + 1][..k] == header[..k];
    }
  }

  /** The flags of one list of members. */
  method WriteFlags(stream: Stream, flags: map<nat, u32>, ms: seq<nat>, ghost before: seq<byte>, ghost p: nat,
                    ghost bs: seq<byte>)
    requires forall m :: m in ms ==> m in flags
    requires stream.position == p + |bs| && Put(before, stream.section.data, p, bs)
    modifies stream`position, stream.section
    ensures stream.position == p + |bs| + |FlagBytes(flags, ms)|
    ensures Put(before, stream.section.data, p, bs + FlagBytes(flags, ms))
  {
    hide Uleb, Put;
    assert bs + FlagBytes(flags, []) == bs;
    for i := 0 to |ms|
      invariant stream.position == p + |bs| + |FlagBytes(flags, ms[..i])|
      invariant Put(before, stream.section.data, p, bs + FlagBytes(flags, ms[..i]))
    {
      ghost var was, done := stream.section.data, bs + FlagBytes(flags, ms[..i]);
      stream.WriteUleb128(flags[ms[i]]);
      PutIntro(was, stream.section.data, p + |done|, Uleb(flags[ms[i]]));
      PutMore(before, was, stream.section.data, p, done, Uleb(flags[ms[i]]));
      assert ms[..i + 1][..i] == ms[..i];
      assert done + Uleb(flags[ms[i]]) == bs + FlagBytes(flags, ms[..i + 1]);
    }
    assert ms[..|ms|] == ms;
  }

  lemma {:induction false} FlagBytesJoin(flags: map<nat, u32>, a: seq<nat>, b: seq<nat>)
    requires (forall m :: m in a ==> m in flags) && forall m :: m in b ==> m in flags
    ensures FlagBytes(flags, a + b) == FlagBytes(flags, a) + FlagBytes(flags, b)
  {
    if b == [] {
      assert a + b == a;
    } else {
      var n := |b| - 1;
      FlagBytesJoin(flags, a, b[..n]);
      assert (a + b)[..|a + b| - 1] == a + b[..n];
    }
  }

  /** The four lists of a class, one after the other. */
  method WriteClass(stream: Stream, c: Class, ghost before: seq<byte>, ghost p: nat, ghost bs: seq<byte>)
    requires ValidClass(c) && c.flags.Some?
    requires stream.position == p + |bs| && Put(before, stream.section.data, p, bs)
    modifies stream`position, stream.section
    ensures var more := FlagBytes(c.flags.value, Members(c));
            stream.position == p + |bs + more| && Put(before, stream.section.data, p, bs + more)
  {
    hide FlagBytes, Put, Distinct;
    var flags := c.flags.value;
    ghost var s, i, d, v := c.staticFields, c.instanceFields, c.directMethods, c.virtualMethods;
    FlagBytesJoin(flags, s, i);
    FlagBytesJoin(flags, s + i, d);
    FlagBytesJoin(flags, s + i + d, v);
    WriteFlags(stream, flags, c.staticFields, before, p, bs);
    WriteFlags(stream, flags, c.instanceFields, before, p, bs + FlagBytes(flags, s));
    assert bs + FlagBytes(flags, s) + FlagBytes(flags, i) == bs + FlagBytes(flags, s + i);
    WriteFlags(stream, flags, c.directMethods, before, p, bs + FlagBytes(flags, s + i));
    assert bs + FlagBytes(flags, s + i) + FlagBytes(flags, d) == bs + FlagBytes(flags, s + i + d);
    WriteFlags(stream, flags, c.virtualMethods, before, p, bs + FlagBytes(flags, s + i + d));
    assert bs + FlagBytes(flags, s + i + d) + FlagBytes(flags, v) == bs + FlagBytes(flags, Members(c));
  }

  /** The flags of all classes that have some, each at the position its word says. */
  method WriteBodies(stream: Stream, cs: seq<Class>, header: seq<u32>, ghost before: seq<byte>, start: nat,
                     ghost words: seq<byte>)
    returns (failed: bool)
    requires Fits(cs) && HeaderRight(cs, header, |cs|) && |words| == 4 * (|cs| + 1)
    requires stream.position == start + |words| && Put(before, stream.section.data, start, words)
    modifies stream`position, stream.section
    ensures !failed && stream.position == start + |words + Bodies(cs, |cs|)|
    ensures Put(before, stream.section.data, start, words + Bodies(cs, |cs|))
  {
    hide Put, HeaderRight, Bodies, ClassBytes, ValidClass, Present, FlagBytes, Fits;
    failed := false;
    assert ValidAll(cs) by { FitsValid(cs); }
    assert words + Bodies(cs, 0) == words by { NoBodies(cs); }
    for i := 0 to |cs|
      invariant !failed && stream.position == start + |words + Bodies(cs, i)|
      invariant Put(before, stream.section.data, start, words + Bodies(cs, i))
    {
      BodiesMore(cs, i);
      HeaderWord(cs, header, i);
      if header[i + 1] != 0 {
        failed := failed || header[i + 1] != stream.position - start;
        WriteClass(stream, cs[i], before, start, words + Bodies(cs, i));
        assert words + Bodies(cs, i) + FlagBytes(cs[i].flags.value, Members(cs[i])) == words + Bodies(cs, i + 1);
      } else {
        assert words + Bodies(cs, i) == words + Bodies(cs, i + 1);
      }
    }
  }

  lemma FitsValid(cs: seq<Class>)
    requires Fits(cs)
    ensures ValidAll(cs)
  {
  }

  /** Writes the section; `failed` is whether one of its position checks fails. */
  method WriteHiddenapiClassData(stream: Stream, cs: seq<Class>) returns (start: nat, failed: bool)
    requires Fits(cs)
    modifies stream, stream.section
    ensures !failed
    ensures cs == [] ==> stream.position == old(stream.position) && Same(old(stream.section.data), stream.section.data)
    ensures cs != [] ==> start == RoundUp(old(stream.position), 4) && stream.position == start + |Section(cs)|
                         && Put(old(stream.section.data), stream.section.data, start, Section(cs))
    ensures stream.clobbered <==>
              old(stream.clobbered) || (cs != [] && !Zero(old(stream.section.data), start, start + 4 * (|cs| + 1)))
  {
    hide Put, WordBytes, HeaderRight, Words, Bodies, ClassBytes, Same, ValidClass, Zero;
    failed := false;
    if cs == [] {
      SameAsItself(stream.section.data);
      return stream.position, false;
    }
    ghost var before := stream.section.data;
    stream.AlignTo(4);
    start := stream.position;
    var header := ComputeHeader(cs);
    ghost var words := Words(cs, |cs|);
    assert WordBytes(header) == words by {
      HeaderBytes(cs, header, |cs|);
      HeaderLength(cs, header);
      assert header[..|cs| + 1] == header;
    }
    HeaderLength(cs, header);
    ghost var was := stream.section.data;
    WordsLength(cs, |cs|);
    stream.Write(WordBytes(header));
    ZeroAfterSame(before, was, start, stream.position);
    PutIntro(was, stream.section.data, start, words);
    PutAfterSame(before, was, stream.section.data, start, words);
    failed := WriteBodies(stream, cs, header, before, start, words);
    HeaderTotal(cs, header);
    failed := failed || stream.position - start != header[0];
  }

  lemma SameAsItself(d: seq<byte>)
    ensures Same(d, d)
  {
  }

  lemma ZeroAfterSame(a: seq<byte>, b: seq<byte>, from: nat, to: nat)
    requires Same(a, b)
    ensures Zero(a, from, to) <==> Zero(b, from, to)
  {
    if Zero(a, from, to) {
      forall i: nat | from <= i < to ensures Get(b, i) == 0 { assert Get(a, i) == 0; }
    } else {
      var i: nat :| from <= i < to && Get(a, i) != 0;
      assert Get(b, i) != 0;
    }
  }

  lemma PutAfterSame(a: seq<byte>, b: seq<byte>, c: seq<byte>, p: nat, bs: seq<byte>)
    requires Same(a, b) && Put(b, c, p, bs)
    ensures Put(a, c, p, bs)
  {
    forall i: nat | i < p || p + |bs| <= i ensures Get(c, i) == Get(a, i) {
      assert Get(b, i) == Get(a, i);
    }
  }

  lemma NoBodies(cs: seq<Class>)
    requires ValidAll(cs)
    ensures Bodies(cs, 0) == []
  {
  }

  lemma HeaderLength(cs: seq<Class>, header: seq<u32>)
    requires Fits(cs) && HeaderRight(cs, header, |cs|)
    ensures |header| == |cs| + 1
  {
  }

  lemma HeaderTotal(cs: seq<Class>, header: seq<u32>)
    requires Fits(cs) && HeaderRight(cs, header, |cs|)
    ensures |header| == |cs| + 1 && header[0] == 4 * (|cs| + 1) + |Bodies(cs, |cs|)|
  {
  }

  lemma HeaderWord(cs: seq<Class>, header: seq<u32>, i: nat)
    requires Fits(cs) && HeaderRight(cs, header, |cs|) && i < |cs|
    ensures |header| == |cs| + 1 && (header[i + 1] != 0 <==> Present(cs[i]))
    ensures Present(cs[i]) ==> header[i + 1] == 4 * (|cs| + 1) + |Bodies(cs, i)| && cs[i].flags.Some?
  {
    hide Bodies;
    assert header[i + 1] == Word(cs, i);
  }

  lemma BodiesMore(cs: seq<Class>, i: nat)
    requires ValidAll(cs) && i < |cs|
    ensures ValidClass(cs[i])
    ensures Bodies(cs, i + 1) ==
            Bodies(cs, i) + if Present(cs[i]) then FlagBytes(cs[i].flags.value, Members(cs[i])) else []
  {
  }

  // Reading.

  lemma {:induction false} WordAt(s: seq<byte>, base: nat, cs: seq<Class>, n: nat, k: nat)
    requires Fits(cs) && k <= n <= |cs| && At(s, base, Words(cs, n))
    ensures At(s, base + 4 * k, LE32(if k == 0 then Start(cs, |cs|) else Word(cs, k - 1)))
    decreases n
  {
    hide LE32, Word, Start, Fits;
    if n > 0 {
      WordsLength(cs, n - 1);
      AtConcat(s, base, Words(cs, n - 1), LE32(Word(cs, n - 1)));
      if k < n {
        WordAt(s, base, cs, n - 1, k);
      }
    }
  }

  lemma {:induction false} BodyAt(s: seq<byte>, p: nat, cs: seq<Class>, n: nat, k: nat)
    requires ValidAll(cs) && k < n <= |cs| && At(s, p, Bodies(cs, n))
    ensures At(s, p + |Bodies(cs, k)|, ClassBytes(cs[k]))
    decreases n
  {
    hide ClassBytes, ValidClass;
    AtConcat(s, p, Bodies(cs, n - 1), ClassBytes(cs[n - 1]));
    if k < n - 1 {
      BodyAt(s, p, cs, n - 1, k);
    }
  }

  lemma WordRead(s: seq<byte>, base: nat, cs: seq<Class>, k: nat)
    requires Fits(cs) && At(s, base, Section(cs)) && k < |cs|
    ensures base + 4 * (k + 1) + 4 <= |s| && ReadU32(s, base) == |Section(cs)|
    ensures ReadU32(s, base + 4 * (k + 1)) == Word(cs, k)
  {
    hide Section, Bodies, Words, LE32, ReadU32, At, Word, Start, ValidAll;
    SectionParts(s, base, cs);
    WordAt(s, base, cs, |cs|, 0);
    WordAt(s, base, cs, |cs|, k + 1);
    LE32RoundTrip(s, base, Start(cs, |cs|));
    LE32RoundTrip(s, base + 4 * (k + 1), Word(cs, k));
  }

  lemma {:induction false} FlagFound(flags: map<nat, u32>, ms: seq<nat>, s: seq<byte>, p: nat, i: nat)
    requires (forall m :: m in ms ==> m in flags) && At(s, p, FlagBytes(flags, ms)) && i < |ms|
    ensures At(s, p + |FlagBytes(flags, ms[..i])|, Uleb(flags[ms[i]]))
  {
    hide At, Uleb;
    var n := |ms| - 1;
    AtConcat(s, p, FlagBytes(flags, ms[..n]), Uleb(flags[ms[n]]));
    if i < n {
      FlagFound(flags, ms[..n], s, p, i);
      assert ms[..n][..i] == ms[..i];
    }
  }

  /** Flags come member by member: static fields, instance fields, direct methods, virtual methods. */
  lemma FlagsInOrder(c: Class, s: seq<byte>, p: nat, i: nat)
    requires ValidClass(c) && Present(c) && At(s, p, ClassBytes(c))
    requires i < |c.staticFields + c.instanceFields + c.directMethods + c.virtualMethods|
    ensures var ms := c.staticFields + c.instanceFields + c.directMethods + c.virtualMethods;
            && (forall m :: m in ms ==> m in c.flags.value)
            && At(s, p + |FlagBytes(c.flags.value, ms[..i])|, Uleb(c.flags.value[ms[i]]))
  {
    hide At, Uleb, FlagBytes, Distinct;
    FlagFound(c.flags.value, Members(c), s, p, i);
  }

  /**
   * The section is consistent in itself: its first word is its size, and a class's word the position
   * of its flags, or 0.
   */
  lemma SectionConsistent(s: seq<byte>, base: nat, cs: seq<Class>, k: nat)
    requires Fits(cs) && At(s, base, Section(cs)) && k < |cs|
    ensures base + 4 * (k + 1) + 4 <= |s| && ReadU32(s, base) == |Section(cs)|
    ensures var w := ReadU32(s, base + 4 * (k + 1));
            (w != 0 <==> Present(cs[k])) && (w != 0 ==> At(s, base + w, ClassBytes(cs[k])))
  {
    hide Section, Bodies, Words, ReadU32, At, ClassBytes, Present, ValidClass;
    SectionParts(s, base, cs);
    WordRead(s, base, cs, k);
    BodyAt(s, base + 4 * (|cs| + 1), cs, |cs|, k);
  }

  lemma SectionParts(s: seq<byte>, base: nat, cs: seq<Class>)
    requires Fits(cs) && At(s, base, Section(cs))
    ensures At(s, base, Words(cs, |cs|)) && At(s, base + 4 * (|cs| + 1), Bodies(cs, |cs|))
    ensures |Section(cs)| == Start(cs, |cs|) && base + 4 * (|cs| + 1) <= |s|
  {
    hide Words, Bodies;
    WordsLength(cs, |cs|);
    AtConcat(s, base, Words(cs, |cs|), Bodies(cs, |cs|));
  }

  ghost function Only(flags: map<nat, u32>, ms: seq<nat>): map<nat, u32>
    requires forall m :: m in ms ==> m in flags
  {
    map m | m in ms :: flags[m]
  }

  lemma {:induction false} FlagAt(s: seq<byte>, p: nat, flags: map<nat, u32>, ms: seq<nat>, k: nat)
    requires k < |ms| && (forall m :: m in ms ==> m in flags) && At(s, p, FlagBytes(flags, ms))
    ensures At(s, p + |FlagBytes(flags, ms[..k])|, Uleb(flags[ms[k]]))
    decreases ms
  {
    hide Uleb;
    var n := |ms| - 1;
    AtConcat(s, p, FlagBytes(flags, ms[..n]), Uleb(flags[ms[n]]));
    if k < n {
      FlagAt(s, p, flags, ms[..n], k);
      assert ms[..n][..k] == ms[..k];
    }
  }

  method ReadFlags(s: seq<byte>, p: nat, ms: seq<nat>, got: map<nat, u32>, ghost flags: map<nat, u32>,
                   ghost done: seq<nat>)
    returns (more: map<nat, u32>, q: nat)
    requires (forall m :: m in done + ms ==> m in flags) && Distinct(done + ms)
    requires got == Only(flags, done) && At(s, p, FlagBytes(flags, ms))
    ensures more == Only(flags, done + ms) && q == p + |FlagBytes(flags, ms)|
  {
    hide At, DecodeUnsigned, Uleb;
    more, q := got, p;
    assert done + ms[..0] == done;
    for i := 0 to |ms|
      invariant more == Only(flags, done + ms[..i]) && q == p + |FlagBytes(flags, ms[..i])|
    {
      FlagAt(s, p, flags, ms, i);
      UlebRoundTrip(s, q, flags[ms[i]]);
      var r := DecodeUnsigned(s, q);
      assert (done + ms)[|done| + i] == ms[i];
      assert ms[i] !in more by { NotYet(done, ms, i); }
      if ms[i] !in more {
        more := more[ms[i] := r.value.0];
      }
      q := r.value.1;
      assert done + ms[..i + 1] == done + ms[..i] + [ms[i]];
      assert ms[..i + 1][..i] == ms[..i];
    }
    assert ms[..|ms|] == ms;
  }

  lemma NotYet(done: seq<nat>, ms: seq<nat>, i: nat)
    requires i < |ms| && Distinct(done + ms)
    ensures ms[i] !in done + ms[..i]
  {
    var all, some := done + ms, done + ms[..i];
    forall j | 0 <= j < |some| ensures some[j] != ms[i] {
      assert some[j] == all[j] && all[|done| + i] == ms[i];
    }
  }

  /** The flags of one class, list by list. */
  method ReadClass(s: seq<byte>, p: nat, c: Class, ghost flags: map<nat, u32>) returns (got: map<nat, u32>)
    requires Distinct(Members(c)) && (forall m :: m in flags <==> m in Members(c))
    requires At(s, p, FlagBytes(flags, Members(c)))
    ensures got == flags
  {
    hide At, FlagBytes;
    ghost var a, b, d, v := c.staticFields, c.instanceFields, c.directMethods, c.virtualMethods;
    FlagBytesJoin(flags, a, b);
    FlagBytesJoin(flags, a + b, d);
    FlagBytesJoin(flags, a + b + d, v);
    AtConcat(s, p, FlagBytes(flags, a + b + d), FlagBytes(flags, v));
    AtConcat(s, p, FlagBytes(flags, a + b), FlagBytes(flags, d));
    AtConcat(s, p, FlagBytes(flags, a), FlagBytes(flags, b));
    PartsDistinct(a, b, d, v);
    var q;
    got, q := ReadFlags(s, p, c.staticFields, map[], flags, []);
    assert [] + a == a;
    got, q := ReadFlags(s, q, c.instanceFields, got, flags, a);
    got, q := ReadFlags(s, q, c.directMethods, got, flags, a + b);
    got, q := ReadFlags(s, q, c.virtualMethods, got, flags, a + b + d);
  }

  lemma PartsDistinct(a: seq<nat>, b: seq<nat>, d: seq<nat>, v: seq<nat>)
    requires Distinct(a + b + d + v)
    ensures Distinct([] + a) && Distinct(a + b) && Distinct(a + b + d)
  {
    DistinctPrefix(a + b + d + v, a + b + d);
    DistinctPrefix(a + b + d + v, a + b);
    DistinctPrefix(a + b + d + v, [] + a);
  }

  lemma DistinctPrefix(s: seq<nat>, t: seq<nat>)
    requires Distinct(s) && t <= s
    ensures Distinct(t)
  {
  }

  /** What reading gives back for a class: its flags, or none when all of them are 0. */
  ghost function ReadBack(c: Class): Option<map<nat, u32>> {
    if Present(c) then c.flags else None
  }

  method ReadHiddenapiClassData(s: seq<byte>, base: nat, shapes: seq<Class>, ghost cs: seq<Class>)
    returns (flags: seq<Option<map<nat, u32>>>)
    requires Fits(cs) && At(s, base, Section(cs))
    requires |shapes| == |cs| && forall i :: 0 <= i < |cs| ==> shapes[i] == cs[i].(flags := None)
    ensures |flags| == |cs| && forall i :: 0 <= i < |cs| ==> flags[i] == ReadBack(cs[i])
  {
    hide At, Section, Words, Bodies, FlagBytes, ReadU32, Distinct;
    flags := [];
    for i := 0 to |shapes|
      invariant |flags| == i && forall j :: 0 <= j < i ==> flags[j] == ReadBack(cs[j])
    {
      SectionConsistent(s, base, cs, i);
      var w := ReadU32(s, base + 4 * (i + 1));
      if w == 0 {
        flags := flags + [None];
      } else {
        assert ValidClass(cs[i]) && Members(shapes[i]) == Members(cs[i]);
        var got := ReadClass(s, base + w, shapes[i], cs[i].flags.value);
        flags := flags + [Some(got)];
      }
    }
  }

  /** Every member's flags survive, also in a class whose flags are all 0 and which is read back as having none. */
  lemma FlagsSurvive(c: Class, m: nat)
    requires ValidClass(c) && m in Members(c)
    ensures ReadBack(c).Some? ==> m in ReadBack(c).value
    ensures GetFlags(ReadBack(c), m) == GetFlags(c.flags, m)
  {
  }
}
