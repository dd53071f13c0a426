/**
 * Catch-handler tables: read into a list of handlers by dexlayout/dex_ir_builder.cc, in the order
 * in which try items mention them, and written back by dexlayout/dex_writer.cc at their offsets.
 * The format is encoded_catch_handler_list of the Dalvik Executable format.
 */
module CatchHandlers {
  import opened Bytes
  import opened Leb128
  import opened Sequences
  import opened Streams

  const NO_INDEX_16: u16 := 0xFFFF

  datatype Pair = Pair(typeIndex: u16, address: u32)

  /** An entry of the table. */
  datatype Entry = Entry(pairs: seq<Pair>, catchAll: Option<u32>)

  /** An entry without types is one that catches everything; the type index that means none does not occur. */
  ghost predicate ValidEntry(e: Entry) {
    && |e.pairs| < 0x8000_0000
    && (e.pairs != [] || e.catchAll.Some?)
    && forall i :: 0 <= i < |e.pairs| ==> e.pairs[i].typeIndex != NO_INDEX_16
  }

  function SizeOf(e: Entry): int {
    if e.catchAll.Some? then -|e.pairs| else |e.pairs|
  }

  function PairBytes(p: Pair): seq<byte> {
    Uleb(p.typeIndex) + Uleb(p.address)
  }

  /** The first `k` pairs. */
  function PairsBytes(ps: seq<Pair>, k: nat): seq<byte>
    requires k <= |ps|
  {
    if k == 0 then [] else PairsBytes(ps, k - 1) + PairBytes(ps[k - 1])
  }

  function LastBytes(e: Entry): seq<byte> {
    if e.catchAll.Some? then Uleb(e.catchAll.value) else []
  }

  function EntryBytes(e: Entry): seq<byte> {
    Sleb(SizeOf(e)) + PairsBytes(e.pairs, |e.pairs|) + LastBytes(e)
  }

  /** The number of entries and the first `k` of them. */
  function Prefix(es: seq<Entry>, k: nat): seq<byte>
    requires k <= |es|
  {
    if k == 0 then Uleb(|es|) else Prefix(es, k - 1) + EntryBytes(es[k - 1])
  }

  function Table(es: seq<Entry>): seq<byte> {
    Prefix(es, |es|)
  }

  /** Where entry `k` starts, counted from the start of the table. */
  function Start(es: seq<Entry>, k: nat): nat
    requires k <= |es|
  {
    |Prefix(es, k)|
  }

  ghost predicate ValidTable(es: seq<Entry>) {
    |es| < 0x1_0000_0000 && forall k :: 0 <= k < |es| ==> ValidEntry(es[k])
  }

  /** The offset by which the representation knows entry `k` has sixteen bits, however far the entry is. */
  function Offset16(es: seq<Entry>, k: nat): u16
    requires k <= |es|
  {
    Start(es, k) % 0x1_0000
  }

  /** Every entry starts where a 16-bit offset reaches. */
  ghost predicate InReach(es: seq<Entry>) {
    forall k :: 0 <= k < |es| ==> Start(es, k) < 0x1_0000
  }

  /** No two entries have the same 16-bit offset. */
  ghost predicate Unmixed(es: seq<Entry>) {
    forall j, k :: 0 <= j < k < |es| ==> Offset16(es, j) != Offset16(es, k)
  }

  /** Every try item refers to the start of some entry. */
  ghost predicate ValidTries(es: seq<Entry>, tries: seq<u16>) {
    forall t :: 0 <= t < |tries| ==> exists k :: 0 <= k < |es| && tries[t] == Start(es, k)
  }

  // The intermediate representation.

  datatype TypeAddr = TypeAddr(typeId: Option<u16>, address: u32)

  datatype Handler = Handler(catchAll: bool, listOffset: u16, pairs: seq<TypeAddr>)

  function TypedPairs(ps: seq<Pair>, k: nat): seq<TypeAddr>
    requires k <= |ps|
  {
    seq(k, i requires 0 <= i < k => TypeAddr(Some(ps[i].typeIndex), ps[i].address))
  }

  function AllPairs(e: Entry): seq<TypeAddr> {
    TypedPairs(e.pairs, |e.pairs|) + if e.catchAll.Some? then [TypeAddr(None, e.catchAll.value)] else []
  }

  /** The handler that stands for entry `k`. */
  ghost function HandlerOf(es: seq<Entry>, k: nat): Handler
    requires ValidTable(es) && k < |es|
  {
    Handler(es[k].catchAll.Some?, Offset16(es, k), AllPairs(es[k]))
  }

  // Positions.

  lemma {:induction false} StartsIncrease(es: seq<Entry>, j: nat, k: nat)
    requires j < k <= |es|
    ensures Start(es, j) + |EntryBytes(es[j])| <= Start(es, k)
    ensures Start(es, j) < Start(es, k)
    decreases k
  {
    hide EntryBytes;
    assert |EntryBytes(es[j])| > 0 by { EntryNotEmpty(es[j]); }
    if j < k - 1 {
      StartsIncrease(es, j, k - 1);
    }
  }

  lemma EntryNotEmpty(e: Entry)
    ensures |EntryBytes(e)| > 0
  {
  }

  lemma StartsDistinct(es: seq<Entry>, j: nat, k: nat)
    requires j <= |es| && k <= |es| && Start(es, j) == Start(es, k)
    ensures j == k
  {
    hide Start;
    if j < k {
      StartsIncrease(es, j, k);
    } else if k < j {
      StartsIncrease(es, k, j);
    }
  }

  lemma ReachUnmixed(es: seq<Entry>)
    requires InReach(es)
    ensures Unmixed(es)
  {
    hide Start;
    forall j, k | 0 <= j < k < |es| ensures Offset16(es, j) != Offset16(es, k) {
      StartsIncrease(es, j, k);
    }
  }

  lemma {:induction false} PrefixAt(s: seq<byte>, base: nat, es: seq<Entry>, n: nat, k: nat)
    requires k <= n <= |es| && At(s, base, Prefix(es, n))
    ensures At(s, base, Prefix(es, k)) && At(s, base, Uleb(|es|))
    ensures k < n ==> At(s, base + Start(es, k), EntryBytes(es[k]))
    decreases n
  {
    hide EntryBytes, Uleb;
    if n > 0 {
      AtConcat(s, base, Prefix(es, n - 1), EntryBytes(es[n - 1]));
      PrefixAt(s, base, es, n - 1, if k < n then k else n - 1);
    }
  }

  lemma EntryAt(s: seq<byte>, p: nat, e: Entry)
    requires At(s, p, EntryBytes(e))
    ensures At(s, p, Sleb(SizeOf(e)))
    ensures At(s, p + |Sleb(SizeOf(e))|, PairsBytes(e.pairs, |e.pairs|))
    ensures At(s, p + |Sleb(SizeOf(e))| + |PairsBytes(e.pairs, |e.pairs|)|, LastBytes(e))
  {
    hide Sleb, PairsBytes, LastBytes;
    AtConcat(s, p, Sleb(SizeOf(e)) + PairsBytes(e.pairs, |e.pairs|), LastBytes(e));
    AtConcat(s, p, Sleb(SizeOf(e)), PairsBytes(e.pairs, |e.pairs|));
  }

  lemma {:induction false} PairAt(s: seq<byte>, p: nat, ps: seq<Pair>, n: nat, k: nat)
    requires k < n <= |ps| && At(s, p, PairsBytes(ps, n))
    ensures At(s, p + |PairsBytes(ps, k)|, Uleb(ps[k].typeIndex))
    ensures At(s, p + |PairsBytes(ps, k)| + |Uleb(ps[k].typeIndex)|, Uleb(ps[k].address))
    ensures |PairsBytes(ps, k + 1)| == |PairsBytes(ps, k)| + |Uleb(ps[k].typeIndex)| + |Uleb(ps[k].address)|
    decreases n
  {
    hide Uleb;
    AtConcat(s, p, PairsBytes(ps, n - 1), PairBytes(ps[n - 1]));
    if k == n - 1 {
      AtConcat(s, p + |PairsBytes(ps, k)|, Uleb(ps[k].typeIndex), Uleb(ps[k].address));
    } else {
      PairAt(s, p, ps, n - 1, k);
    }
  }

  // A table is known by its first bytes.

  lemma {:induction false} PairsUnique(s: seq<byte>, p: nat, ps: seq<Pair>, qs: seq<Pair>, k: nat)
    requires |ps| == |qs| && k <= |ps| && At(s, p, PairsBytes(ps, |ps|)) && At(s, p, PairsBytes(qs, |qs|))
    ensures ps[..k] == qs[..k] && PairsBytes(ps, k) == PairsBytes(qs, k)
  {
    hide Uleb, DecodeUnsigned, At;
    if k > 0 {
      PairsUnique(s, p, ps, qs, k - 1);
      var q := p + |PairsBytes(ps, k - 1)|;
      PairAt(s, p, ps, |ps|, k - 1);
      PairAt(s, p, qs, |qs|, k - 1);
      UlebRoundTrip(s, q, ps[k - 1].typeIndex);
      UlebRoundTrip(s, q, qs[k - 1].typeIndex);
      UlebRoundTrip(s, q + |Uleb(ps[k - 1].typeIndex)|, ps[k - 1].address);
      UlebRoundTrip(s, q + |Uleb(ps[k - 1].typeIndex)|, qs[k - 1].address);
      assert ps[..k] == ps[..k - 1] + [ps[k - 1]] && qs[..k] == qs[..k - 1] + [qs[k - 1]];
    }
  }

  lemma CountUnique(s: seq<byte>, p: nat, e: Entry, f: Entry)
    requires ValidEntry(e) && ValidEntry(f) && At(s, p, Sleb(SizeOf(e))) && At(s, p, Sleb(SizeOf(f)))
    ensures SizeOf(e) == SizeOf(f) && |e.pairs| == |f.pairs| && e.catchAll.Some? == f.catchAll.Some?
  {
    hide Sleb, DecodeSigned, At;
    SlebRoundTrip(s, p, SizeOf(e));
    SlebRoundTrip(s, p, SizeOf(f));
  }

  lemma EntryUnique(s: seq<byte>, p: nat, e: Entry, f: Entry)
    requires ValidEntry(e) && ValidEntry(f) && At(s, p, EntryBytes(e)) && At(s, p, EntryBytes(f))
    ensures e == f
  {
    hide *;
    EntryAt(s, p, e);
    EntryAt(s, p, f);
    CountUnique(s, p, e, f);
    var n, q := |e.pairs|, p + |Sleb(SizeOf(e))|;
    PairsUnique(s, q, e.pairs, f.pairs, n);
    assert e.pairs[..n] == e.pairs && f.pairs[..n] == f.pairs;
    if e.catchAll.Some? {
      var r := q + |PairsBytes(e.pairs, n)|;
      LastAt(e);
      LastAt(f);
      UlebRoundTrip(s, r, e.catchAll.value);
      UlebRoundTrip(s, r, f.catchAll.value);
    }
  }

  lemma {:induction false} EntriesUnique(s: seq<byte>, base: nat, es: seq<Entry>, fs: seq<Entry>, k: nat)
    requires ValidTable(es) && ValidTable(fs) && |es| == |fs| && k <= |es|
    requires At(s, base, Table(es)) && At(s, base, Table(fs))
    ensures es[..k] == fs[..k] && Start(es, k) == Start(fs, k)
  {
    hide EntryBytes, Uleb, At, ValidEntry;
    if k > 0 {
      EntriesUnique(s, base, es, fs, k - 1);
      PrefixAt(s, base, es, |es|, k - 1);
      PrefixAt(s, base, fs, |fs|, k - 1);
      EntryUnique(s, base + Start(es, k - 1), es[k - 1], fs[k - 1]);
      assert es[..k] == es[..k - 1] + [es[k - 1]] && fs[..k] == fs[..k - 1] + [fs[k - 1]];
    }
  }

  /** No two tables begin at one place. */
  lemma TableUnique(s: seq<byte>, base: nat, es: seq<Entry>, fs: seq<Entry>)
    requires ValidTable(es) && ValidTable(fs) && At(s, base, Table(es)) && At(s, base, Table(fs))
    ensures es == fs
  {
    hide EntryBytes, Uleb, At, ValidEntry, DecodeUnsigned;
    PrefixAt(s, base, es, |es|, 0);
    PrefixAt(s, base, fs, |fs|, 0);
    UlebRoundTrip(s, base, |es|);
    UlebRoundTrip(s, base, |fs|);
    EntriesUnique(s, base, es, fs, |es|);
    assert es[..|es|] == es && fs[..|fs|] == fs;
  }

  // Reading.

  function TypeIdOrNone(index: u32): Option<u16> {
    if index % 0x1_0000 == NO_INDEX_16 then None else Some(index % 0x1_0000)
  }

  /** Reads `size` pairs. */
  method ReadPairs(s: seq<byte>, p: nat, size: nat, ghost ps: seq<Pair>) returns (pairs: seq<TypeAddr>, q: nat)
    requires size == |ps| && At(s, p, PairsBytes(ps, |ps|))
    requires forall i :: 0 <= i < |ps| ==> ps[i].typeIndex != NO_INDEX_16
    ensures pairs == TypedPairs(ps, |ps|) && q == p + |PairsBytes(ps, |ps|)|
  {
    hide PairsBytes, DecodeUnsigned, At;
    pairs, q := [], p;
    assert |PairsBytes(ps, 0)| == 0 by { NoPairs(ps); }
    for i := 0 to size
      invariant pairs == TypedPairs(ps, i) && q == p + |PairsBytes(ps, i)|
    {
      PairAt(s, p, ps, |ps|, i);
      UlebRoundTrip(s, q, ps[i].typeIndex);
      var t := DecodeUnsigned(s, q);
      UlebRoundTrip(s, t.value.1, ps[i].address);
      var a := DecodeUnsigned(s, t.value.1);
      pairs, q := pairs + [TypeAddr(TypeIdOrNone(t.value.0), a.value.0)], a.value.1;
    }
  }

  lemma NoPairs(ps: seq<Pair>)
    ensures PairsBytes(ps, 0) == []
  {
  }

  function PairsEnd(e: Entry, p: nat, k: nat): nat
    requires k <= |e.pairs|
  {
    p + |Sleb(SizeOf(e))| + |PairsBytes(e.pairs, k)|
  }

  /** The state of an iterator over entry `e` at `p` that shows handler `j`, or is done. */
  ghost predicate Showing(e: Entry, p: nat, j: nat, current: nat, remaining: int, catchAll: bool, typeIndex: u16,
                          address: u32) {
    if j < |e.pairs| then
      && remaining == |e.pairs| - 1 - j && catchAll == e.catchAll.Some? && current == PairsEnd(e, p, j + 1)
      && typeIndex == e.pairs[j].typeIndex && address == e.pairs[j].address
    else if j == |e.pairs| && e.catchAll.Some? then
      remaining == 0 && !catchAll && typeIndex == NO_INDEX_16 && address == e.catchAll.value
    else
      remaining == -1 && !catchAll && j == |AllPairs(e)|
  }

  /** Iterates over the handlers of an entry of the table. */
  class CatchHandlerIterator {
    const data: seq<byte>
    ghost const entry: Entry
    ghost const start: nat
    ghost var shown: nat
    var current: nat
    var remaining: int
    var catchAll: bool
    var typeIndex: u16
    var address: u32

    ghost predicate Valid()
      reads this
    {
      && ValidEntry(entry) && At(data, start, EntryBytes(entry)) && shown <= |AllPairs(entry)|
      && Showing(entry, start, shown, current, remaining, catchAll, typeIndex, address)
    }

    constructor (s: seq<byte>, p: nat, ghost e: Entry)
      requires ValidEntry(e) && At(s, p, EntryBytes(e))
      ensures Valid() && data == s && entry == e && start == p && shown == 0
    {
      EntryAt(s, p, e);
      SlebRoundTrip(s, p, SizeOf(e));
      data, entry, start, shown := s, e, p, 0;
      var r := DecodeSigned(s, p);
      var count: int := r.value.0;
      current := r.value.1;
      typeIndex, address := NO_INDEX_16, 0xFFFF_FFFF;
      catchAll := count <= 0;
      remaining := if count <= 0 then -count else count;
      new;
      hide EntryBytes, Sleb, Uleb;
      NoPairs(e.pairs);
      Advance(0);
    }

    /** Moves to handler `j`, the one after those read so far. */
    method Advance(ghost j: nat)
      requires ValidEntry(entry) && At(data, start, EntryBytes(entry)) && j <= |AllPairs(entry)|
      requires if j <= |entry.pairs|
               then && remaining == |entry.pairs| - j && catchAll == entry.catchAll.Some?
                    && current == PairsEnd(entry, start, j)
               else remaining == 0 && !catchAll
      modifies this`current, this`remaining, this`catchAll, this`typeIndex, this`address
      ensures Showing(entry, start, j, current, remaining, catchAll, typeIndex, address)
    {
      hide EntryBytes, Sleb, Uleb, DecodeUnsigned, At, PairsBytes, LastBytes;
      EntryAt(data, start, entry);
      if remaining > 0 {
        ghost var pair := entry.pairs[j];
        PairAt(data, PairsEnd(entry, start, 0) - |PairsBytes(entry.pairs, 0)|, entry.pairs, |entry.pairs|, j);
        NoPairs(entry.pairs);
        UlebRoundTrip(data, current, pair.typeIndex);
        var t := DecodeUnsigned(data, current);
        UlebRoundTrip(data, t.value.1, pair.address);
        var a := DecodeUnsigned(data, t.value.1);
        typeIndex, address, current := t.value.0 % 0x1_0000, a.value.0, a.value.1;
        remaining := remaining - 1;
        return;
      }
      if catchAll {
        LastAt(entry);
        UlebRoundTrip(data, current, entry.catchAll.value);
        var a := DecodeUnsigned(data, current);
        typeIndex, address, current := NO_INDEX_16, a.value.0, a.value.1;
        catchAll := false;
        return;
      }
      remaining := -1;
    }

    function HasNext(): (b: bool)
      requires Valid()
      reads this
      ensures b <==> shown < |AllPairs(entry)|
    {
      remaining != -1 || catchAll
    }

    method Next()
      requires Valid() && HasNext()
      modifies this
      ensures Valid() && shown == old(shown) + 1
    {
      hide EntryBytes, At, PairsBytes, Sleb;
      Advance(shown + 1);
      shown := shown + 1;
    }
  }

  lemma LastAt(e: Entry)
    ensures e.catchAll.Some? ==> LastBytes(e) == Uleb(e.catchAll.value)
  {
  }

  /** Collects the handlers of a try item, which refers to the entry at `p`. */
  method CollectHandler(s: seq<byte>, base: nat, handlerOff: u16, ghost e: Entry) returns (h: Handler)
    requires ValidEntry(e) && At(s, base + handlerOff, EntryBytes(e))
    ensures h == Handler(e.catchAll.Some?, handlerOff, AllPairs(e))
  {
    hide EntryBytes, At, PairsBytes, Sleb;
    var catchAll := false;
    var pairs: seq<TypeAddr> := [];
    var it := new CatchHandlerIterator(s, base + handlerOff, e);
    while it.HasNext()
      invariant it.Valid() && it.entry == e
      invariant pairs == AllPairs(e)[..it.shown]
      invariant catchAll <==> it.shown > |e.pairs|
      decreases |AllPairs(e)| - it.shown
    {
      var typeId := TypeIdOrNone(it.typeIndex);
      catchAll := catchAll || typeId.None?;
      pairs := pairs + [TypeAddr(typeId, it.address)];
      it.Next();
    }
    h := Handler(catchAll, handlerOff, pairs);
  }

  /** The list holds the handlers of the entries `order`, and no offset twice. */
  ghost predicate Lists(es: seq<Entry>, list: seq<Handler>, order: seq<nat>) {
    && ValidTable(es) && |list| == |order|
    && (forall i :: 0 <= i < |order| ==> order[i] < |es| && list[i] == HandlerOf(es, order[i]))
    && (forall i, j :: 0 <= i < j < |list| ==> list[i].listOffset != list[j].listOffset)
  }

  ghost predicate Known(list: seq<Handler>, offset: u16) {
    exists i :: 0 <= i < |list| && list[i].listOffset == offset
  }

  /** The handler of the list that has this offset. */
  method FindOffset(list: seq<Handler>, handlerOff: u16) returns (at: Option<nat>)
    ensures at.Some? ==> at.value < |list| && list[at.value].listOffset == handlerOff
    ensures at.None? ==> forall i :: 0 <= i < |list| ==> list[i].listOffset != handlerOff
  {
    for i := 0 to |list|
      invariant forall j :: 0 <= j < i ==> list[j].listOffset != handlerOff
    {
      if list[i].listOffset == handlerOff {
        return Some(i);
      }
    }
    at := None;
  }

  lemma ListsDistinct(es: seq<Entry>, list: seq<Handler>, order: seq<nat>)
    requires Lists(es, list, order)
    ensures |order| <= |es| && forall i, j :: 0 <= i < j < |order| ==> order[i] != order[j]
    ensures (forall k :: 0 <= k < |es| ==> k in order) <==> |order| == |es|
  {
    hide AllPairs, Offset16, ValidTable;
    forall i, j | 0 <= i < j < |order| ensures order[i] != order[j] {
      assert list[i].listOffset != list[j].listOffset;
    }
    NoneMissing(|es|, order);
  }

  lemma ListMore(es: seq<Entry>, list: seq<Handler>, order: seq<nat>, k: nat)
    requires Lists(es, list, order) && k < |es| && !Known(list, Offset16(es, k))
    ensures Lists(es, list + [HandlerOf(es, k)], order + [k])
  {
    hide AllPairs, Offset16, ValidTable;
  }

  /** First the handlers of the try items, in their order. */
  method CollectTries(s: seq<byte>, base: nat, tries: seq<u16>, ghost es: seq<Entry>)
    returns (list: seq<Handler>, refs: seq<nat>, ghost order: seq<nat>)
    requires ValidTable(es) && At(s, base, Table(es))
    requires ValidTries(es, tries)
    ensures Lists(es, list, order)
    ensures |refs| == |tries| && forall t :: 0 <= t < |tries| ==> RefersTo(es, list, order, refs[t], tries[t])
    ensures forall t :: 0 <= t < |tries| ==> refs[t] < |list| && list[refs[t]].listOffset == tries[t]
  {
    hide At, Start, Table, AllPairs, EntryBytes;
    list, refs, order := [], [], [];
    for t := 0 to |tries|
      invariant Lists(es, list, order) && forall i :: 0 <= i < |order| ==> Start(es, order[i]) < 0x1_0000
      invariant |refs| == t && forall u :: 0 <= u < t ==> RefersTo(es, list, order, refs[u], tries[u])
    {
      var at := FindOffset(list, tries[t]);
      if at.None? {
        ghost var k :| 0 <= k < |es| && tries[t] == Start(es, k);
        TableAt(s, base, es, k);
        var h := CollectHandler(s, base, tries[t], es[k]);
        ListMore(es, list, order, k);
        list, order := list + [h], order + [k];
        at := Some(|list| - 1);
      }
      refs := refs + [at.value];
    }
  }

  /** Element `r` of the list is the handler of the entry that starts at `offset`. */
  ghost predicate RefersTo(es: seq<Entry>, list: seq<Handler>, order: seq<nat>, r: nat, offset: nat) {
    && r < |list| == |order| && order[r] < |es| && ValidTable(es)
    && list[r] == HandlerOf(es, order[r]) && Start(es, order[r]) == offset
  }

  lemma TableAt(s: seq<byte>, base: nat, es: seq<Entry>, k: nat)
    requires At(s, base, Table(es)) && k <= |es|
    ensures At(s, base, Uleb(|es|)) && Start(es, 0) == |Uleb(|es|)|
    ensures k < |es| ==> At(s, base + Start(es, k), EntryBytes(es[k]))
    ensures k < |es| ==> Start(es, k + 1) == Start(es, k) + |EntryBytes(es[k])|
  {
    hide EntryBytes, Uleb;
    PrefixAt(s, base, es, |es|, k);
  }

  /** A count that is not positive announces a catch-all handler. */
  method ReadSize(s: seq<byte>, p: nat, ghost e: Entry) returns (catchAll: bool, size: nat, q: nat)
    requires ValidEntry(e) && At(s, p, Sleb(SizeOf(e)))
    ensures catchAll == e.catchAll.Some? && size == |e.pairs| && q == p + |Sleb(SizeOf(e))|
  {
    hide At, Sleb, DecodeSigned;
    SlebRoundTrip(s, p, SizeOf(e));
    var r := DecodeSigned(s, p);
    catchAll := r.value.0 <= 0;
    size := if catchAll then -r.value.0 else r.value.0;
    q := r.value.1;
  }

  /** Reads the entry at `p`, or only passes over it. */
  method WalkEntry(s: seq<byte>, p: nat, skip: bool,
                   ghost e: Entry) returns (catchAll: bool, pairs: seq<TypeAddr>, q: nat)
    requires ValidEntry(e) && At(s, p, EntryBytes(e))
    ensures catchAll == e.catchAll.Some? && q == p + |EntryBytes(e)|
    ensures !skip ==> pairs == AllPairs(e)
  {
    EntryLength(e);
    LastAt(e);
    EntryAt(s, p, e);
    hide EntryBytes, At, PairsBytes, TypedPairs, Sleb, Uleb, DecodeSigned, DecodeUnsigned, LastBytes;
    var size;
    catchAll, size, q := ReadSize(s, p, e);
    if skip {
      pairs := [];
      q := SkipPairs(s, q, size, e.pairs);
    } else {
      pairs, q := ReadPairs(s, q, size, e.pairs);
    }
    if catchAll {
      UlebRoundTrip(s, q, e.catchAll.value);
      var a := DecodeUnsigned(s, q);
      q := a.value.1;
      pairs := pairs + [TypeAddr(None, a.value.0)];
    }
  }

  lemma EntryLength(e: Entry)
    ensures |EntryBytes(e)| ==
              |Sleb(SizeOf(e))| + |PairsBytes(e.pairs, |e.pairs|)|
              + if e.catchAll.Some? then |Uleb(e.catchAll.value)| else 0
  {
  }

  method SkipPairs(s: seq<byte>, p: nat, size: nat, ghost ps: seq<Pair>) returns (q: nat)
    requires size == |ps| && At(s, p, PairsBytes(ps, |ps|))
    ensures q == p + |PairsBytes(ps, |ps|)|
  {
    hide PairsBytes, DecodeUnsigned, At;
    q := p;
    NoPairs(ps);
    for i := 0 to size
      invariant q == p + |PairsBytes(ps, i)|
    {
      PairAt(s, p, ps, |ps|, i);
      UlebRoundTrip(s, q, ps[i].typeIndex);
      q := DecodeUnsigned(s, q).value.1;
      UlebRoundTrip(s, q, ps[i].address);
      q := DecodeUnsigned(s, q).value.1;
    }
  }

  /** Once all entries have been passed, none is missing. */
  lemma NoneMissing(n: nat, order: seq<nat>)
    requires forall i :: 0 <= i < |order| ==> order[i] < n
    requires forall i, j :: 0 <= i < j < |order| ==> order[i] != order[j]
    ensures |order| <= n
    ensures (forall k :: 0 <= k < n ==> k in order) <==> |order| == n
  {
    var listed := Elements(order);
    var all := Below(n);
    DistinctSize(order);
    assert listed <= all;
    SubsetSize(listed, all);
    if |order| == n {
      assert listed == all;
      forall k | 0 <= k < n ensures k in order {
        assert k in listed;
      }
    }
    if forall k :: 0 <= k < n ==> k in order {
      assert listed == all;
    }
  }

  function Below(n: nat): (s: set<nat>)
    ensures |s| == n && forall k :: k in s <==> 0 <= k < n
  {
    if n == 0 then {} else Below(n - 1) + {n - 1}
  }

  /**
   * Then the table is walked for those no try item refers to, until the list is as long as the table.
   * Where the table ends before that, the source reads on behind it, and the model stops.
   */
  method AddMissing(s: seq<byte>, base: nat, found: seq<Handler>, ghost es: seq<Entry>, ghost foundOrder: seq<nat>)
    returns (stayed: bool, list: seq<Handler>, ghost order: seq<nat>)
    requires ValidTable(es) && At(s, base, Table(es)) && Lists(es, found, foundOrder)
    ensures Lists(es, list, order) && found <= list && foundOrder <= order
    ensures stayed <==> |list| == |es|
    ensures stayed <==> Unmixed(es)
  {
    hide At, Start, Table, AllPairs, EntryBytes, DecodeUnsigned, Offset16, Unmixed;
    list, order := found, foundOrder;
    TableAt(s, base, es, 0);
    UlebRoundTrip(s, base, |es|);
    var r := DecodeUnsigned(s, base);
    var handlersSize, p, k := r.value.0, r.value.1, 0;
    ListsDistinct(es, list, order);
    while handlersSize > |list|
      invariant k <= |es| && p == base + Start(es, k)
      invariant Lists(es, list, order) && |list| <= |es| && found <= list && foundOrder <= order
      invariant forall j :: 0 <= j < k ==> Known(list, Offset16(es, j))
      decreases |es| - k
    {
      if k == handlersSize {
        WalkedAll(es, list, order);
        return false, list, order;
      }
      TableAt(s, base, es, k);
      var handlerOff := (p - base) % 0x1_0000;
      assert handlerOff == Offset16(es, k) by { Truncated(es, k); }
      var at := FindOffset(list, handlerOff);
      var catchAll, pairs, q := WalkEntry(s, p, at.Some?, es[k]);
      ghost var was := list;
      if at.None? {
        ListMore(es, list, order, k);
        list, order := list + [Handler(catchAll, handlerOff, pairs)], order + [k];
        assert list[|was|].listOffset == Offset16(es, k);
      }
      KnownStays(was, list);
      p, k := q, k + 1;
      ListsDistinct(es, list, order);
    }
    ListedAll(es, list, order);
    stayed := true;
  }

  lemma Truncated(es: seq<Entry>, k: nat)
    requires k <= |es|
    ensures Offset16(es, k) == Start(es, k) % 0x1_0000
  {
    hide Start;
  }

  lemma KnownStays(list: seq<Handler>, list': seq<Handler>)
    requires list <= list'
    ensures forall offset :: Known(list, offset) ==> Known(list', offset)
  {
    forall offset | Known(list, offset) ensures Known(list', offset) {
      var i :| 0 <= i < |list| && list[i].listOffset == offset;
      assert list'[i].listOffset == offset;
    }
  }

  /** If all entries have been passed and one is not listed, another entry has taken its offset. */
  lemma WalkedAll(es: seq<Entry>, list: seq<Handler>, order: seq<nat>)
    requires Lists(es, list, order) && |list| < |es|
    requires forall j :: 0 <= j < |es| ==> Known(list, Offset16(es, j))
    ensures !Unmixed(es)
  {
    hide Offset16, AllPairs, ValidTable;
    ListsDistinct(es, list, order);
    var j :| 0 <= j < |es| && j !in order;
    var i :| 0 <= i < |list| && list[i].listOffset == Offset16(es, j);
    assert order[i] != j && Offset16(es, order[i]) == Offset16(es, j);
  }

  lemma ListedAll(es: seq<Entry>, list: seq<Handler>, order: seq<nat>)
    requires Lists(es, list, order) && |list| == |es|
    ensures Unmixed(es)
  {
    hide Offset16, AllPairs, ValidTable;
    ListsDistinct(es, list, order);
    forall j, k | 0 <= j < k < |es| ensures Offset16(es, j) != Offset16(es, k) {
      assert j in order && k in order;
      var a :| 0 <= a < |order| && order[a] == j;
      var b :| 0 <= b < |order| && order[b] == k;
      assert list[a].listOffset != list[b].listOffset;
    }
  }

  // Writing.

  /** What has been written of an entry after `k` of its handlers. */
  function Written(e: Entry, k: nat): seq<byte>
    requires k <= |AllPairs(e)|
  {
    Sleb(SizeOf(e)) + if k <= |e.pairs| then PairsBytes(e.pairs, k) else PairsBytes(e.pairs, |e.pairs|) + LastBytes(e)
  }

  lemma WrittenMore(e: Entry, k: nat)
    requires k < |AllPairs(e)|
    ensures var h := AllPairs(e)[k];
            Written(e, k + 1) == Written(e, k) + (if h.typeId.Some? then Uleb(h.typeId.value) else []) + Uleb(h.address)
  {
    hide Sleb, Uleb;
    if k < |e.pairs| {
      assert PairsBytes(e.pairs, k + 1) ==
               PairsBytes(e.pairs, k) + Uleb(e.pairs[k].typeIndex) + Uleb(e.pairs[k].address);
    } else {
      assert AllPairs(e)[k] == TypeAddr(None, e.catchAll.value);
      assert Written(e, k) + [] == Written(e, k);
    }
  }

  lemma WrittenAll(e: Entry)
    ensures Written(e, |AllPairs(e)|) == EntryBytes(e) && Written(e, 0) == Sleb(SizeOf(e))
  {
    hide Sleb, Uleb;
  }

  lemma CountFits(e: Entry)
    requires ValidEntry(e)
    ensures SizeOf(e) == (if e.catchAll.Some? then 1 - |AllPairs(e)| else |AllPairs(e)|)
    ensures -0x8000_0000 <= SizeOf(e) < 0x8000_0000
  {
  }

  /** The number of handlers as it is stored, negated and without the last when that catches everything. */
  function StoredCount(h: Handler): i32 {
    ToI32((if h.catchAll then 1 - |h.pairs| else |h.pairs|) % 0x1_0000_0000)
  }

  function PairPart(t: TypeAddr): seq<byte> {
    (if t.typeId.Some? then Uleb(t.typeId.value) else []) + Uleb(t.address)
  }

  function PairParts(ts: seq<TypeAddr>, k: nat): seq<byte>
    requires k <= |ts|
  {
    if k == 0 then [] else PairParts(ts, k - 1) + PairPart(ts[k - 1])
  }

  /** What is written for a handler of the representation. */
  function HandlerBytes(h: Handler): seq<byte> {
    Sleb(StoredCount(h)) + PairParts(h.pairs, |h.pairs|)
  }

  lemma {:induction false} PartsWritten(e: Entry, k: nat)
    requires k <= |AllPairs(e)|
    ensures Sleb(SizeOf(e)) + PairParts(AllPairs(e), k) == Written(e, k)
  {
    hide *;
    PartsStep(AllPairs(e), k);
    if k == 0 {
      WrittenAll(e);
      assert Sleb(SizeOf(e)) + [] == Sleb(SizeOf(e));
    } else {
      PartsWritten(e, k - 1);
      WrittenMore(e, k - 1);
      PartOf(AllPairs(e)[k - 1]);
      var h := AllPairs(e)[k - 1];
      Associate(Sleb(SizeOf(e)), PairParts(AllPairs(e), k - 1), if h.typeId.Some? then Uleb(h.typeId.value) else [],
                Uleb(h.address));
    }
  }

  lemma PartsStep(ts: seq<TypeAddr>, k: nat)
    requires k <= |ts|
    ensures PairParts(ts, k) == if k == 0 then [] else PairParts(ts, k - 1) + PairPart(ts[k - 1])
  {
  }

  lemma PartOf(t: TypeAddr)
    ensures PairPart(t) == (if t.typeId.Some? then Uleb(t.typeId.value) else []) + Uleb(t.address)
  {
  }

  lemma Associate(a: seq<byte>, b: seq<byte>, c: seq<byte>, d: seq<byte>)
    ensures a + b + c + d == a + (b + (c + d))
  {
  }

  lemma HandlerIsEntry(h: Handler, e: Entry)
    requires ValidEntry(e) && h.catchAll == e.catchAll.Some? && h.pairs == AllPairs(e)
    ensures HandlerBytes(h) == EntryBytes(e)
  {
    CountFits(e);
    assert StoredCount(h) == SizeOf(e) by { StoredIs(SizeOf(e)); }
    PartsWritten(e, |AllPairs(e)|);
    WrittenAll(e);
    hide EntryBytes, Written, PairParts, Sleb;
  }

  lemma StoredIs(n: int)
    requires -0x8000_0000 <= n < 0x8000_0000
    ensures ToI32(n % 0x1_0000_0000) == n
  {
  }

  /** Writes one handler at the position of the stream. */
  method WriteHandler(stream: Stream, h: Handler)
    modifies stream`position, stream.section
    ensures stream.position == old(stream.position) + |HandlerBytes(h)| <= |stream.section.data|
    ensures Put(old(stream.section.data), stream.section.data, old(stream.position), HandlerBytes(h))
  {
    hide Put, Sleb, Uleb, PairPart;
    ghost var before, p := stream.section.data, stream.position;
    var size := StoredCount(h);
    stream.WriteSleb128(size);
    PutIntro(before, stream.section.data, p, Sleb(size));
    ghost var acc := Sleb(size);
    assert acc + PairParts(h.pairs, 0) == acc;
    for i := 0 to |h.pairs|
      invariant stream.position == p + |acc + PairParts(h.pairs, i)| <= |stream.section.data|
      invariant Put(before, stream.section.data, p, acc + PairParts(h.pairs, i))
    {
      WritePair(stream, h.pairs[i], before, p, acc + PairParts(h.pairs, i));
      assert acc + PairParts(h.pairs, i) + PairPart(h.pairs[i]) == acc + PairParts(h.pairs, i + 1);
    }
  }

  method WritePair(stream: Stream, h: TypeAddr, ghost before: seq<byte>, ghost p: nat, ghost bs: seq<byte>)
    requires Put(before, stream.section.data, p, bs) && stream.position == p + |bs|
    modifies stream`position, stream.section
    ensures var more := bs + PairPart(h);
            Put(before, stream.section.data, p, more) && stream.position == p + |more| <= |stream.section.data|
  {
    hide Put, Uleb, Holds, SameOutside;
    ghost var typed := if h.typeId.Some? then Uleb(h.typeId.value) else [];
    ghost var was := stream.section.data;
    PutNothing(was, p + |bs|);
    if h.typeId.Some? {
      stream.WriteUleb128(h.typeId.value);
      PutIntro(was, stream.section.data, p + |bs|, typed);
    }
    PutMore(before, was, stream.section.data, p, bs, typed);
    was := stream.section.data;
    stream.WriteUleb128(h.address);
    PutIntro(was, stream.section.data, p + |bs + typed|, Uleb(h.address));
    PutMore(before, was, stream.section.data, p, bs + typed, Uleb(h.address));
    assert bs + typed + Uleb(h.address) == bs + PairPart(h);
  }

  // What a list of handlers comes to, wherever its offsets lead.

  function Overwritten(d: seq<byte>, p: nat, bs: seq<byte>): (r: seq<byte>)
    ensures |r| == if p + |bs| > |d| then p + |bs| else |d|
    ensures Put(d, r, p, bs)
  {
    var n := if p + |bs| > |d| then p + |bs| else |d|;
    seq<byte>(n, i requires 0 <= i < n => if p <= i < p + |bs| then bs[i - p] else Get(d, i))
  }

  /** The count and the first `k` handlers written over `d` from `offset` on, one after the other. */
  function Applied(d: seq<byte>, offset: nat, list: seq<Handler>, k: nat): seq<byte>
    requires k <= |list|
  {
    if k == 0 then Overwritten(d, offset, Uleb(|list| % 0x1_0000_0000))
    else Overwritten(Applied(d, offset, list, k - 1), offset + list[k - 1].listOffset, HandlerBytes(list[k - 1]))
  }

  /** How far they reach. */
  function Extent(list: seq<Handler>, k: nat): nat
    requires k <= |list|
  {
    if k == 0 then |Uleb(|list| % 0x1_0000_0000)|
    else
      var end := list[k - 1].listOffset + |HandlerBytes(list[k - 1])|;
      if end > Extent(list, k - 1) then end else Extent(list, k - 1)
  }

  lemma AppliedStep(d: seq<byte>, offset: nat, list: seq<Handler>, k: nat)
    requires k <= |list|
    ensures k == 0 ==> Put(d, Applied(d, offset, list, 0), offset, Uleb(|list| % 0x1_0000_0000))
    ensures k == 0 ==> Extent(list, 0) == |Uleb(|list| % 0x1_0000_0000)|
    ensures k > 0 ==> Put(Applied(d, offset, list, k - 1), Applied(d, offset, list, k), offset + list[k - 1].listOffset,
                          HandlerBytes(list[k - 1]))
    ensures k > 0 ==> var end := list[k - 1].listOffset + |HandlerBytes(list[k - 1])|;
                      Extent(list, k) == if end > Extent(list, k - 1) then end else Extent(list, k - 1)
  {
    hide Put, Uleb, HandlerBytes;
  }

  /** The bytes of a list that is written where there is nothing. */
  function Overlay(list: seq<Handler>): seq<byte> {
    Applied([], 0, list, |list|)
  }

  lemma {:induction false} OverlayLength(list: seq<Handler>, k: nat)
    requires k <= |list|
    ensures |Applied([], 0, list, k)| == Extent(list, k)
  {
    hide Uleb, HandlerBytes, Put;
    if k > 0 {
      OverlayLength(list, k - 1);
    }
  }

  lemma {:induction false} ExtentGrows(list: seq<Handler>, j: nat, k: nat)
    requires j <= k <= |list|
    ensures Extent(list, j) <= Extent(list, k)
    decreases k
  {
    hide HandlerBytes, Uleb;
    if j < k {
      ExtentGrows(list, j, k - 1);
    }
  }

  lemma {:induction false} AppliedOutside(d: seq<byte>, offset: nat, list: seq<Handler>, k: nat)
    requires k <= |list|
    ensures SameOutside(d, Applied(d, offset, list, k), offset, offset + Extent(list, k))
  {
    hide Get, Uleb, HandlerBytes;
    if k > 0 {
      AppliedOutside(d, offset, list, k - 1);
      ExtentGrows(list, k - 1, k);
      var was, now := Applied(d, offset, list, k - 1), Applied(d, offset, list, k);
      forall i: nat | i < offset || offset + Extent(list, k) <= i ensures Get(now, i) == Get(d, i) {
        assert Get(now, i) == Get(was, i);
      }
    }
  }

  /** Over zeros the list comes to the same bytes wherever it is written. */
  lemma {:induction false} AppliedRoom(d: seq<byte>, offset: nat, list: seq<Handler>, k: nat, room: nat)
    requires k <= |list| && Zero(d, offset, offset + room)
    ensures forall i: nat {:trigger Get(Applied([], 0, list, k), i)} :: i < room ==>
              Get(Applied(d, offset, list, k), offset + i) == Get(Applied([], 0, list, k), i)
  {
    hide Uleb, HandlerBytes, Applied, Extent;
    AppliedStep(d, offset, list, k);
    AppliedStep([], 0, list, k);
    if k > 0 {
      AppliedRoom(d, offset, list, k - 1, room);
      RoomPut(Applied(d, offset, list, k - 1), Applied([], 0, list, k - 1), Applied(d, offset, list, k),
              Applied([], 0, list, k), offset, list[k - 1].listOffset, HandlerBytes(list[k - 1]), room);
    } else {
      RoomPut(d, [], Applied(d, offset, list, k), Applied([], 0, list, k), offset, 0, Uleb(|list| % 0x1_0000_0000),
              room);
    }
  }

  lemma RoomPut(a: seq<byte>, b: seq<byte>, a': seq<byte>, b': seq<byte>, offset: nat, p: nat, bs: seq<byte>, room: nat)
    requires forall i: nat {:trigger Get(b, i)} :: i < room ==> Get(a, offset + i) == Get(b, i)
    requires Put(a, a', offset + p, bs) && Put(b, b', p, bs)
    ensures forall i: nat {:trigger Get(b', i)} :: i < room ==> Get(a', offset + i) == Get(b', i)
  {
    hide Get;
    forall i: nat | i < room ensures Get(a', offset + i) == Get(b', i) {
      if p <= i < p + |bs| {
        assert Get(b', i) == bs[i - p] && Get(a', offset + i) == bs[i - p];
      } else {
        assert Get(b', i) == Get(b, i) && Get(a', offset + i) == Get(a, offset + i);
      }
    }
  }

  /** So in a room that is zero the list leaves its bytes and nothing else. */
  lemma OverlayStands(d: seq<byte>, offset: nat, list: seq<Handler>)
    ensures SameOutside(d, Applied(d, offset, list, |list|), offset, offset + |Overlay(list)|)
    ensures Zero(d, offset, offset + |Overlay(list)|) ==> Holds(Applied(d, offset, list, |list|), offset, Overlay(list))
  {
    hide Applied, Extent;
    var n := |list|;
    AppliedOutside(d, offset, list, n);
    OverlayLength(list, n);
    if Zero(d, offset, offset + |Overlay(list)|) {
      AppliedRoom(d, offset, list, n, |Overlay(list)|);
      forall i | offset <= i < offset + |Overlay(list)|
        ensures Get(Applied(d, offset, list, n), i) == Overlay(list)[i - offset]
      {
        assert Get(Applied([], 0, list, n), i - offset) == Overlay(list)[i - offset];
      }
    }
  }

  /** Writes the handlers, each at its offset and in the order of the list. */
  method WriteHandlers(stream: Stream, list: seq<Handler>)
    modifies stream`position, stream.section
    ensures stream.position == old(stream.position) + Extent(list, |list|) <= |stream.section.data|
    ensures Same(Applied(old(stream.section.data), old(stream.position), list, |list|), stream.section.data)
  {
    hide *;
    ghost var before := stream.section.data;
    var offset := stream.position;
    AppliedStep(before, offset, list, 0);
    SameSelf(before);
    stream.WriteUleb128(|list| % 0x1_0000_0000);
    PutIntro(before, stream.section.data, offset, Uleb(|list| % 0x1_0000_0000));
    SamePuts(before, before, Applied(before, offset, list, 0), stream.section.data, offset,
             Uleb(|list| % 0x1_0000_0000));
    var maxOffset := stream.position;
    for i := 0 to |list|
      invariant maxOffset == offset + Extent(list, i)
      invariant Same(Applied(before, offset, list, i), stream.section.data)
    {
      AppliedStep(before, offset, list, i + 1);
      ghost var was := stream.section.data;
      stream.Seek(offset + list[i].listOffset);
      ghost var sought := stream.section.data;
      WriteHandler(stream, list[i]);
      maxOffset := if stream.position > maxOffset then stream.position else maxOffset;
      SameTrans(Applied(before, offset, list, i), was, sought);
      SamePuts(Applied(before, offset, list, i), sought, Applied(before, offset, list, i + 1), stream.section.data,
               offset + list[i].listOffset, HandlerBytes(list[i]));
    }
    ghost var was := stream.section.data;
    stream.Seek(maxOffset);
    SameTrans(Applied(before, offset, list, |list|), was, stream.section.data);
  }

  lemma SameSelf(d: seq<byte>)
    ensures Same(d, d)
  {
  }

  lemma SameTrans(a: seq<byte>, b: seq<byte>, c: seq<byte>)
    requires Same(a, b) && Same(b, c)
    ensures Same(a, c)
  {
    hide Get;
    forall i: nat ensures Get(c, i) == Get(a, i) { assert Get(b, i) == Get(a, i); }
  }

  lemma SamePuts(a: seq<byte>, b: seq<byte>, a': seq<byte>, b': seq<byte>, p: nat, bs: seq<byte>)
    requires Same(a, b) && Put(a, a', p, bs) && Put(b, b', p, bs)
    ensures Same(a', b')
  {
    hide Get;
    forall i: nat ensures Get(b', i) == Get(a', i) {
      if p <= i < p + |bs| {
        assert Get(a', i) == bs[i - p];
      } else {
        assert Get(a', i) == Get(a, i) && Get(b', i) == Get(b, i);
      }
    }
  }

  ghost predicate Standing(d: seq<byte>, offset: nat, es: seq<Entry>, k: nat)
    requires k < |es|
  {
    Holds(d, offset + Start(es, k), EntryBytes(es[k]))
  }

  /** Writing entry `k` leaves the others and the count alone, and stays inside the table. */
  lemma WriteApart(a: seq<byte>, b: seq<byte>, offset: nat, es: seq<Entry>, k: nat)
    requires k < |es| && Put(a, b, offset + Start(es, k), EntryBytes(es[k]))
    ensures Standing(b, offset, es, k)
    ensures forall j :: 0 <= j < |es| && j != k && Standing(a, offset, es, j) ==> Standing(b, offset, es, j)
    ensures Holds(a, offset, Uleb(|es|)) ==> Holds(b, offset, Uleb(|es|))
    ensures SameOutside(a, b, offset, offset + Start(es, |es|)) && Start(es, k) + |EntryBytes(es[k])| <= Start(es, |es|)
  {
    FirstStart(es);
    hide Start, EntryBytes, Uleb;
    StartsIncrease(es, k, |es|);
    if k > 0 {
      StartsIncrease(es, 0, k);
    }
    forall j | 0 <= j < |es| && j != k && Standing(a, offset, es, j) ensures Standing(b, offset, es, j) {
      if j < k {
        StartsIncrease(es, j, k);
      } else {
        StartsIncrease(es, k, j);
      }
    }
  }

  lemma FirstStart(es: seq<Entry>)
    ensures Start(es, 0) == |Uleb(|es|)|
  {
  }

  lemma SameTwice(a: seq<byte>, b: seq<byte>, c: seq<byte>, from: nat, to: nat)
    requires SameOutside(a, b, from, to) && SameOutside(b, c, from, to)
    ensures SameOutside(a, c, from, to)
  {
    forall i: nat | i < from || to <= i ensures Get(c, i) == Get(a, i) {
      assert Get(c, i) == Get(b, i);
    }
  }

  lemma {:induction false} AllStanding(d: seq<byte>, offset: nat, es: seq<Entry>, n: nat)
    requires n <= |es| && Holds(d, offset, Uleb(|es|))
    requires forall k :: 0 <= k < |es| ==> Standing(d, offset, es, k)
    ensures Holds(d, offset, Prefix(es, n))
  {
    hide EntryBytes, Uleb;
    if n > 0 {
      AllStanding(d, offset, es, n - 1);
      assert Standing(d, offset, es, n - 1);
    }
  }

  /** The end of the furthest handler written so far. */
  ghost predicate Furthest(es: seq<Entry>, order: seq<nat>, i: nat, m: nat)
    requires i <= |order| && forall j :: 0 <= j < |order| ==> order[j] < |es|
  {
    && Start(es, 0) <= m <= Start(es, |es|)
    && forall j :: 0 <= j < i ==> Start(es, order[j]) + |EntryBytes(es[order[j]])| <= m
  }

  lemma FurthestIsEnd(es: seq<Entry>, order: seq<nat>, m: nat)
    requires forall j :: 0 <= j < |order| ==> order[j] < |es|
    requires Furthest(es, order, |order|, m) && forall k :: 0 <= k < |es| ==> k in order
    ensures m == Start(es, |es|)
  {
    if es != [] {
      var n := |es| - 1;
      assert n in order;
      assert Start(es, |es|) == Start(es, n) + |EntryBytes(es[n])| by { hide EntryBytes; }
    }
  }

  /** The count and the first `i` handlers of the list have been written. */
  ghost predicate Progress(before: seq<byte>, d: seq<byte>, offset: nat, es: seq<Entry>, order: seq<nat>, i: nat,
                           m: nat)
    requires i <= |order| && forall j :: 0 <= j < |order| ==> order[j] < |es|
  {
    && Holds(d, offset, Uleb(|es|))
    && SameOutside(before, d, offset, offset + Start(es, |es|))
    && (forall j :: 0 <= j < i ==> Standing(d, offset, es, order[j]))
    && Furthest(es, order, i, m)
  }

  lemma ProgressStart(before: seq<byte>, d: seq<byte>, offset: nat, es: seq<Entry>, order: seq<nat>)
    requires forall j :: 0 <= j < |order| ==> order[j] < |es|
    requires Holds(d, offset, Uleb(|es|)) && SameOutside(before, d, offset, offset + |Uleb(|es|)|)
    ensures Progress(before, d, offset, es, order, 0, |Uleb(|es|)|)
  {
    FirstStart(es);
    hide Uleb, Start, Standing;
    if es != [] {
      StartsIncrease(es, 0, |es|);
    }
  }

  lemma ProgressStep(before: seq<byte>, d: seq<byte>, d': seq<byte>, offset: nat, es: seq<Entry>, order: seq<nat>,
                     i: nat, m: nat, m': nat)
    requires i < |order| && forall j :: 0 <= j < |order| ==> order[j] < |es|
    requires forall j :: 0 <= j < i ==> order[j] != order[i]
    requires Progress(before, d, offset, es, order, i, m)
    requires Put(d, d', offset + Start(es, order[i]), EntryBytes(es[order[i]]))
    requires var end := Start(es, order[i]) + |EntryBytes(es[order[i]])|; m' == if end > m then end else m
    ensures Progress(before, d', offset, es, order, i + 1, m')
  {
    hide Uleb, Start, EntryBytes, Put, Holds, SameOutside, Standing;
    WriteApart(d, d', offset, es, order[i]);
    SameTwice(before, d, d', offset, offset + Start(es, |es|));
  }

  lemma ProgressDone(before: seq<byte>, d: seq<byte>, offset: nat, es: seq<Entry>, order: seq<nat>, m: nat)
    requires forall j :: 0 <= j < |order| ==> order[j] < |es|
    requires Progress(before, d, offset, es, order, |order|, m) && forall k :: 0 <= k < |es| ==> k in order
    ensures Put(before, d, offset, Table(es)) && m == |Table(es)|
  {
    hide Uleb, EntryBytes, Holds, SameOutside, Standing;
    forall k | 0 <= k < |es| ensures Standing(d, offset, es, k) {
      assert k in order;
    }
    AllStanding(d, offset, es, |es|);
    FurthestIsEnd(es, order, m);
  }

  /** Every handler that is written where a 16-bit offset puts it ends before the end of a table that goes further. */
  lemma EndsEarlier(es: seq<Entry>, k: nat)
    requires !InReach(es) && k < |es|
    ensures Offset16(es, k) + |EntryBytes(es[k])| < |Table(es)| && Start(es, 0) < |Table(es)|
  {
    hide Prefix, EntryBytes;
    var j :| 0 <= j < |es| && Start(es, j) >= 0x1_0000;
    var last := |es| - 1;
    StartsIncrease(es, last, |es|);
    StartsIncrease(es, 0, |es|);
    if j < last {
      StartsIncrease(es, j, last);
    }
    if k < last {
      StartsIncrease(es, k, last);
    }
  }

  lemma {:induction false} AppliedProgress(d: seq<byte>, offset: nat, es: seq<Entry>, list: seq<Handler>,
                                           order: seq<nat>, i: nat)
    requires Lists(es, list, order) && |list| == |es| == |order| && InReach(es) && i <= |list|
    requires forall j, k :: 0 <= j < k < |order| ==> order[j] != order[k]
    requires forall j :: 0 <= j < |order| ==> order[j] < |es|
    ensures Progress(d, Applied(d, offset, list, i), offset, es, order, i, Extent(list, i))
  {
    hide *;
    AppliedStep(d, offset, list, i);
    if i == 0 {
      ListsShort(es, list, order);
      PutParts(d, Applied(d, offset, list, 0), offset, Uleb(|es|));
      ProgressStart(d, Applied(d, offset, list, 0), offset, es, order);
    } else {
      AppliedProgress(d, offset, es, list, order, i - 1);
      ReachListed(es, list, order, i - 1);
      ProgressStep(d, Applied(d, offset, list, i - 1), Applied(d, offset, list, i), offset, es, order, i - 1,
                   Extent(list, i - 1), Extent(list, i));
    }
  }

  lemma ListsShort(es: seq<Entry>, list: seq<Handler>, order: seq<nat>)
    requires Lists(es, list, order)
    ensures |es| < 0x1_0000_0000 && |order| == |list| && forall j :: 0 <= j < |order| ==> order[j] < |es|
  {
  }

  /** In reach, element `i` of the list stands where its entry does and is written as it. */
  lemma ReachListed(es: seq<Entry>, list: seq<Handler>, order: seq<nat>, i: nat)
    requires Lists(es, list, order) && InReach(es) && i < |list|
    ensures |order| == |list| && forall j :: 0 <= j < |order| ==> order[j] < |es|
    ensures list[i].listOffset == Start(es, order[i]) && HandlerBytes(list[i]) == EntryBytes(es[order[i]])
  {
    hide Start, EntryBytes, AllPairs, InReach, HandlerBytes, Offset16, ValidEntry;
    ReachExact(es, order[i]);
    HandlerIsEntry(list[i], es[order[i]]);
  }

  lemma PutParts(d: seq<byte>, d': seq<byte>, p: nat, bs: seq<byte>)
    requires Put(d, d', p, bs)
    ensures Holds(d', p, bs) && SameOutside(d, d', p, p + |bs|)
  {
  }

  lemma {:induction false} ExtentShort(es: seq<Entry>, list: seq<Handler>, order: seq<nat>, i: nat)
    requires Lists(es, list, order) && |list| == |es| && !InReach(es) && i <= |list|
    ensures Extent(list, i) < |Table(es)|
  {
    hide Start, EntryBytes, Uleb, AllPairs, ValidEntry, InReach, HandlerBytes, Offset16, Table;
    if i == 0 {
      assert es != [] by { NothingFar(); }
      FirstStart(es);
      EndsEarlier(es, 0);
    } else {
      ExtentShort(es, list, order, i - 1);
      var k := order[i - 1];
      assert list[i - 1] == HandlerOf(es, k);
      HandlerIsEntry(list[i - 1], es[k]);
      EndsEarlier(es, k);
    }
  }

  /**
   * The list of a table, in whatever order: if all entries are in reach it comes to the table, and if
   * not to something shorter.
   */
  lemma ListWritten(d: seq<byte>, offset: nat, es: seq<Entry>, list: seq<Handler>, order: seq<nat>)
    requires Lists(es, list, order) && |list| == |es|
    ensures InReach(es) ==>
              Put(d, Applied(d, offset, list, |list|), offset, Table(es)) && Extent(list, |list|) == |Table(es)|
    ensures InReach(es) ==> Overlay(list) == Table(es)
    ensures !InReach(es) ==> Extent(list, |list|) < |Table(es)|
  {
    hide Start, EntryBytes, Uleb, Put, Holds, SameOutside, AllPairs, Progress, Table, ValidEntry, InReach, Offset16,
      Applied, Extent;
    ListsDistinct(es, list, order);
    if InReach(es) {
      AppliedProgress(d, offset, es, list, order, |list|);
      ProgressDone(d, Applied(d, offset, list, |list|), offset, es, order, Extent(list, |list|));
      AppliedProgress([], 0, es, list, order, |list|);
      ProgressDone([], Overlay(list), 0, es, order, Extent(list, |list|));
      OverlayLength(list, |list|);
      HoldsAll(Overlay(list), Table(es));
    } else {
      ExtentShort(es, list, order, |list|);
    }
  }

  lemma HoldsAll(d: seq<byte>, bs: seq<byte>)
    requires Put([], d, 0, bs) && |d| == |bs|
    ensures d == bs
  {
    forall i | 0 <= i < |d| ensures d[i] == bs[i] { assert Get(d, i) == bs[i]; }
  }

  lemma NothingFar()
    ensures InReach([])
  {
  }

  lemma ReachExact(es: seq<Entry>, k: nat)
    requires InReach(es) && k < |es|
    ensures Offset16(es, k) == Start(es, k)
  {
    hide Start;
  }

  /**
   * Building the representation of a table and writing it back. Each try item keeps its entry and its
   * offset, whatever order the try items mention the entries in. The walk stays in the table exactly
   * when no two entries share a 16-bit offset; it does and the table is reproduced byte for byte
   * exactly when all its entries are in reach of one.
   */
  method Copy(s: seq<byte>, base: nat, tries: seq<u16>, stream: Stream, ghost es: seq<Entry>)
    returns (stayed: bool, list: seq<Handler>, refs: seq<nat>, ghost order: seq<nat>)
    requires ValidTable(es) && At(s, base, Table(es))
    requires ValidTries(es, tries)
    modifies stream`position, stream.section
    ensures Lists(es, list, order)
    ensures |refs| == |tries| && forall t :: 0 <= t < |tries| ==> RefersTo(es, list, order, refs[t], tries[t])
    ensures stayed <==> Unmixed(es)
    ensures stayed ==> |list| == |es| && forall k :: 0 <= k < |es| ==> k in order
    ensures InReach(es) <==>
              var n := |Table(es)|;
              && stayed && stream.position == old(stream.position) + n
              && Put(old(stream.section.data), stream.section.data, old(stream.position), s[base..base + n])
  {
    AtSlice(s, base, Table(es));
    hide Start, Put, Table, HandlerOf, InReach, Unmixed, Applied, Extent, Overlay;
    list, refs, order := CollectTries(s, base, tries, es);
    ghost var found, foundOrder := list, order;
    stayed, list, order := AddMissing(s, base, list, es, order);
    forall t | 0 <= t < |tries| ensures RefersTo(es, list, order, refs[t], tries[t]) {
      assert RefersTo(es, found, foundOrder, refs[t], tries[t]);
    }
    if InReach(es) {
      ReachUnmixed(es);
    }
    if stayed {
      ListsDistinct(es, list, order);
      ghost var d, p := stream.section.data, stream.position;
      WriteHandlers(stream, list);
      ListWritten(d, p, es, list, order);
      if InReach(es) {
        PutSame(d, Applied(d, p, list, |list|), stream.section.data, p, Table(es));
      }
    }
  }

  lemma PutSame(a: seq<byte>, b: seq<byte>, c: seq<byte>, p: nat, bs: seq<byte>)
    requires Put(a, b, p, bs) && Same(b, c)
    ensures Put(a, c, p, bs)
  {
    hide Get;
    forall i: nat | i < p || p + |bs| <= i ensures Get(c, i) == Get(a, i) { assert Get(b, i) == Get(a, i); }
    forall i: nat | p <= i < p + |bs| ensures Get(c, i) == bs[i - p] { assert Get(b, i) == bs[i - p]; }
  }

  /** A table with a first entry of 0x8000 pairs. */
  function FarTable(): seq<Entry> {
    [Entry(seq(0x8000, _ => Pair(0, 0)), None), Entry([], Some(0))]
  }

  /** Its second entry is out of reach, and in the list it has an offset inside the first. */
  lemma FarEntry()
    ensures ValidTable(FarTable()) && ValidTries(FarTable(), [1])
    ensures !InReach(FarTable()) && Unmixed(FarTable())
    ensures Start(FarTable(), 1) == 65540 && Offset16(FarTable(), 1) == 4
    ensures Start(FarTable(), 0) < 4 < Start(FarTable(), 0) + |EntryBytes(FarTable()[0])|
  {
    hide Prefix, EntryBytes, FarTable, ValidTable;
    var es := FarTable();
    FarValid(es);
    FarStarts(es);
    var tries: seq<u16> := [1];
    assert tries[0] == Start(es, 0);
  }

  lemma FarValid(es: seq<Entry>)
    requires es == FarTable()
    ensures ValidTable(es) && |es| == 2
  {
  }

  lemma FarStarts(es: seq<Entry>)
    requires es == FarTable()
    ensures Start(es, 0) == 1 && Start(es, 1) == 1 + |EntryBytes(es[0])| && |EntryBytes(es[0])| == 65539
  {
    hide FarTable;
    assert |es| == 2 && |es[0].pairs| == 0x8000 && es[0].catchAll.None?
           && forall i :: 0 <= i < 0x8000 ==> es[0].pairs[i] == Pair(0, 0)
    by {
      FarFirst();
    }
    ZeroPairs(es[0].pairs, 0x8000);
    assert |Sleb(0x8000)| == 3 by {
      assert |Sleb(2)| == 1 && |Sleb(0x100)| == 1 + |Sleb(2)|;
    }
    EntryLength(es[0]);
    assert Start(es, 1) == Start(es, 0) + |EntryBytes(es[0])| by { hide EntryBytes, Uleb; }
  }

  lemma FarFirst()
    ensures var es := FarTable();
            && |es| == 2 && |es[0].pairs| == 0x8000 && es[0].catchAll.None?
            && forall i :: 0 <= i < 0x8000 ==> es[0].pairs[i] == Pair(0, 0)
  {
  }

  lemma {:induction false} ZeroPairs(ps: seq<Pair>, k: nat)
    requires k <= |ps| && forall i :: 0 <= i < |ps| ==> ps[i] == Pair(0, 0)
    ensures |PairsBytes(ps, k)| == 2 * k
  {
    if k > 0 {
      ZeroPairs(ps, k - 1);
      assert PairBytes(ps[k - 1]) == [0, 0];
    }
  }
}
