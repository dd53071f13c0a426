/**
 * The data section of a container of compact dex files. All the dex files written into it share the
 * section and the deduper of debug infos and strings, which stay; code items have a deduper of their own,
 * which CompactDexWriter::Write of dexlayout/compact_dex_writer.cc clears at the end of each dex file.
 */
module CompactContainer {
  import opened Bytes
  import opened Leb128
  import opened Streams
  import opened CompactCode
  import opened CompactDedupe
  import opened CodeDedupe

  /** One write into the data section. */
  datatype Op =
    | CodeItem(code: Code)
    | DebugInfo(bytes: seq<byte>)
    | StringData(utf16Length: u32, data: seq<byte>)
    | Other(bytes: seq<byte>, alignment: Alignment)
    | NextDexFile

  /** The deduper that a write goes through. */
  datatype Kind = CodeKind | DataKind | NoKind

  function KindOf(op: Op): Kind {
    match op
    case CodeItem(_) => CodeKind
    case DebugInfo(_) => DataKind
    case StringData(_, _) => DataKind
    case _ => NoKind
  }

  predicate Shares(dedupe: bool, kind: Kind) {
    match kind
    case CodeKind => dedupe
    case DataKind => true
    case NoKind => false
  }

  // The specification of a run. `taken[k]` is `k` if write `k` is kept, and otherwise the write it was taken for.

  function StringBytes(utf16Length: u32, data: seq<byte>): seq<byte> {
    Uleb(utf16Length) + data + [0]
  }

  /** Where a write begins when the stream is at `p`. */
  function Start(op: Op, p: nat): (s: nat)
    ensures s >= p && (KindOf(op) != NoKind ==> s == p)
  {
    match op
    case Other(_, alignment) => RoundUp(p, alignment)
    case NextDexFile => RoundUp(p, 8)
    case _ => p
  }

  /** What it leaves there. */
  function Laid(f: Payloads, op: Op, s: nat): seq<byte> {
    match op
    case CodeItem(code) => Range(f, code, s)
    case DebugInfo(bs) => bs
    case StringData(n, data) => StringBytes(n, data)
    case Other(bs, _) => bs
    case NextDexFile => []
  }

  /** The offset that is registered for it. */
  function Registered(f: Payloads, op: Op, s: nat): nat {
    if op.CodeItem? then ItemStart(f, op.code, s) else s
  }

  /** Where the stream is after `k` writes. */
  ghost function Reached(f: Payloads, ops: seq<Op>, taken: seq<nat>, k: nat): (p: nat)
    requires k <= |ops| && k <= |taken|
    ensures p >= 8
  {
    if k == 0 then 8
    else
      var p := Reached(f, ops, taken, k - 1);
      if taken[k - 1] == k - 1 then
        var s := Start(ops[k - 1], p);
        s + |Laid(f, ops[k - 1], s)|
      else p
  }

  ghost function Begins(f: Payloads, ops: seq<Op>, taken: seq<nat>, k: nat): nat
    requires k < |ops| && k <= |taken|
  {
    Start(ops[k], Reached(f, ops, taken, k))
  }

  ghost function BytesOf(f: Payloads, ops: seq<Op>, taken: seq<nat>, k: nat): seq<byte>
    requires k < |ops| && k <= |taken|
  {
    Laid(f, ops[k], Begins(f, ops, taken, k))
  }

  ghost function EntryOf(f: Payloads, ops: seq<Op>, taken: seq<nat>, k: nat): Entry
    requires k < |ops| && k <= |taken|
  {
    var s := Begins(f, ops, taken, k);
    Entry(s, |Laid(f, ops[k], s)|, Registered(f, ops[k], s))
  }

  /** The offset that write `k` ends up with. */
  ghost function PlaceOf(f: Payloads, ops: seq<Op>, taken: seq<nat>, k: nat): nat
    requires k < |taken| <= |ops| && taken[k] <= k
  {
    Registered(f, ops[taken[k]], Begins(f, ops, taken, taken[k]))
  }

  /** No dex file begins between two writes. */
  ghost predicate SameFile(ops: seq<Op>, j: nat, k: nat)
    requires k <= |ops|
  {
    forall i :: j < i < k ==> !ops[i].NextDexFile?
  }

  /** Write `j`, if it is kept, is keyed in the deduper of `kind` when `n` writes have been made. */
  ghost predicate Live(ops: seq<Op>, n: nat, kind: Kind, j: nat)
    requires j < n <= |ops|
  {
    KindOf(ops[j]) == kind && (kind.CodeKind? ==> SameFile(ops, j, n))
  }

  /**
   * Write `k` is taken for the kept one that has left the same bytes and is still keyed, and kept if there
   * is none.
   */
  ghost predicate Takes(dedupe: bool, f: Payloads, ops: seq<Op>, taken: seq<nat>, k: nat)
    requires k < |taken| <= |ops|
  {
    var kind := KindOf(ops[k]);
    if taken[k] == k then
      Shares(dedupe, kind) ==>
        forall j :: 0 <= j < k && taken[j] == j && Live(ops, k, kind, j) ==>
          BytesOf(f, ops, taken, j) != BytesOf(f, ops, taken, k)
    else
      && Shares(dedupe, kind) && taken[k] < k && taken[taken[k]] == taken[k] && Live(ops, k, kind, taken[k])
      && BytesOf(f, ops, taken, taken[k]) == BytesOf(f, ops, taken, k)
  }

  ghost predicate RunTakes(dedupe: bool, f: Payloads, ops: seq<Op>, taken: seq<nat>) {
    |taken| <= |ops| && forall k :: 0 <= k < |taken| ==> Takes(dedupe, f, ops, taken, k)
  }

  lemma {:induction false} ReachedStays(f: Payloads, ops: seq<Op>, a: seq<nat>, b: seq<nat>, k: nat)
    requires k <= |ops| && k <= |a| && k <= |b| && a[..k] == b[..k]
    ensures Reached(f, ops, a, k) == Reached(f, ops, b, k)
  {
    hide Start, Laid;
    if k > 0 {
      assert a[..k - 1] == a[..k][..k - 1] == b[..k][..k - 1] == b[..k - 1];
      ReachedStays(f, ops, a, b, k - 1);
      assert a[k - 1] == a[..k][k - 1] == b[..k][k - 1] == b[k - 1];
    }
  }

  /** What a write has left does not depend on later ones. */
  lemma Stays(f: Payloads, ops: seq<Op>, taken: seq<nat>, t: nat, k: nat)
    requires k <= |taken| < |ops|
    ensures Reached(f, ops, taken + [t], k) == Reached(f, ops, taken, k)
    ensures Begins(f, ops, taken + [t], k) == Begins(f, ops, taken, k)
    ensures BytesOf(f, ops, taken + [t], k) == BytesOf(f, ops, taken, k)
    ensures EntryOf(f, ops, taken + [t], k) == EntryOf(f, ops, taken, k)
  {
    hide Reached, Start, Laid, Registered;
    assert (taken + [t])[..k] == taken[..k];
    ReachedStays(f, ops, taken + [t], taken, k);
  }

  lemma TakesStay(dedupe: bool, f: Payloads, ops: seq<Op>, taken: seq<nat>, t: nat, k: nat)
    requires k < |taken| < |ops| && Takes(dedupe, f, ops, taken, k)
    ensures Takes(dedupe, f, ops, taken + [t], k)
  {
    hide BytesOf, EntryOf, Begins, Live, Reached, KindOf;
    var more := taken + [t];
    forall j | 0 <= j <= k ensures more[j] == taken[j] && BytesOf(f, ops, more, j) == BytesOf(f, ops, taken, j) {
      Stays(f, ops, taken, t, j);
    }
  }

  lemma LiveEarlier(ops: seq<Op>, i: nat, j: nat, k: nat, kind: Kind)
    requires i < j < k <= |ops| && Live(ops, k, kind, i)
    ensures Live(ops, j, kind, i)
  {
  }

  /** The writes and the specification leave no choice. */
  lemma {:induction false} TakesUnique(dedupe: bool, f: Payloads, ops: seq<Op>, a: seq<nat>, b: seq<nat>, k: nat)
    requires RunTakes(dedupe, f, ops, a) && RunTakes(dedupe, f, ops, b) && k <= |a| && k <= |b|
    ensures a[..k] == b[..k]
  {
    if k > 0 {
      var n := k - 1;
      TakesUnique(dedupe, f, ops, a, b, n);
      assert Takes(dedupe, f, ops, a, n) && Takes(dedupe, f, ops, b, n);
      OneChoice(dedupe, f, ops, a, b, n);
      assert a[..k] == a[..n] + [a[n]] && b[..k] == b[..n] + [b[n]];
    }
  }

  lemma OneChoice(dedupe: bool, f: Payloads, ops: seq<Op>, a: seq<nat>, b: seq<nat>, n: nat)
    requires RunTakes(dedupe, f, ops, a) && RunTakes(dedupe, f, ops, b) && n < |a| && n < |b| && a[..n] == b[..n]
    ensures a[n] == b[n]
  {
    hide Laid, Reached, Live, KindOf;
    forall j | 0 <= j <= n ensures BytesOf(f, ops, a, j) == BytesOf(f, ops, b, j) {
      assert a[..j] == a[..n][..j] == b[..n][..j] == b[..j];
      ReachedStays(f, ops, a, b, j);
    }
    assert forall j :: 0 <= j < n ==> a[j] == a[..n][j] == b[..n][j] == b[j];
    assert Takes(dedupe, f, ops, a, n) && Takes(dedupe, f, ops, b, n);
    var i, j, kind := a[n], b[n], KindOf(ops[n]);
    if i < n && j < n && i != j {
      var x, y := if i < j then i else j, if i < j then j else i;
      assert Takes(dedupe, f, ops, a, y);
      LiveKind(ops, n, kind, y);
      LiveEarlier(ops, x, y, n, kind);
      assert false;
    }
  }

  lemma LiveKind(ops: seq<Op>, n: nat, kind: Kind, j: nat)
    requires j < n <= |ops| && Live(ops, n, kind, j)
    ensures KindOf(ops[j]) == kind
  {
  }

  // The state of the container.

  /** What has been kept stands where it was written. */
  ghost predicate Stored(d: seq<byte>, f: Payloads, ops: seq<Op>, taken: seq<nat>)
    requires |taken| <= |ops|
  {
    forall k :: 0 <= k < |taken| && taken[k] == k ==>
      && Holds(d, Begins(f, ops, taken, k), BytesOf(f, ops, taken, k))
      && Begins(f, ops, taken, k) + |BytesOf(f, ops, taken, k)| <= Reached(f, ops, taken, |taken|)
  }

  /** The entries of a deduper are those of the kept writes that are live. */
  ghost predicate Keeps(kind: Kind, enabled: bool, f: Payloads, ops: seq<Op>, taken: seq<nat>, entries: seq<Entry>)
    requires |taken| <= |ops|
  {
    && (forall e :: e in entries ==>
          && enabled
          && exists j :: 0 <= j < |taken| && taken[j] == j && Live(ops, |taken|, kind, j)
                         && e == EntryOf(f, ops, taken, j))
    && (enabled ==>
          forall j :: 0 <= j < |taken| && taken[j] == j && Live(ops, |taken|, kind, j) ==>
            EntryOf(f, ops, taken, j) in entries)
  }

  ghost predicate Inv(dedupe: bool, f: Payloads, ops: seq<Op>, taken: seq<nat>, d: seq<byte>, p: nat,
                      codes: seq<Entry>, data: seq<Entry>)
  {
    && RunTakes(dedupe, f, ops, taken) && p == Reached(f, ops, taken, |taken|) && ZeroFrom(d, p)
    && Stored(d, f, ops, taken)
    && Keeps(CodeKind, dedupe, f, ops, taken, codes) && Keeps(DataKind, true, f, ops, taken, data)
  }

  lemma EntriesInside(kind: Kind, enabled: bool, d: seq<byte>, f: Payloads, ops: seq<Op>, taken: seq<nat>,
                      entries: seq<Entry>)
    requires |taken| <= |ops| && Stored(d, f, ops, taken) && Keeps(kind, enabled, f, ops, taken, entries)
    ensures Inside(entries, Reached(f, ops, taken, |taken|), if kind.CodeKind? then 2 else 1)
  {
    hide Reached, Laid, Holds, ItemStart, SameFile;
    forall i | 0 <= i < |entries|
      ensures var e := entries[i];
              && e.offset + e.length <= Reached(f, ops, taken, |taken|) && e.item != 0
              && e.item % (if kind.CodeKind? then 2 else 1) == 0
    {
      assert entries[i] in entries;
      var j :| 0 <= j < |taken| && taken[j] == j && Live(ops, |taken|, kind, j)
               && entries[i] == EntryOf(f, ops, taken, j);
      if kind.CodeKind? {
        ItemEven(f, ops[j].code, Begins(f, ops, taken, j));
      }
    }
  }

  /** A kept write is found again by what it has left. */
  lemma EntryContent(d: seq<byte>, f: Payloads, ops: seq<Op>, taken: seq<nat>, j: nat)
    requires j < |taken| <= |ops| && taken[j] == j && Stored(d, f, ops, taken)
    ensures var e := EntryOf(f, ops, taken, j); Content(d, e.offset, e.length) == BytesOf(f, ops, taken, j)
  {
    hide Reached, Laid, Holds, Content;
    ContentHolds(d, Begins(f, ops, taken, j), BytesOf(f, ops, taken, j));
  }

  lemma StoredNext(d: seq<byte>, d': seq<byte>, f: Payloads, ops: seq<Op>, taken: seq<nat>, t: nat)
    requires |taken| < |ops| && Stored(d, f, ops, taken) && SameBelow(d, d', Reached(f, ops, taken, |taken|))
    requires t == |taken| ==> Holds(d', Begins(f, ops, taken, |taken|), BytesOf(f, ops, taken, |taken|))
    ensures Stored(d', f, ops, taken + [t])
    ensures Reached(f, ops, taken + [t], |taken| + 1)
            == if t == |taken| then Begins(f, ops, taken, |taken|) + |BytesOf(f, ops, taken, |taken|)|
               else Reached(f, ops, taken, |taken|)
  {
    hide Laid, Get, Start;
    var n, more := |taken|, taken + [t];
    Stays(f, ops, taken, t, n);
    assert more[n] == t;
    assert Reached(f, ops, more, n + 1) >= Reached(f, ops, taken, n);
    hide Reached;
    forall k | 0 <= k < n + 1 && more[k] == k
      ensures Holds(d', Begins(f, ops, more, k), BytesOf(f, ops, more, k))
      ensures Begins(f, ops, more, k) + |BytesOf(f, ops, more, k)| <= Reached(f, ops, more, n + 1)
    {
      Stays(f, ops, taken, t, k);
      if k < n {
        assert taken[k] == k;
      }
    }
  }

  lemma LiveNext(ops: seq<Op>, n: nat, kind: Kind, j: nat)
    requires j < n < |ops|
    ensures Live(ops, n + 1, kind, j) <==> Live(ops, n, kind, j) && !(kind.CodeKind? && ops[n].NextDexFile?)
  {
    if Live(ops, n + 1, kind, j) && kind.CodeKind? {
      assert SameFile(ops, j, n + 1);
    }
  }

  /** A deduper whose entries are not touched. */
  lemma KeepsStays(kind: Kind, enabled: bool, f: Payloads, ops: seq<Op>, taken: seq<nat>, entries: seq<Entry>, t: nat)
    requires |taken| < |ops| && Keeps(kind, enabled, f, ops, taken, entries)
    requires !(kind.CodeKind? && ops[|taken|].NextDexFile?)
    requires enabled && KindOf(ops[|taken|]) == kind ==> t != |taken|
    ensures Keeps(kind, enabled, f, ops, taken + [t], entries)
  {
    hide EntryOf, BytesOf, Begins, Reached, Live;
    var n, more := |taken|, taken + [t];
    forall j | 0 <= j < n
      ensures more[j] == taken[j] && EntryOf(f, ops, more, j) == EntryOf(f, ops, taken, j)
      ensures Live(ops, n + 1, kind, j) <==> Live(ops, n, kind, j)
    {
      Stays(f, ops, taken, t, j);
      LiveNext(ops, n, kind, j);
    }
    if Live(ops, n + 1, kind, n) {
      LiveKind(ops, n + 1, kind, n);
    }
    forall e | e in entries
      ensures exists j :: 0 <= j < |more| && more[j] == j && Live(ops, |more|, kind, j) && e == EntryOf(f, ops, more, j)
    {
      var j :| 0 <= j < n && taken[j] == j && Live(ops, n, kind, j) && e == EntryOf(f, ops, taken, j);
      assert more[j] == j && Live(ops, n + 1, kind, j) && e == EntryOf(f, ops, more, j);
    }
  }

  /** The deduper of a write that is kept. */
  lemma KeepsMore(kind: Kind, f: Payloads, ops: seq<Op>, taken: seq<nat>, entries: seq<Entry>)
    requires |taken| < |ops| && Keeps(kind, true, f, ops, taken, entries)
    requires KindOf(ops[|taken|]) == kind && kind != NoKind
    ensures Keeps(kind, true, f, ops, taken + [|taken|], entries + [EntryOf(f, ops, taken, |taken|)])
  {
    hide EntryOf, BytesOf, Begins, Reached, Live;
    var n, more, es := |taken|, taken + [|taken|], entries + [EntryOf(f, ops, taken, |taken|)];
    forall j | 0 <= j < n
      ensures more[j] == taken[j] && EntryOf(f, ops, more, j) == EntryOf(f, ops, taken, j)
      ensures Live(ops, n + 1, kind, j) <==> Live(ops, n, kind, j)
    {
      Stays(f, ops, taken, n, j);
      LiveNext(ops, n, kind, j);
    }
    Stays(f, ops, taken, n, n);
    LiveSelf(ops, n, kind);
    forall e | e in es
      ensures exists j :: 0 <= j < |more| && more[j] == j && Live(ops, |more|, kind, j) && e == EntryOf(f, ops, more, j)
    {
      if e in entries {
        var j :| 0 <= j < n && taken[j] == j && Live(ops, n, kind, j) && e == EntryOf(f, ops, taken, j);
        assert more[j] == j && Live(ops, n + 1, kind, j) && e == EntryOf(f, ops, more, j);
      } else {
        assert more[n] == n && e == EntryOf(f, ops, more, n);
      }
    }
    forall j | 0 <= j < |more| && more[j] == j && Live(ops, |more|, kind, j) ensures EntryOf(f, ops, more, j) in es {
      if j < n {
        assert EntryOf(f, ops, taken, j) in entries;
      } else {
        assert es[|entries|] == EntryOf(f, ops, taken, n);
      }
    }
  }

  lemma LiveSelf(ops: seq<Op>, n: nat, kind: Kind)
    requires n < |ops| && KindOf(ops[n]) == kind
    ensures Live(ops, n + 1, kind, n)
  {
  }

  /** The deduper of code items at the end of a dex file. */
  lemma KeepsNone(enabled: bool, f: Payloads, ops: seq<Op>, taken: seq<nat>, t: nat)
    requires |taken| < |ops| && ops[|taken|].NextDexFile?
    ensures Keeps(CodeKind, enabled, f, ops, taken + [t], [])
  {
    hide EntryOf;
    var n, m := |taken|, |taken| + 1;
    forall j | 0 <= j < m ensures !Live(ops, m, CodeKind, j) {
      if j < n {
        LiveNext(ops, n, CodeKind, j);
      }
    }
  }

  /** A write that goes through a deduper: what it is taken for is decided. */
  lemma Decided(kind: Kind, dedupe: bool, f: Payloads, ops: seq<Op>, taken: seq<nat>, d: seq<byte>,
                entries: seq<Entry>, offset: nat, hit: Option<Entry>)
    returns (t: nat)
    requires |taken| < |ops| && KindOf(ops[|taken|]) == kind && kind != NoKind
    requires Stored(d, f, ops, taken) && Keeps(kind, Shares(dedupe, kind), f, ops, taken, entries)
    requires match hit
             case None =>
               && offset == Registered(f, ops[|taken|], Begins(f, ops, taken, |taken|))
               && (Shares(dedupe, kind) ==>
                     forall e :: e in entries ==> Content(d, e.offset, e.length) != BytesOf(f, ops, taken, |taken|))
             case Some(e) =>
               && e in entries && offset == e.item
               && Content(d, e.offset, e.length) == BytesOf(f, ops, taken, |taken|)
    ensures t <= |taken| && (t == |taken| <==> hit.None?) && Takes(dedupe, f, ops, taken + [t], |taken|)
    ensures offset == PlaceOf(f, ops, taken + [t], |taken|)
  {
    hide Begins, BytesOf, Reached, Live, Content, KindOf, Registered, Stored, Shares;
    var n := |taken|;
    match hit
    case None =>
      t := n;
      Stays(f, ops, taken, t, n);
      var more := taken + [t];
      forall j | 0 <= j < n && more[j] == j && Live(ops, n, kind, j) && Shares(dedupe, kind)
        ensures BytesOf(f, ops, more, j) != BytesOf(f, ops, more, n)
      {
        assert taken[j] == j;
        Stays(f, ops, taken, t, j);
        EntryContent(d, f, ops, taken, j);
        assert EntryOf(f, ops, taken, j) in entries;
      }
    case Some(e) =>
      t :| 0 <= t < n && taken[t] == t && Live(ops, n, kind, t) && e == EntryOf(f, ops, taken, t);
      EntryContent(d, f, ops, taken, t);
      Stays(f, ops, taken, t, t);
      Stays(f, ops, taken, t, n);
      assert (taken + [t])[t] == t && (taken + [t])[n] == t;
  }

  lemma TakesAll(dedupe: bool, f: Payloads, ops: seq<Op>, taken: seq<nat>, t: nat)
    requires |taken| < |ops| && RunTakes(dedupe, f, ops, taken) && Takes(dedupe, f, ops, taken + [t], |taken|)
    ensures RunTakes(dedupe, f, ops, taken + [t])
  {
    hide Takes;
    forall k | 0 <= k < |taken| ensures Takes(dedupe, f, ops, taken + [t], k) {
      TakesStay(dedupe, f, ops, taken, t, k);
    }
  }

  /** Below the end nothing changes, and behind it there is nothing. */
  lemma OutcomeFrame(enabled: bool, d: seq<byte>, entries: seq<Entry>, d': seq<byte>, entries': seq<Entry>, p: nat,
                     end: nat, bs: seq<byte>, item: nat, offset: nat, hit: Option<Entry>)
    requires ZeroFrom(d, p) && Outcome(enabled, d, entries, d', entries', p, end, bs, item, offset, hit)
    ensures SameBelow(d, d', p) && ZeroFrom(d', end) && (hit.None? ==> Holds(d', p, bs))
  {
    hide Content, Get;
  }

  lemma KeepsOutcome(kind: Kind, enabled: bool, f: Payloads, ops: seq<Op>, taken: seq<nat>, entries: seq<Entry>,
                     entries': seq<Entry>, hit: Option<Entry>, t: nat)
    requires |taken| < |ops| && Keeps(kind, enabled, f, ops, taken, entries) && KindOf(ops[|taken|]) == kind
    requires kind != NoKind && (t == |taken| <==> hit.None?)
    requires hit.None? && enabled ==> entries' == entries + [EntryOf(f, ops, taken, |taken|)]
    requires hit.Some? || !enabled ==> entries' == entries
    ensures Keeps(kind, enabled, f, ops, taken + [t], entries')
  {
    hide Keeps, EntryOf;
    if hit.None? && enabled {
      KeepsMore(kind, f, ops, taken, entries);
    } else {
      KeepsStays(kind, enabled, f, ops, taken, entries, t);
    }
  }

  /** The invariant behind a write that goes through a deduper. */
  lemma ItemKeepsInv(dedupe: bool, f: Payloads, ops: seq<Op>, taken: seq<nat>, d: seq<byte>, p: nat,
                     codes: seq<Entry>, data: seq<Entry>, d': seq<byte>, p': nat, codes': seq<Entry>,
                     data': seq<Entry>, offset: nat, hit: Option<Entry>)
    returns (t: nat)
    requires |taken| < |ops| && Inv(dedupe, f, ops, taken, d, p, codes, data)
    requires var op := ops[|taken|];
             match KindOf(op)
             case CodeKind =>
               && Outcome(dedupe, d, codes, d', codes', p, p', Laid(f, op, p), Registered(f, op, p), offset, hit)
               && data' == data
             case DataKind =>
               && Outcome(true, d, data, d', data', p, p', Laid(f, op, p), Registered(f, op, p), offset, hit)
               && codes' == codes
             case NoKind => false
    ensures Inv(dedupe, f, ops, taken + [t], d', p', codes', data')
    ensures t <= |taken| && offset == PlaceOf(f, ops, taken + [t], |taken|)
  {
    hide Laid, Registered, Stored, Keeps, RunTakes, Takes, Reached, ZeroFrom, SameBelow, Holds, Put, Content, PlaceOf;
    var n, op := |taken|, ops[|taken|];
    var kind := KindOf(op);
    var bs := Laid(f, op, p);
    assert p == Begins(f, ops, taken, n) && bs == BytesOf(f, ops, taken, n);
    if kind.CodeKind? {
      OutcomeFrame(dedupe, d, codes, d', codes', p, p', bs, Registered(f, op, p), offset, hit);
      t := Decided(kind, dedupe, f, ops, taken, d, codes, offset, hit);
      KeepsOutcome(kind, dedupe, f, ops, taken, codes, codes', hit, t);
      KeepsStays(DataKind, true, f, ops, taken, data, t);
    } else {
      OutcomeFrame(true, d, data, d', data', p, p', bs, Registered(f, op, p), offset, hit);
      t := Decided(kind, dedupe, f, ops, taken, d, data, offset, hit);
      KeepsOutcome(kind, true, f, ops, taken, data, data', hit, t);
      KeepsStays(CodeKind, dedupe, f, ops, taken, codes, t);
    }
    StoredNext(d, d', f, ops, taken, t);
    TakesAll(dedupe, f, ops, taken, t);
  }

  /** And behind any other write. */
  lemma OtherKeepsInv(dedupe: bool, f: Payloads, ops: seq<Op>, taken: seq<nat>, d: seq<byte>, p: nat,
                      codes: seq<Entry>, data: seq<Entry>, d': seq<byte>, p': nat, codes': seq<Entry>)
    requires |taken| < |ops| && Inv(dedupe, f, ops, taken, d, p, codes, data)
    requires var op := ops[|taken|];
             var s := Start(op, p);
             && KindOf(op) == NoKind && p' == s + |Laid(f, op, s)|
             && SameBelow(d, d', p) && Holds(d', s, Laid(f, op, s)) && ZeroFrom(d', p')
             && codes' == if op.NextDexFile? then [] else codes
    ensures Inv(dedupe, f, ops, taken + [|taken|], d', p', codes', data)
    ensures Start(ops[|taken|], p) == PlaceOf(f, ops, taken + [|taken|], |taken|)
  {
    hide Laid, Stored, Keeps, RunTakes, Reached, ZeroFrom, SameBelow, Holds, Start;
    var n, op := |taken|, ops[|taken|];
    Stays(f, ops, taken, n, n);
    StoredNext(d, d', f, ops, taken, n);
    TakesAll(dedupe, f, ops, taken, n);
    KeepsStays(DataKind, true, f, ops, taken, data, n);
    if op.NextDexFile? {
      KeepsNone(dedupe, f, ops, taken, n);
    } else {
      KeepsStays(CodeKind, dedupe, f, ops, taken, codes, n);
    }
  }

  lemma NothingWritten(dedupe: bool, f: Payloads, ops: seq<Op>, d: seq<byte>)
    requires Same([], d)
    ensures Inv(dedupe, f, ops, [], d, 8, [], [])
  {
    forall i: nat ensures Get(d, i) == 0 { assert Get(d, i) == Get([], i); }
  }

  class Container {
    const section: Section
    const codes: Deduper
    const data: Deduper
    var stream: Stream
    /** A debug check has failed. */
    var failed: bool

    /** The stream is at the end of what has been written, and so are the keyed ranges. */
    ghost predicate Ready()
      reads this, stream, section, codes, data
    {
      && stream.section == section && stream.position <= |section.data| && !stream.clobbered && codes != data
      && 8 <= stream.position && ZeroFrom(section.data, stream.position)
      && Inside(codes.entries, stream.position, 2) && Inside(data.entries, stream.position, 1) && data.enabled
    }

    ghost predicate Valid(dedupe: bool, f: Payloads, ops: seq<Op>, taken: seq<nat>)
      reads this, stream, section, codes, data
    {
      && Ready() && codes.enabled == dedupe
      && Inv(dedupe, f, ops, taken, section.data, stream.position, codes.entries, data.entries)
    }

    constructor (dedupe: bool, ghost f: Payloads, ghost ops: seq<Op>)
      ensures Valid(dedupe, f, ops, []) && !failed
      ensures fresh(stream) && fresh(section) && fresh(codes) && fresh(data)
    {
      var s := new Section();
      section := s;
      codes := new Deduper(dedupe);
      data := new Deduper(true);
      stream := new Stream(s);
      failed := false;
      new;
      BeginDex();
      NothingWritten(dedupe, f, ops, section.data);
    }

    /** The start of CompactDexWriter::Write for the next dex file; position 0 stays reserved for null. */
    method BeginDex()
      modifies this`stream, section
      ensures fresh(stream) && stream.section == section && !stream.clobbered
      ensures stream.position == RoundUp(if |old(section.data)| > 8 then |old(section.data)| else 8, 8)
      ensures stream.position <= |section.data| && Same(old(section.data), section.data)
    {
      ghost var d := section.data;
      stream := new Stream(section);
      stream.Seek(if |section.data| > 8 then |section.data| else 8);
      ghost var d1 := section.data;
      stream.AlignTo(8);
      SameTwice(d, d1, section.data);
    }

    lemma SameTwice(a: seq<byte>, b: seq<byte>, c: seq<byte>)
      requires Same(a, b) && Same(b, c)
      ensures Same(a, c)
    {
      hide Get;
      forall i: nat ensures Get(c, i) == Get(a, i) { assert Get(b, i) == Get(a, i); }
    }

    /** Its end: the section is cut to what has been used, and the deduper of code items is cleared. */
    method EndDex()
      requires Ready()
      modifies this`failed, stream`position, section, codes
      ensures Ready() && failed == old(failed) && codes.entries == []
      ensures stream.position == RoundUp(old(stream.position), 8) == |section.data|
      ensures Same(old(section.data), section.data)
    {
      hide Get, RoundUp;
      failed := failed || stream.clobbered;
      ghost var d, p := section.data, stream.position;
      stream.AlignTo(8);
      ghost var d1 := section.data;
      section.Resize(stream.position);
      CutTail(d, d1, section.data, p);
      InsideMore(data.entries, p, stream.position, 1);
      codes.Clear();
    }

    lemma CutTail(d: seq<byte>, d1: seq<byte>, d2: seq<byte>, p: nat)
      requires ZeroFrom(d, p) && Same(d, d1) && p <= |d2| && forall i :: 0 <= i < |d2| ==> d2[i] == Get(d1, i)
      ensures Same(d, d2) && ZeroFrom(d2, p)
    {
      forall i: nat ensures Get(d2, i) == Get(d, i) { assert Get(d1, i) == Get(d, i); }
    }

    lemma InsideMore(entries: seq<Entry>, p: nat, q: nat, alignment: Alignment)
      requires Inside(entries, p, alignment) && p <= q
      ensures Inside(entries, q, alignment)
    {
    }

    /** WriteCodeItem. */
    method WriteCode(f: Payloads, c: Code) returns (offset: nat, ghost hit: Option<Entry>)
      requires Ready()
      modifies this`failed, stream, section, codes
      ensures stream.position <= |section.data| && !stream.clobbered
      ensures var p := old(stream.position);
              Outcome(codes.enabled, old(section.data), old(codes.entries), section.data, codes.entries, p,
                      stream.position, Range(f, c, p), ItemStart(f, c, p), offset, hit)
      ensures failed <==> old(failed) || c.registers < c.ins
    {
      hide ZeroFrom, Inside, Put, Range, ItemStart;
      ghost var d := section.data;
      var start := stream.position;
      var item, below := CodeDedupe.WriteCodeItem(stream, f, c);
      failed := failed || below;
      offset, hit := CompactDedupe.EndItem(stream, codes, start, 2, item, d, Range(f, c, start));
    }

    /** WriteDebugInfoItem. */
    method WriteDebugInfo(bs: seq<byte>) returns (offset: nat, ghost hit: Option<Entry>)
      requires Ready()
      modifies stream, section, data
      ensures stream.position <= |section.data| && !stream.clobbered
      ensures var p := old(stream.position);
              Outcome(true, old(section.data), old(data.entries), section.data, data.entries, p, stream.position, bs, p,
                      offset, hit)
    {
      hide Inside, Get;
      ghost var d := section.data;
      var start := stream.position;
      stream.AlignTo(1);
      stream.Write(bs);
      offset, hit := CompactDedupe.EndItem(stream, data, start, 1, start, d, bs);
    }

    /** WriteStringData; the terminating zero byte is skipped, not written. */
    method WriteStringData(utf16Length: u32, chars: seq<byte>) returns (offset: nat, ghost hit: Option<Entry>)
      requires Ready()
      modifies stream, section, data
      ensures stream.position <= |section.data| && !stream.clobbered
      ensures var p := old(stream.position);
              Outcome(true, old(section.data), old(data.entries), section.data, data.entries, p, stream.position,
                      StringBytes(utf16Length, chars), p, offset, hit)
    {
      hide Inside, Get, Uleb;
      ghost var d := section.data;
      var start := stream.position;
      stream.AlignTo(1);
      stream.WriteUleb128(utf16Length);
      stream.Write(chars);
      stream.Skip(1);
      ghost var bs := StringBytes(utf16Length, chars);
      assert Put(d, section.data, start, bs);
      offset, hit := CompactDedupe.EndItem(stream, data, start, 1, start, d, bs);
    }

    /** Any other item of the data part; these are not deduplicated. */
    method WriteOther(bs: seq<byte>, alignment: Alignment) returns (offset: nat)
      requires Ready()
      modifies stream, section
      ensures offset == RoundUp(old(stream.position), alignment) && stream.position == offset + |bs| <= |section.data|
      ensures SameBelow(old(section.data), section.data, old(stream.position)) && Holds(section.data, offset, bs)
      ensures ZeroFrom(section.data, stream.position) && !stream.clobbered
    {
      hide Inside, Get, RoundUp;
      stream.AlignTo(alignment);
      offset := stream.position;
      stream.Write(bs);
    }

    lemma IsReady(dedupe: bool, f: Payloads, ops: seq<Op>, taken: seq<nat>)
      requires stream.section == section && stream.position <= |section.data| && !stream.clobbered && codes != data
      requires data.enabled && codes.enabled == dedupe
      requires Inv(dedupe, f, ops, taken, section.data, stream.position, codes.entries, data.entries)
      ensures Valid(dedupe, f, ops, taken)
    {
      hide Takes, Keeps, Stored, ZeroFrom, Inside;
      EntriesInside(CodeKind, dedupe, section.data, f, ops, taken, codes.entries);
      EntriesInside(DataKind, true, section.data, f, ops, taken, data.entries);
    }

    /** One write, the next in `ops`. */
    method Perform(f: Payloads, op: Op, ghost dedupe: bool, ghost ops: seq<Op>, ghost taken: seq<nat>)
      returns (offset: nat, ghost t: nat)
      requires Valid(dedupe, f, ops, taken) && |taken| < |ops| && ops[|taken|] == op
      modifies this`stream, this`failed, stream, section, codes, data
      ensures Valid(dedupe, f, ops, taken + [t]) && (stream == old(stream) || fresh(stream))
      ensures t <= |taken| && offset == PlaceOf(f, ops, taken + [t], |taken|)
      ensures failed <==> old(failed) || (op.CodeItem? && op.code.registers < op.code.ins)
    {
      hide Inv, Outcome, PlaceOf, Range, ItemStart, StringBytes, RoundUp, ZeroFrom, Holds, Inside, SameBelow;
      ghost var d, p, cs, ds := section.data, stream.position, codes.entries, data.entries;
      ghost var hit;
      match op {
        case CodeItem(c) =>
          offset, hit := WriteCode(f, c);
          t := ItemKeepsInv(dedupe, f, ops, taken, d, p, cs, ds, section.data, stream.position, codes.entries, ds,
                            offset, hit);
        case DebugInfo(bs) =>
          offset, hit := WriteDebugInfo(bs);
          t := ItemKeepsInv(dedupe, f, ops, taken, d, p, cs, ds, section.data, stream.position, cs, data.entries,
                            offset, hit);
        case StringData(n, chars) =>
          offset, hit := WriteStringData(n, chars);
          t := ItemKeepsInv(dedupe, f, ops, taken, d, p, cs, ds, section.data, stream.position, cs, data.entries,
                            offset, hit);
        case Other(bs, a) =>
          offset := WriteOther(bs, a);
          t := |taken|;
          OtherKeepsInv(dedupe, f, ops, taken, d, p, cs, ds, section.data, stream.position, cs);
        case NextDexFile =>
          EndDex();
          BeginDex();
          offset := stream.position;
          t := |taken|;
          NextFileFrame(d, section.data, p, offset);
          OtherKeepsInv(dedupe, f, ops, taken, d, p, cs, ds, section.data, stream.position, []);
      }
      IsReady(dedupe, f, ops, taken + [t]);
    }

    lemma NextFileFrame(d: seq<byte>, d': seq<byte>, p: nat, p': nat)
      requires ZeroFrom(d, p) && p <= p' && Same(d, d')
      ensures SameBelow(d, d', p) && ZeroFrom(d', p') && Holds(d', p', [])
    {
    }
  }

  // Whole runs.

  /** What a write has to leave is found at `p`. */
  ghost predicate Found(d: seq<byte>, p: nat, op: Op) {
    match op
    case CodeItem(c) => CodeAt(d, p, c)
    case DebugInfo(bs) => p != 0 && Holds(d, p, bs)
    case StringData(n, chars) =>
      && p != 0 && Holds(d, p, Uleb(n)) && Holds(d, p + |Uleb(n)|, chars)
      && Get(d, p + |Uleb(n)| + |chars|) == 0
    case Other(bs, _) => p != 0 && Holds(d, p, bs)
    case NextDexFile => true
  }

  ghost predicate AllWellFormed(ops: seq<Op>) {
    forall k :: 0 <= k < |ops| && ops[k].CodeItem? ==> WellFormed(ops[k].code)
  }

  /** Some code item has fewer registers than ins. */
  ghost predicate Unfit(ops: seq<Op>) {
    exists k :: 0 <= k < |ops| && ops[k].CodeItem? && ops[k].code.registers < ops[k].code.ins
  }

  /** Only equal code items of a dex file have the same range. */
  ghost predicate Separate(f: Payloads, ops: seq<Op>) {
    forall j, k :: 0 <= j < k < |ops| && ops[j].CodeItem? && ops[k].CodeItem? && SameFile(ops, j, k)
                   && Collide(f, ops[j].code, ops[k].code) ==>
      ops[j].code == ops[k].code
  }

  /** A write that is kept: the stream goes from `p` to `q`, and the write is registered at `offset`. */
  ghost predicate Occupies(f: Payloads, op: Op, p: nat, q: nat, offset: nat) {
    match op
    case CodeItem(c) =>
      && Placed(f, c, p, offset)
      && var e := offset + 4 + 2 * |c.insns|;
         q == if c.tries == [] then e else (e + 3) / 4 * 4 + 8 * |c.tries| + |c.handlers|
    case DebugInfo(bs) => offset == p && q == p + |bs|
    case StringData(n, chars) => offset == p && q == p + |Uleb(n)| + |chars| + 1
    case Other(bs, a) => offset % a == 0 && p <= offset < p + a && q == offset + |bs|
    case NextDexFile => q % 8 == 0 && p <= q < p + 8
  }

  /** Where everything stands: kept writes follow each other from 8 on, and the others take no room. */
  lemma WritesFollow(dedupe: bool, f: Payloads, ops: seq<Op>, taken: seq<nat>, k: nat)
    requires RunTakes(dedupe, f, ops, taken) && k < |taken|
    ensures Reached(f, ops, taken, 0) == 8 && taken[k] <= k
    ensures taken[k] == k ==>
              Occupies(f, ops[k], Reached(f, ops, taken, k), Reached(f, ops, taken, k + 1), PlaceOf(f, ops, taken, k))
    ensures taken[k] < k ==>
              && Reached(f, ops, taken, k + 1) == Reached(f, ops, taken, k)
              && taken[taken[k]] == taken[k] && PlaceOf(f, ops, taken, k) == PlaceOf(f, ops, taken, taken[k])
  {
    hide *;
    TakenFor(dedupe, f, ops, taken, k);
    ReachedNext(f, ops, taken, k);
    KeptOccupies(f, ops[k], Reached(f, ops, taken, k));
    KeptHere(f, ops, taken, k, taken[k]);
  }

  lemma KeptHere(f: Payloads, ops: seq<Op>, taken: seq<nat>, k: nat, t: nat)
    requires k < |taken| <= |ops| && taken[k] == t <= k && taken[t] == t
    ensures Begins(f, ops, taken, k) == Start(ops[k], Reached(f, ops, taken, k))
    ensures BytesOf(f, ops, taken, k) == Laid(f, ops[k], Begins(f, ops, taken, k))
    ensures t == k ==> PlaceOf(f, ops, taken, k) == Registered(f, ops[k], Begins(f, ops, taken, k))
    ensures PlaceOf(f, ops, taken, k) == PlaceOf(f, ops, taken, t)
  {
    hide Laid, Start, Reached, Registered;
  }

  lemma ReachedNext(f: Payloads, ops: seq<Op>, taken: seq<nat>, k: nat)
    requires k < |ops| && k < |taken|
    ensures Reached(f, ops, taken, 0) == 8
    ensures Reached(f, ops, taken, k + 1)
            == if taken[k] == k then Begins(f, ops, taken, k) + |BytesOf(f, ops, taken, k)|
               else Reached(f, ops, taken, k)
  {
    hide Laid, Start;
  }

  lemma KeptOccupies(f: Payloads, op: Op, p: nat)
    ensures var s := Start(op, p); Occupies(f, op, p, s + |Laid(f, op, s)|, Registered(f, op, s))
  {
    hide Range, ItemStart, Placed, Uleb;
    if op.CodeItem? {
      ItemPlaced(f, op.code, p);
      RangeEnds(f, op.code, p);
    }
  }

  /** A write is only taken for one of its own deduper, and a code item only for one of the same dex file. */
  lemma TakenFor(dedupe: bool, f: Payloads, ops: seq<Op>, taken: seq<nat>, k: nat)
    requires RunTakes(dedupe, f, ops, taken) && k < |taken|
    ensures |taken| <= |ops| && taken[k] <= k && KindOf(ops[taken[k]]) == KindOf(ops[k])
    ensures taken[taken[k]] == taken[k]
    ensures ops[k].CodeItem? ==> SameFile(ops, taken[k], k)
    ensures BytesOf(f, ops, taken, taken[k]) == BytesOf(f, ops, taken, k)
    ensures KindOf(ops[k]) == NoKind ==> taken[k] == k
    ensures ops[k].CodeItem? && !dedupe ==> taken[k] == k
  {
    hide BytesOf;
    assert Takes(dedupe, f, ops, taken, k);
  }

  /** The bytes of a debug info or a string. */
  function ItemBytes(op: Op): Option<seq<byte>> {
    match op
    case DebugInfo(bs) => Some(bs)
    case StringData(n, chars) => Some(Uleb(n) + chars + [0])
    case _ => None
  }

  /** Debug infos and strings with the same bytes get the same offset, whatever dex files they are in. */
  lemma DataShared(dedupe: bool, f: Payloads, ops: seq<Op>, taken: seq<nat>, j: nat, k: nat)
    requires RunTakes(dedupe, f, ops, taken) && j < |taken| && k < |taken|
    requires ItemBytes(ops[j]).Some? && ItemBytes(ops[j]) == ItemBytes(ops[k])
    ensures taken[j] <= j && taken[k] <= k && PlaceOf(f, ops, taken, j) == PlaceOf(f, ops, taken, k)
  {
    hide Reached, Start, Uleb;
    TakenFor(dedupe, f, ops, taken, j);
    TakenFor(dedupe, f, ops, taken, k);
    var x, y := if taken[j] < taken[k] then taken[j] else taken[k], if taken[j] < taken[k] then taken[k] else taken[j];
    assert Takes(dedupe, f, ops, taken, y);
    assert x < y ==> Live(ops, y, DataKind, x);
  }

  /** Where a write ends up is found what it was taken for, and of code items nothing else. */
  lemma FoundThere(dedupe: bool, f: Payloads, ops: seq<Op>, taken: seq<nat>, d: seq<byte>, k: nat)
    requires RunTakes(dedupe, f, ops, taken) && k < |taken| && Stored(d, f, ops, taken) && AllWellFormed(ops)
    ensures taken[k] <= k && Found(d, PlaceOf(f, ops, taken, k), ops[taken[k]])
    ensures PlaceOf(f, ops, taken, k) <= Reached(f, ops, taken, |taken|)
    ensures Found(d, PlaceOf(f, ops, taken, k), ops[k]) <==> (ops[k].CodeItem? ==> ops[taken[k]] == ops[k])
  {
    hide Takes, Reached, StringBytes, Range, ItemStart, CodeAt, WellFormed, Holds;
    TakenFor(dedupe, f, ops, taken, k);
    var t := taken[k];
    var s := Begins(f, ops, taken, t);
    assert s >= 8 by { ReachedAbove(f, ops, taken, t); }
    assert Holds(d, s, BytesOf(f, ops, taken, t)) && s + |BytesOf(f, ops, taken, t)| <= Reached(f, ops, taken, |taken|);
    match ops[k] {
      case CodeItem(c) =>
        StandsExact(d, f, s, ops[t].code, c);
        RangeBehind(f, ops[t].code, s);
      case StringData(n, chars) =>
        StringFound(d, s, n, chars, BytesOf(f, ops, taken, t));
      case _ =>
    }
    if ops[t].StringData? {
      StringFound(d, s, ops[t].utf16Length, ops[t].data, BytesOf(f, ops, taken, t));
    }
  }

  lemma StringFound(d: seq<byte>, p: nat, n: u32, chars: seq<byte>, bs: seq<byte>)
    requires Holds(d, p, bs)
    ensures bs == StringBytes(n, chars) ==>
              && Holds(d, p, Uleb(n)) && Holds(d, p + |Uleb(n)|, chars) && Get(d, p + |Uleb(n)| + |chars|) == 0
  {
    hide Uleb;
    if bs == StringBytes(n, chars) {
      HoldsConcat(d, p, Uleb(n) + chars, [0]);
      HoldsConcat(d, p, Uleb(n), chars);
    }
  }

  lemma ReachedAbove(f: Payloads, ops: seq<Op>, taken: seq<nat>, k: nat)
    requires k <= |ops| && k <= |taken|
    ensures Reached(f, ops, taken, k) >= 8
  {
  }

  lemma RangeBehind(f: Payloads, c: Code, s: nat)
    ensures ItemStart(f, c, s) <= s + |Range(f, c, s)|
  {
    hide PreBytes, HeadBytes, TailBytes, Lead;
  }

  /** If different code items of a dex file never have the same range, all are found. */
  lemma SeparateFound(dedupe: bool, f: Payloads, ops: seq<Op>, taken: seq<nat>, k: nat)
    requires RunTakes(dedupe, f, ops, taken) && k < |taken| && Separate(f, ops)
    ensures taken[k] <= k && (ops[k].CodeItem? ==> ops[taken[k]] == ops[k])
  {
    hide Reached, Range, SameFile, Start, Collide;
    TakenFor(dedupe, f, ops, taken, k);
    if ops[k].CodeItem? && taken[k] < k {
      RangesCollide(f, ops[taken[k]].code, ops[k].code, Begins(f, ops, taken, taken[k]), Begins(f, ops, taken, k));
    }
  }

  /**
   * Any sequence of writes over any number of dex files in one container. Which earlier write each is
   * taken for, and with it every offset, is as specified; no check fails unless a code item has fewer
   * registers than ins. Below 4 GiB at each offset stands what the write was taken for. For everything
   * but code items that is what was to be written; for a code item exactly if the two are equal.
   */
  method WriteContainer(dedupe: bool, f: Payloads, ops: seq<Op>)
    returns (aborted: bool, section: Section, offsets: seq<u32>, end: nat, ghost taken: seq<nat>)
    requires AllWellFormed(ops)
    ensures aborted <==> Unfit(ops)
    ensures |offsets| == |ops| == |taken| && RunTakes(dedupe, f, ops, taken)
    ensures end == RoundUp(Reached(f, ops, taken, |ops|), 8) == |section.data|
    ensures forall k :: 0 <= k < |ops| ==>
              taken[k] <= k && offsets[k] == PlaceOf(f, ops, taken, k) % 0x1_0000_0000
    ensures forall k :: 0 <= k < |ops| && taken[k] == k && end < 0x1_0000_0000 ==>
              Occupies(f, ops[k], Reached(f, ops, taken, k), Reached(f, ops, taken, k + 1), offsets[k])
    ensures end < 0x1_0000_0000 ==>
              forall k :: 0 <= k < |ops| ==>
                && taken[k] <= k && Found(section.data, offsets[k], ops[taken[k]])
                && (Found(section.data, offsets[k], ops[k]) <==> (ops[k].CodeItem? ==> ops[taken[k]] == ops[k]))
    ensures end < 0x1_0000_0000 && Separate(f, ops) ==>
              forall k :: 0 <= k < |ops| ==> Found(section.data, offsets[k], ops[k])
  {
    hide *;
    aborted, section, offsets, end, taken := WriteOps(dedupe, f, ops);
    Concluded(dedupe, f, ops, taken, section.data, offsets, end);
  }

  lemma Concluded(dedupe: bool, f: Payloads, ops: seq<Op>, taken: seq<nat>, d: seq<byte>, offsets: seq<u32>, end: nat)
    requires RunTakes(dedupe, f, ops, taken) && |offsets| == |ops| == |taken| && Stored(d, f, ops, taken)
    requires AllWellFormed(ops) && end == RoundUp(Reached(f, ops, taken, |ops|), 8)
    requires forall k :: 0 <= k < |ops| ==>
               taken[k] <= k && offsets[k] == PlaceOf(f, ops, taken, k) % 0x1_0000_0000
    ensures forall k :: 0 <= k < |ops| && taken[k] == k && end < 0x1_0000_0000 ==>
              Occupies(f, ops[k], Reached(f, ops, taken, k), Reached(f, ops, taken, k + 1), offsets[k])
    ensures end < 0x1_0000_0000 ==>
              forall k :: 0 <= k < |ops| ==>
                && taken[k] <= k && Found(d, offsets[k], ops[taken[k]])
                && (Found(d, offsets[k], ops[k]) <==> (ops[k].CodeItem? ==> ops[taken[k]] == ops[k]))
    ensures end < 0x1_0000_0000 && Separate(f, ops) ==>
              forall k :: 0 <= k < |ops| ==> Found(d, offsets[k], ops[k])
  {
    hide *;
    if end < 0x1_0000_0000 {
      forall k | 0 <= k < |ops|
        ensures taken[k] <= k && Found(d, offsets[k], ops[taken[k]])
        ensures Found(d, offsets[k], ops[k]) <==> (ops[k].CodeItem? ==> ops[taken[k]] == ops[k])
        ensures Separate(f, ops) ==> Found(d, offsets[k], ops[k])
        ensures taken[k] == k ==>
                  Occupies(f, ops[k], Reached(f, ops, taken, k), Reached(f, ops, taken, k + 1), offsets[k])
      {
        FoundThere(dedupe, f, ops, taken, d, k);
        WritesFollow(dedupe, f, ops, taken, k);
        SmallPlace(PlaceOf(f, ops, taken, k), Reached(f, ops, taken, |ops|));
        if Separate(f, ops) {
          SeparateFound(dedupe, f, ops, taken, k);
        }
      }
    }
  }

  lemma SmallPlace(p: nat, q: nat)
    requires p <= q
    ensures RoundUp(q, 8) < 0x1_0000_0000 ==> p % 0x1_0000_0000 == p
  {
  }

  lemma PlaceStays(f: Payloads, ops: seq<Op>, taken: seq<nat>, t: nat, j: nat)
    requires j < |taken| < |ops| && taken[j] <= j
    ensures (taken + [t])[j] == taken[j] && PlaceOf(f, ops, taken + [t], j) == PlaceOf(f, ops, taken, j)
  {
    hide Begins, Registered;
    Stays(f, ops, taken, t, taken[j]);
  }

  lemma StoredStill(dedupe: bool, f: Payloads, ops: seq<Op>, taken: seq<nat>, d: seq<byte>, d': seq<byte>, p: nat,
                    codes: seq<Entry>, data: seq<Entry>)
    requires Inv(dedupe, f, ops, taken, d, p, codes, data) && Same(d, d')
    ensures RunTakes(dedupe, f, ops, taken) && Stored(d', f, ops, taken) && p == Reached(f, ops, taken, |taken|)
  {
    hide Takes, Keeps, Get, Reached, Begins, BytesOf, ZeroFrom;
    forall k | 0 <= k < |taken| && taken[k] == k
      ensures Holds(d', Begins(f, ops, taken, k), BytesOf(f, ops, taken, k))
    {
      assert Holds(d, Begins(f, ops, taken, k), BytesOf(f, ops, taken, k));
    }
  }

  /** The loop over the writes. */
  method WriteOps(dedupe: bool, f: Payloads, ops: seq<Op>)
    returns (aborted: bool, section: Section, offsets: seq<u32>, end: nat, ghost taken: seq<nat>)
    ensures aborted <==> Unfit(ops)
    ensures |offsets| == |ops| == |taken| && RunTakes(dedupe, f, ops, taken) && Stored(section.data, f, ops, taken)
    ensures end == RoundUp(Reached(f, ops, taken, |ops|), 8) == |section.data|
    ensures forall k :: 0 <= k < |ops| ==>
              taken[k] <= k && offsets[k] == PlaceOf(f, ops, taken, k) % 0x1_0000_0000
  {
    hide PlaceOf, Inv, Inside, ZeroFrom, RoundUp;
    var container := new Container(dedupe, f, ops);
    section := container.section;
    offsets, taken := [], [];
    for k := 0 to |ops|
      invariant container.Valid(dedupe, f, ops, taken) && |offsets| == |taken| == k && section == container.section
      invariant fresh(container) && fresh(section) && fresh(container.stream)
      invariant fresh(container.codes) && fresh(container.data)
      invariant container.failed <==>
                exists j :: 0 <= j < k && ops[j].CodeItem? && ops[j].code.registers < ops[j].code.ins
      invariant forall j :: 0 <= j < k ==>
                  taken[j] <= j && offsets[j] == PlaceOf(f, ops, taken, j) % 0x1_0000_0000
    {
      var offset;
      ghost var t;
      offset, t := container.Perform(f, ops[k], dedupe, ops, taken);
      forall j | 0 <= j < k
        ensures (taken + [t])[j] <= j && PlaceOf(f, ops, taken + [t], j) == PlaceOf(f, ops, taken, j)
      {
        PlaceStays(f, ops, taken, t, j);
      }
      offsets, taken := offsets + [offset % 0x1_0000_0000], taken + [t];
    }
    ghost var d, p := section.data, container.stream.position;
    ghost var cs, ds := container.codes.entries, container.data.entries;
    container.EndDex();
    StoredStill(dedupe, f, ops, taken, d, section.data, p, cs, ds);
    aborted, end := container.failed, container.stream.position;
  }

  // Whenever two different code items can have the same range, there are runs that mistake them.

  /**
   * For every two code items whose ranges agree in some two places, four writes into one dex file that
   * can only be made with the last taken for the second.
   */
  lemma Mistaken(f: Payloads, b: Code, c: Code, s: nat, t: nat) returns (ops: seq<Op>)
    requires WellFormed(b) && WellFormed(c) && Range(f, b, s) == Range(f, c, t)
    ensures |ops| == 4 && ops[1] == CodeItem(b) && ops[3] == CodeItem(c) && AllWellFormed(ops)
    ensures forall taken :: |taken| == 4 ==> (RunTakes(true, f, ops, taken) <==> taken == [0, 1, 2, 1])
  {
    hide *;
    var u := Range(f, b, s);
    var x := FreeFiller(f, s % 4, 8, u, u);
    var first := Filler(s % 4, x);
    OneFree(f, s % 4, 8, u, u);
    FillerHandlers(s % 4, x);
    FillerEnd(f, s % 4, x, 8);
    var p1 := 8 + |Range(f, first, 8)|;
    RangeAgain(f, b, p1, s);
    var p2 := p1 + |u|;
    var y := FreeFiller(f, t % 4, p2, Range(f, first, 8), u);
    var second := Filler(t % 4, y);
    OneFree(f, t % 4, p2, Range(f, first, 8), u);
    FillerHandlers(t % 4, y);
    FillerEnd(f, t % 4, y, p2);
    var p3 := p2 + |Range(f, second, p2)|;
    RangeAgain(f, c, p3, t);
    ops := [CodeItem(first), CodeItem(b), CodeItem(second), CodeItem(c)];
    AllFour(f, first, b, second, c);
    OneCanBeTaken(f, ops);
    forall taken | |taken| == 4 && RunTakes(true, f, ops, taken) ensures taken == [0, 1, 2, 1] {
      OneTaken(f, ops, taken);
    }
  }

  lemma AllFour(f: Payloads, x: Code, b: Code, y: Code, c: Code)
    requires WellFormed(x) && WellFormed(b) && WellFormed(y) && WellFormed(c)
    requires var p1 := 8 + |Range(f, x, 8)|;
             var u := Range(f, b, p1);
             var p2 := p1 + |u|;
             var p3 := p2 + |Range(f, y, p2)|;
             && u == Range(f, c, p3) && Range(f, x, 8) != u
             && Range(f, y, p2) != u && Range(f, y, p2) != Range(f, x, 8)
    ensures var ops := [CodeItem(x), CodeItem(b), CodeItem(y), CodeItem(c)];
            AllWellFormed(ops) && LastIsSecond(f, ops)
  {
    hide WellFormed, Range;
  }

  /** Four code items of which the last has the range of the second and of no other. */
  ghost predicate LastIsSecond(f: Payloads, ops: seq<Op>) {
    && |ops| == 4 && (forall k :: 0 <= k < 4 ==> ops[k].CodeItem?)
    && var p1 := 8 + |Laid(f, ops[0], 8)|;
       var u := Laid(f, ops[1], p1);
       var p2 := p1 + |u|;
       var p3 := p2 + |Laid(f, ops[2], p2)|;
       && u == Laid(f, ops[3], p3) && Laid(f, ops[0], 8) != u
       && Laid(f, ops[2], p2) != u && Laid(f, ops[2], p2) != Laid(f, ops[0], 8)
  }

  lemma OneTaken(f: Payloads, ops: seq<Op>, taken: seq<nat>)
    requires LastIsSecond(f, ops) && |taken| == 4 && RunTakes(true, f, ops, taken)
    ensures taken == [0, 1, 2, 1]
  {
    hide Laid;
    assert forall j, k :: 0 <= j < k < 4 ==> Live(ops, k, CodeKind, j);
    assert Takes(true, f, ops, taken, 0) && taken[0] == 0 && Begins(f, ops, taken, 0) == 8;
    assert Takes(true, f, ops, taken, 1) && Begins(f, ops, taken, 1) == Reached(f, ops, taken, 1);
    assert taken[1] == 1;
    assert Takes(true, f, ops, taken, 2) && Begins(f, ops, taken, 2) == Reached(f, ops, taken, 2);
    assert taken[2] == 2;
    assert Takes(true, f, ops, taken, 3) && Begins(f, ops, taken, 3) == Reached(f, ops, taken, 3);
    assert taken[3] == 1;
  }

  lemma OneCanBeTaken(f: Payloads, ops: seq<Op>)
    requires LastIsSecond(f, ops)
    ensures RunTakes(true, f, ops, [0, 1, 2, 1])
  {
    hide Laid;
    var taken := [0, 1, 2, 1];
    assert Begins(f, ops, taken, 0) == 8;
    assert Begins(f, ops, taken, 1) == Reached(f, ops, taken, 1);
    assert Begins(f, ops, taken, 2) == Reached(f, ops, taken, 2);
    assert Begins(f, ops, taken, 3) == Reached(f, ops, taken, 3);
  }

  /** Some run of well-formed code items takes `c` for `b`. */
  ghost predicate Confused(f: Payloads, b: Code, c: Code) {
    exists ops: seq<Op>, taken: seq<nat>, k: nat ::
      && RunTakes(true, f, ops, taken) && |taken| == |ops| && k < |ops| && taken[k] <= k && AllWellFormed(ops)
      && ops[k] == CodeItem(c) && ops[taken[k]] == CodeItem(b)
  }

  /** Two different code items are confused by some run exactly if their ranges agree in some two places. */
  lemma ConfusedExactly(f: Payloads, b: Code, c: Code)
    requires WellFormed(b) && WellFormed(c) && b != c
    ensures Confused(f, b, c) <==> Collide(f, b, c)
  {
    hide Range, WellFormed, Reached, AllWellFormed;
    if Confused(f, b, c) {
      var ops: seq<Op>, taken: seq<nat>, k: nat :|
        && RunTakes(true, f, ops, taken) && |taken| == |ops| && k < |ops| && taken[k] <= k && AllWellFormed(ops)
        && ops[k] == CodeItem(c) && ops[taken[k]] == CodeItem(b);
      TakenFor(true, f, ops, taken, k);
      assert Range(f, b, Begins(f, ops, taken, taken[k])) == Range(f, c, Begins(f, ops, taken, k));
    }
    if s: nat, t: nat :| Range(f, b, s) == Range(f, c, t) {
      var ops := Mistaken(f, b, c, s, t);
      var taken := [0, 1, 2, 1];
      assert RunTakes(true, f, ops, taken) && taken[3] == 1;
    }
  }

  /** A method with 273 registers and one with a single register are taken for each other. */
  lemma TwoMethods(f: Payloads)
    requires !f(LARGE.insns) && !f(SMALL.insns)
    ensures Confused(f, LARGE, SMALL) && Confused(f, SMALL, LARGE)
  {
    hide *;
    SameRange(f, 8);
    RangesCollide(f, LARGE, SMALL, 8, 8);
    RangesCollide(f, SMALL, LARGE, 8, 8);
    ConfusedExactly(f, LARGE, SMALL);
    ConfusedExactly(f, SMALL, LARGE);
  }

  /** An item is not taken for one of an earlier dex file, however equal they are. */
  lemma WrittenAfresh(f: Payloads, c: Code, taken: seq<nat>)
    requires RunTakes(true, f, [CodeItem(c), NextDexFile, CodeItem(c)], taken) && |taken| == 3
    ensures taken == [0, 1, 2]
  {
    hide Range;
    var ops := [CodeItem(c), NextDexFile, CodeItem(c)];
    TakenFor(true, f, ops, taken, 0);
    TakenFor(true, f, ops, taken, 1);
    TakenFor(true, f, ops, taken, 2);
    assert ops[1].NextDexFile?;
  }
}
