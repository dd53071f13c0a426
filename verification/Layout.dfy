/**
 * The passes that reorder collections of owned items in place: SortByMapOrder of dexlayout/dex_ir.h,
 * LayoutClassDefsAndClassData and LayoutStringData of dexlayout/dexlayout.cc. Items are numbered;
 * a collection owns each of its items once, so a pass must end with a permutation of what it began with.
 */
module Layout {
  import opened Bytes
  import opened Sequences

  ghost predicate Permutation(s: seq<nat>, t: seq<nat>) {
    multiset(s) == multiset(t)
  }

  lemma {:induction false} DistinctOnce(s: seq<nat>, x: nat)
    requires Distinct(s)
    ensures multiset(s)[x] == if x in s then 1 else 0
  {
    if s != [] {
      var n := |s| - 1;
      DistinctOnce(s[..n], x);
      assert s == s[..n] + [s[n]];
    }
  }

  /** Two collections without duplicates, one within the other and as long, are permutations. */
  lemma WithinIsPermutation(s: seq<nat>, t: seq<nat>)
    requires Distinct(s) && Distinct(t) && |s| == |t| && Elements(s) <= Elements(t)
    ensures Permutation(s, t)
  {
    DistinctSize(s);
    DistinctSize(t);
    SubsetSize(Elements(s), Elements(t));
    forall x ensures multiset(s)[x] == multiset(t)[x] {
      DistinctOnce(s, x);
      DistinctOnce(t, x);
      assert x in Elements(s) <==> x in s;
      assert x in Elements(t) <==> x in t;
    }
  }

  // Sorting by the keys of a map.

  /** A map from keys to items in the order of its keys. */
  datatype Entry = Entry(key: nat, item: nat)

  ghost predicate KeysAscend(m: seq<Entry>) {
    forall i, j :: 0 <= i < j < |m| ==> m[i].key < m[j].key
  }

  function Items(m: seq<Entry>): (s: seq<nat>)
    ensures |s| == |m| && forall i :: 0 <= i < |m| ==> s[i] == m[i].item
  {
    seq(|m|, i requires 0 <= i < |m| => m[i].item)
  }

  /** Overwrites the collection; on the way it may hold an item twice. False when the sizes differ. */
  method SortByMapOrder(collection: array<nat>, m: seq<Entry>) returns (ok: bool)
    requires KeysAscend(m) && Distinct(collection[..]) && Distinct(Items(m))
    requires Elements(Items(m)) <= Elements(collection[..])
    modifies collection
    ensures ok <==> |m| == collection.Length
    ensures ok ==> collection[..] == Items(m) && Permutation(collection[..], old(collection[..]))
    ensures !ok ==> collection[..] == old(collection[..])
  {
    ok := |m| == collection.Length;
    if !ok {
      return;
    }
    ghost var was := collection[..];
    for i := 0 to collection.Length
      invariant forall j :: 0 <= j < i ==> collection[j] == m[j].item
    {
      collection[i] := m[i].item;
    }
    assert collection[..] == Items(m);
    WithinIsPermutation(collection[..], was);
  }

  // Class data: the classes of the profile first, and shared data once.

  datatype ClassDef = ClassDef(typ: nat, data: Option<nat>)

  function Filter(defs: seq<ClassDef>, keep: ClassDef -> bool): seq<ClassDef> {
    if defs == [] then []
    else Filter(defs[..|defs| - 1], keep) + if keep(defs[|defs| - 1]) then [defs[|defs| - 1]] else []
  }

  /** Classes of the profile, then the others, each in the old order. */
  function NewOrder(defs: seq<ClassDef>, inProfile: nat -> bool): seq<ClassDef> {
    Filter(defs, (d: ClassDef) => inProfile(d.typ)) + Filter(defs, (d: ClassDef) => !inProfile(d.typ))
  }

  /** The data of the classes, each at its first mention. */
  function FirstMentions(defs: seq<ClassDef>): (s: seq<nat>)
    ensures forall i :: 0 <= i < |defs| && defs[i].data.Some? ==> defs[i].data.value in s
  {
    if defs == [] then [] else
    var before := FirstMentions(defs[..|defs| - 1]);
    var d := defs[|defs| - 1].data;
    if d.None? || d.value in before then before else before + [d.value]
  }

  lemma {:induction false} MentionsDistinct(defs: seq<ClassDef>)
    ensures Distinct(FirstMentions(defs))
    ensures forall x :: x in FirstMentions(defs) ==> exists i :: 0 <= i < |defs| && defs[i].data == Some(x)
  {
    if defs != [] {
      MentionsDistinct(defs[..|defs| - 1]);
    }
  }

  /** Data come in the order in which the classes mention them first. */
  ghost predicate ByFirstMention(defs: seq<ClassDef>, datas: seq<nat>) {
    forall i, j :: 0 <= i < j < |datas| ==> MentionedBefore(defs, datas[i], datas[j])
  }

  /** Some class has `x` and neither it nor any class before it has `y`. */
  ghost predicate MentionedBefore(defs: seq<ClassDef>, x: nat, y: nat) {
    exists k :: 0 <= k < |defs| && defs[k].data == Some(x) && forall m :: 0 <= m <= k ==> defs[m].data != Some(y)
  }

  lemma {:induction false} MentionsOrdered(defs: seq<ClassDef>)
    ensures ByFirstMention(defs, FirstMentions(defs))
  {
    if defs != [] {
      var n := |defs| - 1;
      var before, s := FirstMentions(defs[..n]), FirstMentions(defs);
      MentionsOrdered(defs[..n]);
      MentionsDistinct(defs[..n]);
      forall i, j | 0 <= i < j < |s| ensures MentionedBefore(defs, s[i], s[j]) {
        if j < |before| {
          assert MentionedBefore(defs[..n], s[i], s[j]);
          var k :| 0 <= k < n && defs[..n][k].data == Some(s[i])
                   && forall m :: 0 <= m <= k ==> defs[..n][m].data != Some(s[j]);
          forall m | 0 <= m <= k ensures defs[m].data != Some(s[j]) { assert defs[..n][m] == defs[m]; }
        } else {
          assert s[i] in before;
          var k :| 0 <= k < |defs[..n]| && defs[..n][k].data == Some(s[i]);
          forall m | 0 <= m <= k ensures defs[m].data != Some(s[j]) { assert defs[..n][m] == defs[m]; }
        }
      }
    }
  }

  lemma FilterLast(defs: seq<ClassDef>, d: ClassDef, keep: ClassDef -> bool)
    ensures multiset(Filter(defs + [d], keep)) ==
            multiset(Filter(defs, keep)) + if keep(d) then multiset{d} else multiset{}
  {
    assert (defs + [d])[..|defs|] == defs;
  }

  lemma FilterNothing(keep: ClassDef -> bool)
    ensures Filter([], keep) == []
  {
  }

  /** The new order has the same classes, each as often as before. */
  lemma {:induction false} FilterCounts(defs: seq<ClassDef>, keep: ClassDef -> bool, drop: ClassDef -> bool)
    requires forall d :: drop(d) == !keep(d)
    ensures multiset(Filter(defs, keep)) + multiset(Filter(defs, drop)) == multiset(defs)
  {
    hide Filter;
    if defs == [] {
      FilterNothing(keep);
      FilterNothing(drop);
    } else {
      var n := |defs| - 1;
      FilterCounts(defs[..n], keep, drop);
      assert defs == defs[..n] + [defs[n]];
      FilterLast(defs[..n], defs[n], keep);
      FilterLast(defs[..n], defs[n], drop);
    }
  }

  /** `from` says which of the first `n` classes `picked` are; they are those to keep, in their order. */
  ghost predicate Picks(defs: seq<ClassDef>, n: nat, keep: ClassDef -> bool, picked: seq<ClassDef>, from: seq<nat>)
    requires n <= |defs|
  {
    && |from| == |picked|
    && (forall i :: 0 <= i < |from| ==> from[i] < n && picked[i] == defs[from[i]] && keep(picked[i]))
    && (forall i, j :: 0 <= i < j < |from| ==> from[i] < from[j])
    && (forall k :: 0 <= k < n && keep(defs[k]) ==> k in from)
  }

  lemma PicksMore(defs: seq<ClassDef>, n: nat, keep: ClassDef -> bool, picked: seq<ClassDef>, from: seq<nat>)
    requires n < |defs| && Picks(defs, n, keep, picked, from)
    ensures if keep(defs[n]) then Picks(defs, n + 1, keep, picked + [defs[n]], from + [n])
            else Picks(defs, n + 1, keep, picked, from)
  {
    if keep(defs[n]) {
      var more := from + [n];
      forall k | 0 <= k < n + 1 && keep(defs[k]) ensures k in more {
        if k < n {
          assert k in from;
        } else {
          assert more[|from|] == k;
        }
      }
    }
  }

  lemma NothingPicked(defs: seq<ClassDef>, keep: ClassDef -> bool)
    ensures Filter(defs[..0], keep) == [] && Picks(defs, 0, keep, [], [])
  {
  }

  lemma FilterNext(defs: seq<ClassDef>, i: nat, keep: ClassDef -> bool)
    requires i < |defs|
    ensures Filter(defs[..i + 1], keep)
            == if keep(defs[i]) then Filter(defs[..i], keep) + [defs[i]] else Filter(defs[..i], keep)
  {
    assert defs[..i + 1][..i] == defs[..i];
  }

  method FilterLoop(defs: seq<ClassDef>, keep: ClassDef -> bool, before: seq<ClassDef>)
    returns (order: seq<ClassDef>, ghost from: seq<nat>)
    ensures order == before + Filter(defs, keep) && Picks(defs, |defs|, keep, Filter(defs, keep), from)
  {
    hide Picks, Filter;
    order, from := before, [];
    NothingPicked(defs, keep);
    for i := 0 to |defs|
      invariant order == before + Filter(defs[..i], keep) && Picks(defs, i, keep, Filter(defs[..i], keep), from)
    {
      FilterNext(defs, i, keep);
      PicksMore(defs, i, keep, Filter(defs[..i], keep), from);
      if keep(defs[i]) {
        order := order + [defs[i]];
        from := from + [i];
      }
    }
    assert defs[..|defs|] == defs;
  }

  /**
   * `order` has all classes, class `i` being the old class `from[i]`; no class outside the profile comes
   * before one in it, and among those of each sort the old order is kept.
   */
  ghost predicate ProfileFirst(defs: seq<ClassDef>, inProfile: nat -> bool, order: seq<ClassDef>, from: seq<nat>) {
    && |from| == |order|
    && (forall i :: 0 <= i < |from| ==> from[i] < |defs| && order[i] == defs[from[i]])
    && (forall k :: 0 <= k < |defs| ==> k in from)
    && (forall i, j :: 0 <= i < j < |order| ==>
          if inProfile(order[i].typ) == inProfile(order[j].typ) then from[i] < from[j] else inProfile(order[i].typ))
  }

  lemma BothPicked(defs: seq<ClassDef>, inProfile: nat -> bool, a: seq<ClassDef>, b: seq<ClassDef>, f: seq<nat>,
                   g: seq<nat>)
    requires Picks(defs, |defs|, (d: ClassDef) => inProfile(d.typ), a, f)
    requires Picks(defs, |defs|, (d: ClassDef) => !inProfile(d.typ), b, g)
    ensures ProfileFirst(defs, inProfile, a + b, f + g)
  {
    forall k | 0 <= k < |defs| ensures k in f + g {
      if inProfile(defs[k].typ) {
        assert k in f;
      } else {
        assert k in g;
      }
    }
  }

  predicate Mentioned(defs: seq<ClassDef>, x: nat) {
    exists i :: 0 <= i < |defs| && defs[i].data == Some(x)
  }

  ghost predicate Closed(defs: seq<ClassDef>, datas: seq<nat>) {
    forall x :: Mentioned(defs, x) ==> x in datas
  }

  lemma {:induction false} MentionedFirst(defs: seq<ClassDef>, x: nat)
    ensures x in FirstMentions(defs) <==> Mentioned(defs, x)
  {
    MentionsDistinct(defs);
    if Mentioned(defs, x) {
      var i :| 0 <= i < |defs| && defs[i].data == Some(x);
    }
  }

  /** No more class data are mentioned than there are; as many if and only if all are. */
  lemma MentionsFit(defs: seq<ClassDef>, datas: seq<nat>)
    requires Distinct(datas) && Closed(defs, datas)
    ensures |FirstMentions(defs)| <= |datas|
    ensures |FirstMentions(defs)| == |datas| <==> forall x :: x in datas ==> Mentioned(defs, x)
    ensures |FirstMentions(defs)| == |datas| ==> Permutation(FirstMentions(defs), datas)
  {
    hide FirstMentions, Mentioned, Distinct;
    var s := FirstMentions(defs);
    MentionsDistinct(defs);
    DistinctSize(s);
    DistinctSize(datas);
    forall x ensures x in s <==> Mentioned(defs, x) { MentionedFirst(defs, x); }
    SubsetSize(Elements(s), Elements(datas));
    if |s| == |datas| {
      WithinIsPermutation(s, datas);
      forall x | x in datas ensures x in s {
        assert x in Elements(s);
      }
    }
    if forall x :: x in datas ==> Mentioned(defs, x) {
      assert Elements(s) == Elements(datas);
    }
  }

  lemma SameMentions(defs: seq<ClassDef>, order: seq<ClassDef>)
    requires multiset(defs) == multiset(order)
    ensures forall x :: Mentioned(defs, x) <==> Mentioned(order, x)
  {
    forall x: nat ensures Mentioned(defs, x) <==> Mentioned(order, x) {
      if i :| 0 <= i < |defs| && defs[i].data == Some(x) {
        assert defs[i] in multiset(order);
        assert defs[i] in order;
      }
      if i :| 0 <= i < |order| && order[i].data == Some(x) {
        assert order[i] in multiset(defs);
        assert order[i] in defs;
      }
    }
  }

  /** Overwrites the vector from the front. */
  method PlaceClassData(order: seq<ClassDef>, datas: array<nat>) returns (index: nat)
    requires Distinct(datas[..]) && Closed(order, datas[..])
    modifies datas
    ensures index == |FirstMentions(order)| <= datas.Length && datas[..index] == FirstMentions(order)
  {
    hide Distinct;
    ghost var was := datas[..];
    var visited: set<nat> := {};
    index := 0;
    for i := 0 to |order|
      invariant index <= datas.Length && datas[..index] == FirstMentions(order[..i])
      invariant visited == Elements(FirstMentions(order[..i]))
    {
      assert order[..i + 1][..i] == order[..i];
      var data := order[i].data;
      if data.Some? && data.value !in visited {
        RoomLeft(order, i + 1, was);
        visited := visited + {data.value};
        datas[index] := data.value;
        index := index + 1;
      }
    }
    assert order[..|order|] == order;
  }

  lemma RoomLeft(order: seq<ClassDef>, i: nat, datas: seq<nat>)
    requires i <= |order| && Distinct(datas) && Closed(order, datas)
    ensures |FirstMentions(order[..i])| <= |datas|
  {
    hide FirstMentions, Distinct;
    forall x | Mentioned(order[..i], x) ensures x in datas {
      var j :| 0 <= j < |order[..i]| && order[..i][j].data == Some(x);
      assert order[j].data == Some(x);
    }
    MentionsFit(order[..i], datas);
  }

  method OrderClasses(defs: seq<ClassDef>, inProfile: nat -> bool) returns (order: seq<ClassDef>, ghost from: seq<nat>)
    ensures order == NewOrder(defs, inProfile) && ProfileFirst(defs, inProfile, order, from)
  {
    hide Picks, ProfileFirst, Filter;
    var keep, drop := (d: ClassDef) => inProfile(d.typ), (d: ClassDef) => !inProfile(d.typ);
    order, from := FilterLoop(defs, keep, []);
    ghost var first, others := order, [];
    order, others := FilterLoop(defs, drop, order);
    assert first == Filter(defs, keep);
    BothPicked(defs, inProfile, first, Filter(defs, drop), from, others);
    from := from + others;
  }

  /** `ok` is the final check that all class data have been placed. */
  method LayoutClassData(defs: seq<ClassDef>,
                         inProfile: nat -> bool, datas: array<nat>)
    returns (order: seq<ClassDef>, ok: bool, ghost from: seq<nat>)
    requires Distinct(datas[..]) && Closed(defs, datas[..])
    modifies datas
    ensures order == NewOrder(defs, inProfile) && multiset(order) == multiset(defs)
    ensures ProfileFirst(defs, inProfile, order, from)
    ensures ok <==> forall x :: x in old(datas[..]) ==> Mentioned(defs, x)
    ensures ok ==> datas[..] == FirstMentions(order) && Permutation(datas[..], old(datas[..]))
    ensures ok ==> ByFirstMention(order, datas[..])
  {
    hide Distinct, Mentioned;
    ghost var was := datas[..];
    order, from := OrderClasses(defs, inProfile);
    hide ProfileFirst, NewOrder;
    OrderKeeps(defs, inProfile);
    SameMentions(defs, order);
    var index := PlaceClassData(order, datas);
    MentionsFit(order, was);
    MentionsOrdered(order);
    hide ByFirstMention;
    ok := index == datas.Length;
    assert ok ==> datas[..index] == datas[..];
  }

  lemma OrderKeeps(defs: seq<ClassDef>, inProfile: nat -> bool)
    ensures multiset(NewOrder(defs, inProfile)) == multiset(defs)
  {
    FilterCounts(defs, (d: ClassDef) => inProfile(d.typ), (d: ClassDef) => !inProfile(d.typ));
  }

  // String data: what hot code does not use first, and within each part what is no shorty first.

  /** The order of the sort, on string indices. */
  predicate Less(hot: seq<bool>, shorty: seq<bool>, a: nat, b: nat)
    requires a < |hot| == |shorty| && b < |hot|
  {
    if hot[a] != hot[b] then hot[b]
    else if shorty[a] != shorty[b] then shorty[b]
    else a < b
  }

  /** It is a strict total order, as sorting demands. */
  lemma LessIsTotal(hot: seq<bool>, shorty: seq<bool>, a: nat, b: nat, c: nat)
    requires a < |hot| == |shorty| && b < |hot| && c < |hot|
    ensures !Less(hot, shorty, a, a)
    ensures Less(hot, shorty, a, b) && Less(hot, shorty, b, c) ==> Less(hot, shorty, a, c)
    ensures a != b ==> (Less(hot, shorty, a, b) <==> !Less(hot, shorty, b, a))
  {
  }

  ghost predicate InRange(order: seq<nat>, n: nat) {
    forall i :: 0 <= i < |order| ==> order[i] < n
  }

  ghost predicate Sorted(hot: seq<bool>, shorty: seq<bool>, order: seq<nat>)
    requires |hot| == |shorty| && InRange(order, |hot|)
  {
    forall i, j :: 0 <= i < j < |order| ==> Less(hot, shorty, order[i], order[j])
  }

  /**
   * What the order means: no hot string precedes one that is not, within each of these parts no shorty
   * precedes a string that is none, and otherwise strings are in the order of their indices.
   */
  ghost predicate Partitioned(hot: seq<bool>, shorty: seq<bool>, order: seq<nat>)
    requires |hot| == |shorty| && InRange(order, |hot|)
  {
    forall i, j :: 0 <= i < j < |order| ==>
      var a, b := order[i], order[j];
      && !(hot[a] && !hot[b])
      && (hot[a] == hot[b] ==> !(shorty[a] && !shorty[b]))
      && (hot[a] == hot[b] && shorty[a] == shorty[b] ==> a < b)
  }

  lemma SortedPartitions(hot: seq<bool>, shorty: seq<bool>, order: seq<nat>)
    requires |hot| == |shorty| && InRange(order, |hot|)
    ensures Sorted(hot, shorty, order) ==> Partitioned(hot, shorty, order)
  {
  }

  /** There is only one way to sort: strictly sorted lists of the same strings are equal. */
  lemma {:induction false} SortedUnique(hot: seq<bool>, shorty: seq<bool>, s: seq<nat>, t: seq<nat>)
    requires |hot| == |shorty| && InRange(s, |hot|) && InRange(t, |hot|) && Sorted(hot, shorty, s)
    requires Sorted(hot, shorty, t)
    requires forall x :: x in s <==> x in t
    ensures s == t
    decreases s
  {
    if s == [] {
      SameEmpty(s, t);
    } else {
      assert s[0] in t && t != [] && t[0] in s;
      var i :| 0 <= i < |t| && t[i] == s[0];
      var j :| 0 <= j < |s| && s[j] == t[0];
      if i > 0 {
        LessIsTotal(hot, shorty, s[0], t[0], s[0]);
      }
      forall x ensures x in s[1..] <==> x in t[1..] {
        SortedTail(hot, shorty, s, x);
        SortedTail(hot, shorty, t, x);
      }
      SortedUnique(hot, shorty, s[1..], t[1..]);
      assert s == [s[0]] + s[1..] && t == [t[0]] + t[1..];
    }
  }

  lemma SameEmpty(s: seq<nat>, t: seq<nat>)
    requires forall x :: x in s <==> x in t
    ensures s == [] ==> t == []
  {
    if t != [] {
      assert t[0] in s;
    }
  }

  lemma SortedTail(hot: seq<bool>, shorty: seq<bool>, s: seq<nat>, x: nat)
    requires |hot| == |shorty| && InRange(s, |hot|) && Sorted(hot, shorty, s) && s != []
    ensures x in s[1..] <==> x in s && x != s[0]
  {
    if x in s[1..] {
      var i :| 0 <= i < |s[1..]| && s[1..][i] == x;
      assert s[i + 1] == x;
      LessIsTotal(hot, shorty, s[0], x, x);
    }
    if x in s && x != s[0] {
      var i :| 0 <= i < |s| && s[i] == x;
      assert s[1..][i - 1] == x;
    }
  }

  /** Sorts all string indices; insertion stands for the library's sort, whose result is the same. */
  method SortStrings(hot: seq<bool>, shorty: seq<bool>) returns (order: seq<nat>)
    requires |hot| == |shorty|
    ensures |order| == |hot| && InRange(order, |hot|) && Sorted(hot, shorty, order)
    ensures forall x :: x in order <==> 0 <= x < |hot|
  {
    order := [];
    for x := 0 to |hot|
      invariant |order| == x && InRange(order, x) && Sorted(hot, shorty, order)
      invariant forall y :: y in order <==> 0 <= y < x
    {
      var k := 0;
      while k < |order| && Less(hot, shorty, order[k], x)
        invariant k <= |order| && forall i :: 0 <= i < k ==> Less(hot, shorty, order[i], x)
      {
        k := k + 1;
      }
      InsertSorted(hot, shorty, order, x, k);
      order := order[..k] + [x] + order[k..];
    }
  }

  lemma InsertSorted(hot: seq<bool>, shorty: seq<bool>, order: seq<nat>, x: nat, k: nat)
    requires |hot| == |shorty| && x < |hot| && InRange(order, x) && Sorted(hot, shorty, order) && k <= |order|
    requires forall i :: 0 <= i < k ==> Less(hot, shorty, order[i], x)
    requires k < |order| ==> !Less(hot, shorty, order[k], x)
    ensures var more := order[..k] + [x] + order[k..];
            InRange(more, x + 1) && Sorted(hot, shorty, more) && forall y :: y in more <==> y in order || y == x
  {
    hide Less;
    var more := order[..k] + [x] + order[k..];
    forall i | k <= i < |order| ensures Less(hot, shorty, x, order[i]) {
      LessIsTotal(hot, shorty, order[k], x, x);
      LessIsTotal(hot, shorty, x, order[k], order[i]);
    }
    assert order == order[..k] + order[k..];
  }

  function Mapped(order: seq<nat>, dataOf: seq<nat>): (s: seq<nat>)
    requires forall i :: 0 <= i < |order| ==> order[i] < |dataOf|
    ensures |s| == |order| && forall i :: 0 <= i < |order| ==> s[i] == dataOf[order[i]]
  {
    seq(|order|, i requires 0 <= i < |order| => dataOf[order[i]])
  }

  /** Puts the string data in the order of the sorted string ids; no data is lost or duplicated. */
  method LayoutStringData(hot: seq<bool>, shorty: seq<bool>, dataOf: seq<nat>,
                          datas: array<nat>) returns (order: seq<nat>)
    requires |hot| == |shorty| == |dataOf| == datas.Length
    requires Distinct(dataOf) && Permutation(datas[..], dataOf)
    modifies datas
    ensures InRange(order, |hot|) && Sorted(hot, shorty, order) && |order| == |hot|
    ensures Partitioned(hot, shorty, order)
    ensures datas[..] == Mapped(order, dataOf) && Permutation(datas[..], old(datas[..]))
  {
    order := SortStrings(hot, shorty);
    SortedPartitions(hot, shorty, order);
    for i := 0 to |order|
      invariant forall j :: 0 <= j < i ==> datas[j] == dataOf[order[j]]
    {
      datas[i] := dataOf[order[i]];
    }
    assert datas[..] == Mapped(order, dataOf);
    MappedIsPermutation(hot, shorty, order, dataOf);
  }

  lemma MappedIsPermutation(hot: seq<bool>, shorty: seq<bool>, order: seq<nat>, dataOf: seq<nat>)
    requires |hot| == |shorty| == |dataOf| == |order| && InRange(order, |hot|) && Sorted(hot, shorty, order)
    requires Distinct(dataOf)
    ensures Permutation(Mapped(order, dataOf), dataOf)
  {
    var s := Mapped(order, dataOf);
    forall i, j | 0 <= i < j < |s| ensures s[i] != s[j] {
      LessIsTotal(hot, shorty, order[i], order[j], order[i]);
      assert order[i] != order[j];
    }
    WithinIsPermutation(s, dataOf);
  }
}
