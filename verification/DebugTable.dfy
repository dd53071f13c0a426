/**
 * The table of debug-info offsets by method index that compact dex files carry: the test that
 * admits a file, CanGenerateCompactDex, and the filling of the table in WriteDebugInfoOffsetTable,
 * both in dexlayout/compact_dex_writer.cc.
 */
module DebugTable {
  import opened Bytes

  datatype CodeItem = CodeItem(id: nat, debugInfo: Option<nat>)

  datatype Method = Method(index: nat, code: Option<CodeItem>)

  datatype ClassData = ClassData(directMethods: seq<Method>, virtualMethods: seq<Method>)

  function MethodsOf(c: Option<ClassData>, direct: bool): seq<Method> {
    if c.None? then [] else if direct then c.value.directMethods else c.value.virtualMethods
  }

  function Collected(classes: seq<Option<ClassData>>, direct: bool): seq<Method> {
    if classes == [] then []
    else Collected(classes[..|classes| - 1], direct) + MethodsOf(classes[|classes| - 1], direct)
  }

  /** The methods in the order both loops visit them. */
  function AllMethods(classes: seq<Option<ClassData>>): seq<Method> {
    Collected(classes, true) + Collected(classes, false)
  }

  /** Some class has the method, as a direct or as a virtual one. */
  ghost predicate HasMethod(classes: seq<Option<ClassData>>, m: Method) {
    exists c :: 0 <= c < |classes| && classes[c].Some?
                && (m in classes[c].value.directMethods || m in classes[c].value.virtualMethods)
  }

  lemma {:induction false} CollectedExact(classes: seq<Option<ClassData>>, direct: bool, m: Method)
    ensures m in Collected(classes, direct) <==>
              exists c :: 0 <= c < |classes| && classes[c].Some?
                          && m in if direct then classes[c].value.directMethods else classes[c].value.virtualMethods
  {
    if classes != [] {
      var n := |classes| - 1;
      CollectedExact(classes[..n], direct, m);
      if c :| 0 <= c < |classes| && classes[c].Some?
              && m in if direct then classes[c].value.directMethods else classes[c].value.virtualMethods {
        assert c < n ==> classes[..n][c] == classes[c];
      }
    }
  }

  /** The loops visit all methods and no others. */
  lemma AllMethodsExact(classes: seq<Option<ClassData>>, m: Method)
    ensures m in AllMethods(classes) <==> HasMethod(classes, m)
  {
    CollectedExact(classes, true, m);
    CollectedExact(classes, false, m);
  }

  /** No two methods of one index differ in their code. */
  ghost predicate OneCode(classes: seq<Option<ClassData>>) {
    forall m, n :: HasMethod(classes, m) && HasMethod(classes, n) && m.index == n.index ==> m.code == n.code
  }

  lemma ConsistentExact(classes: seq<Option<ClassData>>)
    ensures Consistent(AllMethods(classes)) <==> OneCode(classes)
  {
    hide AllMethods, HasMethod;
    var ms := AllMethods(classes);
    if Consistent(ms) {
      forall m, n | HasMethod(classes, m) && HasMethod(classes, n) && m.index == n.index ensures m.code == n.code {
        AllMethodsExact(classes, m);
        AllMethodsExact(classes, n);
        var i :| 0 <= i < |ms| && ms[i] == m;
        var j :| 0 <= j < |ms| && ms[j] == n;
      }
    }
    if OneCode(classes) {
      forall i, j | 0 <= i < j < |ms| && ms[i].index == ms[j].index ensures ms[i].code == ms[j].code {
        AllMethodsExact(classes, ms[i]);
        AllMethodsExact(classes, ms[j]);
      }
    }
  }

  ghost predicate InRange(classes: seq<Option<ClassData>>, size: nat) {
    forall i :: 0 <= i < |AllMethods(classes)| ==> AllMethods(classes)[i].index < size
  }

  /** Methods with the same index have the same code item, and so the same debug info. */
  ghost predicate Consistent(ms: seq<Method>) {
    forall i, j :: 0 <= i < j < |ms| && ms[i].index == ms[j].index ==> ms[i].code == ms[j].code
  }

  function DebugInfoOf(code: Option<CodeItem>): Option<nat> {
    if code.None? then None else code.value.debugInfo
  }

  /** What has been noted of the methods seen so far. */
  ghost predicate Noted(seen: seq<Method>, saw: seq<bool>, code: seq<Option<CodeItem>>, debug: seq<Option<nat>>) {
    && |saw| == |code| == |debug|
    && (forall i :: 0 <= i < |seen| ==>
        seen[i].index < |saw| && saw[seen[i].index] && code[seen[i].index] == seen[i].code)
    && (forall x :: 0 <= x < |saw| && saw[x] ==>
        debug[x] == DebugInfoOf(code[x]) && exists i :: 0 <= i < |seen| && seen[i].index == x)
  }

  lemma NotedConsistent(seen: seq<Method>, saw: seq<bool>, code: seq<Option<CodeItem>>, debug: seq<Option<nat>>)
    requires Noted(seen, saw, code, debug)
    ensures Consistent(seen)
  {
  }

  lemma NotedMore(seen: seq<Method>, saw: seq<bool>, code: seq<Option<CodeItem>>, debug: seq<Option<nat>>, m: Method)
    requires Noted(seen, saw, code, debug) && m.index < |saw|
    requires saw[m.index] ==> code[m.index] == m.code
    ensures Noted(seen + [m], saw[m.index := true], code[m.index := m.code], debug[m.index := DebugInfoOf(m.code)])
  {
    var more := seen + [m];
    var x := m.index;
    var saw' := saw[x := true];
    forall y | 0 <= y < |saw| && saw'[y] ensures exists i :: 0 <= i < |more| && more[i].index == y {
      if y == x {
        assert more[|seen|].index == y;
      } else {
        var i :| 0 <= i < |seen| && seen[i].index == y;
        assert more[i].index == y;
      }
    }
  }

  lemma Conflict(seen: seq<Method>, saw: seq<bool>, code: seq<Option<CodeItem>>, debug: seq<Option<nat>>, m: Method,
                 rest: seq<Method>)
    requires Noted(seen, saw, code, debug) && m.index < |saw| && saw[m.index]
    requires code[m.index] != m.code || debug[m.index] != DebugInfoOf(m.code)
    ensures !Consistent(seen + [m] + rest)
  {
    var i :| 0 <= i < |seen| && seen[i].index == m.index;
    var all := seen + [m] + rest;
    assert all[i] == seen[i] && all[|seen|] == m;
  }

  /** Both functions visit all direct methods before all virtual ones, class by class. */
  method Visit(classes: seq<Option<ClassData>>) returns (ms: seq<Method>)
    ensures ms == AllMethods(classes)
  {
    var direct := VisitKind(classes, true);
    var virtual := VisitKind(classes, false);
    ms := direct + virtual;
  }

  method VisitKind(classes: seq<Option<ClassData>>, direct: bool) returns (ms: seq<Method>)
    ensures ms == Collected(classes, direct)
  {
    ms := [];
    for c := 0 to |classes|
      invariant ms == Collected(classes[..c], direct)
    {
      assert classes[..c + 1][..c] == classes[..c];
      if classes[c].None? {
        continue;
      }
      ms := ms + if direct then classes[c].value.directMethods else classes[c].value.virtualMethods;
    }
    assert classes[..|classes|] == classes;
  }

  /** Accepts exactly when no two methods with one index differ in their code. */
  method CanGenerateCompactDex(classes: seq<Option<ClassData>>, size: nat) returns (can: bool)
    requires InRange(classes, size)
    ensures can <==> OneCode(classes)
    ensures can <==> Consistent(AllMethods(classes))
  {
    ConsistentExact(classes);
    hide Noted, Consistent, AllMethods, OneCode;
    var ms := Visit(classes);
    var saw := seq(size, i => false);
    var code := seq<Option<CodeItem>>(size, i => None);
    var debug := seq<Option<nat>>(size, i => None);
    NothingNoted(saw, code, debug);
    for k := 0 to |ms|
      invariant |saw| == |code| == |debug| == size && Noted(ms[..k], saw, code, debug)
    {
      var index := ms[k].index;
      var debugInfo: Option<nat> := None;
      if ms[k].code.Some? {
        debugInfo := ms[k].code.value.debugInfo;
      }
      assert ms == ms[..k] + [ms[k]] + ms[k + 1..];
      if saw[index] {
        if code[index] != ms[k].code || debug[index] != debugInfo {
          Conflict(ms[..k], saw, code, debug, ms[k], ms[k + 1..]);
          return false;
        }
      }
      NotedMore(ms[..k], saw, code, debug, ms[k]);
      assert ms[..k] + [ms[k]] == ms[..k + 1];
      code := code[index := ms[k].code];
      debug := debug[index := debugInfo];
      saw := saw[index := true];
    }
    assert ms[..|ms|] == ms;
    NotedConsistent(ms, saw, code, debug);
    can := true;
  }

  lemma NothingNoted(saw: seq<bool>, code: seq<Option<CodeItem>>, debug: seq<Option<nat>>)
    requires |saw| == |code| == |debug| && forall x :: 0 <= x < |saw| ==> !saw[x]
    ensures Noted([], saw, code, debug)
  {
  }

  // The table.

  /** The offset of a method's debug info, if it has any. */
  function OffsetFor(offsets: nat -> u32, m: Method): Option<u32> {
    if DebugInfoOf(m.code).None? then None else Some(offsets(DebugInfoOf(m.code).value))
  }

  /** No method's debug-info offset contradicts a non-zero one that an earlier method left in the table. */
  ghost predicate Agree(offsets: nat -> u32, ms: seq<Method>) {
    forall i, j :: 0 <= i < j < |ms| && ms[i].index == ms[j].index && OffsetFor(offsets, ms[j]).Some? ==>
      var o := OffsetFor(offsets, ms[i]); o == None || o == Some(0) || o == OffsetFor(offsets, ms[j])
  }

  /** Entry `x` is the last offset recorded for index `x`, or 0. */
  ghost predicate Entered(offsets: nat -> u32, ms: seq<Method>, x: nat, entry: u32) {
    || (entry == 0 && forall i :: 0 <= i < |ms| && ms[i].index == x ==> OffsetFor(offsets, ms[i]).None?)
    || (exists i :: 0 <= i < |ms| && ms[i].index == x && OffsetFor(offsets, ms[i]) == Some(entry)
          && forall j :: i < j < |ms| && ms[j].index == x ==> OffsetFor(offsets, ms[j]).None?)
  }

  ghost predicate TableFor(offsets: nat -> u32, ms: seq<Method>, table: seq<u32>) {
    forall x :: 0 <= x < |table| ==> Entered(offsets, ms, x, table[x])
  }

  lemma EnteredMore(offsets: nat -> u32, ms: seq<Method>, x: nat, entry: u32, m: Method)
    requires Entered(offsets, ms, x, entry)
    ensures m.index == x && OffsetFor(offsets, m).Some? ==> Entered(offsets, ms + [m], x, OffsetFor(offsets, m).value)
    ensures m.index != x || OffsetFor(offsets, m).None? ==> Entered(offsets, ms + [m], x, entry)
  {
    hide OffsetFor;
    var more := ms + [m];
    if m.index == x && OffsetFor(offsets, m).Some? {
      assert more[|ms|] == m;
    } else if i :| 0 <= i < |ms| && ms[i].index == x && OffsetFor(offsets, ms[i]) == Some(entry)
                   && forall j :: i < j < |ms| && ms[j].index == x ==> OffsetFor(offsets, ms[j]).None? {
      assert more[i] == ms[i];
    }
  }

  /** Fills the table; `failed` is whether the check that two offsets of one method agree fails. */
  method FillTable(classes: seq<Option<ClassData>>, size: nat,
                   offsets: nat -> u32) returns (table: seq<u32>, failed: bool)
    requires InRange(classes, size)
    ensures |table| == size && (failed <==> !Agree(offsets, AllMethods(classes)))
    ensures !failed ==> TableFor(offsets, AllMethods(classes), table)
  {
    hide Agree, Entered, AllMethods;
    var ms := Visit(classes);
    table := seq<u32>(size, i => 0);
    NothingEntered(offsets, table);
    for k := 0 to |ms|
      invariant |table| == size && TableFor(offsets, ms[..k], table) && Agree(offsets, ms[..k])
    {
      ghost var was := table;
      assert ms == ms[..k] + [ms[k]] + ms[k + 1..];
      assert ms[..k] + [ms[k]] == ms[..k + 1];
      if ms[k].code.Some? && ms[k].code.value.debugInfo.Some? {
        var offset := offsets(ms[k].code.value.debugInfo.value);
        var index := ms[k].index;
        if table[index] != 0 {
          if offset != table[index] {
            Contradicts(offsets, ms[..k], ms[k], ms[k + 1..], table[index]);
            return table, true;
          }
        }
        table := table[index := offset];
      }
      forall x | 0 <= x < size ensures Entered(offsets, ms[..k + 1], x, table[x]) {
        EnteredMore(offsets, ms[..k], x, was[x], ms[k]);
      }
      AgreeMore(offsets, ms[..k], ms[k], was[ms[k].index]);
    }
    assert ms[..|ms|] == ms;
    failed := false;
  }

  lemma NothingEntered(offsets: nat -> u32, table: seq<u32>)
    requires forall x :: 0 <= x < |table| ==> table[x] == 0
    ensures TableFor(offsets, [], table) && Agree(offsets, [])
  {
  }

  lemma Contradicts(offsets: nat -> u32, ms: seq<Method>, m: Method, rest: seq<Method>, entry: u32)
    requires Entered(offsets, ms, m.index, entry) && entry != 0
    requires OffsetFor(offsets, m).Some? && OffsetFor(offsets, m).value != entry
    ensures !Agree(offsets, ms + [m] + rest)
  {
    hide OffsetFor;
    var all := ms + [m] + rest;
    var i :| 0 <= i < |ms| && ms[i].index == m.index && OffsetFor(offsets, ms[i]) == Some(entry);
    assert all[i] == ms[i] && all[|ms|] == m;
  }

  lemma AgreeMore(offsets: nat -> u32, ms: seq<Method>, m: Method, entry: u32)
    requires Agree(offsets, ms) && Entered(offsets, ms, m.index, entry)
    requires OffsetFor(offsets, m).Some? && entry != 0 ==> OffsetFor(offsets, m).value == entry
    ensures Agree(offsets, ms + [m])
  {
    hide OffsetFor;
    var more := ms + [m];
    if OffsetFor(offsets, m).Some? {
      forall i |
        && 0 <= i < |ms| && ms[i].index == m.index
        && OffsetFor(offsets, ms[i]).Some? && OffsetFor(offsets, ms[i]).value != 0
        ensures OffsetFor(offsets, ms[i]) == OffsetFor(offsets, m)
      {
        var k :| 0 <= k < |ms| && ms[k].index == m.index && OffsetFor(offsets, ms[k]) == Some(entry)
                 && forall j :: k < j < |ms| && ms[j].index == m.index ==> OffsetFor(offsets, ms[j]).None?;
        assert i <= k;
      }
    }
  }

  /** If the file is accepted, every method finds its debug info in the table, or 0 if it has none. */
  lemma TableFinds(classes: seq<Option<ClassData>>, offsets: nat -> u32, table: seq<u32>, m: Method)
    requires OneCode(classes) && TableFor(offsets, AllMethods(classes), table)
    requires HasMethod(classes, m) && m.index < |table|
    ensures table[m.index] == match m.code
                              case None => 0
                              case Some(c) => if c.debugInfo.Some? then offsets(c.debugInfo.value) else 0
  {
    hide AllMethods, HasMethod, OneCode, TableFor;
    ConsistentExact(classes);
    AllMethodsExact(classes, m);
    var ms := AllMethods(classes);
    var i :| 0 <= i < |ms| && ms[i] == m;
    AcceptedTable(classes, offsets, table, i);
  }

  /** If the file is accepted, the check never fails, and the table has each method's one offset, or 0. */
  lemma AcceptedTable(classes: seq<Option<ClassData>>, offsets: nat -> u32, table: seq<u32>, i: nat)
    requires Consistent(AllMethods(classes))
    ensures Agree(offsets, AllMethods(classes))
    ensures var ms := AllMethods(classes);
            TableFor(offsets, ms, table) && i < |ms| && ms[i].index < |table| ==>
              table[ms[i].index] == if OffsetFor(offsets, ms[i]).Some? then OffsetFor(offsets, ms[i]).value else 0
  {
    hide AllMethods;
    var ms := AllMethods(classes);
    if TableFor(offsets, ms, table) && i < |ms| && ms[i].index < |table| {
      assert Entered(offsets, ms, ms[i].index, table[ms[i].index]);
    }
  }
}
