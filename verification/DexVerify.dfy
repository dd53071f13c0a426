/**
 * The comparison of two intermediate representations in dexlayout/dex_verify.cc: encoded values,
 * and class definitions whose order the layout may have changed.
 */
module DexVerify {
  import opened Bytes
  import opened Numbers
  import opened EncodedValues

  predicate Ignored(n: Number) {
    n.Id? && (n.kind.MethodType? || n.kind.MethodHandle?)
  }

  /** A tree without the indices that the comparison ignores. */
  function Erase(v: Value): Value
    decreases v, 2
  {
    match v
    case Num(n) => if Ignored(n) then Num(Id(n.kind, 0)) else v
    case Array(values) => Array(EraseAll(values))
    case Annotation(typ, elements) => Annotation(typ, EraseElements(elements))
    case _ => v
  }

  function EraseAll(values: seq<Value>): (r: seq<Value>)
    ensures |r| == |values| && forall i :: 0 <= i < |r| ==> r[i] == Erase(values[i])
    decreases values, 0
  {
    if values == [] then [] else [Erase(values[0])] + EraseAll(values[1..])
  }

  function EraseElements(elements: seq<Element>): (r: seq<Element>)
    ensures |r| == |elements| && forall i :: 0 <= i < |r| ==> r[i] == EraseElement(elements[i])
    decreases elements, 0
  {
    if elements == [] then [] else [EraseElement(elements[0])] + EraseElements(elements[1..])
  }

  function EraseElement(e: Element): Element
    decreases e, 0
  {
    Element(e.name, Erase(e.value))
  }

  /** What is erased of a number: the index of a method type or of a method handle, and nothing of any other. */
  lemma ErasedNumber(n: Number)
    ensures Erase(Num(n)) != Num(n) ==> n.Id? && (n.kind.MethodType? || n.kind.MethodHandle?)
    ensures n.Id? && (n.kind.MethodType? || n.kind.MethodHandle?) ==> Erase(Num(n)) == Num(Id(n.kind, 0))
  {
  }

  /** Compares two values of any depth. */
  method VerifyEncodedValue(orig: Value, output: Value) returns (same: bool)
    ensures same <==> Erase(orig) == Erase(output)
    decreases orig, 2
  {
    hide EraseAll, EraseElements;
    match orig
    case Num(n) =>
      if output.Num? {
        same := VerifyNumber(n, output.number);
      } else {
        same := false;
      }
    case Array(values) =>
      if !output.Array? {
        return false;
      }
      same := VerifyEncodedValues(values, output.values);
    case Annotation(typ, elements) =>
      if !output.Annotation? {
        return false;
      }
      same := VerifyEncodedAnnotation(typ, elements, output.annotation, output.elements);
    case Null =>
      same := output.Null?;
    case Boolean(b) =>
      same := output.Boolean? && output.b == b;
    case Unknown(code) =>
      same := output.Unknown? && output.code == code;
  }

  /** The types have to agree, and then the values; method types and method handles have no case of their own. */
  method VerifyNumber(n: Number, m: Number) returns (same: bool)
    ensures same <==> Erase(Num(n)) == Erase(Num(m))
  {
    match n
    case Byte(x) => same := m.Byte? && x == m.b;
    case Short(x) => same := m.Short? && x == m.s;
    case Char(x) => same := m.Char? && x == m.c;
    case Int(x) => same := m.Int? && x == m.i;
    case Long(x) => same := m.Long? && x == m.l;
    case Float(x) => same := m.Float? && x == m.f;
    case Double(x) => same := m.Double? && x == m.d;
    case Id(k, x) =>
      if !m.Id? || m.kind != k {
        return false;
      }
      match k {
        case String => same := x == m.index;
        case Type => same := x == m.index;
        case Field => same := x == m.index;
        case Enum => same := x == m.index;
        case Method => same := x == m.index;
        case _ => same := true;
      }
  }

  /** An array item, which may be missing. */
  method VerifyEncodedArray(orig: Option<seq<Value>>, output: Option<seq<Value>>) returns (same: bool)
    ensures same <==> orig.Some? == output.Some? && (orig.Some? ==> EraseAll(orig.value) == EraseAll(output.value))
  {
    if orig.None? || output.None? {
      return orig.None? && output.None?;
    }
    same := VerifyEncodedValues(orig.value, output.value);
  }

  method VerifyEncodedValues(orig: seq<Value>, output: seq<Value>) returns (same: bool)
    ensures same <==> EraseAll(orig) == EraseAll(output)
    decreases orig, 1
  {
    hide Erase;
    if |orig| != |output| {
      return false;
    }
    for i := 0 to |orig|
      invariant forall j :: 0 <= j < i ==> Erase(orig[j]) == Erase(output[j])
    {
      var ok := VerifyEncodedValue(orig[i], output[i]);
      if !ok {
        assert EraseAll(orig)[i] != EraseAll(output)[i];
        return false;
      }
    }
    same := true;
  }

  method VerifyEncodedAnnotation(typ: u32, orig: seq<Element>, typ': u32, output: seq<Element>) returns (same: bool)
    ensures same <==> typ == typ' && EraseElements(orig) == EraseElements(output)
    decreases orig, 1
  {
    hide Erase;
    if typ != typ' || |orig| != |output| {
      return false;
    }
    for i := 0 to |orig|
      invariant forall j :: 0 <= j < i ==> EraseElement(orig[j]) == EraseElement(output[j])
    {
      var ok := VerifyAnnotationElement(orig[i], output[i]);
      if !ok {
        assert EraseElements(orig)[i] != EraseElements(output)[i];
        return false;
      }
    }
    same := true;
  }

  method VerifyAnnotationElement(orig: Element, output: Element) returns (same: bool)
    ensures same <==> EraseElement(orig) == EraseElement(output)
    decreases orig, 0
  {
    hide Erase;
    if orig.name != output.name {
      return false;
    }
    same := VerifyEncodedValue(orig.value, output.value);
  }

  // When comparing is the same as being equal.

  /** No method type and no method handle anywhere. */
  predicate Plain(v: Value)
    decreases v, 2
  {
    match v
    case Num(n) => !Ignored(n)
    case Array(values) => AllPlain(values)
    case Annotation(_, elements) => ElementsPlain(elements)
    case _ => true
  }

  predicate AllPlain(values: seq<Value>)
    decreases values, 0
  {
    values == [] || (Plain(values[0]) && AllPlain(values[1..]))
  }

  predicate ElementsPlain(elements: seq<Element>)
    decreases elements, 0
  {
    elements == [] || (ElementPlain(elements[0]) && ElementsPlain(elements[1..]))
  }

  predicate ElementPlain(e: Element)
    decreases e, 0
  {
    Plain(e.value)
  }

  /** A tree with every ignored index changed. */
  function Change(v: Value): Value
    decreases v, 2
  {
    match v
    case Num(n) => if Ignored(n) then Num(Id(n.kind, if n.index == 0 then 1 else 0)) else v
    case Array(values) => Array(ChangeAll(values))
    case Annotation(typ, elements) => Annotation(typ, ChangeElements(elements))
    case _ => v
  }

  function ChangeAll(values: seq<Value>): seq<Value>
    decreases values, 0
  {
    if values == [] then [] else [Change(values[0])] + ChangeAll(values[1..])
  }

  function ChangeElements(elements: seq<Element>): seq<Element>
    decreases elements, 0
  {
    if elements == [] then [] else [ChangeElement(elements[0])] + ChangeElements(elements[1..])
  }

  function ChangeElement(e: Element): Element
    decreases e, 0
  {
    Element(e.name, Change(e.value))
  }

  /** Plain trees are untouched, any other can be changed without the comparison noticing. */
  lemma {:induction false} PlainOrChanged(v: Value)
    ensures Plain(v) ==> Erase(v) == v
    ensures Plain(Erase(v)) == Plain(v)
    ensures Erase(Change(v)) == Erase(v) && (Change(v) == v ==> Plain(v))
    decreases v, 2
  {
    hide EraseAll, EraseElements, AllPlain, ElementsPlain, ChangeAll, ChangeElements;
    match v
    case Array(values) => AllPlainOrChanged(values);
    case Annotation(_, elements) => ElementsPlainOrChanged(elements);
    case _ =>
  }

  lemma {:induction false} AllPlainOrChanged(values: seq<Value>)
    ensures AllPlain(values) ==> EraseAll(values) == values
    ensures AllPlain(EraseAll(values)) == AllPlain(values)
    ensures EraseAll(ChangeAll(values)) == EraseAll(values) && (ChangeAll(values) == values ==> AllPlain(values))
    decreases values, 0
  {
    hide Erase, Plain, Change;
    if values != [] {
      PlainOrChanged(values[0]);
      AllPlainOrChanged(values[1..]);
      assert ChangeAll(values)[1..] == ChangeAll(values[1..]);
      assert EraseAll(values)[1..] == EraseAll(values[1..]);
    }
  }

  lemma {:induction false} ElementsPlainOrChanged(elements: seq<Element>)
    ensures ElementsPlain(elements) ==> EraseElements(elements) == elements
    ensures ElementsPlain(EraseElements(elements)) == ElementsPlain(elements)
    ensures EraseElements(ChangeElements(elements)) == EraseElements(elements)
    ensures ChangeElements(elements) == elements ==> ElementsPlain(elements)
    decreases elements, 0
  {
    hide Erase, Plain, Change;
    if elements != [] {
      ElementPlainOrChanged(elements[0]);
      ElementsPlainOrChanged(elements[1..]);
      assert ChangeElements(elements)[1..] == ChangeElements(elements[1..]);
      assert EraseElements(elements)[1..] == EraseElements(elements[1..]);
    }
  }

  lemma {:induction false} ElementPlainOrChanged(e: Element)
    ensures ElementPlain(e) ==> EraseElement(e) == e
    ensures ElementPlain(EraseElement(e)) == ElementPlain(e)
    ensures EraseElement(ChangeElement(e)) == EraseElement(e) && (ChangeElement(e) == e ==> ElementPlain(e))
    decreases e, 0
  {
    PlainOrChanged(e.value);
  }

  /** The comparison with a tree finds every difference exactly when the tree is plain. */
  lemma ComparisonExact(v: Value)
    ensures Plain(v) <==> forall w :: Erase(v) == Erase(w) ==> v == w
  {
    hide Erase, Plain, Change;
    PlainOrChanged(v);
    if Plain(v) {
      forall w | Erase(v) == Erase(w) ensures v == w {
        PlainOrChanged(w);
      }
    } else {
      assert Erase(v) == Erase(Change(v));
    }
  }

  // Class definitions.

  /** A class definition by its type and whatever else is compared of it. */
  datatype Def<B> = Def(typ: nat, body: B)

  /** VerifyClassDef: the types, then the rest, for which `f` stands. */
  predicate SameDef<B>(f: (B, B) -> bool, a: Def<B>, b: Def<B>) {
    a.typ == b.typ && f(a.body, b.body)
  }

  /** A std::set ordered by type. */
  predicate Ordered<B>(ds: seq<Def<B>>) {
    forall i, j :: 0 <= i < j < |ds| ==> ds[i].typ < ds[j].typ
  }

  predicate DistinctTypes<B>(ds: seq<Def<B>>) {
    forall i, j :: 0 <= i < j < |ds| ==> ds[i].typ != ds[j].typ
  }

  /** Inserting keeps the order, and a definition whose type is there already is not inserted. */
  function Inserted<B>(ds: seq<Def<B>>, d: Def<B>): seq<Def<B>> {
    if ds == [] || d.typ < ds[0].typ then [d] + ds
    else if d.typ == ds[0].typ then ds
    else [ds[0]] + Inserted(ds[1..], d)
  }

  function SetOf<B>(ds: seq<Def<B>>): seq<Def<B>> {
    if ds == [] then [] else Inserted(SetOf(ds[..|ds| - 1]), ds[|ds| - 1])
  }

  /** The definitions of both sets in pairs, as far as the shorter one goes. */
  predicate Paired<B>(f: (B, B) -> bool, a: seq<Def<B>>, b: seq<Def<B>>) {
    forall i :: 0 <= i < |a| && i < |b| ==> SameDef(f, a[i], b[i])
  }

  method Insert<B>(ds: seq<Def<B>>, d: Def<B>) returns (more: seq<Def<B>>)
    ensures more == Inserted(ds, d)
  {
    hide Inserted;
    var k := 0;
    assert ds[..0] + Inserted(ds[0..], d) == Inserted(ds, d) by { assert ds[0..] == ds; }
    while k < |ds| && ds[k].typ < d.typ
      invariant k <= |ds| && Inserted(ds, d) == ds[..k] + Inserted(ds[k..], d)
    {
      InsertedCons(ds[k..], d);
      assert ds[k..][1..] == ds[k + 1..];
      assert ds[..k + 1] == ds[..k] + [ds[k]];
      k := k + 1;
    }
    InsertedHere(ds[k..], d);
    if k < |ds| && ds[k].typ == d.typ {
      return ds;
    }
    more := ds[..k] + [d] + ds[k..];
  }

  lemma InsertedHere<B>(ds: seq<Def<B>>, d: Def<B>)
    requires ds == [] || ds[0].typ >= d.typ
    ensures Inserted(ds, d) == if ds != [] && ds[0].typ == d.typ then ds else [d] + ds
  {
  }

  method VerifyClassDefs<B>(f: (B, B) -> bool, orig: seq<Def<B>>, output: seq<Def<B>>) returns (same: bool)
    ensures same <==> |orig| == |output| && Paired(f, SetOf(orig), SetOf(output))
  {
    var a: seq<Def<B>>, b: seq<Def<B>>, k := [], [], 0;
    while k < |orig| && k < |output|
      invariant k <= |orig| && k <= |output| && a == SetOf(orig[..k]) && b == SetOf(output[..k])
    {
      assert orig[..k + 1][..k] == orig[..k] && output[..k + 1][..k] == output[..k];
      a := Insert(a, orig[k]);
      b := Insert(b, output[k]);
      k := k + 1;
    }
    if k < |orig| || k < |output| {
      return false;
    }
    assert orig[..k] == orig && output[..k] == output;
    k := 0;
    while k < |a| && k < |b|
      invariant k <= |a| && k <= |b| && forall i :: 0 <= i < k ==> SameDef(f, a[i], b[i])
    {
      if !SameDef(f, a[k], b[k]) {
        return false;
      }
      k := k + 1;
    }
    same := true;
  }

  lemma {:induction false} InsertedElements<B(!new)>(ds: seq<Def<B>>, d: Def<B>)
    ensures forall e :: e in Inserted(ds, d) ==> e in ds || e == d
  {
    if ds == [] || d.typ <= ds[0].typ {
    } else {
      InsertedElements(ds[1..], d);
    }
  }

  lemma {:induction false} InsertedOrdered<B(!new)>(ds: seq<Def<B>>, d: Def<B>)
    requires Ordered(ds)
    ensures Ordered(Inserted(ds, d))
  {
    if ds == [] || d.typ <= ds[0].typ {
    } else {
      InsertedOrdered(ds[1..], d);
      InsertedElements(ds[1..], d);
      var rest := Inserted(ds[1..], d);
      hide Inserted;
      forall i | 0 <= i < |rest| ensures ds[0].typ < rest[i].typ {
        assert rest[i] in rest;
        assert rest[i] in ds[1..] || rest[i] == d;
      }
      OrderedCons(ds[0], rest);
      assert Inserted(ds, d) == [ds[0]] + rest by { InsertedCons(ds, d); }
    }
  }

  lemma InsertedCons<B>(ds: seq<Def<B>>, d: Def<B>)
    requires ds != [] && d.typ > ds[0].typ
    ensures Inserted(ds, d) == [ds[0]] + Inserted(ds[1..], d)
  {
  }

  lemma OrderedCons<B>(d: Def<B>, rest: seq<Def<B>>)
    requires Ordered(rest) && forall i :: 0 <= i < |rest| ==> d.typ < rest[i].typ
    ensures Ordered([d] + rest)
  {
  }

  lemma {:induction false} InsertedCount<B>(ds: seq<Def<B>>, d: Def<B>)
    requires forall i :: 0 <= i < |ds| ==> ds[i].typ != d.typ
    ensures multiset(Inserted(ds, d)) == multiset(ds) + multiset{d}
  {
    if ds == [] || d.typ < ds[0].typ {
    } else {
      InsertedCount(ds[1..], d);
      assert ds == [ds[0]] + ds[1..];
    }
  }

  lemma {:induction false} SetOrdered<B(!new)>(ds: seq<Def<B>>)
    ensures Ordered(SetOf(ds))
  {
    hide Ordered, Inserted;
    if ds == [] {
      NothingOrdered<B>();
    } else {
      SetOrdered(ds[..|ds| - 1]);
      InsertedOrdered(SetOf(ds[..|ds| - 1]), ds[|ds| - 1]);
    }
  }

  lemma NothingOrdered<B>()
    ensures Ordered<B>([])
  {
  }

  lemma {:induction false} SetComplete<B(!new)>(ds: seq<Def<B>>)
    requires DistinctTypes(ds)
    ensures multiset(SetOf(ds)) == multiset(ds)
  {
    hide Inserted;
    if ds != [] {
      var n := |ds| - 1;
      var some := SetOf(ds[..n]);
      SetComplete(ds[..n]);
      SameElements(some, ds[..n]);
      assert ds == ds[..n] + [ds[n]];
      forall i | 0 <= i < |some| ensures some[i].typ != ds[n].typ {
        assert some[i] in ds[..n];
      }
      InsertedCount(some, ds[n]);
    }
  }

  /** When no type is defined twice, the comparison succeeds exactly for lists that match in any order. */
  lemma ClassDefsExact<B(!new)>(f: (B, B) -> bool, orig: seq<Def<B>>, output: seq<Def<B>>)
    requires DistinctTypes(orig) && DistinctTypes(output)
    ensures |orig| == |output| && Paired(f, SetOf(orig), SetOf(output)) <==> Matched(f, orig, output)
  {
    SetOrdered(orig);
    SetOrdered(output);
    SetComplete(orig);
    SetComplete(output);
    hide SetOf, Matched, Ordered, SameDef, DistinctTypes;
    var a, b := SetOf(orig), SetOf(output);
    SameElements(a, orig);
    SameElements(b, output);
    if |orig| == |output| && Paired(f, a, b) {
      PairsMatch(f, a, b, orig, output);
    } else if |orig| == |output| {
      var k := FirstMismatch(f, a, b);
      MismatchFound(f, a, b, k, orig, output);
    } else {
      LengthsDiffer(f, orig, output);
    }
  }

  lemma LengthsDiffer<B(!new)>(f: (B, B) -> bool, orig: seq<Def<B>>, output: seq<Def<B>>)
    requires |orig| != |output|
    ensures !Matched(f, orig, output)
  {
  }

  lemma FirstMismatch<B>(f: (B, B) -> bool, a: seq<Def<B>>, b: seq<Def<B>>) returns (k: nat)
    requires |a| == |b| && !Paired(f, a, b)
    ensures k < |a| && !SameDef(f, a[k], b[k]) && forall i :: 0 <= i < k ==> SameDef(f, a[i], b[i])
  {
    k := 0;
    while k < |a| && SameDef(f, a[k], b[k])
      invariant k <= |a| && forall i :: 0 <= i < k ==> SameDef(f, a[i], b[i])
    {
      k := k + 1;
    }
  }

  /** What is compared, whatever the order: as many on both sides, and each original matched. */
  ghost predicate Matched<B(!new)>(f: (B, B) -> bool, orig: seq<Def<B>>, output: seq<Def<B>>) {
    |orig| == |output| && forall d :: d in orig ==> exists e :: e in output && SameDef(f, d, e)
  }

  lemma SameElements<B(!new)>(s: seq<B>, t: seq<B>)
    requires multiset(s) == multiset(t)
    ensures |s| == |t| && forall d :: d in s <==> d in t
  {
    assert |s| == |multiset(s)| == |t|;
    forall d ensures d in s <==> d in t {
      assert d in s <==> d in multiset(s);
      assert d in t <==> d in multiset(t);
    }
  }

  /** The answer does not depend on the order of either list. */
  lemma OrderIrrelevant<B(!new)>(f: (B, B) -> bool, orig: seq<Def<B>>, output: seq<Def<B>>, orig': seq<Def<B>>,
                                 output': seq<Def<B>>)
    requires multiset(orig) == multiset(orig') && multiset(output) == multiset(output')
    ensures Matched(f, orig, output) == Matched(f, orig', output')
    ensures DistinctTypes(orig) == DistinctTypes(orig')
  {
    SameElements(orig, orig');
    SameElements(output, output');
    if DistinctTypes(orig) {
      StillDistinct(orig, orig');
    }
    if DistinctTypes(orig') {
      StillDistinct(orig', orig);
    }
  }

  lemma StillDistinct<B(!new)>(ds: seq<Def<B>>, es: seq<Def<B>>)
    requires DistinctTypes(ds) && multiset(ds) == multiset(es)
    ensures DistinctTypes(es)
  {
    SameElements(ds, es);
    forall i, j | 0 <= i < j < |es| ensures es[i].typ != es[j].typ {
      assert es[i] in ds && es[j] in ds;
      if es[i] == es[j] {
        Twice(es, i, j);
        Once(ds, es[i]);
      }
    }
  }

  lemma Twice<T>(s: seq<T>, i: nat, j: nat)
    requires i < j < |s| && s[i] == s[j]
    ensures multiset(s)[s[i]] >= 2
  {
    assert s == s[..j] + s[j..];
    assert s[..j][i] == s[i] && s[j..][0] == s[j];
    assert s[i] in multiset(s[..j]) && s[j] in multiset(s[j..]);
  }

  lemma {:induction false} Once<B>(ds: seq<Def<B>>, d: Def<B>)
    requires DistinctTypes(ds)
    ensures multiset(ds)[d] <= 1
  {
    if ds != [] {
      var n := |ds| - 1;
      Once(ds[..n], d);
      assert ds == ds[..n] + [ds[n]];
      if d == ds[n] {
        assert d !in ds[..n];
      }
    }
  }

  lemma PairsMatch<B(!new)>(f: (B, B) -> bool, a: seq<Def<B>>, b: seq<Def<B>>, orig: seq<Def<B>>, output: seq<Def<B>>)
    requires multiset(a) == multiset(orig) && multiset(b) == multiset(output) && |a| == |b|
    requires forall i :: 0 <= i < |a| ==> SameDef(f, a[i], b[i])
    ensures Matched(f, orig, output)
  {
    SameElements(a, orig);
    SameElements(b, output);
    forall d | d in orig ensures exists e :: e in output && SameDef(f, d, e) {
      var i :| 0 <= i < |a| && a[i] == d;
      assert b[i] in output;
    }
  }

  /** An element that is larger than its counterpart pushes all later ones up, so the last has none. */
  lemma {:induction false} PushedUp<B(!new)>(f: (B, B) -> bool, a: seq<Def<B>>, b: seq<Def<B>>, k: nat)
    requires Ordered(a) && Ordered(b) && k < |a| && Matched(f, a, b) && a[k].typ > b[k].typ
    ensures false
    decreases |a| - k
  {
    var d := a[k];
    assert d in a;
    var e :| e in b && SameDef(f, d, e);
    var j :| 0 <= j < |b| && b[j] == e;
    assert j > k;
    PushedUp(f, a, b, k + 1);
  }

  lemma MismatchFound<B(!new)>(f: (B, B) -> bool, a: seq<Def<B>>, b: seq<Def<B>>, k: nat, orig: seq<Def<B>>,
                               output: seq<Def<B>>)
    requires multiset(a) == multiset(orig) && multiset(b) == multiset(output) && |a| == |b|
    requires Ordered(a) && Ordered(b) && k < |a| && !SameDef(f, a[k], b[k])
    requires forall i :: 0 <= i < k ==> SameDef(f, a[i], b[i])
    ensures !Matched(f, orig, output)
  {
    OrderIrrelevant(f, a, b, orig, output);
    if a[k].typ > b[k].typ {
      if Matched(f, a, b) {
        PushedUp(f, a, b, k);
      }
    } else {
      forall e | e in b ensures !SameDef(f, a[k], e) {
        var j :| 0 <= j < |b| && b[j] == e;
        if j < k {
          assert SameDef(f, a[j], b[j]);
        }
      }
      assert a[k] in a;
    }
  }

  /** No type has two different definitions. */
  ghost predicate Consistent<B(!new)>(ds: seq<Def<B>>) {
    forall d, e :: d in ds && e in ds && d.typ == e.typ ==> d == e
  }

  /** However bodies are compared, a comparison of `orig` that succeeds has found a counterpart for each definition. */
  ghost predicate Trusted<B(!new)>(orig: seq<Def<B>>) {
    forall f: (B, B) -> bool, output: seq<Def<B>> ::
      DistinctTypes(output) && |orig| == |output| && Paired(f, SetOf(orig), SetOf(output)) ==> Matched(f, orig, output)
  }

  lemma {:induction false} InsertedTypes<B(!new)>(ds: seq<Def<B>>, d: Def<B>)
    ensures |Inserted(ds, d)| <= |ds| + 1
    ensures forall e :: e in ds ==> e in Inserted(ds, d)
    ensures exists e :: e in Inserted(ds, d) && e.typ == d.typ
  {
    if ds == [] || d.typ < ds[0].typ {
      assert d in Inserted(ds, d);
    } else if d.typ == ds[0].typ {
      assert ds[0] in Inserted(ds, d);
    } else {
      InsertedTypes(ds[1..], d);
      var rest := Inserted(ds[1..], d);
      InsertedCons(ds, d);
      hide Inserted;
      var e :| e in rest && e.typ == d.typ;
      assert e in [ds[0]] + rest;
    }
  }

  /** The set is taken from the list. */
  lemma {:induction false} SetTypes<B(!new)>(ds: seq<Def<B>>)
    ensures |SetOf(ds)| <= |ds|
    ensures forall e :: e in SetOf(ds) ==> e in ds
  {
    hide Inserted;
    if ds != [] {
      var n := |ds| - 1;
      SetTypes(ds[..n]);
      InsertedTypes(SetOf(ds[..n]), ds[n]);
      InsertedElements(SetOf(ds[..n]), ds[n]);
    }
  }

  /** The set has a definition of each type of the list. */
  lemma {:induction false} TypeKept<B(!new)>(ds: seq<Def<B>>, d: Def<B>) returns (e: Def<B>)
    requires d in ds
    ensures e in SetOf(ds) && e.typ == d.typ
    decreases |ds|
  {
    hide Inserted;
    var n := |ds| - 1;
    InsertedTypes(SetOf(ds[..n]), ds[n]);
    if d in ds[..n] {
      e := TypeKept(ds[..n], d);
    } else {
      e :| e in SetOf(ds) && e.typ == d.typ;
    }
  }

  lemma {:induction false} InsertedLast<B>(ds: seq<Def<B>>, d: Def<B>)
    requires forall i :: 0 <= i < |ds| ==> ds[i].typ < d.typ
    ensures Inserted(ds, d) == ds + [d]
  {
    if ds != [] {
      InsertedLast(ds[1..], d);
      assert ds == [ds[0]] + ds[1..];
    } else {
      assert [d] + ds == ds + [d];
    }
  }

  lemma {:induction false} SetOfOrdered<B>(ds: seq<Def<B>>)
    requires Ordered(ds)
    ensures SetOf(ds) == ds
  {
    if ds != [] {
      var n := |ds| - 1;
      SetOfOrdered(ds[..n]);
      InsertedLast(ds[..n], ds[n]);
      assert ds == ds[..n] + [ds[n]];
    }
  }

  /** Definitions of `count` types from `base` on. */
  function Fresh<B>(base: nat, count: nat, body: B): seq<Def<B>> {
    seq(count, i requires 0 <= i < count => Def(base + i, body))
  }

  lemma FreshOrdered<B>(a: seq<Def<B>>, base: nat, count: nat, body: B)
    requires Ordered(a) && (a != [] ==> a[|a| - 1].typ < base)
    ensures Ordered(a + Fresh(base, count, body))
  {
  }

  lemma OrderedDistinct<B>(ds: seq<Def<B>>)
    requires Ordered(ds)
    ensures DistinctTypes(ds)
  {
  }

  lemma BelowLast<B(!new)>(ds: seq<Def<B>>, d: Def<B>)
    requires d in ds
    ensures var a := SetOf(ds); a != [] && d.typ <= a[|a| - 1].typ
  {
    SetOrdered(ds);
    hide SetOf, Ordered;
    var e := TypeKept(ds, d);
    OrderedElements(SetOf(ds), e, e);
  }

  lemma OrderedElements<B>(a: seq<Def<B>>, d: Def<B>, e: Def<B>)
    requires Ordered(a) && d in a && e in a
    ensures d.typ == e.typ ==> d == e
    ensures e.typ <= a[|a| - 1].typ
  {
    var i :| 0 <= i < |a| && a[i] == d;
    var j :| 0 <= j < |a| && a[j] == e;
  }

  /** An output that the comparison takes for `orig`: its set, and other types to make up the number. */
  lemma Stuffed<B(!new)>(orig: seq<Def<B>>, body: B) returns (base: nat, output: seq<Def<B>>)
    requires orig != []
    ensures |output| == |orig| && DistinctTypes(output) && SetOf(output) == output
    ensures SetOf(orig) <= output && (forall d :: d in orig ==> d.typ < base)
    ensures forall e :: e in output ==> e in SetOf(orig) || e.typ >= base
  {
    hide SetOf, Ordered, DistinctTypes;
    var a := SetOf(orig);
    SetOrdered(orig);
    SetTypes(orig);
    BelowLast(orig, orig[0]);
    base := a[|a| - 1].typ + 1;
    forall d | d in orig ensures d.typ < base { BelowLast(orig, d); }
    output := a + Fresh(base, |orig| - |a|, body);
    FreshOrdered(a, base, |orig| - |a|, body);
    SetOfOrdered(output);
    OrderedDistinct(output);
  }

  lemma TrustedIfConsistent<B(!new)>(f: (B, B) -> bool, orig: seq<Def<B>>, output: seq<Def<B>>)
    requires Consistent(orig) && DistinctTypes(output) && |orig| == |output| && Paired(f, SetOf(orig), SetOf(output))
    ensures Matched(f, orig, output)
  {
    SetTypes(orig);
    SetComplete(output);
    hide SetOf, SameDef, DistinctTypes;
    var a, b := SetOf(orig), SetOf(output);
    SameElements(b, output);
    forall d | d in orig ensures exists e :: e in output && SameDef(f, d, e) {
      var e := TypeKept(orig, d);
      var i :| 0 <= i < |a| && a[i] == e;
      assert SameDef(f, a[i], b[i]) && b[i] in output;
    }
  }

  /** Of two different definitions of one type one is not in the set. */
  lemma LeftOut<B(!new)>(orig: seq<Def<B>>) returns (x: Def<B>)
    requires !Consistent(orig)
    ensures x in orig && x !in SetOf(orig)
  {
    hide SetOf, Ordered;
    var d, e :| d in orig && e in orig && d.typ == e.typ && d != e;
    SetOrdered(orig);
    x := if d in SetOf(orig) then e else d;
    if d in SetOf(orig) && e in SetOf(orig) {
      OrderedElements(SetOf(orig), d, e);
    }
  }

  lemma Fooled<B(!new)>(orig: seq<Def<B>>)
    requires !Consistent(orig)
    ensures !Trusted(orig)
  {
    var x := LeftOut(orig);
    hide SetOf, DistinctTypes, Ordered, Consistent;
    var base, output := Stuffed(orig, x.body);
    var f := (p: B, q: B) => p == q;
    assert Paired(f, SetOf(orig), output);
    assert !Matched(f, orig, output) by {
      forall g | g in output ensures !SameDef(f, x, g) {
        assert g in SetOf(orig) || g.typ >= base;
      }
    }
  }

  /** A comparison that succeeds can be relied on exactly when no type has two different definitions. */
  lemma TrustedExactly<B(!new)>(orig: seq<Def<B>>)
    ensures Trusted(orig) <==> Consistent(orig)
  {
    if Consistent(orig) {
      hide Consistent, Matched, Paired, SetOf;
      forall f: (B, B) -> bool, output: seq<Def<B>> |
        DistinctTypes(output) && |orig| == |output| && Paired(f, SetOf(orig), SetOf(output))
        ensures Matched(f, orig, output)
      {
        TrustedIfConsistent(f, orig, output);
      }
    } else {
      Fooled(orig);
    }
  }
}
