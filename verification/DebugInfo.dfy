/**
 * Debug-info programs (debug_info_item of the Dalvik Executable format) and the scanner
 * GetDebugInfoStreamSize of dexlayout/dex_ir_builder.cc, which finds where a program ends.
 */
module DebugInfo {
  import opened Bytes
  import opened Leb128

  /** A LEB128 number of at most `most` bytes, in any of its encodings. */
  predicate IsLeb(b: seq<byte>, most: nat) {
    |b| >= 1 && if |b| == 1 then b[0] < 0x80 || most == 1 else most > 1 && b[0] >= 0x80 && IsLeb(b[1..], most - 1)
  }

  function Value(b: seq<byte>): u32 {
    Groups(b, 0, |b|) % 0x1_0000_0000
  }

  /** The operations of the format, with their operands as LEB128 numbers. */
  datatype Op =
    | AdvancePc(addrDiff: seq<byte>)
    | AdvanceLine(lineDiff: seq<byte>)
    | StartLocal(register: seq<byte>, name: seq<byte>, typ: seq<byte>)
    | StartLocalExtended(register: seq<byte>, name: seq<byte>, typ: seq<byte>, signature: seq<byte>)
    | EndLocal(register: seq<byte>)
    | RestartLocal(register: seq<byte>)
    | SetPrologueEnd
    | SetEpilogueBegin
    | SetFile(name: seq<byte>)
    | Special(opcode: byte)

  /** A program: first line, number of parameters, their names, operations; END_SEQUENCE ends it. */
  datatype Program = Program(lineStart: seq<byte>, size: seq<byte>, names: seq<seq<byte>>, ops: seq<Op>)

  ghost predicate AllLebs(bs: seq<seq<byte>>) {
    forall i :: 0 <= i < |bs| ==> IsLeb(bs[i], 5)
  }

  ghost predicate ValidOp(op: Op) {
    match op
    case AdvancePc(d) => IsLeb(d, 5)
    case AdvanceLine(d) => IsLeb(d, 5)
    case StartLocal(r, n, t) => IsLeb(r, 5) && IsLeb(n, 5) && IsLeb(t, 5)
    case StartLocalExtended(r, n, t, s) => IsLeb(r, 5) && IsLeb(n, 5) && IsLeb(t, 5) && IsLeb(s, 5)
    case EndLocal(r) => IsLeb(r, 5)
    case RestartLocal(r) => IsLeb(r, 5)
    case SetPrologueEnd => true
    case SetEpilogueBegin => true
    case SetFile(n) => IsLeb(n, 5)
    case Special(opcode) => opcode >= 0x0a
  }

  ghost predicate Valid(g: Program) {
    && IsLeb(g.lineStart, 5) && IsLeb(g.size, 5)
    && |g.names| == Value(g.size) && AllLebs(g.names)
    && forall i :: 0 <= i < |g.ops| ==> ValidOp(g.ops[i])
  }

  function LebsBytes(bs: seq<seq<byte>>): seq<byte> {
    if bs == [] then [] else bs[0] + LebsBytes(bs[1..])
  }

  function OpBytes(op: Op): seq<byte> {
    match op
    case AdvancePc(d) => [0x01] + d
    case AdvanceLine(d) => [0x02] + d
    case StartLocal(r, n, t) => [0x03] + (r + n + t)
    case StartLocalExtended(r, n, t, s) => [0x04] + (r + n + t + s)
    case EndLocal(r) => [0x05] + r
    case RestartLocal(r) => [0x06] + r
    case SetPrologueEnd => [0x07]
    case SetEpilogueBegin => [0x08]
    case SetFile(n) => [0x09] + n
    case Special(opcode) => [opcode]
  }

  function OpsBytes(ops: seq<Op>): seq<byte> {
    if ops == [] then [0] else OpBytes(ops[0]) + OpsBytes(ops[1..])
  }

  function ProgramBytes(g: Program): seq<byte> {
    g.lineStart + (g.size + (LebsBytes(g.names) + OpsBytes(g.ops)))
  }

  // The scanner as a function of positions.

  /** How many LEB128 numbers it skips behind an opcode. */
  function Operands(opcode: byte): nat {
    if opcode == 0x03 then 3
    else if opcode == 0x04 then 4
    else if opcode == 0x01 || opcode == 0x02 || opcode == 0x05 || opcode == 0x06 || opcode == 0x09 then 1
    else 0
  }

  function SkipLeb(s: seq<byte>, p: nat): (q: Option<nat>)
    ensures q.Some? ==> p < q.value <= |s|
  {
    var n := Width(s, p, 5);
    if n.None? then None else Some(p + n.value)
  }

  function SkipLebs(s: seq<byte>, p: nat, k: nat): (q: Option<nat>)
    ensures q.Some? ==> p <= q.value && (p <= |s| ==> q.value <= |s|)
    decreases k
  {
    if k == 0 then Some(p) else
    var q := SkipLeb(s, p);
    if q.None? then None else SkipLebs(s, q.value, k - 1)
  }

  function SkipOps(s: seq<byte>, p: nat): (q: Option<nat>)
    ensures q.Some? ==> p < q.value <= |s|
    decreases |s| - p
  {
    if p >= |s| then None
    else if s[p] == 0 then Some(p + 1)
    else
      var q := SkipLebs(s, p + 1, Operands(s[p]));
      if q.None? then None else SkipOps(s, q.value)
  }

  function Skip(s: seq<byte>, p: nat): (q: Option<nat>)
    ensures q.Some? ==> p < q.value <= |s|
  {
    var a := SkipLeb(s, p);
    if a.None? then None else
    var b := DecodeUnsigned(s, a.value);
    if b.None? then None else
    var c := SkipLebs(s, b.value.1, b.value.0);
    if c.None? then None else SkipOps(s, c.value)
  }

  /** The switch over opcodes. */
  method SkipOperands(s: seq<byte>, p: nat, opcode: byte) returns (q: Option<nat>)
    requires p <= |s|
    ensures q == SkipLebs(s, p, Operands(opcode))
  {
    hide SkipLeb;
    if opcode == 0x01 || opcode == 0x02 || opcode == 0x05 || opcode == 0x06 || opcode == 0x09 {
      q := SkipLeb(s, p);
      assert q.Some? ==> SkipLebs(s, q.value, 0) == q;
    } else if opcode == 0x03 || opcode == 0x04 {
      q := SkipLeb(s, p);     // register
      if q.None? { return; }
      assert SkipLebs(s, p, Operands(opcode)) == SkipLebs(s, q.value, Operands(opcode) - 1);
      q := SkipLeb(s, q.value);  // name
      if q.None? { return; }
      assert SkipLebs(s, p, Operands(opcode)) == SkipLebs(s, q.value, Operands(opcode) - 2);
      q := SkipLeb(s, q.value);  // type
      if q.None? { return; }
      assert SkipLebs(s, p, Operands(opcode)) == SkipLebs(s, q.value, Operands(opcode) - 3);
      if opcode == 0x04 {
        q := SkipLeb(s, q.value);  // signature
        assert q.Some? ==> SkipLebs(s, q.value, 0) == q;
      }
    } else {
      q := Some(p);
    }
  }

  /** The scanner's loops; none when the data ends inside the program. */
  method GetDebugInfoStreamSize(s: seq<byte>, start: nat) returns (size: Option<nat>)
    ensures size.Some? <==> Skip(s, start).Some?
    ensures size.Some? ==> start + size.value == Skip(s, start).value
  {
    hide DecodeUnsigned, SkipLeb;
    var a := SkipLeb(s, start);
    if a.None? { return None; }
    var parameters := DecodeUnsigned(s, a.value);
    if parameters.None? { return None; }
    var p := parameters.value.1;
    for i := 0 to parameters.value.0
      invariant start < p <= |s|
      invariant SkipLebs(s, parameters.value.1, parameters.value.0) == SkipLebs(s, p, parameters.value.0 - i)
    {
      var q := SkipLeb(s, p);
      if q.None? { return None; }
      p := q.value;
    }
    while p < |s|
      invariant start < p <= |s| && Skip(s, start) == SkipOps(s, p)
    {
      var opcode := s[p];
      p := p + 1;
      if opcode == 0 {
        return Some(p - start);
      }
      var q := SkipOperands(s, p, opcode);
      if q.None? { return None; }
      p := q.value;
    }
    size := None;
  }

  // Programs are skipped exactly.

  lemma {:induction false} LebAt(s: seq<byte>, p: nat, b: seq<byte>, most: nat)
    requires most >= 1 && IsLeb(b, most) && At(s, p, b)
    ensures Width(s, p, most) == Some(|b|) && Groups(s, p, |b|) == Groups(b, 0, |b|)
    decreases most
  {
    assert s[p] == b[0];
    if |b| > 1 {
      assert b == [b[0]] + b[1..];
      AtConcat(s, p, [b[0]], b[1..]);
      LebAt(s, p + 1, b[1..], most - 1);
      assert At(b, 1, b[1..]);
      LebAt(b, 1, b[1..], most - 1);
    }
  }

  lemma {:induction false} LebsAt(s: seq<byte>, p: nat, bs: seq<seq<byte>>)
    requires AllLebs(bs) && At(s, p, LebsBytes(bs))
    ensures SkipLebs(s, p, |bs|) == Some(p + |LebsBytes(bs)|)
    decreases bs
  {
    hide Width, IsLeb;
    if bs != [] {
      AtConcat(s, p, bs[0], LebsBytes(bs[1..]));
      LebAt(s, p, bs[0], 5);
      LebsAt(s, p + |bs[0]|, bs[1..]);
    }
  }

  lemma NoLebs()
    ensures LebsBytes([]) == []
  {
  }

  lemma OneLeb(a: seq<byte>)
    ensures LebsBytes([a]) == a
  {
    assert [a][1..] == [];
  }

  lemma MoreLebs(a: seq<byte>, bs: seq<seq<byte>>)
    ensures LebsBytes([a] + bs) == a + LebsBytes(bs)
  {
    assert ([a] + bs)[1..] == bs;
  }

  lemma ThreeLebs(a: seq<byte>, b: seq<byte>, c: seq<byte>)
    ensures LebsBytes([a, b, c]) == a + b + c
  {
    OneLeb(c);
    MoreLebs(b, [c]);
    MoreLebs(a, [b, c]);
    assert [a] + [b, c] == [a, b, c] && [b] + [c] == [b, c];
  }

  lemma FourLebs(a: seq<byte>, b: seq<byte>, c: seq<byte>, d: seq<byte>)
    ensures LebsBytes([a, b, c, d]) == a + b + c + d
  {
    ThreeLebs(b, c, d);
    MoreLebs(a, [b, c, d]);
    assert [a] + [b, c, d] == [a, b, c, d];
  }

  /** An operation is its opcode and as many numbers as the scanner skips behind it. */
  lemma OpTaken(op: Op) returns (opcode: byte, operands: seq<seq<byte>>)
    requires ValidOp(op)
    ensures opcode != 0 && |operands| == Operands(opcode) && AllLebs(operands)
    ensures OpBytes(op) == [opcode] + LebsBytes(operands)
  {
    NoLebs();
    hide IsLeb, LebsBytes;
    match op {
      case AdvancePc(d) => opcode, operands := 0x01, [d]; OneLeb(d);
      case AdvanceLine(d) => opcode, operands := 0x02, [d]; OneLeb(d);
      case StartLocal(r, n, t) => opcode, operands := 0x03, [r, n, t]; ThreeLebs(r, n, t);
      case StartLocalExtended(r, n, t, s) => opcode, operands := 0x04, [r, n, t, s]; FourLebs(r, n, t, s);
      case EndLocal(r) => opcode, operands := 0x05, [r]; OneLeb(r);
      case RestartLocal(r) => opcode, operands := 0x06, [r]; OneLeb(r);
      case SetPrologueEnd => opcode, operands := 0x07, [];
      case SetEpilogueBegin => opcode, operands := 0x08, [];
      case SetFile(n) => opcode, operands := 0x09, [n]; OneLeb(n);
      case Special(c) => opcode, operands := c, [];
    }
  }

  /** And whatever the scanner takes for an operation is one. */
  lemma OpMade(opcode: byte, operands: seq<seq<byte>>) returns (op: Op)
    requires opcode != 0 && |operands| == Operands(opcode) && AllLebs(operands)
    ensures ValidOp(op) && OpBytes(op) == [opcode] + LebsBytes(operands)
  {
    hide IsLeb;
    if opcode == 0x03 {
      op := StartLocal(operands[0], operands[1], operands[2]);
      ThreeLebs(operands[0], operands[1], operands[2]);
      assert operands == [operands[0], operands[1], operands[2]];
    } else if opcode == 0x04 {
      op := StartLocalExtended(operands[0], operands[1], operands[2], operands[3]);
      FourLebs(operands[0], operands[1], operands[2], operands[3]);
      assert operands == [operands[0], operands[1], operands[2], operands[3]];
    } else if Operands(opcode) == 1 {
      var a := operands[0];
      op := if opcode == 0x01 then AdvancePc(a) else if opcode == 0x02 then AdvanceLine(a)
      else if opcode == 0x05 then EndLocal(a) else if opcode == 0x06 then RestartLocal(a) else SetFile(a);
      OneLeb(a);
      assert operands == [a];
    } else {
      op := if opcode == 0x07 then SetPrologueEnd else if opcode == 0x08 then SetEpilogueBegin else Special(opcode);
      assert operands == [];
    }
  }

  lemma {:induction false} OpsAt(s: seq<byte>, p: nat, ops: seq<Op>)
    requires At(s, p, OpsBytes(ops)) && forall i :: 0 <= i < |ops| ==> ValidOp(ops[i])
    ensures SkipOps(s, p) == Some(p + |OpsBytes(ops)|)
    decreases ops
  {
    hide SkipLebs, LebsBytes, AllLebs, OpBytes, ValidOp;
    if ops == [] {
      assert s[p] == 0;
    } else {
      var op := ops[0];
      AtConcat(s, p, OpBytes(op), OpsBytes(ops[1..]));
      var opcode, operands := OpTaken(op);
      AtConcat(s, p, [opcode], LebsBytes(operands));
      assert s[p] == opcode;
      LebsAt(s, p + 1, operands);
      OpsAt(s, p + |OpBytes(op)|, ops[1..]);
    }
  }

  /** A program is skipped to exactly its end, whatever follows it. */
  lemma ProgramSkipped(s: seq<byte>, p: nat, g: Program)
    requires Valid(g) && At(s, p, ProgramBytes(g))
    ensures Skip(s, p) == Some(p + |ProgramBytes(g)|)
  {
    hide At, Width, Groups, IsLeb, SkipLebs, SkipOps, LebsBytes, OpsBytes, AllLebs, ValidOp;
    var ops, names := OpsBytes(g.ops), LebsBytes(g.names);
    AtConcat(s, p, g.lineStart, g.size + (names + ops));
    AtConcat(s, p + |g.lineStart|, g.size, names + ops);
    AtConcat(s, p + |g.lineStart| + |g.size|, names, ops);
    LebAt(s, p, g.lineStart, 5);
    LebAt(s, p + |g.lineStart|, g.size, 5);
    LebsAt(s, p + |g.lineStart| + |g.size|, g.names);
    OpsAt(s, p + |g.lineStart| + |g.size| + |names|, g.ops);
  }

  // And only programs are.

  lemma {:induction false} WidthIsLeb(s: seq<byte>, p: nat, most: nat)
    requires most >= 1 && Width(s, p, most).Some?
    ensures var b := s[p..p + Width(s, p, most).value]; IsLeb(b, most) && Groups(b, 0, |b|) == Groups(s, p, |b|)
    decreases most
  {
    var n := Width(s, p, most).value;
    var b := s[p..p + n];
    if n > 1 {
      WidthIsLeb(s, p + 1, most - 1);
      assert b[1..] == s[p + 1..p + n];
    }
    assert At(s, p, b);
    LebAt(s, p, b, most);
  }

  lemma {:induction false} LebsParsed(s: seq<byte>, p: nat, k: nat) returns (bs: seq<seq<byte>>)
    requires p <= |s| && SkipLebs(s, p, k).Some?
    ensures |bs| == k && AllLebs(bs) && LebsBytes(bs) == s[p..SkipLebs(s, p, k).value]
    decreases k
  {
    hide Width, IsLeb;
    if k == 0 {
      bs := [];
    } else {
      var q := SkipLeb(s, p).value;
      WidthIsLeb(s, p, 5);
      var rest := LebsParsed(s, q, k - 1);
      bs := [s[p..q]] + rest;
      assert bs[1..] == rest;
    }
  }

  lemma {:induction false} OpsParsed(s: seq<byte>, p: nat) returns (ops: seq<Op>)
    requires SkipOps(s, p).Some?
    ensures forall i :: 0 <= i < |ops| ==> ValidOp(ops[i])
    ensures OpsBytes(ops) == s[p..SkipOps(s, p).value]
    decreases |s| - p
  {
    hide SkipLebs, LebsBytes, AllLebs, OpBytes, ValidOp;
    if s[p] == 0 {
      ops := [];
    } else {
      var q := SkipLebs(s, p + 1, Operands(s[p])).value;
      var operands := LebsParsed(s, p + 1, Operands(s[p]));
      var rest := OpsParsed(s, q);
      var op := OpMade(s[p], operands);
      ops := [op] + rest;
      assert ops[1..] == rest;
      assert OpBytes(ops[0]) == s[p..q];
    }
  }

  lemma SkippedIsProgram(s: seq<byte>, p: nat) returns (g: Program)
    requires Skip(s, p).Some?
    ensures Valid(g) && ProgramBytes(g) == s[p..Skip(s, p).value]
  {
    hide Width, Groups, IsLeb, SkipLebs, SkipOps, LebsBytes, OpsBytes, AllLebs, ValidOp;
    var a := SkipLeb(s, p).value;
    var (n, b) := DecodeUnsigned(s, a).value;
    var c := SkipLebs(s, b, n).value;
    var d := SkipOps(s, c).value;
    WidthIsLeb(s, p, 5);
    WidthIsLeb(s, a, 5);
    var names := LebsParsed(s, b, n);
    var ops := OpsParsed(s, c);
    g := Program(s[p..a], s[a..b], names, ops);
    assert s[b..c] + s[c..d] == s[b..d];
    assert s[a..b] + s[b..d] == s[a..d];
    assert s[p..a] + s[a..d] == s[p..d];
  }

  /** The encoding is a prefix code: no program is a proper beginning of another. */
  lemma PrefixCode(g: Program, h: Program)
    requires Valid(g) && Valid(h) && ProgramBytes(g) <= ProgramBytes(h)
    ensures ProgramBytes(g) == ProgramBytes(h)
  {
    hide ProgramBytes, Valid;
    var s := ProgramBytes(h);
    ProgramSkipped(s, 0, g);
    ProgramSkipped(s, 0, h);
  }
}
