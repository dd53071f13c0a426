/**
 * The control flow graph of a method as DumpMethodCFG of dexdump/dexdump_cfg.cc draws it.
 * Bytecode is abstracted to what that function asks of an instruction.
 */
module Cfg {
  import opened Bytes

  datatype Kind =
    | Plain
    | Branch(target: nat, unconditional: bool)   // targets are absolute dex pcs
    | Switch(targets: seq<nat>)
    | Return
    | Throw

  /** An instruction at `pc`, `width` code units long, whose exceptions go to `handlers` (CatchHandlerIterator). */
  datatype Insn = Insn(pc: nat, width: nat, kind: Kind, handlers: seq<nat>)

  /** The instructions follow each other without gaps from pc 0. */
  ghost predicate WellFormed(code: seq<Insn>) {
    && (|code| > 0 ==> code[0].pc == 0)
    && (forall i :: 0 <= i < |code| ==> code[i].width > 0)
    && (forall i {:trigger Next(code, i)} :: 0 <= i && i + 1 < |code| ==>
        Next(code, i).pc == code[i].pc + code[i].width)
  }

  function Next(code: seq<Insn>, i: int): Insn
    requires 0 <= i && i + 1 < |code|
  {
    code[i + 1]
  }

  predicate IsBasicBlockEnd(insn: Insn) {
    insn.kind.Branch? || insn.kind.Return? || insn.kind.Throw?
  }

  /** Whether the instruction behind it can be executed next. */
  predicate FallsThrough(insn: Insn) {
    !insn.kind.Return? && !insn.kind.Throw? && !(insn.kind.Branch? && insn.kind.unconditional)
  }

  /** The pcs an instruction may jump to. */
  function Jumps(insn: Insn): seq<nat> {
    match insn.kind
    case Branch(t, _) => [t]
    case Switch(ts) => ts
    case _ => []
  }

  ghost predicate IsTarget(code: seq<Insn>, pc: nat) {
    exists i :: 0 <= i < |code| && pc in Jumps(code[i])
  }

  /** Instruction `i` starts a block. */
  ghost predicate Leader(code: seq<Insn>, i: nat)
    requires i < |code|
  {
    i == 0 || IsTarget(code, code[i].pc) || code[i - 1].kind.Switch? || IsBasicBlockEnd(code[i - 1])
  }

  /** The number of the block that instruction `i` belongs to. */
  ghost function Node(code: seq<Insn>, i: nat): nat
    requires i < |code|
  {
    if i == 0 then 0 else Node(code, i - 1) + if Leader(code, i) then 1 else 0
  }

  /** The first instruction of the block of instruction `i`. */
  ghost function BlockStart(code: seq<Insn>, i: nat): (b: nat)
    requires i < |code|
    ensures b <= i && Leader(code, b)
  {
    if Leader(code, i) then i else BlockStart(code, i - 1)
  }

  /** From an instruction, or from a whole block, to the instruction at `toPc` in block `to`. */
  datatype Edge = Edge(from: nat, fromPc: Option<nat>, to: nat, toPc: nat)

  /** An edge from instruction `i` to instruction `j`. */
  ghost function Arrow(code: seq<Insn>, i: nat, j: nat): Edge
    requires i < |code| && j < |code|
  {
    Edge(Node(code, i), Some(code[i].pc), Node(code, j), code[j].pc)
  }

  lemma {:induction false} PcsIncrease(code: seq<Insn>, i: nat, j: nat)
    requires WellFormed(code) && i < j < |code|
    ensures code[i].pc + code[i].width <= code[j].pc
    decreases j
  {
    assert Next(code, j - 1) == code[j];
    if i < j - 1 {
      PcsIncrease(code, i, j - 1);
    }
  }

  lemma PcsDistinct(code: seq<Insn>, i: nat, j: nat)
    requires WellFormed(code) && i < |code| && j < |code| && code[i].pc == code[j].pc
    ensures i == j
  {
    if i < j {
      PcsIncrease(code, i, j);
    } else if j < i {
      PcsIncrease(code, j, i);
    }
  }

  /** First pass: everything some instruction jumps to. */
  method FindTargets(code: seq<Insn>) returns (targets: set<nat>)
    ensures forall pc :: pc in targets <==> IsTarget(code, pc)
  {
    targets := {};
    for i := 0 to |code|
      invariant forall pc :: pc in targets <==> exists k :: 0 <= k < i && pc in Jumps(code[k])
    {
      match code[i].kind
      case Branch(t, _) =>
        assert t in Jumps(code[i]);
        targets := targets + {t};
      case Switch(ts) =>
        for j := 0 to |ts|
          invariant forall pc :: pc in targets <==> (exists k :: 0 <= k < i && pc in Jumps(code[k])) || pc in ts[..j]
        {
          targets := targets + {ts[j]};
          assert ts[..j + 1] == ts[..j] + [ts[j]];
        }
        assert ts[..|ts|] == ts;
      case _ =>
    }
  }

  /** `nodes` numbers the block starts among the first `n` instructions. */
  ghost predicate NodesRight(code: seq<Insn>, n: nat, nodes: map<nat, nat>)
    requires n <= |code|
  {
    OnlyLeaders(code, n, nodes) && AllLeaders(code, n, nodes)
  }

  ghost predicate OnlyLeaders(code: seq<Insn>, n: nat, nodes: map<nat, nat>)
    requires n <= |code|
  {
    forall pc :: pc in nodes ==> exists i :: 0 <= i < n && code[i].pc == pc && Leader(code, i)
  }

  ghost predicate AllLeaders(code: seq<Insn>, n: nat, nodes: map<nat, nat>)
    requires n <= |code|
  {
    forall i {:trigger code[i].pc in nodes} :: 0 <= i < n && Leader(code, i) ==>
      code[i].pc in nodes && nodes[code[i].pc] == Node(code, i)
  }

  /** `incl` says to which block each of the first `n` instructions belongs. */
  ghost predicate InclRight(code: seq<Insn>, n: nat, incl: map<nat, nat>)
    requires n <= |code|
  {
    && (forall pc :: pc in incl ==> exists i :: 0 <= i < n && code[i].pc == pc)
    && (forall i {:trigger code[i].pc in incl} :: 0 <= i < n ==>
        code[i].pc in incl && incl[code[i].pc] == Node(code, i))
  }

  ghost predicate Numbered(code: seq<Insn>, n: nat, nodes: map<nat, nat>, incl: map<nat, nat>)
    requires n <= |code|
  {
    NodesRight(code, n, nodes) && InclRight(code, n, incl)
  }

  lemma FreshPc(code: seq<Insn>, i: nat)
    requires WellFormed(code) && i < |code|
    ensures forall k :: 0 <= k < i ==> code[k].pc != code[i].pc
  {
    forall k | 0 <= k < i ensures code[k].pc != code[i].pc { PcsIncrease(code, k, i); }
  }

  lemma NodesNext(code: seq<Insn>, i: nat, nodes: map<nat, nat>, nodes': map<nat, nat>)
    requires WellFormed(code) && i < |code| && NodesRight(code, i, nodes)
    requires |nodes| == if i == 0 then 0 else Node(code, i - 1) + 1
    requires nodes' == if Leader(code, i) then nodes[code[i].pc := |nodes|] else nodes
    ensures NodesRight(code, i + 1, nodes') && |nodes'| == Node(code, i) + 1
  {
    hide Leader, WellFormed, Node, NodesRight;
    NodeNext(code, i);
    if Leader(code, i) {
      NodeAdded(code, i, nodes, nodes');
    } else {
      NodesLonger(code, i, nodes);
    }
  }

  lemma NodeAdded(code: seq<Insn>, i: nat, nodes: map<nat, nat>, nodes': map<nat, nat>)
    requires WellFormed(code) && i < |code| && NodesRight(code, i, nodes) && Leader(code, i)
    requires |nodes| == Node(code, i) && nodes' == nodes[code[i].pc := |nodes|]
    ensures NodesRight(code, i + 1, nodes') && |nodes'| == |nodes| + 1
  {
    hide Leader, WellFormed, Node, OnlyLeaders, AllLeaders;
    NewLeader(code, i, nodes);
    MapGrows(nodes, code[i].pc, |nodes|);
    OneMoreLeader(code, i, nodes, nodes');
    LeadersNumbered(code, i, nodes, nodes');
  }

  lemma NewLeader(code: seq<Insn>, i: nat, nodes: map<nat, nat>)
    requires WellFormed(code) && i < |code| && OnlyLeaders(code, i, nodes)
    ensures code[i].pc !in nodes
  {
    hide Leader, WellFormed;
    if code[i].pc in nodes {
      var k :| 0 <= k < i && code[k].pc == code[i].pc && Leader(code, k);
      PcsDistinct(code, k, i);
    }
  }

  lemma OneMoreLeader(code: seq<Insn>, i: nat, nodes: map<nat, nat>, nodes': map<nat, nat>)
    requires i < |code| && OnlyLeaders(code, i, nodes) && Leader(code, i) && nodes' == nodes[code[i].pc := |nodes|]
    ensures OnlyLeaders(code, i + 1, nodes')
  {
    hide Leader;
    forall q | q in nodes' ensures exists k :: 0 <= k < i + 1 && code[k].pc == q && Leader(code, k) {
      if q in nodes {
        var k :| 0 <= k < i && code[k].pc == q && Leader(code, k);
        assert k < i + 1;
      }
    }
  }

  lemma LeadersNumbered(code: seq<Insn>, i: nat, nodes: map<nat, nat>, nodes': map<nat, nat>)
    requires i < |code| && AllLeaders(code, i, nodes) && code[i].pc !in nodes
    requires |nodes| == Node(code, i) && nodes' == nodes[code[i].pc := |nodes|]
    ensures AllLeaders(code, i + 1, nodes')
  {
    hide Leader, Node;
    forall k | 0 <= k < i + 1 && Leader(code, k) ensures code[k].pc in nodes' && nodes'[code[k].pc] == Node(code, k) {
      if k < i {
        assert code[k].pc in nodes;
      }
    }
  }

  lemma MapGrows(m: map<nat, nat>, x: nat, y: nat)
    requires x !in m
    ensures |m[x := y]| == |m| + 1
  {
    assert m[x := y].Keys == m.Keys + {x};
  }

  lemma NodesLonger(code: seq<Insn>, i: nat, nodes: map<nat, nat>)
    requires i < |code| && NodesRight(code, i, nodes) && !Leader(code, i)
    ensures NodesRight(code, i + 1, nodes)
  {
    hide Leader, Node;
    forall q | q in nodes ensures exists k :: 0 <= k < i + 1 && code[k].pc == q && Leader(code, k) {
      var k :| 0 <= k < i && code[k].pc == q && Leader(code, k);
      assert k < i + 1;
    }
  }

  lemma InclNext(code: seq<Insn>, i: nat, incl: map<nat, nat>, incl': map<nat, nat>)
    requires WellFormed(code) && i < |code| && InclRight(code, i, incl) && incl' == incl[code[i].pc := Node(code, i)]
    ensures InclRight(code, i + 1, incl')
  {
    hide Leader, WellFormed, Node;
    FreshPc(code, i);
    forall q | q in incl' ensures exists k :: 0 <= k < i + 1 && code[k].pc == q {
      if q in incl {
        var k :| 0 <= k < i && code[k].pc == q;
        assert k < i + 1;
      }
    }
  }

  lemma NodeNext(code: seq<Insn>, i: nat)
    requires i < |code|
    ensures Node(code, i) == (if i == 0 then 0 else Node(code, i - 1)) + if i > 0 && Leader(code, i) then 1 else 0
    ensures i == 0 ==> Leader(code, i)
  {
  }

  /** Second pass: blocks. */
  method BuildNodes(code: seq<Insn>, targets: set<nat>) returns (nodes: map<nat, nat>, incl: map<nat, nat>)
    requires WellFormed(code) && forall pc :: pc in targets <==> IsTarget(code, pc)
    ensures Numbered(code, |code|, nodes, incl)
  {
    hide NodesRight, InclRight, IsTarget, Node;
    nodes, incl := map[], map[];
    var forceNewBlock := false;
    assert Numbered(code, 0, nodes, incl) by { NothingNumbered(code); }
    for i := 0 to |code|
      invariant Numbered(code, i, nodes, incl)
      invariant |nodes| == if i == 0 then 0 else Node(code, i - 1) + 1
      invariant forceNewBlock <==> i > 0 && (code[i - 1].kind.Switch? || IsBasicBlockEnd(code[i - 1]))
    {
      var pc := code[i].pc;
      ghost var was := (nodes, incl);
      if i > 0 {
        PcsIncrease(code, 0, i);
      }
      if pc == 0 || pc in targets || forceNewBlock {
        nodes := nodes[pc := |nodes|];
        forceNewBlock := false;
      }
      incl := incl[pc := |nodes| - 1];
      NodesNext(code, i, was.0, nodes);
      InclNext(code, i, was.1, incl);
      forceNewBlock := code[i].kind.Switch? || IsBasicBlockEnd(code[i]);
    }
  }

  lemma NothingNumbered(code: seq<Insn>)
    ensures Numbered(code, 0, map[], map[])
  {
  }

  function SetOf(hs: seq<nat>): set<nat> {
    set h | h in hs
  }

  /** Regular edges: the fall-throughs into the next block, among the first `n` instructions. */
  ghost function Regular(code: seq<Insn>, n: nat): set<Edge>
    requires n <= |code|
  {
    set i {:trigger Falls(code, i)} | 0 < i < n && Falls(code, i) :: Arrow(code, i - 1, i)
  }

  /** Instruction `i` starts a block that the instruction before it runs into. */
  ghost predicate Falls(code: seq<Insn>, i: nat)
    requires 0 < i < |code|
  {
    Leader(code, i) && FallsThrough(code[i - 1])
  }

  /** The edges from instruction `i` to the instructions at `pcs`. */
  ghost function EdgesTo(code: seq<Insn>, i: nat, pcs: seq<nat>): set<Edge>
    requires i < |code|
  {
    set j | 0 <= j < |code| && code[j].pc in pcs :: Arrow(code, i, j)
  }

  /** Taken edges: every jump of the first `n` instructions that leads to an instruction. */
  ghost function Taken(code: seq<Insn>, n: nat): set<Edge>
    requires n <= |code|
  {
    if n == 0 then {} else Taken(code, n - 1) + EdgesTo(code, n - 1, Jumps(code[n - 1]))
  }

  lemma {:induction false} TakenExact(code: seq<Insn>, n: nat, e: Edge)
    requires n <= |code|
    ensures e in Taken(code, n) <==>
              exists i, j :: 0 <= i < n && 0 <= j < |code| && code[j].pc in Jumps(code[i]) && e == Arrow(code, i, j)
  {
    hide Arrow, Jumps;
    if n > 0 {
      TakenExact(code, n - 1, e);
    }
  }

  /** An exception edge leaves a block with an instruction that has the handler it leads to. */
  ghost predicate IsThrow(code: seq<Insn>, e: Edge, i: int, j: int) {
    && 0 <= i < |code| && 0 <= j < |code| && code[j].pc in code[i].handlers
    && e.from == Node(code, i) && e.to == Node(code, j) && e.toPc == code[j].pc
    && (e.fromPc.Some? ==> e.fromPc.value == code[i].pc)
  }

  ghost predicate ThrowsSound(code: seq<Insn>, exc: set<Edge>) {
    forall e :: e in exc ==> exists i, j :: IsThrow(code, e, i, j)
  }

  /** Every handler of instruction `i` that is an instruction is reached by an edge from it or from its block. */
  ghost predicate Handled(code: seq<Insn>, exc: set<Edge>, i: nat)
    requires i < |code|
  {
    forall j {:trigger code[j].pc in code[i].handlers} :: 0 <= j < |code| && code[j].pc in code[i].handlers ==>
      Edge(Node(code, i), None, Node(code, j), code[j].pc) in exc || Arrow(code, i, j) in exc
  }

  /**
   * What instruction `k` leaves of the common handlers of its block: its own, unless there were others
   * before; then none, and the block is left to the detailed pass.
   */
  ghost function Common(code: seq<Insn>, k: nat): set<nat>
    requires k < |code|
  {
    if Breaks(code, k) then {} else SetOf(code[k].handlers)
  }

  ghost predicate Breaks(code: seq<Insn>, k: nat)
    requires k < |code|
  {
    !Leader(code, k) && !Breaks(code, k - 1) && !(SetOf(code[k - 1].handlers) <= SetOf(code[k].handlers))
  }

  /** Instruction `k` is the last of its block. */
  ghost predicate Last(code: seq<Insn>, k: nat)
    requires k < |code|
  {
    k + 1 == |code| || Leader(code, k + 1)
  }

  /** From the block of instruction `k` to the handlers it leaves. */
  ghost function CommonEdges(code: seq<Insn>, k: nat): set<Edge>
    requires k < |code|
  {
    set j | 0 <= j < |code| && code[j].pc in Common(code, k) :: Edge(Node(code, k), None, Node(code, j), code[j].pc)
  }

  /** The edges of the blocks that end among the first `n` instructions. */
  ghost function BlockEdges(code: seq<Insn>, n: nat): set<Edge>
    requires n <= |code|
  {
    if n == 0 then {} else BlockEdges(code, n - 1) + if Last(code, n - 1) then CommonEdges(code, n - 1) else {}
  }

  /** The blocks left to the detailed pass. */
  ghost function Broken(code: seq<Insn>, n: nat): set<nat>
    requires n <= |code|
  {
    set k {:trigger Breaks(code, k)} | 0 <= k < n && Breaks(code, k) :: code[BlockStart(code, k)].pc
  }

  /** The edges of that pass: from each instruction of the blocks that start at `pcs` to its handlers. */
  ghost predicate IsDetail(code: seq<Insn>, pcs: set<nat>, m: int, j: int, e: Edge) {
    && 0 <= m < |code| && 0 <= j < |code| && code[BlockStart(code, m)].pc in pcs && code[j].pc in code[m].handlers
    && e == Arrow(code, m, j)
  }

  ghost predicate Details(code: seq<Insn>, pcs: set<nat>, exc: set<Edge>, more: set<Edge>) {
    forall e :: e in more <==> e in exc || exists m, j :: IsDetail(code, pcs, m, j, e)
  }

  /** The common edges of a block. */
  method AddCommonEdges(node: nat, common: set<nat>, incl: map<nat, nat>, exc: set<Edge>) returns (more: set<Edge>)
    ensures more == exc + set h | h in common && h in incl :: Edge(node, None, incl[h], h)
  {
    more := exc;
    var rest := common;
    while rest != {}
      invariant rest <= common
      invariant more == exc + set h | h in common && h !in rest && h in incl :: Edge(node, None, incl[h], h)
    {
      var h :| h in rest;
      if h in incl {
        more := more + {Edge(node, None, incl[h], h)};
      }
      rest := rest - {h};
    }
  }

  /** The edges just added are those of the block that ends with instruction `k`. */
  lemma CommonDrawn(code: seq<Insn>, k: nat, incl: map<nat, nat>, exc: set<Edge>, more: set<Edge>)
    requires k < |code| && InclRight(code, |code|, incl)
    requires more == exc + set h | h in Common(code, k) && h in incl :: Edge(Node(code, k), None, incl[h], h)
    ensures more == exc + CommonEdges(code, k)
  {
    hide Leader, Node, Common;
    var drawn := set h | h in Common(code, k) && h in incl :: Edge(Node(code, k), None, incl[h], h);
    forall e | e in drawn ensures e in CommonEdges(code, k) {
      var h :| h in Common(code, k) && h in incl && e == Edge(Node(code, k), None, incl[h], h);
      var j :| 0 <= j < |code| && code[j].pc == h;
      assert code[j].pc in incl;
    }
    forall e | e in CommonEdges(code, k) ensures e in drawn {
      var j :| 0 <= j < |code| && code[j].pc in Common(code, k)
               && e == Edge(Node(code, k), None, Node(code, j), code[j].pc);
      assert code[j].pc in incl;
    }
  }

  lemma NoCommonEdges(code: seq<Insn>, k: nat)
    requires k < |code| && Common(code, k) == {}
    ensures CommonEdges(code, k) == {}
  {
    hide Common, Node;
  }

  lemma BrokenNext(code: seq<Insn>, i: nat)
    requires i < |code|
    ensures Broken(code, i + 1) == Broken(code, i) + if Breaks(code, i) then {code[BlockStart(code, i)].pc} else {}
  {
    hide Breaks, BlockStart, Leader;
    if Breaks(code, i) {
      assert code[BlockStart(code, i)].pc in Broken(code, i + 1);
    }
  }

  /** The common handlers behind instruction `i`. */
  lemma CommonNext(code: seq<Insn>, i: nat)
    requires 0 < i < |code| && !Leader(code, i)
    ensures Breaks(code, i) <==> !(Common(code, i - 1) <= SetOf(code[i].handlers))
    ensures BlockStart(code, i) == BlockStart(code, i - 1) && Node(code, i) == Node(code, i - 1)
  {
    hide SetOf;
  }

  lemma BlockEdgesNext(code: seq<Insn>, i: nat)
    requires 0 < i <= |code|
    ensures BlockEdges(code, i)
            == BlockEdges(code, i - 1) + if i == |code| || Leader(code, i) then CommonEdges(code, i - 1) else {}
  {
    hide Leader, CommonEdges;
  }

  lemma RegularNext(code: seq<Insn>, i: nat)
    requires i < |code|
    ensures Regular(code, i + 1) == Regular(code, i) + if i > 0 && Falls(code, i) then {Arrow(code, i - 1, i)} else {}
  {
    hide Arrow, Falls;
    if i > 0 && Falls(code, i) {
      assert Arrow(code, i - 1, i) in Regular(code, i + 1);
    }
  }

  /** A jump target that is an instruction starts a block, so looking it up among the block starts finds it. */
  lemma TargetNode(code: seq<Insn>, i: nat, t: nat, nodes: map<nat, nat>)
    requires i < |code| && t in Jumps(code[i]) && NodesRight(code, |code|, nodes) && WellFormed(code)
    ensures EdgesTo(code, i, [t]) == if t in nodes then {Edge(Node(code, i), Some(code[i].pc), nodes[t], t)} else {}
  {
    forall j | 0 <= j < |code| && code[j].pc == t ensures t in nodes && nodes[t] == Node(code, j) {
      assert IsTarget(code, t) && Leader(code, j);
    }
    hide Leader, Node, WellFormed, Jumps;
    if t in nodes {
      var j :| 0 <= j < |code| && code[j].pc == t;
      assert Arrow(code, i, j) in EdgesTo(code, i, [t]);
    }
  }

  lemma EdgesToMore(code: seq<Insn>, i: nat, pcs: seq<nat>, t: nat)
    requires i < |code|
    ensures EdgesTo(code, i, pcs + [t]) == EdgesTo(code, i, pcs) + EdgesTo(code, i, [t])
  {
    hide Arrow;
  }

  /** The taken edges of one instruction. */
  method AddTaken(code: seq<Insn>, i: nat, node: nat, nodes: map<nat, nat>, taken: set<Edge>) returns (more: set<Edge>)
    requires WellFormed(code) && i < |code| && NodesRight(code, |code|, nodes) && node == Node(code, i)
    requires taken == Taken(code, i)
    ensures more == Taken(code, i + 1)
  {
    hide WellFormed, NodesRight, Node, EdgesTo;
    more := taken;
    var pc := code[i].pc;
    NoEdges(code, i);
    match code[i].kind {
      case Branch(t, _) =>
        TargetNode(code, i, t, nodes);
        if t in nodes {
          more := more + {Edge(node, Some(pc), nodes[t], t)};
        }
      case Switch(ts) =>
        for m := 0 to |ts|
          invariant more == taken + EdgesTo(code, i, ts[..m])
        {
          TargetNode(code, i, ts[m], nodes);
          if ts[m] in nodes {
            more := more + {Edge(node, Some(pc), nodes[ts[m]], ts[m])};
          }
          EdgesToMore(code, i, ts[..m], ts[m]);
          assert ts[..m] + [ts[m]] == ts[..m + 1];
        }
        assert ts[..|ts|] == ts;
      case _ =>
    }
  }

  lemma NoEdges(code: seq<Insn>, i: nat)
    requires i < |code|
    ensures EdgesTo(code, i, []) == {}
  {
  }

  /** Third pass: edges. Blocks whose instructions do not have ever more handlers are left to a fourth pass. */
  method BuildEdges(code: seq<Insn>, nodes: map<nat, nat>, incl: map<nat, nat>)
    returns (regular: set<Edge>, taken: set<Edge>, exc: set<Edge>, detailed: set<nat>)
    requires WellFormed(code) && Numbered(code, |code|, nodes, incl)
    ensures regular == Regular(code, |code|) && taken == Taken(code, |code|)
    ensures exc == BlockEdges(code, |code|) && detailed == Broken(code, |code|)
  {
    hide WellFormed, NodesRight, InclRight, Leader, Node, BlockStart, Breaks, Regular, Taken, BlockEdges, Broken,
      CommonEdges;
    regular, taken, exc, detailed := {}, {}, {}, {};
    var common: set<nat> := {};
    var lastNode: Option<nat> := None;
    var oldPc := 0;
    var blockStart := 0;  // set at the first instruction
    NothingDrawn(code);
    for i := 0 to |code|
      invariant i > 0 ==> oldPc == code[i - 1].pc && blockStart == code[BlockStart(code, i - 1)].pc
      invariant lastNode == if i > 0 && FallsThrough(code[i - 1]) then Some(Node(code, i - 1)) else None
      invariant regular == Regular(code, i) && taken == Taken(code, i)
      invariant common == if i == 0 then {} else Common(code, i - 1)
      invariant exc == BlockEdges(code, if i == 0 then 0 else i - 1) && detailed == Broken(code, i)
    {
      var pc := code[i].pc;
      RegularNext(code, i);
      StartsBlock(code, i, nodes);
      BrokenNext(code, i);
      if pc in nodes {
        if common != {} {
          StartFound(code, i - 1, nodes);
          var more := AddCommonEdges(nodes[blockStart], common, incl, exc);
          CommonDrawn(code, i - 1, incl, exc, more);
          exc := more;
          common := {};
        } else if i > 0 {
          NoCommonEdges(code, i - 1);
        }
        blockStart := pc;
        var oldLast := lastNode;
        lastNode := Some(nodes[pc]);
        if oldLast.Some? {
          regular := regular + {Edge(oldLast.value, Some(oldPc), lastNode.value, pc)};
        }
        LeadsBlock(code, i);
      } else {
        FreshPc(code, i);
        CommonNext(code, i);
      }
      if i > 0 {
        BlockEdgesNext(code, i);
      }
      var here := Handlers(code[i].handlers);
      common := common + here;
      taken := AddTaken(code, i, lastNode.value, nodes, taken);
      if blockStart != pc {
        if here != common {
          common := {};
          detailed := detailed + {blockStart};
        }
      }
      if code[i].kind.Return? || code[i].kind.Throw? || (code[i].kind.Branch? && code[i].kind.unconditional) {
        lastNode := None;
      }
      oldPc := pc;
    }
    if |code| > 0 {
      BlockEdgesNext(code, |code|);
      if common != {} {
        StartFound(code, |code| - 1, nodes);
        var more := AddCommonEdges(nodes[blockStart], common, incl, exc);
        CommonDrawn(code, |code| - 1, incl, exc, more);
        exc := more;
      } else {
        NoCommonEdges(code, |code| - 1);
      }
    }
  }

  lemma LeadsBlock(code: seq<Insn>, i: nat)
    requires i < |code| && Leader(code, i)
    ensures BlockStart(code, i) == i && !Breaks(code, i)
  {
  }

  /** The start of a block is found among the nodes, with the block's number. */
  lemma {:induction false} StartFound(code: seq<Insn>, k: nat, nodes: map<nat, nat>)
    requires WellFormed(code) && k < |code| && NodesRight(code, |code|, nodes)
    ensures var pc := code[BlockStart(code, k)].pc; pc in nodes && nodes[pc] == Node(code, k)
  {
    hide NodesRight, WellFormed;
    StartsBlock(code, k, nodes);
    if !Leader(code, k) {
      StartFound(code, k - 1, nodes);
    }
  }

  /** The distinct handlers of an instruction. */
  method Handlers(hs: seq<nat>) returns (s: set<nat>)
    ensures s == SetOf(hs)
  {
    s := {};
    for i := 0 to |hs|
      invariant s == SetOf(hs[..i])
    {
      assert hs[..i + 1] == hs[..i] + [hs[i]];
      s := s + {hs[i]};
    }
    assert hs[..|hs|] == hs;
  }

  lemma NothingDrawn(code: seq<Insn>)
    ensures Regular(code, 0) == {} && Taken(code, 0) == {} && BlockEdges(code, 0) == {} && Broken(code, 0) == {}
  {
  }

  /** A pc is among the block starts exactly when its instruction leads a block; otherwise the block goes on. */
  lemma StartsBlock(code: seq<Insn>, i: nat, nodes: map<nat, nat>)
    requires WellFormed(code) && i < |code| && NodesRight(code, |code|, nodes)
    ensures code[i].pc in nodes <==> Leader(code, i)
    ensures Leader(code, i) ==> nodes[code[i].pc] == Node(code, i)
    ensures !Leader(code, i) ==> i > 0 && Node(code, i) == Node(code, i - 1) && FallsThrough(code[i - 1])
  {
    if code[i].pc in nodes {
      var k :| 0 <= k < |code| && code[k].pc == code[i].pc && Leader(code, k);
      PcsDistinct(code, i, k);
    }
  }

  lemma HandlerNode(code: seq<Insn>, i: nat, h: nat, incl: map<nat, nat>)
    requires i < |code| && InclRight(code, |code|, incl)
    ensures EdgesTo(code, i, [h]) == if h in incl then {Edge(Node(code, i), Some(code[i].pc), incl[h], h)} else {}
  {
    hide Node;
    if h in incl {
      var j :| 0 <= j < |code| && code[j].pc == h;
      assert Arrow(code, i, j) in EdgesTo(code, i, [h]);
    }
  }

  /** The exception edges of one instruction, each once. */
  method AddHandlerEdges(code: seq<Insn>, i: nat, node: nat, incl: map<nat, nat>,
                         exc: set<Edge>) returns (more: set<Edge>)
    requires i < |code| && InclRight(code, |code|, incl) && node == Node(code, i)
    ensures more == exc + EdgesTo(code, i, code[i].handlers)
  {
    hide InclRight, Node, EdgesTo;
    more := exc;
    var hs := code[i].handlers;
    var handled: set<nat> := {};
    NoEdges(code, i);
    for m := 0 to |hs|
      invariant handled == SetOf(hs[..m])
      invariant more == exc + EdgesTo(code, i, hs[..m])
    {
      var h := hs[m];
      EdgesToMore(code, i, hs[..m], h);
      assert hs[..m] + [h] == hs[..m + 1];
      HandlerNode(code, i, h, incl);
      if h !in handled {
        if h in incl {
          more := more + {Edge(node, Some(code[i].pc), incl[h], h)};
        }
        handled := handled + {h};
      } else {
        EdgesToSeen(code, i, hs[..m], h);
      }
    }
    assert hs[..|hs|] == hs;
  }

  lemma EdgesToSeen(code: seq<Insn>, i: nat, pcs: seq<nat>, t: nat)
    requires i < |code| && t in pcs
    ensures EdgesTo(code, i, [t]) <= EdgesTo(code, i, pcs)
  {
  }

  function CodeSize(code: seq<Insn>): nat {
    if |code| == 0 then 0 else code[|code| - 1].pc + code[|code| - 1].width
  }

  /** Nothing behind a leader belongs to an earlier block. */
  lemma {:induction false} BlocksSeparate(code: seq<Insn>, c: nat, m: nat)
    requires c <= m < |code| && Leader(code, c)
    ensures c <= BlockStart(code, m)
  {
    hide Leader;
    if c < m && !Leader(code, m) {
      BlocksSeparate(code, c, m - 1);
    }
  }

  lemma InBlock(code: seq<Insn>, b: nat, n: nat)
    requires b < n < |code| && BlockStart(code, n - 1) == b && !Leader(code, n)
    ensures BlockStart(code, n) == b && Node(code, n) == Node(code, n - 1)
  {
  }

  /** Where the walk of a block stops: the block has been seen in full. */
  lemma BlockSeen(code: seq<Insn>, b: nat, n: nat)
    requires b < n <= |code| && (n == |code| || Leader(code, n))
    ensures forall k :: 0 <= k < |code| && BlockStart(code, k) == b ==> b <= k < n
  {
    hide Leader;
    forall k | 0 <= k < |code| && BlockStart(code, k) == b ensures b <= k < n {
      if n <= k {
        BlocksSeparate(code, n, k);
      }
    }
  }

  /** Fourth pass, for one block: edges from each of its instructions. */
  method DetailBlock(code: seq<Insn>, b: nat, nodes: map<nat, nat>, incl: map<nat, nat>,
                     exc: set<Edge>) returns (more: set<Edge>)
    requires WellFormed(code) && Numbered(code, |code|, nodes, incl) && b < |code| && Leader(code, b)
    ensures Details(code, {code[b].pc}, exc, more)
  {
    hide WellFormed, NodesRight, InclRight, Leader, Node, EdgesTo, Details, Walked;
    more := exc;
    var k := b;
    var pc := code[b].pc;
    InclAt(code, b, incl);
    var node := incl[pc];
    NothingWalked(code, b, exc);
    while true
      invariant b <= k < |code| && pc == code[k].pc && BlockStart(code, k) == b && node == Node(code, k)
      invariant forall m :: b <= m <= k ==> BlockStart(code, m) == b
      invariant Walked(code, b, k, exc, more)
      decreases |code| - k
    {
      ghost var was := more;
      more := AddHandlerEdges(code, k, node, incl, more);
      WalkOn(code, b, k, exc, was, more);
      EndsBlock(code, k);
      if IsBasicBlockEnd(code[k]) { break; }
      pc := pc + code[k].width;
      if pc >= CodeSize(code) { break; }
      StartsBlock(code, k + 1, nodes);
      if pc in nodes { break; }
      InBlock(code, b, k + 1);
      k := k + 1;
    }
    BlockSeen(code, b, k + 1);
    WalkedAll(code, b, k + 1, exc, more);
  }

  /** The edges of the instructions from `b` to `n` have been added. */
  ghost predicate Walked(code: seq<Insn>, b: nat, n: nat, exc: set<Edge>, more: set<Edge>)
    requires n <= |code|
  {
    forall e :: e in more <==> e in exc || exists m, j :: IsWalked(code, b, n, m, j, e)
  }

  ghost predicate IsWalked(code: seq<Insn>, b: nat, n: nat, m: int, j: int, e: Edge)
    requires n <= |code|
  {
    b <= m < n && 0 <= j < |code| && code[j].pc in code[m].handlers && e == Arrow(code, m, j)
  }

  lemma NothingWalked(code: seq<Insn>, b: nat, exc: set<Edge>)
    requires b < |code|
    ensures Walked(code, b, b, exc, exc)
  {
    hide Arrow;
  }

  lemma WalkOn(code: seq<Insn>, b: nat, k: nat, exc: set<Edge>, was: set<Edge>, more: set<Edge>)
    requires b <= k < |code| && Walked(code, b, k, exc, was) && more == was + EdgesTo(code, k, code[k].handlers)
    ensures Walked(code, b, k + 1, exc, more)
  {
    hide Arrow;
    var n := k + 1;
    forall e ensures e in more <==> e in exc || exists m, j :: IsWalked(code, b, n, m, j, e) {
      if e in was && e !in exc {
        var m, j :| IsWalked(code, b, k, m, j, e);
        assert IsWalked(code, b, n, m, j, e);
      } else if e in more && e !in exc {
        var j :| 0 <= j < |code| && code[j].pc in code[k].handlers && e == Arrow(code, k, j);
        assert IsWalked(code, b, n, k, j, e);
      }
      if m, j :| IsWalked(code, b, n, m, j, e) {
        if m < k {
          assert IsWalked(code, b, k, m, j, e);
        }
      }
    }
  }

  lemma WalkedAll(code: seq<Insn>, b: nat, n: nat, exc: set<Edge>, more: set<Edge>)
    requires WellFormed(code) && b < n <= |code| && Walked(code, b, n, exc, more)
    requires forall m :: b <= m < n ==> BlockStart(code, m) == b
    requires forall k :: 0 <= k < |code| && BlockStart(code, k) == b ==> b <= k < n
    ensures Details(code, {code[b].pc}, exc, more)
  {
    hide Arrow, WellFormed, Leader, BlockStart;
    SamePc(code);
    forall e ensures e in more <==> e in exc || exists m, j :: IsDetail(code, {code[b].pc}, m, j, e) {
      if m, j :| IsWalked(code, b, n, m, j, e) {
        assert IsDetail(code, {code[b].pc}, m, j, e);
      }
      if m, j :| IsDetail(code, {code[b].pc}, m, j, e) {
        assert BlockStart(code, m) == b;
        assert IsWalked(code, b, n, m, j, e);
      }
    }
  }

  lemma InclAt(code: seq<Insn>, i: nat, incl: map<nat, nat>)
    requires i < |code| && InclRight(code, |code|, incl)
    ensures code[i].pc in incl && incl[code[i].pc] == Node(code, i)
  {
  }

  lemma EndsBlock(code: seq<Insn>, k: nat)
    requires WellFormed(code) && k < |code|
    ensures code[k].pc + code[k].width < CodeSize(code) <==> k + 1 < |code|
    ensures k + 1 < |code| ==> code[k + 1].pc == code[k].pc + code[k].width
    ensures k + 1 < |code| && IsBasicBlockEnd(code[k]) ==> Leader(code, k + 1)
  {
    if k + 1 < |code| {
      assert Next(code, k) == code[k + 1];
      if k + 1 < |code| - 1 {
        PcsIncrease(code, k + 1, |code| - 1);
      }
    }
  }

  /** Every exception edge is justified and every handler reachable. */
  ghost predicate ThrowsRight(code: seq<Insn>, exc: set<Edge>) {
    ThrowsSound(code, exc) && forall k :: 0 <= k < |code| ==> Handled(code, exc, k)
  }

  /** Fourth pass. */
  method AddDetailedEdges(code: seq<Insn>, nodes: map<nat, nat>, incl: map<nat, nat>, detailed: set<nat>,
                          exc: set<Edge>)
    returns (more: set<Edge>)
    requires WellFormed(code) && Numbered(code, |code|, nodes, incl)
    requires forall pc :: pc in detailed ==> exists k :: 0 <= k < |code| && Leader(code, k) && code[k].pc == pc
    ensures Details(code, detailed, exc, more)
  {
    hide WellFormed, Numbered, Leader, Node, BlockStart, Details;
    more := exc;
    var rest := detailed;
    NothingDetailed(code, exc);
    assert detailed - rest == {};
    while rest != {}
      invariant rest <= detailed && Details(code, detailed - rest, exc, more)
    {
      var pc :| pc in rest;
      var b :| 0 <= b < |code| && code[b].pc == pc;  // InstructionAt
      LeaderAt(code, b, detailed);
      ghost var was := more;
      more := DetailBlock(code, b, nodes, incl, more);
      DetailsMore(code, detailed - rest, pc, exc, was, more);
      assert detailed - (rest - {pc}) == detailed - rest + {pc};
      rest := rest - {pc};
    }
    assert detailed - rest == detailed;
  }

  lemma NothingDetailed(code: seq<Insn>, exc: set<Edge>)
    ensures Details(code, {}, exc, exc)
  {
    hide Arrow, BlockStart;
  }

  lemma DetailsMore(code: seq<Insn>, pcs: set<nat>, pc: nat, exc: set<Edge>, was: set<Edge>, more: set<Edge>)
    requires Details(code, pcs, exc, was) && Details(code, {pc}, was, more)
    ensures Details(code, pcs + {pc}, exc, more)
  {
    hide Arrow, BlockStart;
    forall e ensures e in more <==> e in exc || exists m, j :: IsDetail(code, pcs + {pc}, m, j, e) {
      if m, j :| IsDetail(code, pcs, m, j, e) {
        assert IsDetail(code, pcs + {pc}, m, j, e);
      }
      if m, j :| IsDetail(code, {pc}, m, j, e) {
        assert IsDetail(code, pcs + {pc}, m, j, e);
      }
      if m, j :| IsDetail(code, pcs + {pc}, m, j, e) {
        assert IsDetail(code, pcs, m, j, e) || IsDetail(code, {pc}, m, j, e);
      }
    }
  }

  lemma BrokenLead(code: seq<Insn>)
    ensures forall pc :: pc in Broken(code, |code|) ==>
              exists k :: 0 <= k < |code| && Leader(code, k) && code[k].pc == pc
  {
    hide Leader, Breaks;
    forall pc | pc in Broken(code, |code|) ensures exists k :: 0 <= k < |code| && Leader(code, k) && code[k].pc == pc {
      var k :| 0 <= k < |code| && Breaks(code, k) && code[BlockStart(code, k)].pc == pc;
      assert Leader(code, BlockStart(code, k));
    }
  }

  lemma LeaderAt(code: seq<Insn>, b: nat, detailed: set<nat>)
    requires WellFormed(code) && b < |code| && code[b].pc in detailed
    requires forall pc :: pc in detailed ==> exists k :: 0 <= k < |code| && Leader(code, k) && code[k].pc == pc
    ensures Leader(code, b)
  {
    hide WellFormed, Leader;
    var k :| 0 <= k < |code| && Leader(code, k) && code[k].pc == code[b].pc;
    PcsDistinct(code, k, b);
  }

  lemma SamePc(code: seq<Insn>)
    requires WellFormed(code)
    ensures forall i, j :: 0 <= i < |code| && 0 <= j < |code| && code[i].pc == code[j].pc ==> i == j
  {
    hide WellFormed;
    forall i, j | 0 <= i < |code| && 0 <= j < |code| && code[i].pc == code[j].pc ensures i == j {
      PcsDistinct(code, i, j);
    }
  }

  /** The whole graph. */
  datatype Graph = Graph(nodes: map<nat, nat>, incl: map<nat, nat>, regular: set<Edge>, taken: set<Edge>,
                         exception: set<Edge>)

  ghost predicate GraphRight(code: seq<Insn>, g: Graph) {
    && Numbered(code, |code|, g.nodes, g.incl)
    && g.regular == Regular(code, |code|) && g.taken == Taken(code, |code|)
    && Details(code, Broken(code, |code|), BlockEdges(code, |code|), g.exception)
  }

  method DumpMethodCfg(code: seq<Insn>) returns (g: Graph)
    requires WellFormed(code)
    ensures GraphRight(code, g) && PictureRight(code, g)
  {
    hide *;
    var targets := FindTargets(code);
    var nodes, incl := BuildNodes(code, targets);
    var regular, taken, exc, detailed := BuildEdges(code, nodes, incl);
    BrokenLead(code);
    exc := AddDetailedEdges(code, nodes, incl, detailed, exc);
    g := Graph(nodes, incl, regular, taken, exc);
    GraphParts(code, g);
    PictureIsRight(code, g);
  }

  lemma GraphParts(code: seq<Insn>, g: Graph)
    requires Numbered(code, |code|, g.nodes, g.incl)
    requires Details(code, Broken(code, |code|), BlockEdges(code, |code|), g.exception)
    requires g.regular == Regular(code, |code|) && g.taken == Taken(code, |code|)
    ensures GraphRight(code, g)
  {
  }

  // The graph in terms of instructions alone.

  ghost predicate JumpsTo(insn: Insn, pc: nat) {
    match insn.kind
    case Branch(target, _) => pc == target
    case Switch(targets) => pc in targets
    case _ => false
  }

  ghost predicate Continues(insn: Insn) {
    match insn.kind
    case Plain => true
    case Switch(_) => true
    case Branch(_, unconditional) => !unconditional
    case _ => false
  }

  /** The block that instruction `i` is drawn in. */
  ghost function Drawn(code: seq<Insn>, incl: map<nat, nat>, i: nat): nat
    requires i < |code|
  {
    if code[i].pc in incl then incl[code[i].pc] else 0
  }

  /**
   * Blocks are numbered in the order of the code. A block goes on exactly behind an instruction that does
   * nothing but go on, to one that nothing jumps to; and the block starts are the nodes.
   */
  ghost predicate BlocksRight(code: seq<Insn>, nodes: map<nat, nat>, incl: map<nat, nat>) {
    && (forall pc :: pc in incl <==> exists i :: 0 <= i < |code| && code[i].pc == pc)
    && (code != [] ==> Drawn(code, incl, 0) == 0)
    && (forall i {:trigger GoesOn(code, i)} :: 0 < i < |code| ==>
          Drawn(code, incl, i) == Drawn(code, incl, i - 1) + if GoesOn(code, i) then 0 else 1)
    && (forall pc :: pc in nodes ==> pc in incl && nodes[pc] == incl[pc])
    && (forall i {:trigger First(code, incl, i)} :: 0 <= i < |code| ==>
          (code[i].pc in nodes <==> First(code, incl, i)))
  }

  ghost predicate GoesOn(code: seq<Insn>, i: nat)
    requires 0 < i < |code|
  {
    code[i - 1].kind.Plain? && forall j :: 0 <= j < |code| ==> !JumpsTo(code[j], code[i].pc)
  }

  ghost predicate First(code: seq<Insn>, incl: map<nat, nat>, i: nat)
    requires i < |code|
  {
    i == 0 || Drawn(code, incl, i) != Drawn(code, incl, i - 1)
  }

  ghost function DrawnArrow(code: seq<Insn>, incl: map<nat, nat>, i: nat, j: nat): Edge
    requires i < |code| && j < |code|
  {
    Edge(Drawn(code, incl, i), Some(code[i].pc), Drawn(code, incl, j), code[j].pc)
  }

  /** Regular edges go to the next block, taken edges wherever an instruction jumps. */
  ghost predicate FlowRight(code: seq<Insn>, g: Graph) {
    && (forall e :: e in g.regular <==> exists i :: FallDrawn(code, g.incl, i, e))
    && (forall e :: e in g.taken <==> exists i, j :: JumpDrawn(code, g.incl, i, j, e))
  }

  ghost predicate FallDrawn(code: seq<Insn>, incl: map<nat, nat>, i: int, e: Edge) {
    0 < i < |code| && First(code, incl, i) && Continues(code[i - 1]) && e == DrawnArrow(code, incl, i - 1, i)
  }

  ghost predicate JumpDrawn(code: seq<Insn>, incl: map<nat, nat>, i: int, j: int, e: Edge) {
    0 <= i < |code| && 0 <= j < |code| && JumpsTo(code[i], code[j].pc) && e == DrawnArrow(code, incl, i, j)
  }

  /** Instruction `i` lacks a handler of the instruction before it in its block. */
  ghost predicate Loses(code: seq<Insn>, incl: map<nat, nat>, i: nat)
    requires i < |code|
  {
    && !First(code, incl, i)
    && exists h :: h in code[i - 1].handlers && h !in code[i].handlers
  }

  /** Of instructions that lose handlers in a row, every other one counts. */
  ghost predicate Clears(code: seq<Insn>, incl: map<nat, nat>, i: nat)
    requires i < |code|
  {
    Loses(code, incl, i) && !Clears(code, incl, i - 1)
  }

  ghost predicate Ends(code: seq<Insn>, incl: map<nat, nat>, i: nat)
    requires i < |code|
  {
    i + 1 == |code| || First(code, incl, i + 1)
  }

  /**
   * Exception edges leave a block as a whole for the handlers of its last instruction, unless that one
   * clears; and if some instruction of the block loses a handler, each instruction for its own.
   */
  ghost predicate ThrowsDrawn(code: seq<Insn>, incl: map<nat, nat>, i: int, j: int, e: Edge) {
    && 0 <= i < |code| && 0 <= j < |code| && code[j].pc in code[i].handlers
    && var whole := DrawnArrow(code, incl, i, j).(fromPc := None);
       || (e == whole && Ends(code, incl, i) && !Clears(code, incl, i))
       || (e == DrawnArrow(code, incl, i, j)
           && exists k :: 0 <= k < |code| && Loses(code, incl, k) && Drawn(code, incl, k) == Drawn(code, incl, i))
  }

  ghost predicate PictureRight(code: seq<Insn>, g: Graph) {
    && BlocksRight(code, g.nodes, g.incl) && FlowRight(code, g)
    && forall e :: e in g.exception <==> exists i, j :: ThrowsDrawn(code, g.incl, i, j, e)
  }

  lemma Numbers(code: seq<Insn>, nodes: map<nat, nat>, incl: map<nat, nat>, i: nat)
    requires WellFormed(code) && Numbered(code, |code|, nodes, incl) && i < |code|
    ensures Drawn(code, incl, i) == Node(code, i) && code[i].pc in incl
    ensures First(code, incl, i) <==> Leader(code, i)
    ensures i > 0 ==> (Leader(code, i) <==> !GoesOn(code, i))
    ensures code[i].pc in nodes <==> Leader(code, i)
  {
    StartsBlock(code, i, nodes);
    InclAt(code, i, incl);
    if i > 0 {
      InclAt(code, i - 1, incl);
      NodeNext(code, i);
      LeaderGoesOn(code, i);
    }
    hide Leader, Numbered, GoesOn, WellFormed, Node;
  }

  lemma LeaderGoesOn(code: seq<Insn>, i: nat)
    requires 0 < i < |code|
    ensures Leader(code, i) <==> !GoesOn(code, i)
  {
    if IsTarget(code, code[i].pc) {
      var j :| 0 <= j < |code| && code[i].pc in Jumps(code[j]);
      assert JumpsTo(code[j], code[i].pc);
    }
    if j :| 0 <= j < |code| && JumpsTo(code[j], code[i].pc) {
      assert code[i].pc in Jumps(code[j]);
    }
  }

  lemma BlocksDrawn(code: seq<Insn>, nodes: map<nat, nat>, incl: map<nat, nat>)
    requires WellFormed(code) && Numbered(code, |code|, nodes, incl)
    ensures BlocksRight(code, nodes, incl)
  {
    hide Leader, Node, GoesOn, First, Drawn, WellFormed;
    forall i | 0 <= i < |code|
      ensures Drawn(code, incl, i) == Node(code, i) && (code[i].pc in nodes <==> First(code, incl, i))
      ensures i > 0 ==> Drawn(code, incl, i) == Drawn(code, incl, i - 1) + if GoesOn(code, i) then 0 else 1
    {
      Numbers(code, nodes, incl, i);
      NodeNext(code, i);
      if i > 0 {
        Numbers(code, nodes, incl, i - 1);
      }
    }
    if code != [] {
      NodeNext(code, 0);
    }
    forall pc | pc in nodes ensures pc in incl && nodes[pc] == incl[pc] {
      var i :| 0 <= i < |code| && code[i].pc == pc && Leader(code, i);
      InclAt(code, i, incl);
      StartsBlock(code, i, nodes);
    }
    forall i | 0 <= i < |code| ensures code[i].pc in incl { InclAt(code, i, incl); }
  }

  lemma ArrowDrawn(code: seq<Insn>, nodes: map<nat, nat>, incl: map<nat, nat>, i: nat, j: nat)
    requires WellFormed(code) && Numbered(code, |code|, nodes, incl) && i < |code| && j < |code|
    ensures Arrow(code, i, j) == DrawnArrow(code, incl, i, j)
  {
    hide Numbered, Node, Drawn, WellFormed;
    Numbers(code, nodes, incl, i);
    Numbers(code, nodes, incl, j);
  }

  lemma JumpsSame(insn: Insn, pc: nat)
    ensures pc in Jumps(insn) <==> JumpsTo(insn, pc)
    ensures FallsThrough(insn) <==> Continues(insn)
  {
  }

  lemma FlowDrawn(code: seq<Insn>, g: Graph)
    requires WellFormed(code) && GraphRight(code, g)
    ensures FlowRight(code, g)
  {
    hide Numbered, WellFormed, Taken, Arrow, DrawnArrow, Details, Continues, FallsThrough, Jumps, JumpsTo, First,
      Leader;
    forall e ensures e in g.regular <==> exists i :: FallDrawn(code, g.incl, i, e) {
      if i :| 0 < i < |code| && Falls(code, i) && e == Arrow(code, i - 1, i) {
        Numbers(code, g.nodes, g.incl, i);
        ArrowDrawn(code, g.nodes, g.incl, i - 1, i);
        JumpsSame(code[i - 1], 0);
        assert FallDrawn(code, g.incl, i, e);
      }
      if i :| FallDrawn(code, g.incl, i, e) {
        Numbers(code, g.nodes, g.incl, i);
        ArrowDrawn(code, g.nodes, g.incl, i - 1, i);
        JumpsSame(code[i - 1], 0);
        assert Falls(code, i);
      }
    }
    forall e ensures e in g.taken <==> exists i, j :: JumpDrawn(code, g.incl, i, j, e) {
      TakenExact(code, |code|, e);
      if i, j :| 0 <= i < |code| && 0 <= j < |code| && code[j].pc in Jumps(code[i]) && e == Arrow(code, i, j) {
        JumpsSame(code[i], code[j].pc);
        ArrowDrawn(code, g.nodes, g.incl, i, j);
        assert JumpDrawn(code, g.incl, i, j, e);
      }
      if i, j :| JumpDrawn(code, g.incl, i, j, e) {
        JumpsSame(code[i], code[j].pc);
        ArrowDrawn(code, g.nodes, g.incl, i, j);
      }
    }
  }

  lemma AllAmong(a: seq<nat>, b: seq<nat>)
    ensures SetOf(a) <= SetOf(b) <==> forall h :: h in a ==> h in b
  {
    if SetOf(a) <= SetOf(b) {
      forall h | h in a ensures h in b { assert h in SetOf(a) && h in SetOf(b); }
    }
  }

  lemma {:induction false} ClearsBreaks(code: seq<Insn>, nodes: map<nat, nat>, incl: map<nat, nat>, i: nat)
    requires WellFormed(code) && Numbered(code, |code|, nodes, incl) && i < |code|
    ensures Clears(code, incl, i) <==> Breaks(code, i)
    ensures Loses(code, incl, i) <==>
              !Leader(code, i) && !(SetOf(code[i - 1].handlers) <= SetOf(code[i].handlers))
  {
    hide Leader, First, Numbered, WellFormed;
    Numbers(code, nodes, incl, i);
    NodeNext(code, i);
    if !Leader(code, i) {
      ClearsBreaks(code, nodes, incl, i - 1);
      AllAmong(code[i - 1].handlers, code[i].handlers);
    }
  }

  lemma LastEnds(code: seq<Insn>, nodes: map<nat, nat>, incl: map<nat, nat>, i: nat)
    requires WellFormed(code) && Numbered(code, |code|, nodes, incl) && i < |code|
    ensures Ends(code, incl, i) <==> Last(code, i)
  {
    hide Leader, First, Numbered, WellFormed;
    if i + 1 < |code| {
      Numbers(code, nodes, incl, i + 1);
    }
  }

  /** Instructions have the same block number exactly if their blocks start together. */
  lemma {:induction false} SameStart(code: seq<Insn>, i: nat, j: nat)
    requires i <= j < |code|
    ensures Node(code, i) <= Node(code, j)
    ensures Node(code, i) == Node(code, j) <==> BlockStart(code, i) == BlockStart(code, j)
    decreases j
  {
    hide Leader;
    NodeNext(code, j);
    if i < j {
      SameStart(code, i, j - 1);
      if Leader(code, j) {
        assert BlockStart(code, j) == j && BlockStart(code, i) <= i;
      }
    }
  }

  /** A block is left to the detailed pass exactly if one of its instructions loses a handler. */
  lemma BrokenLoses(code: seq<Insn>, nodes: map<nat, nat>, incl: map<nat, nat>, i: nat)
    requires WellFormed(code) && Numbered(code, |code|, nodes, incl) && i < |code|
    ensures code[BlockStart(code, i)].pc in Broken(code, |code|) <==>
              exists k :: 0 <= k < |code| && Loses(code, incl, k) && Drawn(code, incl, k) == Drawn(code, incl, i)
  {
    hide Leader, Numbered, WellFormed, Node, BlockStart, Loses, Drawn;
    Numbers(code, nodes, incl, i);
    if code[BlockStart(code, i)].pc in Broken(code, |code|) {
      var k :| 0 <= k < |code| && Breaks(code, k) && code[BlockStart(code, k)].pc == code[BlockStart(code, i)].pc;
      PcsDistinct(code, BlockStart(code, k), BlockStart(code, i));
      SameStart(code, if i <= k then i else k, if i <= k then k else i);
      ClearsBreaks(code, nodes, incl, k);
      Numbers(code, nodes, incl, k);
    }
    if k :| 0 <= k < |code| && Loses(code, incl, k) && Drawn(code, incl, k) == Drawn(code, incl, i) {
      Numbers(code, nodes, incl, k);
      ClearsBreaks(code, nodes, incl, k);
      SameStart(code, if i <= k then i else k, if i <= k then k else i);
      if !Breaks(code, k) {
        CommonNext(code, k);
        assert Breaks(code, k - 1);
        assert code[BlockStart(code, k - 1)].pc in Broken(code, |code|);
      }
    }
  }

  lemma ThrowDrawn(code: seq<Insn>, g: Graph, e: Edge)
    requires WellFormed(code) && GraphRight(code, g)
    ensures e in g.exception <==> exists i, j :: ThrowsDrawn(code, g.incl, i, j, e)
  {
    hide Numbered, WellFormed, Regular, Taken, Last, BlockEdges, Broken, Breaks, Leader, Node, BlockStart, Ends, Clears,
      Loses, Drawn;
    InBlockEdges(code, |code|, e);
    if e in BlockEdges(code, |code|) {
      var k :| 0 <= k < |code| && Last(code, k) && e in CommonEdges(code, k);
      var j :| 0 <= j < |code| && code[j].pc in Common(code, k)
               && e == Edge(Node(code, k), None, Node(code, j), code[j].pc);
      LastEnds(code, g.nodes, g.incl, k);
      ClearsBreaks(code, g.nodes, g.incl, k);
      ArrowDrawn(code, g.nodes, g.incl, k, j);
      assert ThrowsDrawn(code, g.incl, k, j, e);
    } else if e in g.exception {
      var m, j :| IsDetail(code, Broken(code, |code|), m, j, e);
      BrokenLoses(code, g.nodes, g.incl, m);
      ArrowDrawn(code, g.nodes, g.incl, m, j);
      assert ThrowsDrawn(code, g.incl, m, j, e);
    }
    if i, j :| ThrowsDrawn(code, g.incl, i, j, e) {
      ArrowDrawn(code, g.nodes, g.incl, i, j);
      LastEnds(code, g.nodes, g.incl, i);
      ClearsBreaks(code, g.nodes, g.incl, i);
      BrokenLoses(code, g.nodes, g.incl, i);
      if e.fromPc.None? {
        assert code[j].pc in SetOf(code[i].handlers);
        assert e in CommonEdges(code, i);
      } else {
        assert IsDetail(code, Broken(code, |code|), i, j, e);
      }
    }
  }

  lemma PictureIsRight(code: seq<Insn>, g: Graph)
    requires WellFormed(code) && GraphRight(code, g)
    ensures PictureRight(code, g)
  {
    assert Numbered(code, |code|, g.nodes, g.incl);
    hide WellFormed, Numbered, BlocksRight, FlowRight, ThrowsDrawn, GraphRight;
    BlocksDrawn(code, g.nodes, g.incl);
    FlowDrawn(code, g);
    forall e ensures e in g.exception <==> exists i, j :: ThrowsDrawn(code, g.incl, i, j, e) {
      ThrowDrawn(code, g, e);
    }
  }

  lemma {:induction false} InBlockEdges(code: seq<Insn>, n: nat, e: Edge)
    requires n <= |code|
    ensures e in BlockEdges(code, n) <==> exists k :: 0 <= k < n && Last(code, k) && e in CommonEdges(code, k)
  {
    hide Last, CommonEdges;
    if n > 0 {
      InBlockEdges(code, n - 1, e);
    }
  }

  lemma GraphThrowsSound(code: seq<Insn>, g: Graph)
    requires WellFormed(code) && GraphRight(code, g)
    ensures ThrowsSound(code, g.exception)
  {
    hide Numbered, WellFormed, Regular, Taken, Node, Last, BlockEdges, Broken, Breaks;
    forall e | e in g.exception ensures exists i, j :: IsThrow(code, e, i, j) {
      if e in BlockEdges(code, |code|) {
        InBlockEdges(code, |code|, e);
        var k :| 0 <= k < |code| && Last(code, k) && e in CommonEdges(code, k);
        var j :| 0 <= j < |code| && code[j].pc in Common(code, k)
                 && e == Edge(Node(code, k), None, Node(code, j), code[j].pc);
        assert IsThrow(code, e, k, j);
      } else {
        var m, j :| IsDetail(code, Broken(code, |code|), m, j, e);
        assert IsThrow(code, e, m, j);
      }
    }
  }

  /** In a block that does not break, the last instruction has all handlers of the others. */
  lemma {:induction false} Ascends(code: seq<Insn>, k: nat, m: nat)
    requires k <= m < |code| && BlockStart(code, m) == BlockStart(code, k)
    requires code[BlockStart(code, k)].pc !in Broken(code, |code|)
    ensures SetOf(code[k].handlers) <= Common(code, m) && Node(code, m) == Node(code, k)
  {
    assert !Breaks(code, m);
    if k < m {
      assert !Leader(code, m);
      assert BlockStart(code, m) == BlockStart(code, m - 1);
      Ascends(code, k, m - 1);
      CommonNext(code, m);
    }
  }

  /** The last instruction of the block of instruction `k`. */
  lemma {:induction false} LastOf(code: seq<Insn>, k: nat) returns (m: nat)
    requires k < |code|
    ensures k <= m < |code| && BlockStart(code, m) == BlockStart(code, k) && Last(code, m)
    decreases |code| - k
  {
    if Last(code, k) {
      m := k;
    } else {
      m := LastOf(code, k + 1);
    }
  }

  lemma GraphHandled(code: seq<Insn>, g: Graph, k: nat)
    requires WellFormed(code) && GraphRight(code, g) && k < |code|
    ensures Handled(code, g.exception, k)
  {
    hide Numbered, WellFormed, Regular, Taken, Node, Last, BlockEdges, Broken, Breaks, Leader;
    if code[BlockStart(code, k)].pc in Broken(code, |code|) {
      forall j | 0 <= j < |code| && code[j].pc in code[k].handlers ensures Arrow(code, k, j) in g.exception {
        assert IsDetail(code, Broken(code, |code|), k, j, Arrow(code, k, j));
      }
    } else {
      var m := LastOf(code, k);
      Ascends(code, k, m);
      forall j | 0 <= j < |code| && code[j].pc in code[k].handlers
        ensures Edge(Node(code, k), None, Node(code, j), code[j].pc) in g.exception
      {
        assert code[j].pc in SetOf(code[k].handlers);
        InBlockEdges(code, |code|, Edge(Node(code, k), None, Node(code, j), code[j].pc));
      }
    }
  }

  /** So all exception edges are justified, and all handlers reached. */
  lemma GraphThrows(code: seq<Insn>, g: Graph)
    requires WellFormed(code) && GraphRight(code, g)
    ensures ThrowsRight(code, g.exception)
  {
    hide GraphRight, WellFormed, ThrowsSound, Handled;
    GraphThrowsSound(code, g);
    forall k | 0 <= k < |code| ensures Handled(code, g.exception, k) {
      GraphHandled(code, g, k);
    }
  }

  // Executions.

  /** One step of an execution, from instruction `i` to instruction `j`. */
  datatype Step = Fall | Jump | Raise

  ghost predicate Steps(code: seq<Insn>, how: Step, i: nat, j: nat) {
    && i < |code| && j < |code|
    && match how
       case Fall => j == i + 1 && FallsThrough(code[i])
       case Jump => code[j].pc in Jumps(code[i])
       case Raise => code[j].pc in code[i].handlers
  }

  /** What the graph shows of a step: it stays on consecutive instructions of one block, or follows a drawn edge. */
  ghost predicate Shown(code: seq<Insn>, g: Graph, how: Step, i: nat, j: nat)
    requires i < |code| && j < |code|
  {
    match how
    case Fall => (j == i + 1 && Node(code, i) == Node(code, j)) || Arrow(code, i, j) in g.regular
    case Jump => Arrow(code, i, j) in g.taken
    case Raise =>
      || Arrow(code, i, j) in g.exception
      || Edge(Node(code, i), None, Node(code, j), code[j].pc) in g.exception
  }

  lemma StepShown(code: seq<Insn>, g: Graph, how: Step, i: nat, j: nat)
    requires WellFormed(code) && GraphRight(code, g) && Steps(code, how, i, j)
    ensures Shown(code, g, how, i, j)
  {
    hide Numbered, WellFormed, ThrowsSound, Taken, Regular;
    match how
    case Fall =>
      if Leader(code, j) {
        RegularIn(code, j);
      }
    case Jump =>
      TakenExact(code, |code|, Arrow(code, i, j));
    case Raise =>
      GraphHandled(code, g, i);
  }

  lemma RegularIn(code: seq<Insn>, j: nat)
    requires 0 < j < |code| && Falls(code, j)
    ensures Arrow(code, j - 1, j) in Regular(code, |code|)
  {
  }

  /** And conversely, every drawn edge is a step that some instruction of its block can make. */
  lemma EdgeIsStep(code: seq<Insn>, g: Graph, e: Edge) returns (how: Step, i: nat, j: nat)
    requires WellFormed(code) && GraphRight(code, g) && e in g.regular + g.taken + g.exception
    ensures Steps(code, how, i, j) && e.from == Node(code, i) && e.to == Node(code, j) && e.toPc == code[j].pc
    ensures e.fromPc.Some? ==> e.fromPc.value == code[i].pc
    ensures how == if e in g.regular then Fall else if e in g.taken then Jump else Raise
    ensures how.Fall? ==> Node(code, i) != Node(code, j)
  {
    hide Numbered, WellFormed, Taken;
    if e in g.regular {
      var k :| 0 < k < |code| && Falls(code, k) && e == Arrow(code, k - 1, k);
      how, i, j := Fall, k - 1, k;
    } else if e in g.taken {
      TakenExact(code, |code|, e);
      how := Jump;
      i, j :| 0 <= i < |code| && 0 <= j < |code| && code[j].pc in Jumps(code[i]) && e == Arrow(code, i, j);
    } else {
      how := Raise;
      GraphThrows(code, g);
      i, j :| IsThrow(code, e, i, j);
    }
  }

  /** A run visits instructions, starting with the first. */
  ghost predicate Run(code: seq<Insn>, run: seq<nat>, hows: seq<Step>) {
    && |run| == |hows| + 1 && run[0] == 0 && |code| > 0
    && forall k {:trigger hows[k]} :: 0 <= k < |hows| ==> Steps(code, hows[k], run[k], run[k + 1])
  }

  ghost predicate Linked(g: Graph, m: nat, n: nat) {
    exists e :: e in g.regular + g.taken + g.exception && e.from == m && e.to == n
  }

  ghost predicate Path(g: Graph, path: seq<nat>) {
    && |path| > 0 && path[0] == 0
    && forall k :: 0 <= k < |path| - 1 ==> Linked(g, path[k], path[k + 1])
  }

  /** The graph simulates every run: the blocks a run goes through form a path from the entry block. */
  lemma {:induction false} RunIsPath(code: seq<Insn>, g: Graph, run: seq<nat>, hows: seq<Step>) returns (path: seq<nat>)
    requires WellFormed(code) && GraphRight(code, g) && Run(code, run, hows)
    ensures forall k :: 0 <= k < |hows| ==>
              Steps(code, hows[k], run[k], run[k + 1]) && Shown(code, g, hows[k], run[k], run[k + 1])
    ensures Path(g, path) && run[|hows|] < |code| && path[|path| - 1] == Node(code, run[|hows|])
    decreases |hows|
  {
    hide WellFormed, GraphRight, Jumps, Node, Linked, Shown;
    assert Node(code, 0) == 0 by { NodeNext(code, 0); }
    var n := |hows|;
    forall k | 0 <= k < n
      ensures Steps(code, hows[k], run[k], run[k + 1]) && Shown(code, g, hows[k], run[k], run[k + 1])
    {
      StepShown(code, g, hows[k], run[k], run[k + 1]);
    }
    if n == 0 {
      path := [0];
    } else {
      var before := RunIsPath(code, g, run[..n], hows[..n - 1]);
      var i, j := run[n - 1], run[n];
      assert run[..n][n - 1] == i;
      StepShown(code, g, hows[n - 1], i, j);
      path := if Node(code, i) == Node(code, j) then before else before + [Node(code, j)];
      ShownLinked(code, g, hows[n - 1], i, j);
    }
  }

  lemma ShownLinked(code: seq<Insn>, g: Graph, how: Step, i: nat, j: nat)
    requires Steps(code, how, i, j) && Shown(code, g, how, i, j)
    ensures j < |code| && (Node(code, i) == Node(code, j) || Linked(g, Node(code, i), Node(code, j)))
  {
    hide Node;
    if Arrow(code, i, j) in g.regular + g.taken + g.exception {
    } else if how.Raise? {
      assert Edge(Node(code, i), None, Node(code, j), code[j].pc) in g.regular + g.taken + g.exception;
    }
  }
}
