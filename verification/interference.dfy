// The interference graph, built by scanning each block backwards.
module Interference {
  import opened Wrappers
  import opened Ir
  import opened Cfg
  import opened Liveness
  import opened SweepWalks
  import LivenessFixpoint
  import opened Intervals
  import opened Alloc
  import Coverage

  // At some instruction one value is defined while the other is live after it.
  ghost predicate DefMeetsLive(f: Function, d: VReg, v: VReg) {
    exists b, k: nat :: DefMeetsLiveAt(f, b, k, d, v)
  }

  ghost predicate DefMeetsLiveAt(f: Function, b: BlockId, k: nat, d: VReg, v: VReg) {
    && HasBlock(f, b) && k < |BlockAt(f, b).insts|
    && BlockAt(f, b).insts[k].dst == d && v != d && LiveBefore(f, b, k + 1, v)
  }

  ghost predicate Interferes(f: Function, x: VReg, y: VReg) {
    DefMeetsLive(f, x, y) || DefMeetsLive(f, y, x)
  }

  // ---------- what the graph means ----------

  lemma EdgeOverlaps(f: Function, ivs: seq<LiveInterval>, x: VReg, y: VReg) returns (i: nat, j: nat)
    requires AreIntervals(f, ivs) && Interferes(f, x, y)
    ensures i < |ivs| && j < |ivs| && i != j && ivs[i].v == x && ivs[j].v == y && ivs[i].Overlaps(ivs[j])
  {
    if DefMeetsLive(f, x, y) {
      var pos := SharedPosition(f, ivs, x, y);
      i, j := Coverage.CommonPointOverlaps(ivs, x, y, pos);
    } else {
      var pos := SharedPosition(f, ivs, y, x);
      i, j := Coverage.CommonPointOverlaps(ivs, x, y, pos);
    }
  }

  lemma SharedPosition(f: Function, ivs: seq<LiveInterval>, d: VReg, v: VReg) returns (pos: nat)
    requires AreIntervals(f, ivs) && DefMeetsLive(f, d, v)
    ensures d != v && CoversPoint(ivs, d, pos) && CoversPoint(ivs, v, pos)
  {
    var b, k: nat :| DefMeetsLiveAt(f, b, k, d, v);
    pos := PosOf(f, b, k);
    Coverage.TouchIsCovered(f, ivs, b, k, d);
    Coverage.LiveIsCovered(f, ivs, b, k + 1, v);
  }

  // A verified assignment colours the graph properly, registers and stack slots alike.
  lemma VerifiedIsColouring(
      f: Function, ivs: seq<LiveInterval>, regs: PhysRegSet, maxRegs: nat, a: Assignment, x: VReg, y: VReg)
    requires AreIntervals(f, ivs) && ValidAssignment(ivs, regs, maxRegs, a) && Interferes(f, x, y)
    ensures x in a.locs && y in a.locs && a.locs[x] != a.locs[y]
  {
    if DefMeetsLive(f, x, y) {
      var pos := SharedPosition(f, ivs, x, y);
      Coverage.CommonPointSeparates(ivs, regs, maxRegs, a, x, y, pos);
    } else {
      var pos := SharedPosition(f, ivs, y, x);
      Coverage.CommonPointSeparates(ivs, regs, maxRegs, a, x, y, pos);
    }
  }

  // ---------- the graph ----------

  predicate Adjacent(edges: map<VReg, set<VReg>>, x: VReg, y: VReg) {
    x in edges && y in edges[x]
  }

  class InterferenceGraph {
    var nodes: set<VReg>
    var edges: map<VReg, set<VReg>>

    constructor ()
      ensures nodes == {} && edges == map[]
    {
      nodes, edges := {}, map[];
    }

    predicate HasEdge(left: VReg, right: VReg)
      reads this
    {
      Adjacent(edges, left, right)
    }

    ghost predicate Valid()
      reads this
    {
      && edges.Keys == nodes
      && (forall x, y :: Adjacent(edges, x, y) ==> x != y && Adjacent(edges, y, x))
    }

    method AddNode(value: VReg)
      requires Valid()
      modifies this
      ensures Valid() && nodes == old(nodes) + {value}
      ensures forall x, y :: Adjacent(edges, x, y) <==> Adjacent(old(edges), x, y)
    {
      nodes := nodes + {value};
      if value !in edges {
        edges := edges[value := {}];
      }
      assert forall x, y :: Adjacent(edges, x, y) <==> Adjacent(old(edges), x, y);
    }

    method AddEdge(left: VReg, right: VReg)
      requires Valid()
      modifies this
      ensures Valid() && nodes == old(nodes) + (if left == right then {} else {left, right})
      ensures forall x, y :: Adjacent(edges, x, y) <==>
        Adjacent(old(edges), x, y) || (left != right && ((x == left && y == right) || (x == right && y == left)))
    {
      if left == right {
        return;
      }
      AddNode(left);
      AddNode(right);
      edges := edges[left := edges[left] + {right}];
      edges := edges[right := edges[right] + {left}];
      assert forall x, y :: Adjacent(edges, x, y) <==>
        Adjacent(old(edges), x, y) || (x == left && y == right) || (x == right && y == left);
    }

    // Connects a defined value to everything live after its definition.
    method Connect(defined: VReg, live: set<VReg>)
      requires Valid()
      modifies this
      ensures Valid() && nodes == old(nodes) + {defined} + live
      ensures forall x, y :: Adjacent(edges, x, y) <==> Adjacent(old(edges), x, y) || NewEdge(defined, live, x, y)
    {
      AddNode(defined);
      var rest := live;
      while rest != {}
        invariant rest <= live && Valid() && nodes == old(nodes) + {defined} + (live - rest)
        invariant forall x, y :: Adjacent(edges, x, y) <==>
          Adjacent(old(edges), x, y) || NewEdge(defined, live - rest, x, y)
        decreases rest
      {
        var value :| value in rest;
        AddEdge(defined, value);
        rest := rest - {value};
      }
      assert live - rest == live;
    }

    method AddNodes(values: set<VReg>)
      requires Valid()
      modifies this
      ensures Valid() && nodes == old(nodes) + values
      ensures forall x, y :: Adjacent(edges, x, y) <==> Adjacent(old(edges), x, y)
    {
      var rest := values;
      while rest != {}
        invariant rest <= values && Valid() && nodes == old(nodes) + (values - rest)
        invariant forall x, y :: Adjacent(edges, x, y) <==> Adjacent(old(edges), x, y)
        decreases rest
      {
        var value :| value in rest;
        AddNode(value);
        rest := rest - {value};
      }
    }
  }

  predicate NewEdge(defined: VReg, live: set<VReg>, x: VReg, y: VReg) {
    x != y && ((x == defined && y in live) || (y == defined && x in live))
  }

  // ---------- the scan of one block, given what is live at its end ----------

  ghost predicate MeetsAt(block: Block, liveOut: set<VReg>, k: nat, d: VReg, v: VReg) {
    k < |block.insts| && block.insts[k].dst == d && v != d && LiveFrom(block, v in liveOut, k + 1, v)
  }

  // The edges the backward scan adds from index k on.
  ghost predicate EdgeFrom(block: Block, liveOut: set<VReg>, k: nat, x: VReg, y: VReg) {
    exists l: nat :: k <= l && (MeetsAt(block, liveOut, l, x, y) || MeetsAt(block, liveOut, l, y, x))
  }

  predicate DefinesOrUses(block: Block, l: nat, v: VReg) {
    l < |block.insts| && (block.insts[l].dst == v || UsedAt(block, l, v))
  }

  // The values it makes nodes of.
  ghost predicate NodeFrom(block: Block, liveOut: set<VReg>, k: nat, v: VReg) {
    v in liveOut || v in TermUses(block.term) || exists l: nat :: k <= l && DefinesOrUses(block, l, v)
  }

  ghost predicate AreLive(block: Block, liveOut: set<VReg>, k: nat, live: set<VReg>) {
    forall v :: v in live <==> LiveFrom(block, v in liveOut, k, v)
  }

  lemma EdgeFromUnfolds(block: Block, liveOut: set<VReg>, k: nat, live: set<VReg>)
    requires k < |block.insts| && AreLive(block, liveOut, k + 1, live)
    ensures forall x, y :: EdgeFrom(block, liveOut, k, x, y) <==>
      EdgeFrom(block, liveOut, k + 1, x, y) || NewEdge(block.insts[k].dst, live, x, y)
  {
    forall x, y
      ensures EdgeFrom(block, liveOut, k, x, y) <==>
        EdgeFrom(block, liveOut, k + 1, x, y) || NewEdge(block.insts[k].dst, live, x, y)
    {
      if NewEdge(block.insts[k].dst, live, x, y) {
        assert MeetsAt(block, liveOut, k, x, y) || MeetsAt(block, liveOut, k, y, x);
      }
      if l: nat :| k <= l && (MeetsAt(block, liveOut, l, x, y) || MeetsAt(block, liveOut, l, y, x)) {
        assert l == k || k + 1 <= l;
      }
    }
  }

  lemma NodesFromUnfold(block: Block, liveOut: set<VReg>, k: nat)
    requires k < |block.insts|
    ensures forall v :: NodeFrom(block, liveOut, k, v) <==>
      NodeFrom(block, liveOut, k + 1, v) || DefinesOrUses(block, k, v)
  {
    forall v
      ensures NodeFrom(block, liveOut, k, v) <==>
        NodeFrom(block, liveOut, k + 1, v) || DefinesOrUses(block, k, v)
    {
      if l: nat :| k <= l && DefinesOrUses(block, l, v) {
        assert l == k || k + 1 <= l;
      }
    }
  }

  // One instruction of the backward scan.
  method ScanInst(block: Block, ghost liveOut: set<VReg>, k: nat, live: set<VReg>, graph: InterferenceGraph)
    returns (before: set<VReg>)
    requires k < |block.insts| && graph.Valid() && live <= graph.nodes && AreLive(block, liveOut, k + 1, live)
    modifies graph
    ensures graph.Valid() && before <= graph.nodes && AreLive(block, liveOut, k, before)
    ensures forall v :: v in graph.nodes <==> v in old(graph.nodes) || DefinesOrUses(block, k, v)
    ensures forall x, y :: Adjacent(graph.edges, x, y) <==>
      Adjacent(old(graph.edges), x, y) || NewEdge(block.insts[k].dst, live, x, y)
  {
    var inst := block.insts[k];
    graph.Connect(inst.dst, live);
    forall v
      ensures LiveFrom(block, v in liveOut, k, v) <==> UsedAt(block, k, v) || (v in live && v != inst.dst)
    {
      LiveFromUnfolds(block, v in liveOut, k, v);
    }
    before := live - {inst.dst};
    if !inst.PhiI64? {
      var used := set v | v in Uses(inst);
      graph.AddNodes(used);
      before := before + used;
    }
  }

  method ScanBlock(block: Block, liveOut: set<VReg>, graph: InterferenceGraph)
    requires graph.Valid()
    modifies graph
    ensures graph.Valid()
    ensures forall v :: v in graph.nodes <==> v in old(graph.nodes) || NodeFrom(block, liveOut, 0, v)
    ensures forall x, y :: Adjacent(graph.edges, x, y) <==>
      Adjacent(old(graph.edges), x, y) || EdgeFrom(block, liveOut, 0, x, y)
  {
    var live := liveOut + set v | v in TermUses(block.term);
    forall v
      ensures v in live <==> LiveFrom(block, v in liveOut, |block.insts|, v)
      ensures v in live <==> NodeFrom(block, liveOut, |block.insts|, v)
    {
      LiveFromEnd(block, v in liveOut, v);
    }
    graph.AddNodes(live);
    for k := |block.insts| downto 0
      invariant graph.Valid() && live <= graph.nodes && AreLive(block, liveOut, k, live)
      invariant forall v :: v in graph.nodes <==> v in old(graph.nodes) || NodeFrom(block, liveOut, k, v)
      invariant forall x, y :: Adjacent(graph.edges, x, y) <==>
        Adjacent(old(graph.edges), x, y) || EdgeFrom(block, liveOut, k, x, y)
    {
      EdgeFromUnfolds(block, liveOut, k, live);
      NodesFromUnfold(block, liveOut, k);
      live := ScanInst(block, liveOut, k, live, graph);
    }
  }

  // ---------- all blocks ----------

  // What the i-th listed block contributes, by the walks the sweeps follow.
  ghost predicate CollideAt(f: Function, i: int, k: nat, d: VReg, v: VReg) {
    && 0 <= i < |f.blocks| && k < |f.blocks[i].insts| && f.blocks[i].insts[k].dst == d && v != d
    && LiveFrom(f.blocks[i], Leaves(f, i, v), k + 1, v)
  }

  // One value is defined in some listed block where the other is live after.
  ghost predicate Collide(f: Function, x: VReg, y: VReg) {
    exists i, k :: CollideAt(f, i, k, x, y) || CollideAt(f, i, k, y, x)
  }

  ghost predicate AppearsAt(f: Function, i: int, v: VReg) {
    0 <= i < |f.blocks| &&
    (Leaves(f, i, v) || v in TermUses(f.blocks[i].term) || exists l: nat :: DefinesOrUses(f.blocks[i], l, v))
  }

  ghost predicate Appears(f: Function, v: VReg) {
    exists i :: AppearsAt(f, i, v)
  }

  lemma BlockCollides(f: Function, i: nat, liveOut: set<VReg>, x: VReg, y: VReg)
    requires i < |f.blocks| && forall v :: v in liveOut <==> Leaves(f, i, v)
    ensures EdgeFrom(f.blocks[i], liveOut, 0, x, y) <==>
      exists k :: CollideAt(f, i, k, x, y) || CollideAt(f, i, k, y, x)
  {
    if l: nat :| MeetsAt(f.blocks[i], liveOut, l, x, y) || MeetsAt(f.blocks[i], liveOut, l, y, x) {
      assert CollideAt(f, i, l, x, y) || CollideAt(f, i, l, y, x);
    }
    if k :| CollideAt(f, i, k, x, y) || CollideAt(f, i, k, y, x) {
      assert MeetsAt(f.blocks[i], liveOut, k, x, y) || MeetsAt(f.blocks[i], liveOut, k, y, x);
    }
  }

  ghost predicate CollideWithin(f: Function, n: nat, x: VReg, y: VReg) {
    exists i, k :: i < n && (CollideAt(f, i, k, x, y) || CollideAt(f, i, k, y, x))
  }

  ghost predicate AppearsWithin(f: Function, n: nat, v: VReg) {
    exists i :: i < n && AppearsAt(f, i, v)
  }

  lemma WithinGrows(f: Function, i: nat, liveOut: set<VReg>)
    requires i < |f.blocks| && forall v :: v in liveOut <==> Leaves(f, i, v)
    ensures forall v :: AppearsWithin(f, i + 1, v) <==>
      AppearsWithin(f, i, v) || NodeFrom(f.blocks[i], liveOut, 0, v)
    ensures forall x, y :: CollideWithin(f, i + 1, x, y) <==>
      CollideWithin(f, i, x, y) || EdgeFrom(f.blocks[i], liveOut, 0, x, y)
  {
    forall x, y
      ensures CollideWithin(f, i + 1, x, y) <==>
        CollideWithin(f, i, x, y) || EdgeFrom(f.blocks[i], liveOut, 0, x, y)
    {
      BlockCollides(f, i, liveOut, x, y);
      if j, k :| j < i + 1 && (CollideAt(f, j, k, x, y) || CollideAt(f, j, k, y, x)) {
        assert j == i || j < i;
      }
    }
    forall v
      ensures NodeFrom(f.blocks[i], liveOut, 0, v) <==> AppearsAt(f, i, v)
    {
    }
  }

  // Scans every block, given its live-out set.
  method ScanBlocks(f: Function, l: Liveness, graph: InterferenceGraph)
    requires HoldsWalks(f, l) && graph.Valid() && graph.nodes == {} && graph.edges == map[]
    modifies graph
    ensures graph.Valid()
    ensures forall v :: v in graph.nodes <==> AppearsWithin(f, |f.blocks|, v)
    ensures forall x, y :: Adjacent(graph.edges, x, y) <==> CollideWithin(f, |f.blocks|, x, y)
  {
    for i := 0 to |f.blocks|
      invariant graph.Valid()
      invariant forall v :: v in graph.nodes <==> AppearsWithin(f, i, v)
      invariant forall x, y :: Adjacent(graph.edges, x, y) <==> CollideWithin(f, i, x, y)
    {
      assert HoldsAt(f, l, i);
      var liveOut := l.perBlock[f.blocks[i].id].liveOut;
      WithinGrows(f, i, liveOut);
      ScanBlock(f.blocks[i], liveOut, graph);
    }
  }

  method BuildInterferenceGraph(f: Function) returns (r: Result<InterferenceGraph, LivenessError>)
    requires KnownSuccessors(f) ==> TwinsAlike(f)
    ensures r.Success? <==> KnownSuccessors(f)
    ensures r.Success? ==> fresh(r.value) && r.value.Valid()
    ensures r.Success? ==> forall v :: v in r.value.nodes <==> Appears(f, v)
    ensures r.Success? ==> forall x, y :: r.value.HasEdge(x, y) <==> Collide(f, x, y)
  {
    var liveness := LivenessFixpoint.ComputeLiveness(f);
    if liveness.Failure? {
      return Failure(liveness.error);
    }
    var graph := new InterferenceGraph();
    ScanBlocks(f, liveness.value, graph);
    forall v
      ensures AppearsWithin(f, |f.blocks|, v) <==> Appears(f, v)
    {
    }
    forall x, y
      ensures CollideWithin(f, |f.blocks|, x, y) <==> Collide(f, x, y)
    {
    }
    r := Success(graph);
  }

  // With unique ids these are the collisions of the interference that liveness defines.
  lemma CollisionsInterfere(f: Function, x: VReg, y: VReg)
    requires UniqueIds(f)
    ensures Collide(f, x, y) <==> Interferes(f, x, y)
  {
    forall i, k: nat, d, v
      ensures CollideAt(f, i, k, d, v) ==> DefMeetsLive(f, d, v)
    {
      if CollideAt(f, i, k, d, v) {
        BlockAtIndex(f, i);
        LivenessFixpoint.WalksAreLive(f, i, v);
        assert DefMeetsLiveAt(f, f.blocks[i].id, k, d, v);
      }
    }
    forall d, v | DefMeetsLive(f, d, v)
      ensures exists i, k :: CollideAt(f, i, k, d, v)
    {
      var b, k: nat :| DefMeetsLiveAt(f, b, k, d, v);
      LivenessFixpoint.WalksAreLive(f, IndexOf(f, b), v);
      assert CollideAt(f, IndexOf(f, b), k, d, v);
    }
  }
}
