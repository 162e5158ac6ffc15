// Liveness: its meaning on walks through the graph, and the backward fixpoint that computes it.
module Liveness {
  import opened Ir
  import opened Cfg

  // ---------- inside one block ----------

  // An ordinary use at an instruction index, or a terminator use at the index past the last one.
  // A phi uses its inputs on the incoming edges, not here.
  predicate UsedAt(block: Block, j: int, v: VReg) {
    if 0 <= j < |block.insts| then !block.insts[j].PhiI64? && v in Uses(block.insts[j])
    else j == |block.insts| && v in TermUses(block.term)
  }

  predicate DefinedIn(block: Block, from: int, to: int, v: VReg) {
    exists i :: 0 <= i < |block.insts| && from <= i < to && block.insts[i].dst == v
  }

  predicate Defines(block: Block, v: VReg) {
    DefinedIn(block, 0, |block.insts|, v)
  }

  // From index k a use of v comes before any definition of v.
  predicate Exposed(block: Block, k: int, v: VReg) {
    exists j :: k <= j <= |block.insts| && UsedAt(block, j, v) && !DefinedIn(block, k, j, v)
  }

  predicate PhiDef(block: Block, v: VReg) {
    exists i :: 0 <= i < |block.insts| && block.insts[i].PhiI64? && block.insts[i].dst == v
  }

  predicate PhiUse(block: Block, pred: BlockId, v: VReg) {
    exists i :: 0 <= i < |block.insts| && block.insts[i].PhiI64? && (pred, v) in block.insts[i].incoming
  }

  // ---------- along walks ----------

  // The walk p starts at a block's top and ends at a use of v, ordinary or by a phi on the walk's
  // last edge, and no definition of v lies between.
  ghost predicate LiveAlong(f: Function, v: VReg, p: seq<BlockId>) {
    && |p| > 0
    && HasBlock(f, p[0])
    && if |p| == 1 then Exposed(BlockAt(f, p[0]), 0, v)
       else
         && !Defines(BlockAt(f, p[0]), v)
         && p[1] in Successors(BlockAt(f, p[0]).term)
         && HasBlock(f, p[1])
         && ((|p| == 2 && PhiUse(BlockAt(f, p[1]), p[0], v)) ||
             (!PhiDef(BlockAt(f, p[1]), v) && LiveAlong(f, v, p[1..])))
  }

  ghost predicate LiveIn(f: Function, b: BlockId, v: VReg) {
    exists p :: LiveAlong(f, v, p) && p[0] == b
  }

  ghost predicate LiveOnEdge(f: Function, b: BlockId, s: BlockId, v: VReg) {
    HasBlock(f, s) && (PhiUse(BlockAt(f, s), b, v) || (!PhiDef(BlockAt(f, s), v) && LiveIn(f, s, v)))
  }

  ghost predicate LiveOut(f: Function, b: BlockId, v: VReg) {
    HasBlock(f, b) && exists s :: s in Successors(BlockAt(f, b).term) && LiveOnEdge(f, b, s, v)
  }

  // Live just before the instruction (or terminator) at index k of block b.
  ghost predicate LiveBefore(f: Function, b: BlockId, k: int, v: VReg) {
    HasBlock(f, b) &&
    var block := BlockAt(f, b);
    Exposed(block, k, v) || (LiveOut(f, b, v) && !DefinedIn(block, k, |block.insts|, v))
  }

  lemma LiveInUnfolds(f: Function, b: BlockId, v: VReg)
    requires HasBlock(f, b)
    ensures LiveIn(f, b, v) <==> LiveBefore(f, b, 0, v)
  {
    var block := BlockAt(f, b);
    if LiveIn(f, b, v) {
      var p :| LiveAlong(f, v, p) && p[0] == b;
      if |p| > 1 {
        if !PhiUse(BlockAt(f, p[1]), p[0], v) {
          assert p[1..][0] == p[1];
          assert LiveIn(f, p[1], v);
        }
        assert LiveOnEdge(f, b, p[1], v);
      }
    }
    if LiveBefore(f, b, 0, v) {
      if Exposed(block, 0, v) {
        assert LiveAlong(f, v, [b]);
      } else {
        var s :| s in Successors(block.term) && LiveOnEdge(f, b, s, v);
        if PhiUse(BlockAt(f, s), b, v) {
          assert LiveAlong(f, v, [b, s]);
        } else {
          var p :| LiveAlong(f, v, p) && p[0] == s;
          assert ([b] + p)[1..] == p;
          assert LiveAlong(f, v, [b] + p);
        }
      }
    }
  }

  // The same inside a block, given whether v is live at its end.
  ghost predicate LiveFrom(block: Block, out: bool, k: int, v: VReg) {
    Exposed(block, k, v) || (out && !DefinedIn(block, k, |block.insts|, v))
  }

  // One instruction backwards: what it uses, and what is live after it and not defined by it.
  lemma LiveFromUnfolds(block: Block, out: bool, k: nat, v: VReg)
    requires k < |block.insts|
    ensures LiveFrom(block, out, k, v) <==>
      UsedAt(block, k, v) || (LiveFrom(block, out, k + 1, v) && v != block.insts[k].dst)
  {
    if UsedAt(block, k, v) {
      assert !DefinedIn(block, k, k, v);
    }
    if Exposed(block, k, v) && !UsedAt(block, k, v) {
      var j :| k <= j <= |block.insts| && UsedAt(block, j, v) && !DefinedIn(block, k, j, v);
      assert !DefinedIn(block, k + 1, j, v);
      assert v != block.insts[k].dst;
    }
    if LiveFrom(block, out, k + 1, v) && v != block.insts[k].dst {
      if Exposed(block, k + 1, v) {
        var j :| k + 1 <= j <= |block.insts| && UsedAt(block, j, v) && !DefinedIn(block, k + 1, j, v);
        assert !DefinedIn(block, k, j, v);
      } else {
        assert !DefinedIn(block, k, |block.insts|, v);
      }
    }
    if out && !DefinedIn(block, k, |block.insts|, v) {
      assert v != block.insts[k].dst && !DefinedIn(block, k + 1, |block.insts|, v);
    }
  }

  lemma LiveBeforeUnfolds(f: Function, b: BlockId, k: nat, v: VReg)
    requires HasBlock(f, b) && k < |BlockAt(f, b).insts|
    ensures LiveBefore(f, b, k, v) <==>
      UsedAt(BlockAt(f, b), k, v) || (LiveBefore(f, b, k + 1, v) && v != BlockAt(f, b).insts[k].dst)
  {
    LiveFromUnfolds(BlockAt(f, b), LiveOut(f, b, v), k, v);
  }

  // At a block's end: the terminator's uses, and what is live out.
  lemma LiveFromEnd(block: Block, out: bool, v: VReg)
    ensures LiveFrom(block, out, |block.insts|, v) <==> v in TermUses(block.term) || out
  {
    if v in TermUses(block.term) {
      assert UsedAt(block, |block.insts|, v) && !DefinedIn(block, |block.insts|, |block.insts|, v);
    }
  }

  lemma LiveAtEnd(f: Function, b: BlockId, v: VReg)
    requires HasBlock(f, b)
    ensures LiveBefore(f, b, |BlockAt(f, b).insts|, v) <==> v in TermUses(BlockAt(f, b).term) || LiveOut(f, b, v)
  {
    LiveFromEnd(BlockAt(f, b), LiveOut(f, b, v), v);
  }

  // ---------- the computed sets ----------

  datatype BlockLiveness = BlockLiveness(liveIn: set<VReg>, liveOut: set<VReg>, useSet: set<VReg>, defSet: set<VReg>)
  type LivenessMap = map<BlockId, BlockLiveness>

  type PhiDefinitions = map<BlockId, set<VReg>>
  // Only edges that some phi reads are present.
  type PhiEdgeUses = m: map<(BlockId, BlockId), set<VReg>> | forall e :: e in m ==> m[e] != {}
    witness map[]

  datatype Liveness = Liveness(perBlock: LivenessMap, phiDefs: PhiDefinitions, phiUses: PhiEdgeUses)

  datatype LivenessError = MissingSuccessor(target: BlockId)

  predicate HasPhiDef(phiDefs: PhiDefinitions, b: BlockId, v: VReg) {
    b in phiDefs && v in phiDefs[b]
  }

  predicate HasPhiUse(phiUses: PhiEdgeUses, a: BlockId, b: BlockId, v: VReg) {
    (a, b) in phiUses && v in phiUses[(a, b)]
  }

  ghost predicate ArePhiData(f: Function, phiDefs: PhiDefinitions, phiUses: PhiEdgeUses) {
    && (forall b, v :: HasPhiDef(phiDefs, b, v) <==> HasBlock(f, b) && PhiDef(BlockAt(f, b), v))
    && (forall a, b, v :: HasPhiUse(phiUses, a, b, v) <==> HasBlock(f, b) && PhiUse(BlockAt(f, b), a, v))
  }

  ghost predicate AreBlockSets(f: Function, lv: LivenessMap) {
    && lv.Keys == Ids(f)
    && (forall b, v :: b in lv ==> (v in lv[b].useSet <==> Exposed(BlockAt(f, b), 0, v)))
    && (forall b, v :: b in lv ==> (v in lv[b].defSet <==> Defines(BlockAt(f, b), v)))
  }

  // The result the algorithm promises: exactly the path-based sets.
  ghost predicate IsLiveness(f: Function, l: Liveness) {
    && ArePhiData(f, l.phiDefs, l.phiUses)
    && AreBlockSets(f, l.perBlock)
    && (forall b, v :: b in l.perBlock ==> (v in l.perBlock[b].liveIn <==> LiveIn(f, b, v)))
    && (forall b, v :: b in l.perBlock ==> (v in l.perBlock[b].liveOut <==> LiveOut(f, b, v)))
  }

  // ---------- upward-exposed uses and definitions of a block ----------

  method BlockSets(block: Block) returns (useSet: set<VReg>, defSet: set<VReg>)
    ensures forall v :: v in useSet <==> Exposed(block, 0, v)
    ensures forall v :: v in defSet <==> Defines(block, v)
  {
    useSet, defSet := {}, {};
    for j := 0 to |block.insts|
      invariant forall v :: v in defSet <==> DefinedIn(block, 0, j, v)
      invariant forall v :: v in useSet <==> exists i :: 0 <= i < j && UsedAt(block, i, v) && !DefinedIn(block, 0, i, v)
    {
      var inst := block.insts[j];
      if !inst.PhiI64? {
        useSet := useSet + set used | used in Uses(inst) && used !in defSet;
      }
      defSet := defSet + {inst.dst};
    }
    useSet := useSet + set used | used in TermUses(block.term) && used !in defSet;
  }

  // ---------- phi data ----------

  // What the phis of the first n blocks define and read; blocks of one id count together.
  ghost predicate PhiDataUpTo(f: Function, n: nat, phiDefs: PhiDefinitions, phiUses: PhiEdgeUses) {
    && n <= |f.blocks|
    && (forall b, v :: HasPhiDef(phiDefs, b, v) <==>
         exists i :: 0 <= i < n && f.blocks[i].id == b && PhiDef(f.blocks[i], v))
    && (forall a, b, v :: HasPhiUse(phiUses, a, b, v) <==>
         exists i :: 0 <= i < n && f.blocks[i].id == b && PhiUse(f.blocks[i], a, v))
  }

  function AddDef(phiDefs: PhiDefinitions, b: BlockId, v: VReg): (after: PhiDefinitions)
    ensures forall c: BlockId, w: VReg :: HasPhiDef(after, c, w) <==> HasPhiDef(phiDefs, c, w) || (c == b && w == v)
  {
    phiDefs[b := (if b in phiDefs then phiDefs[b] else {}) + {v}]
  }

  function AddUse(phiUses: PhiEdgeUses, a: BlockId, b: BlockId, v: VReg): (after: PhiEdgeUses)
    ensures forall c: BlockId, d: BlockId, w: VReg :: HasPhiUse(after, c, d, w) <==>
      HasPhiUse(phiUses, c, d, w) || (c == a && d == b && w == v)
  {
    phiUses[(a, b) := (if (a, b) in phiUses then phiUses[(a, b)] else {}) + {v}]
  }

  method AddIncoming(b: BlockId, incoming: seq<(BlockId, VReg)>, before: PhiEdgeUses) returns (phiUses: PhiEdgeUses)
    ensures forall a: BlockId, c: BlockId, v: VReg :: HasPhiUse(phiUses, a, c, v) <==>
      HasPhiUse(before, a, c, v) || (c == b && (a, v) in incoming)
  {
    phiUses := before;
    for k := 0 to |incoming|
      invariant forall a: BlockId, c: BlockId, v: VReg :: HasPhiUse(phiUses, a, c, v) <==>
        HasPhiUse(before, a, c, v) || (c == b && exists i :: 0 <= i < k && incoming[i] == (a, v))
    {
      phiUses := AddUse(phiUses, incoming[k].0, b, incoming[k].1);
    }
  }

  predicate PhiDefWithin(block: Block, n: nat, v: VReg) {
    exists i :: 0 <= i < n && i < |block.insts| && block.insts[i].PhiI64? && block.insts[i].dst == v
  }

  predicate PhiUseWithin(block: Block, n: nat, pred: BlockId, v: VReg) {
    exists i :: 0 <= i < n && i < |block.insts| && block.insts[i].PhiI64? && (pred, v) in block.insts[i].incoming
  }

  lemma PhiWithinGrows(block: Block, k: nat)
    requires k < |block.insts|
    ensures forall v :: PhiDefWithin(block, k + 1, v) <==>
      PhiDefWithin(block, k, v) || (block.insts[k].PhiI64? && block.insts[k].dst == v)
    ensures forall a: BlockId, v: VReg :: PhiUseWithin(block, k + 1, a, v) <==>
      PhiUseWithin(block, k, a, v) || (block.insts[k].PhiI64? && (a, v) in block.insts[k].incoming)
  {
    var inst := block.insts[k];
    forall v
      ensures PhiDefWithin(block, k + 1, v) <==> PhiDefWithin(block, k, v) || (inst.PhiI64? && inst.dst == v)
    {
    }
  }

  method AddBlockPhis(block: Block, defsBefore: PhiDefinitions, usesBefore: PhiEdgeUses)
    returns (phiDefs: PhiDefinitions, phiUses: PhiEdgeUses)
    ensures forall b, v :: HasPhiDef(phiDefs, b, v) <==>
      HasPhiDef(defsBefore, b, v) || (b == block.id && PhiDef(block, v))
    ensures forall a, b, v :: HasPhiUse(phiUses, a, b, v) <==>
      HasPhiUse(usesBefore, a, b, v) || (b == block.id && PhiUse(block, a, v))
  {
    phiDefs, phiUses := defsBefore, usesBefore;
    for k := 0 to |block.insts|
      invariant forall b, v :: HasPhiDef(phiDefs, b, v) <==>
        HasPhiDef(defsBefore, b, v) || (b == block.id && PhiDefWithin(block, k, v))
      invariant forall a, b, v :: HasPhiUse(phiUses, a, b, v) <==>
        HasPhiUse(usesBefore, a, b, v) || (b == block.id && PhiUseWithin(block, k, a, v))
    {
      var inst := block.insts[k];
      if inst.PhiI64? {
        phiDefs := AddDef(phiDefs, block.id, inst.dst);
        phiUses := AddIncoming(block.id, inst.incoming, phiUses);
      }
      PhiWithinGrows(block, k);
    }
    assert forall v :: PhiDefWithin(block, |block.insts|, v) <==> PhiDef(block, v);
    assert forall a, v :: PhiUseWithin(block, |block.insts|, a, v) <==> PhiUse(block, a, v);
  }

  method CollectPhiData(f: Function) returns (phiDefs: PhiDefinitions, phiUses: PhiEdgeUses)
    ensures PhiDataUpTo(f, |f.blocks|, phiDefs, phiUses)
  {
    phiDefs, phiUses := map[], map[];
    for n := 0 to |f.blocks|
      invariant PhiDataUpTo(f, n, phiDefs, phiUses)
    {
      phiDefs, phiUses := AddBlockPhis(f.blocks[n], phiDefs, phiUses);
    }
  }

  // ---------- before the first sweep ----------

  // Among the first n blocks none after the i-th has its id.
  ghost predicate LastOfItsId(f: Function, n: nat, i: int) {
    0 <= i < n <= |f.blocks| && forall j :: i < j < n ==> f.blocks[j].id != f.blocks[i].id
  }

  // Nothing is live yet. Of blocks with one id, the last gives the sets.
  ghost predicate NothingLive(f: Function, n: nat, lv: LivenessMap) {
    && (forall b :: b in lv <==> exists i :: 0 <= i < n && i < |f.blocks| && f.blocks[i].id == b)
    && (forall b :: b in lv ==> lv[b].liveIn == {} && lv[b].liveOut == {})
    && (forall i :: LastOfItsId(f, n, i) ==> SetsOf(f.blocks[i], lv))
  }

  ghost predicate SetsOf(block: Block, lv: LivenessMap) {
    && block.id in lv
    && (forall v :: v in lv[block.id].useSet <==> Exposed(block, 0, v))
    && (forall v :: v in lv[block.id].defSet <==> Defines(block, v))
  }

  ghost predicate Starting(f: Function, l: Liveness) {
    PhiDataUpTo(f, |f.blocks|, l.phiDefs, l.phiUses) && NothingLive(f, |f.blocks|, l.perBlock)
  }

  method InitialSets(f: Function) returns (lv: LivenessMap)
    ensures NothingLive(f, |f.blocks|, lv)
  {
    lv := map[];
    for i := 0 to |f.blocks|
      invariant NothingLive(f, i, lv)
    {
      var useSet, defSet := BlockSets(f.blocks[i]);
      ghost var before := lv;
      lv := lv[f.blocks[i].id := BlockLiveness({}, {}, useSet, defSet)];
      forall j | LastOfItsId(f, i + 1, j)
        ensures SetsOf(f.blocks[j], lv)
      {
        if j < i {
          assert LastOfItsId(f, i, j);
          assert SetsOf(f.blocks[j], before);
        }
      }
    }
  }
}
