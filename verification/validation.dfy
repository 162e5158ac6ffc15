// SSA and CFG well-formedness, declared on paths, and the validator that decides it.
module Validation {
  import opened Wrappers
  import opened Ir
  import opened Cfg
  import opened Dominators

  // ---------- the declarative definition ----------

  ghost predicate WellShaped(f: Function) {
    |f.blocks| > 0 && UniqueIds(f) && HasBlock(f, f.entry) && KnownSuccessors(f)
  }

  predicate PhisFirst(block: Block) {
    forall i, j :: 0 <= i < j < |block.insts| && block.insts[j].PhiI64? ==> block.insts[i].PhiI64?
  }

  predicate ArgsInRange(f: Function, block: Block) {
    forall i :: 0 <= i < |block.insts| && block.insts[i].ArgI64? ==> block.insts[i].idx < f.args
  }

  predicate DefSite(f: Function, bi: int, i: int, v: VReg) {
    0 <= bi < |f.blocks| && 0 <= i < |f.blocks[bi].insts| && f.blocks[bi].insts[i].dst == v
  }

  ghost predicate SingleDefinitions(f: Function) {
    forall bi, i, bj, j, v :: DefSite(f, bi, i, v) && DefSite(f, bj, j, v) ==> bi == bj && i == j
  }

  // v is defined earlier in the same block, or in a block on every path to the use.
  ghost predicate UseDominated(f: Function, v: VReg, block: Block, index: nat) {
    exists bi, i :: DefSite(f, bi, i, v) &&
      if f.blocks[bi].id == block.id then i < index else Dominates(f, f.blocks[bi].id, block.id)
  }

  ghost predicate PhiInputDominated(f: Function, v: VReg, pred: BlockId) {
    exists bi, i :: DefSite(f, bi, i, v) && Dominates(f, f.blocks[bi].id, pred)
  }

  predicate IncomingFrom(incoming: seq<(BlockId, VReg)>, n: nat, a: BlockId) {
    exists i :: 0 <= i < n && i < |incoming| && incoming[i].0 == a
  }

  // One input for every predecessor and no other, each available at the end of its predecessor.
  ghost predicate PhiMatchesPredecessors(f: Function, b: BlockId, incoming: seq<(BlockId, VReg)>) {
    && b != f.entry
    && (forall i, j :: 0 <= i < j < |incoming| ==> incoming[i].0 != incoming[j].0)
    && (forall a :: Edge(f, a, b) <==> IncomingFrom(incoming, |incoming|, a))
    && (forall i :: 0 <= i < |incoming| ==> PhiInputDominated(f, incoming[i].1, incoming[i].0))
  }

  ghost predicate InstUsesOk(f: Function, block: Block, index: nat)
    requires index < |block.insts|
  {
    if block.insts[index].PhiI64? then PhiMatchesPredecessors(f, block.id, block.insts[index].incoming)
    else forall v :: v in Uses(block.insts[index]) ==> UseDominated(f, v, block, index)
  }

  ghost predicate UsesOk(f: Function, block: Block) {
    && (forall index :: 0 <= index < |block.insts| ==> InstUsesOk(f, block, index))
    && (forall v :: v in TermUses(block.term) ==> UseDominated(f, v, block, |block.insts|))
  }

  ghost predicate WellFormed(f: Function) {
    && WellShaped(f)
    && AllReachable(f)
    && (forall bi :: 0 <= bi < |f.blocks| ==> PhisFirst(f.blocks[bi]) && ArgsInRange(f, f.blocks[bi]))
    && SingleDefinitions(f)
    && (forall bi :: 0 <= bi < |f.blocks| ==> UsesOk(f, f.blocks[bi]))
  }

  // ---------- the validator ----------

  datatype ValidationError =
    | EmptyFunction
    | DuplicateBlock(block: BlockId)
    | MissingEntry(entry: BlockId)
    | UnknownTarget(block: BlockId, target: BlockId)
    | UnreachableBlocks
    | PhiAfterInstruction(block: BlockId)
    | ArgumentOutOfRange(index: nat)
    | MultipleDefinitions(value: VReg)
    | PhiInEntry(block: BlockId)
    | DuplicatePhiPredecessor(block: BlockId, pred: BlockId)
    | PhiReferencesNonPredecessor(block: BlockId, pred: BlockId)
    | UndefinedPhiInput(value: VReg)
    | PhiInputNotDominated(value: VReg, pred: BlockId)
    | IncompletePhi(block: BlockId)
    | UndefinedValue(value: VReg)
    | UseBeforeDefinition(value: VReg, block: BlockId)
    | UseNotDominated(value: VReg, block: BlockId)

  datatype Definition = Definition(block: BlockId, instIndex: nat)
  type Definitions = map<VReg, Definition>

  method CheckShape(f: Function) returns (r: Option<ValidationError>)
    ensures r.None? <==> WellShaped(f)
  {
    if f.blocks == [] {
      return Some(EmptyFunction);
    }
    var blockIds: set<BlockId> := {};
    for i := 0 to |f.blocks|
      invariant forall b :: b in blockIds <==> exists j :: 0 <= j < i && f.blocks[j].id == b
      invariant forall j, k :: 0 <= j < k < i ==> f.blocks[j].id != f.blocks[k].id
    {
      if f.blocks[i].id in blockIds {
        return Some(DuplicateBlock(f.blocks[i].id));
      }
      blockIds := blockIds + {f.blocks[i].id};
    }
    assert blockIds == Ids(f);
    if f.entry !in blockIds {
      return Some(ValidationError.MissingEntry(f.entry));
    }
    for i := 0 to |f.blocks|
      invariant forall j :: 0 <= j < i ==> SuccessorsKnown(f, f.blocks[j])
    {
      var succs := Successors(f.blocks[i].term);
      for k := 0 to |succs|
        invariant forall l :: 0 <= l < k ==> HasBlock(f, succs[l])
      {
        if succs[k] !in blockIds {
          UnknownSuccessorFound(f, i);
          return Some(UnknownTarget(f.blocks[i].id, succs[k]));
        }
      }
    }
    r := None;
  }

  lemma ReachableStep(f: Function, a: BlockId, b: BlockId)
    requires WellShaped(f) && Reachable(f, a) && HasBlock(f, a) && b in Successors(BlockAt(f, a).term)
    ensures Reachable(f, b) && HasBlock(f, b)
  {
    var p :| PathFromTo(f, p, f.entry, a);
    EdgeOfBlock(f, a, b);
    PathExtend(f, p, f.entry, a, b);
    EdgeHasBlocks(f, a, b);
  }

  lemma {:induction false} ClosedSetIsReached(f: Function, closed: set<BlockId>, p: seq<BlockId>)
    requires WellShaped(f) && f.entry in closed
    requires forall a, b :: a in closed && Edge(f, a, b) ==> b in closed
    requires IsPath(f, p) && p[0] == f.entry
    ensures p[|p| - 1] in closed
    decreases |p|
  {
    if |p| > 1 {
      ClosedSetIsReached(f, closed, p[..|p| - 1]);
      assert Edge(f, p[|p| - 2], p[|p| - 2 + 1]);
    }
  }

  // The worklist may hold a block many times; each pop removes an entry or reaches a new block.
  method ComputeReachable(f: Function) returns (reachable: set<BlockId>)
    requires WellShaped(f)
    ensures forall b :: b in reachable <==> Reachable(f, b)
  {
    reachable := {};
    var queue := [f.entry];
    assert PathFromTo(f, [f.entry], f.entry, f.entry);
    while queue != []
      invariant f.entry in reachable || f.entry in queue
      invariant forall b :: b in queue || b in reachable ==> Reachable(f, b) && HasBlock(f, b)
      invariant forall a, b :: a in reachable && b in Successors(BlockAt(f, a).term) ==> b in reachable || b in queue
      decreases Ids(f) - reachable, |queue|
    {
      var id := queue[0];
      ghost var popped := queue;
      queue := queue[1..];
      assert forall b :: b in popped <==> b == id || b in queue;
      if id in reachable {
        continue;
      }
      forall b | b in Successors(BlockAt(f, id).term)
        ensures Reachable(f, b) && HasBlock(f, b)
      {
        ReachableStep(f, id, b);
      }
      assert id in Ids(f);
      reachable := reachable + {id};
      queue := queue + Successors(BlockAt(f, id).term);
    }
    forall a, b | a in reachable && Edge(f, a, b)
      ensures b in reachable
    {
      EdgeOfBlock(f, a, b);
    }
    forall b | Reachable(f, b)
      ensures b in reachable
    {
      var p :| PathFromTo(f, p, f.entry, b);
      ClosedSetIsReached(f, reachable, p);
    }
  }

  lemma {:induction false} IdsOfPrefix(f: Function, n: nat)
    requires UniqueIds(f) && n <= |f.blocks|
    ensures |set i | 0 <= i < n :: f.blocks[i].id| == n
  {
    if n > 0 {
      IdsOfPrefix(f, n - 1);
      var smaller := set i | 0 <= i < n - 1 :: f.blocks[i].id;
      assert (set i | 0 <= i < n :: f.blocks[i].id) == smaller + {f.blocks[n - 1].id};
      assert f.blocks[n - 1].id !in smaller;
    }
  }

  lemma ReachableCountDecides(f: Function, reachable: set<BlockId>)
    requires WellShaped(f) && forall b :: b in reachable <==> Reachable(f, b)
    ensures |reachable| == |f.blocks| <==> AllReachable(f)
  {
    IdsOfPrefix(f, |f.blocks|);
    forall b | b in reachable
      ensures b in Ids(f)
    {
      var p :| PathFromTo(f, p, f.entry, b);
      PathHasBlocks(f, p, |p| - 1);
    }
    SubsetSizes(reachable, Ids(f));
  }

  // ---------- definitions ----------

  ghost predicate FreshDefs(block: Block, n: nat, before: Definitions)
    requires n <= |block.insts|
  {
    && (forall i :: 0 <= i < n ==> block.insts[i].dst !in before)
    && (forall i, j :: 0 <= i < j < n ==> block.insts[i].dst != block.insts[j].dst)
  }

  predicate DefinesBefore(block: Block, n: nat, v: VReg) {
    exists i :: 0 <= i < n && i < |block.insts| && block.insts[i].dst == v
  }

  // `before` with the definitions of the first n instructions recorded.
  function Recorded(block: Block, n: nat, before: Definitions): Definitions
    requires n <= |block.insts|
    decreases n
  {
    if n == 0 then before
    else Recorded(block, n - 1, before)[block.insts[n - 1].dst := Definition(block.id, n - 1)]
  }

  lemma {:induction false} RecordedDomain(block: Block, n: nat, before: Definitions, v: VReg)
    requires n <= |block.insts|
    ensures v in Recorded(block, n, before) <==> v in before || DefinesBefore(block, n, v)
    decreases n
  {
    if n > 0 {
      RecordedDomain(block, n - 1, before, v);
    }
  }

  lemma {:induction false} RecordedHas(block: Block, n: nat, before: Definitions, i: nat)
    requires i < n <= |block.insts| && FreshDefs(block, n, before)
    ensures block.insts[i].dst in Recorded(block, n, before)
    ensures Recorded(block, n, before)[block.insts[i].dst] == Definition(block.id, i)
    decreases n
  {
    if i < n - 1 {
      RecordedHas(block, n - 1, before, i);
    }
  }

  lemma {:induction false} RecordedKeeps(block: Block, n: nat, before: Definitions, v: VReg)
    requires n <= |block.insts| && FreshDefs(block, n, before) && v in before
    ensures v in Recorded(block, n, before) && Recorded(block, n, before)[v] == before[v]
    decreases n
  {
    if n > 0 {
      RecordedKeeps(block, n - 1, before, v);
    }
  }

  method CheckInstOrder(f: Function, block: Block) returns (r: Option<ValidationError>)
    ensures r.None? <==> PhisFirst(block) && ArgsInRange(f, block)
  {
    var sawNonPhi := false;
    for k := 0 to |block.insts|
      invariant sawNonPhi <==> exists i :: 0 <= i < k && !block.insts[i].PhiI64?
      invariant forall i, j :: 0 <= i < j < k && block.insts[j].PhiI64? ==> block.insts[i].PhiI64?
      invariant forall i :: 0 <= i < k && block.insts[i].ArgI64? ==> block.insts[i].idx < f.args
    {
      var inst := block.insts[k];
      if inst.PhiI64? && sawNonPhi {
        return Some(PhiAfterInstruction(block.id));
      }
      if !inst.PhiI64? {
        sawNonPhi := true;
      }
      if inst.ArgI64? && inst.idx >= f.args {
        return Some(ArgumentOutOfRange(inst.idx));
      }
    }
    r := None;
  }

  method CollectBlock(block: Block, before: Definitions) returns (r: Result<Definitions, ValidationError>)
    ensures r.Success? <==> FreshDefs(block, |block.insts|, before)
    ensures r.Success? ==> r.value == Recorded(block, |block.insts|, before)
  {
    var defs: Definitions := before;
    for k := 0 to |block.insts|
      invariant FreshDefs(block, k, before)
      invariant defs == Recorded(block, k, before)
    {
      RecordedDomain(block, k, before, block.insts[k].dst);
      if block.insts[k].dst in defs {
        return Failure(MultipleDefinitions(block.insts[k].dst));
      }
      defs := defs[block.insts[k].dst := Definition(block.id, k)];
    }
    r := Success(defs);
  }

  ghost predicate AreDefinitions(f: Function, n: nat, defs: Definitions) {
    && n <= |f.blocks|
    && (forall bi, i, v :: bi < n && DefSite(f, bi, i, v) ==> v in defs && defs[v] == Definition(f.blocks[bi].id, i))
    && (forall v :: v in defs ==> exists bi, i :: bi < n && DefSite(f, bi, i, v))
  }

  lemma FreshDefsExtend(f: Function, n: nat, before: Definitions)
    requires UniqueIds(f) && n < |f.blocks| && AreDefinitions(f, n, before)
    requires SingleDefinitions(f)
    ensures FreshDefs(f.blocks[n], |f.blocks[n].insts|, before)
  {
    forall i | 0 <= i < |f.blocks[n].insts|
      ensures f.blocks[n].insts[i].dst !in before
    {
      assert DefSite(f, n, i, f.blocks[n].insts[i].dst);
    }
    forall i, j | 0 <= i < j < |f.blocks[n].insts|
      ensures f.blocks[n].insts[i].dst != f.blocks[n].insts[j].dst
    {
      assert DefSite(f, n, i, f.blocks[n].insts[i].dst);
      assert DefSite(f, n, j, f.blocks[n].insts[j].dst);
    }
  }

  lemma DefinitionsAreSingle(f: Function, defs: Definitions)
    requires UniqueIds(f) && AreDefinitions(f, |f.blocks|, defs)
    ensures SingleDefinitions(f)
  {
  }

  method CollectDefinitions(f: Function) returns (r: Result<Definitions, ValidationError>)
    requires UniqueIds(f)
    ensures r.Success? <==>
      (SingleDefinitions(f) &&
       forall bi :: 0 <= bi < |f.blocks| ==> PhisFirst(f.blocks[bi]) && ArgsInRange(f, f.blocks[bi]))
    ensures r.Success? ==> AreDefinitions(f, |f.blocks|, r.value)
  {
    var defs: Definitions := map[];
    for n := 0 to |f.blocks|
      invariant AreDefinitions(f, n, defs)
      invariant forall bi :: 0 <= bi < n ==> PhisFirst(f.blocks[bi]) && ArgsInRange(f, f.blocks[bi])
    {
      var disorder := CheckInstOrder(f, f.blocks[n]);
      if disorder.Some? {
        return Failure(disorder.value);
      }
      if SingleDefinitions(f) {
        FreshDefsExtend(f, n, defs);
      }
      var grown := CollectBlock(f.blocks[n], defs);
      if grown.Failure? {
        return Failure(grown.error);
      }
      DefinitionsExtend(f, n, defs);
      defs := grown.value;
    }
    DefinitionsAreSingle(f, defs);
    r := Success(defs);
  }

  lemma DefinitionsExtend(f: Function, n: nat, before: Definitions)
    requires n < |f.blocks| && AreDefinitions(f, n, before) && FreshDefs(f.blocks[n], |f.blocks[n].insts|, before)
    ensures AreDefinitions(f, n + 1, Recorded(f.blocks[n], |f.blocks[n].insts|, before))
  {
    var block := f.blocks[n];
    var after := Recorded(block, |block.insts|, before);
    forall bi, i, v | bi < n + 1 && DefSite(f, bi, i, v)
      ensures v in after && after[v] == Definition(f.blocks[bi].id, i)
    {
      if bi < n {
        RecordedKeeps(block, |block.insts|, before, v);
      } else {
        RecordedHas(block, |block.insts|, before, i);
      }
    }
    forall v | v in after
      ensures exists bi, i :: bi < n + 1 && DefSite(f, bi, i, v)
    {
      RecordedDomain(block, |block.insts|, before, v);
      if v in before {
        var bi, i :| bi < n && DefSite(f, bi, i, v);
        assert bi < n + 1 && DefSite(f, bi, i, v);
      } else {
        var i :| 0 <= i < |block.insts| && block.insts[i].dst == v;
        assert DefSite(f, n, i, v);
      }
    }
  }

  // ---------- uses ----------

  function EnsureUseDominated(
      v: VReg, useBlock: BlockId, useIndex: nat, defs: Definitions, dom: DomMap): Option<ValidationError>
  {
    if v !in defs then Some(UndefinedValue(v))
    else if defs[v].block == useBlock then
      if defs[v].instIndex >= useIndex then Some(UseBeforeDefinition(v, useBlock)) else None
    else if !DominatedBy(dom, defs[v].block, useBlock) then Some(UseNotDominated(v, useBlock))
    else None
  }

  // What the validator has established when it turns to the uses.
  ghost predicate Analysed(f: Function, defs: Definitions, dom: DomMap, preds: map<BlockId, set<BlockId>>) {
    && WellShaped(f) && AllReachable(f) && SingleDefinitions(f)
    && AreDefinitions(f, |f.blocks|, defs) && AreDominators(f, dom) && ArePredecessors(f, preds)
  }

  lemma UseCheckIsExact(
      f: Function, defs: Definitions, dom: DomMap, preds: map<BlockId, set<BlockId>>, v: VReg, bi: nat,
      index: nat)
    requires Analysed(f, defs, dom, preds) && bi < |f.blocks|
    ensures EnsureUseDominated(v, f.blocks[bi].id, index, defs, dom).None? <==> UseDominated(f, v, f.blocks[bi], index)
  {
    var block := f.blocks[bi];
    if v in defs {
      var d, i :| d < |f.blocks| && DefSite(f, d, i, v);
      ReachableDominators(f, dom, f.blocks[d].id, block.id);
    }
  }

  function PhiInputError(
      b: BlockId, pred: BlockId, value: VReg, defs: Definitions, dom: DomMap, expected: set<BlockId>)
    : Option<ValidationError>
  {
    if pred !in expected then Some(PhiReferencesNonPredecessor(b, pred))
    else if value !in defs then Some(UndefinedPhiInput(value))
    else if defs[value].block != pred && !DominatedBy(dom, defs[value].block, pred) then
      Some(PhiInputNotDominated(value, pred))
    else None
  }

  lemma PhiInputCheckIsExact(
      f: Function, defs: Definitions, dom: DomMap, preds: map<BlockId, set<BlockId>>, b: BlockId,
      pred: BlockId, v: VReg)
    requires Analysed(f, defs, dom, preds) && HasBlock(f, b)
    ensures PhiInputError(b, pred, v, defs, dom, preds[b]).None? <==> Edge(f, pred, b) && PhiInputDominated(f, v, pred)
  {
    if Edge(f, pred, b) {
      EdgeHasBlocks(f, pred, b);
      if v in defs {
        var d, i :| d < |f.blocks| && DefSite(f, d, i, v);
        ReachableDominators(f, dom, f.blocks[d].id, pred);
        if f.blocks[d].id == pred {
          assert Dominates(f, pred, pred);
        }
      }
    }
  }

  predicate IncomingDistinct(incoming: seq<(BlockId, VReg)>, n: nat) {
    forall i, j :: 0 <= i < j < n && j < |incoming| ==> incoming[i].0 != incoming[j].0
  }

  // Collects the predecessors one phi names, rejecting a repeated or an unacceptable input.
  method CollectIncoming(
      b: BlockId, incoming: seq<(BlockId, VReg)>, defs: Definitions, dom: DomMap, expected: set<BlockId>)
    returns (r: Result<set<BlockId>, ValidationError>)
    ensures r.Success? <==>
      (IncomingDistinct(incoming, |incoming|) &&
       forall i :: 0 <= i < |incoming| ==> PhiInputError(b, incoming[i].0, incoming[i].1, defs, dom, expected).None?)
    ensures r.Success? ==> forall a :: a in r.value <==> IncomingFrom(incoming, |incoming|, a)
  {
    var incomingBlocks: set<BlockId> := {};
    for k := 0 to |incoming|
      invariant forall a :: a in incomingBlocks <==> IncomingFrom(incoming, k, a)
      invariant IncomingDistinct(incoming, k)
      invariant forall i :: 0 <= i < k ==> PhiInputError(b, incoming[i].0, incoming[i].1, defs, dom, expected).None?
    {
      var (pred, value) := incoming[k];
      if pred in incomingBlocks {
        return Failure(DuplicatePhiPredecessor(b, pred));
      }
      incomingBlocks := incomingBlocks + {pred};
      var error := PhiInputError(b, pred, value, defs, dom, expected);
      if error.Some? {
        return Failure(error.value);
      }
    }
    r := Success(incomingBlocks);
  }

  lemma PhiChecksAreExact(
      f: Function, defs: Definitions, dom: DomMap, preds: map<BlockId, set<BlockId>>, b: BlockId,
      incoming: seq<(BlockId, VReg)>)
    requires Analysed(f, defs, dom, preds) && HasBlock(f, b)
    ensures b in preds && forall a :: a in preds[b] <==> Edge(f, a, b)
    ensures forall i :: 0 <= i < |incoming| ==>
      (PhiInputError(b, incoming[i].0, incoming[i].1, defs, dom, preds[b]).None? <==>
       Edge(f, incoming[i].0, b) && PhiInputDominated(f, incoming[i].1, incoming[i].0))
  {
    forall i | 0 <= i < |incoming|
      ensures PhiInputError(b, incoming[i].0, incoming[i].1, defs, dom, preds[b]).None? <==>
        Edge(f, incoming[i].0, b) && PhiInputDominated(f, incoming[i].1, incoming[i].0)
    {
      PhiInputCheckIsExact(f, defs, dom, preds, b, incoming[i].0, incoming[i].1);
    }
  }

  // With acceptable inputs, the count of named predecessors decides whether one is missing.
  lemma InputCountDecides(
      f: Function, b: BlockId, incoming: seq<(BlockId, VReg)>, named: set<BlockId>, expected: set<BlockId>)
    requires forall a :: a in expected <==> Edge(f, a, b)
    requires forall a :: a in named <==> IncomingFrom(incoming, |incoming|, a)
    requires forall i :: 0 <= i < |incoming| ==> Edge(f, incoming[i].0, b)
    ensures |named| == |expected| <==> forall a :: Edge(f, a, b) <==> IncomingFrom(incoming, |incoming|, a)
  {
    assert named <= expected;
    SubsetSizes(named, expected);
  }

  method CheckPhi(
      f: Function, b: BlockId, incoming: seq<(BlockId, VReg)>, defs: Definitions, dom: DomMap,
      preds: map<BlockId, set<BlockId>>)
    returns (r: Option<ValidationError>)
    requires Analysed(f, defs, dom, preds) && HasBlock(f, b)
    ensures r.None? <==> PhiMatchesPredecessors(f, b, incoming)
  {
    if b == f.entry {
      return Some(PhiInEntry(b));
    }
    PhiChecksAreExact(f, defs, dom, preds, b, incoming);
    var incomingBlocks := CollectIncoming(b, incoming, defs, dom, preds[b]);
    if incomingBlocks.Failure? {
      NamedArePredecessors(f, b, incoming);
      return Some(incomingBlocks.error);
    }
    InputCountDecides(f, b, incoming, incomingBlocks.value, preds[b]);
    if |incomingBlocks.value| != |preds[b]| {
      return Some(IncompletePhi(b));
    }
    r := None;
  }

  lemma NamedArePredecessors(f: Function, b: BlockId, incoming: seq<(BlockId, VReg)>)
    ensures PhiMatchesPredecessors(f, b, incoming) ==> forall i :: 0 <= i < |incoming| ==> Edge(f, incoming[i].0, b)
  {
    forall i | 0 <= i < |incoming|
      ensures IncomingFrom(incoming, |incoming|, incoming[i].0)
    {
    }
  }

  method CheckValues(
      f: Function, values: seq<VReg>, bi: nat, index: nat, defs: Definitions, dom: DomMap,
      ghost preds: map<BlockId, set<BlockId>>)
    returns (r: Option<ValidationError>)
    requires Analysed(f, defs, dom, preds) && bi < |f.blocks|
    ensures r.None? <==> forall v :: v in values ==> UseDominated(f, v, f.blocks[bi], index)
  {
    for k := 0 to |values|
      invariant forall l :: 0 <= l < k ==> UseDominated(f, values[l], f.blocks[bi], index)
    {
      var error := EnsureUseDominated(values[k], f.blocks[bi].id, index, defs, dom);
      UseCheckIsExact(f, defs, dom, preds, values[k], bi, index);
      if error.Some? {
        return error;
      }
    }
    r := None;
  }

  method CheckBlockUses(f: Function, bi: nat, defs: Definitions, dom: DomMap, preds: map<BlockId, set<BlockId>>)
    returns (r: Option<ValidationError>)
    requires Analysed(f, defs, dom, preds) && bi < |f.blocks|
    ensures r.None? <==> UsesOk(f, f.blocks[bi])
  {
    var block := f.blocks[bi];
    for index := 0 to |block.insts|
      invariant forall k :: 0 <= k < index ==> InstUsesOk(f, block, k)
    {
      var error;
      if block.insts[index].PhiI64? {
        error := CheckPhi(f, block.id, block.insts[index].incoming, defs, dom, preds);
      } else {
        error := CheckValues(f, Uses(block.insts[index]), bi, index, defs, dom, preds);
      }
      if error.Some? {
        assert !InstUsesOk(f, block, index);
        return error;
      }
    }
    r := CheckValues(f, TermUses(block.term), bi, |block.insts|, defs, dom, preds);
  }

  method ValidateFunction(f: Function) returns (r: Option<ValidationError>)
    ensures r.None? <==> WellFormed(f)
  {
    r := CheckShape(f);
    if r.Some? {
      return;
    }
    var reachable := ComputeReachable(f);
    ReachableCountDecides(f, reachable);
    if |reachable| != |f.blocks| {
      return Some(UnreachableBlocks);
    }
    var preds := BuildPredecessors(f);
    var dom := ComputeDominators(f);
    var defs := CollectDefinitions(f);
    if defs.Failure? {
      return Some(defs.error);
    }
    for bi := 0 to |f.blocks|
      invariant forall k :: 0 <= k < bi ==> UsesOk(f, f.blocks[k])
    {
      r := CheckBlockUses(f, bi, defs.value, dom.value, preds.value);
      if r.Some? {
        return;
      }
    }
    r := None;
  }
}
