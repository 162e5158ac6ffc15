// The control-flow graph of a function: edges, paths, and the predecessor sets.
module Cfg {
  import opened Wrappers
  import opened Ir

  predicate BlockEdge(block: Block, a: BlockId, b: BlockId) {
    block.id == a && b in Successors(block.term)
  }

  predicate Edge(f: Function, a: BlockId, b: BlockId) {
    exists i :: 0 <= i < |f.blocks| && BlockEdge(f.blocks[i], a, b)
  }

  predicate SuccessorsKnown(f: Function, block: Block) {
    forall s :: s in Successors(block.term) ==> HasBlock(f, s)
  }

  predicate KnownSuccessors(f: Function) {
    forall i {:trigger SuccessorsKnown(f, f.blocks[i])} :: 0 <= i < |f.blocks| ==> SuccessorsKnown(f, f.blocks[i])
  }

  lemma UnknownSuccessorFound(f: Function, i: nat)
    requires i < |f.blocks| && !SuccessorsKnown(f, f.blocks[i])
    ensures !KnownSuccessors(f)
  {
  }

  function Ids(f: Function): (ids: set<BlockId>)
    ensures forall b :: b in ids <==> HasBlock(f, b)
  {
    set i | 0 <= i < |f.blocks| :: f.blocks[i].id
  }

  // A non-empty walk along edges.
  ghost predicate IsPath(f: Function, p: seq<BlockId>) {
    && |p| > 0
    && HasBlock(f, p[0])
    && forall i :: 0 <= i < |p| - 1 ==> Edge(f, p[i], p[i + 1])
  }

  ghost predicate PathFromTo(f: Function, p: seq<BlockId>, a: BlockId, b: BlockId) {
    IsPath(f, p) && p[0] == a && p[|p| - 1] == b
  }

  ghost predicate Reachable(f: Function, b: BlockId) {
    exists p :: PathFromTo(f, p, f.entry, b)
  }

  ghost predicate AllReachable(f: Function) {
    forall b :: HasBlock(f, b) ==> Reachable(f, b)
  }

  // d lies on every path from the entry to b.
  ghost predicate Dominates(f: Function, d: BlockId, b: BlockId) {
    forall p :: PathFromTo(f, p, f.entry, b) ==> d in p
  }

  lemma PathExtend(f: Function, p: seq<BlockId>, a: BlockId, b: BlockId, c: BlockId)
    requires PathFromTo(f, p, a, b) && Edge(f, b, c)
    ensures PathFromTo(f, p + [c], a, c)
  {
  }

  lemma EdgeHasBlocks(f: Function, a: BlockId, b: BlockId)
    requires Edge(f, a, b)
    ensures HasBlock(f, a)
    ensures KnownSuccessors(f) ==> HasBlock(f, b)
  {
    var i :| 0 <= i < |f.blocks| && BlockEdge(f.blocks[i], a, b);
    assert KnownSuccessors(f) ==> SuccessorsKnown(f, f.blocks[i]);
  }

  lemma PathHasBlocks(f: Function, p: seq<BlockId>, i: nat)
    requires KnownSuccessors(f) && IsPath(f, p) && i < |p|
    ensures HasBlock(f, p[i])
  {
    if i > 0 {
      EdgeHasBlocks(f, p[i - 1], p[i]);
    }
  }

  lemma EdgeOfBlock(f: Function, a: BlockId, b: BlockId)
    requires UniqueIds(f) && HasBlock(f, a)
    ensures Edge(f, a, b) <==> b in Successors(BlockAt(f, a).term)
  {
    var i :| 0 <= i < |f.blocks| && f.blocks[i].id == a;
    BlockAtIndex(f, i);
    if Edge(f, a, b) {
      var j :| 0 <= j < |f.blocks| && BlockEdge(f.blocks[j], a, b);
      assert j == i;
    } else {
      assert !BlockEdge(f.blocks[i], a, b);
    }
  }

  // Every block maps to exactly the blocks with an edge to it.
  ghost predicate ArePredecessors(f: Function, preds: map<BlockId, set<BlockId>>) {
    && preds.Keys == Ids(f)
    && forall b, a :: b in preds ==> (a in preds[b] <==> Edge(f, a, b))
  }

  datatype UnknownSuccessor = UnknownSuccessor(block: BlockId, target: BlockId)

  // Adds the edges that leave one block to the predecessor sets collected so far.
  method RecordEdges(block: Block, before: map<BlockId, set<BlockId>>)
    returns (r: Result<map<BlockId, set<BlockId>>, UnknownSuccessor>)
    ensures r.Success? <==> forall s :: s in Successors(block.term) ==> s in before
    ensures r.Success? ==> r.value.Keys == before.Keys
    ensures r.Success? ==> forall b, a :: b in before ==>
      (a in r.value[b] <==> a in before[b] || BlockEdge(block, a, b))
  {
    var preds := before;
    var succs := Successors(block.term);
    for k := 0 to |succs|
      invariant preds.Keys == before.Keys
      invariant forall l :: 0 <= l < k ==> succs[l] in before
      invariant forall b, a :: b in before ==>
        (a in preds[b] <==> a in before[b] || (a == block.id && b in succs[..k]))
    {
      if succs[k] !in preds {
        return Failure(UnknownSuccessor(block.id, succs[k]));
      }
      preds := preds[succs[k] := preds[succs[k]] + {block.id}];
      assert succs[..k + 1] == succs[..k] + [succs[k]];
    }
    assert succs[..|succs|] == succs;
    r := Success(preds);
  }

  ghost predicate EdgeWithin(f: Function, n: nat, a: BlockId, b: BlockId) {
    exists i :: 0 <= i < n && i < |f.blocks| && BlockEdge(f.blocks[i], a, b)
  }

  method BuildPredecessors(f: Function) returns (r: Result<map<BlockId, set<BlockId>>, UnknownSuccessor>)
    ensures r.Success? <==> KnownSuccessors(f)
    ensures r.Success? ==> ArePredecessors(f, r.value)
  {
    var blockIds := Ids(f);
    var preds: map<BlockId, set<BlockId>> := map b | b in blockIds :: {};
    for i := 0 to |f.blocks|
      invariant preds.Keys == blockIds
      invariant forall j :: 0 <= j < i ==> SuccessorsKnown(f, f.blocks[j])
      invariant forall b, a :: b in blockIds ==> (a in preds[b] <==> EdgeWithin(f, i, a, b))
    {
      ghost var before := preds;
      var added := RecordEdges(f.blocks[i], preds);
      if added.Failure? {
        UnknownSuccessorFound(f, i);
        return Failure(added.error);
      }
      preds := added.value;
      forall b, a | b in blockIds
        ensures a in preds[b] <==> EdgeWithin(f, i + 1, a, b)
      {
        assert EdgeWithin(f, i + 1, a, b) <==> EdgeWithin(f, i, a, b) || BlockEdge(f.blocks[i], a, b);
      }
    }
    forall b, a | b in blockIds
      ensures a in preds[b] <==> Edge(f, a, b)
    {
      assert EdgeWithin(f, |f.blocks|, a, b) <==> Edge(f, a, b);
    }
    r := Success(preds);
  }

  lemma SubsetSizes<T>(s: set<T>, t: set<T>)
    requires s <= t
    ensures |s| <= |t|
    ensures |s| == |t| <==> s == t
  {
    assert t == s + (t - s);
    if s != t {
      assert t - s != {};
    }
  }
}
