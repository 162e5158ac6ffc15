// Dominators as the greatest fixpoint of an in-place iteration, and their meaning on paths.
module Dominators {
  import opened Wrappers
  import opened Ir
  import opened Cfg

  type DomMap = map<BlockId, set<BlockId>>

  datatype DominatorError = MissingEntry(entry: BlockId) | BadGraph(error: UnknownSuccessor)

  predicate DominatedBy(dom: DomMap, dominator: BlockId, block: BlockId) {
    block in dom && dominator in dom[block]
  }

  // ---------- the meaning ----------

  // The iteration pins the entry to itself and gives a block without predecessors only itself,
  // so paths are counted from all of these.
  ghost predicate Root(f: Function, b: BlockId) {
    HasBlock(f, b) && (b == f.entry || forall a :: !Edge(f, a, b))
  }

  ghost predicate RootPath(f: Function, p: seq<BlockId>, b: BlockId) {
    IsPath(f, p) && Root(f, p[0]) && p[|p| - 1] == b
  }

  ghost predicate OnEveryRootPath(f: Function, d: BlockId, b: BlockId) {
    HasBlock(f, d) && forall p :: RootPath(f, p, b) ==> d in p
  }

  ghost predicate AreDominators(f: Function, dom: DomMap) {
    dom.Keys == Ids(f) && forall b, d :: b in dom ==> (d in dom[b] <==> OnEveryRootPath(f, d, b))
  }

  // When every block is reachable, the computed sets are dominators in the usual sense.
  lemma ReachableDominators(f: Function, dom: DomMap, d: BlockId, b: BlockId)
    requires HasBlock(f, f.entry) && KnownSuccessors(f) && AllReachable(f) && AreDominators(f, dom)
    requires HasBlock(f, b)
    ensures DominatedBy(dom, d, b) <==> Dominates(f, d, b)
  {
    forall r | Root(f, r)
      ensures r == f.entry
    {
      var p :| PathFromTo(f, p, f.entry, r);
      if |p| > 1 {
        assert Edge(f, p[|p| - 2], p[|p| - 2 + 1]);
      }
    }
    if OnEveryRootPath(f, d, b) {
      forall p | PathFromTo(f, p, f.entry, b)
        ensures d in p
      {
        assert RootPath(f, p, b);
      }
    }
    if Dominates(f, d, b) {
      var p :| PathFromTo(f, p, f.entry, b);
      var i :| 0 <= i < |p| && p[i] == d;
      PathHasBlocks(f, p, i);
      forall q | RootPath(f, q, b)
        ensures d in q
      {
        assert PathFromTo(f, q, f.entry, b);
      }
    }
  }

  // ---------- the iteration ----------

  predicate InMeet(preds: map<BlockId, set<BlockId>>, dom: DomMap, b: BlockId, d: BlockId)
    requires b in preds
  {
    d == b || (preds[b] != {} && forall p :: p in preds[b] ==> DominatedBy(dom, d, p))
  }

  ghost predicate Settled(f: Function, preds: map<BlockId, set<BlockId>>, dom: DomMap, b: BlockId) {
    b in preds && b in dom && (b != f.entry ==> forall d :: d in dom[b] ==> InMeet(preds, dom, b, d))
  }

  // The sets contain every true dominator and are about to shrink, never to grow.
  ghost predicate Descending(f: Function, preds: map<BlockId, set<BlockId>>, dom: DomMap) {
    && ArePredecessors(f, preds)
    && dom.Keys == Ids(f)
    && f.entry in dom && dom[f.entry] == {f.entry}
    && (forall b, d :: b in dom && d in dom[b] ==> HasBlock(f, d))
    && (forall b, d :: b in dom && b != f.entry && InMeet(preds, dom, b, d) ==> d in dom[b])
    && (forall b, d :: b in dom && OnEveryRootPath(f, d, b) ==> d in dom[b])
  }

  lemma DominatorPassesToPredecessors(f: Function, b: BlockId, d: BlockId, p: BlockId)
    requires OnEveryRootPath(f, d, b) && d != b && Edge(f, p, b)
    ensures OnEveryRootPath(f, d, p)
  {
    forall q | RootPath(f, q, p)
      ensures d in q
    {
      PathExtend(f, q, q[0], p, b);
      assert RootPath(f, q + [b], b);
      assert d in q + [b];
    }
  }

  lemma DominatorsAreInMeet(f: Function, preds: map<BlockId, set<BlockId>>, dom: DomMap, b: BlockId, d: BlockId)
    requires Descending(f, preds, dom) && b in dom && b != f.entry && OnEveryRootPath(f, d, b)
    ensures InMeet(preds, dom, b, d)
  {
    if d != b {
      if preds[b] == {} {
        assert RootPath(f, [b], b);
        assert false;
      }
      forall p | p in preds[b]
        ensures DominatedBy(dom, d, p)
      {
        assert Edge(f, p, b);
        EdgeHasBlocks(f, p, b);
        DominatorPassesToPredecessors(f, b, d, p);
      }
    }
  }

  lemma MeetKeepsDescending(f: Function, preds: map<BlockId, set<BlockId>>, dom: DomMap, b: BlockId, next: set<BlockId>)
    requires Descending(f, preds, dom) && b in dom && b != f.entry
    requires forall d :: d in next <==> InMeet(preds, dom, b, d)
    ensures next <= dom[b]
    ensures Descending(f, preds, dom[b := next])
  {
    var after := dom[b := next];
    assert next <= dom[b];
    forall c, d | c in after && c != f.entry && InMeet(preds, after, c, d)
      ensures d in after[c]
    {
      assert InMeet(preds, dom, c, d);
    }
    forall d | OnEveryRootPath(f, d, b)
      ensures d in next
    {
      DominatorsAreInMeet(f, preds, dom, b, d);
    }
  }

  lemma InitialDescending(f: Function, preds: map<BlockId, set<BlockId>>, dom: DomMap)
    requires ArePredecessors(f, preds) && HasBlock(f, f.entry)
    requires dom == map b | b in Ids(f) :: if b == f.entry then {b} else Ids(f)
    ensures Descending(f, preds, dom)
  {
    forall d | OnEveryRootPath(f, d, f.entry)
      ensures d == f.entry
    {
      assert RootPath(f, [f.entry], f.entry);
    }
  }

  // A fixpoint holds nothing but dominators.
  lemma {:induction false} FixpointIsSound(
      f: Function, preds: map<BlockId, set<BlockId>>, dom: DomMap, p: seq<BlockId>, d: BlockId)
    requires Descending(f, preds, dom) && KnownSuccessors(f)
    requires forall b :: b in dom ==> Settled(f, preds, dom, b)
    requires IsPath(f, p) && Root(f, p[0])
    requires DominatedBy(dom, d, p[|p| - 1])
    ensures d in p
    decreases |p|
  {
    var b := p[|p| - 1];
    if b != f.entry && d != b {
      assert InMeet(preds, dom, b, d);
      assert |p| == 1 ==> Root(f, b);
      if |p| > 1 {
        var q := p[..|p| - 1];
        assert Edge(f, p[|p| - 2], p[|p| - 2 + 1]);
        assert q[|q| - 1] in preds[b];
        FixpointIsSound(f, preds, dom, q, d);
      }
    }
  }

  lemma FixpointIsExact(f: Function, preds: map<BlockId, set<BlockId>>, dom: DomMap)
    requires Descending(f, preds, dom) && KnownSuccessors(f)
    requires forall b :: b in dom ==> Settled(f, preds, dom, b)
    ensures AreDominators(f, dom)
  {
    forall b, d | b in dom && d in dom[b]
      ensures OnEveryRootPath(f, d, b)
    {
      forall p | RootPath(f, p, b)
        ensures d in p
      {
        FixpointIsSound(f, preds, dom, p, d);
      }
    }
  }

  // The termination measure: everything the sets still hold.
  ghost function Held(dom: DomMap): set<(BlockId, BlockId)> {
    set b, d | b in dom && d in dom[b] :: (b, d)
  }

  ghost function Size(dom: DomMap): nat {
    |Held(dom)|
  }

  lemma SizeShrinks(dom: DomMap, b: BlockId, next: set<BlockId>)
    requires b in dom && next < dom[b]
    ensures Size(dom[b := next]) < Size(dom)
  {
    var d :| d in dom[b] && d !in next;
    assert (b, d) in Held(dom) && (b, d) !in Held(dom[b := next]);
    SubsetSizes(Held(dom[b := next]), Held(dom));
  }

  predicate DominatesAll(dom: DomMap, d: BlockId, blocks: set<BlockId>) {
    forall p :: p in blocks ==> DominatedBy(dom, d, p)
  }

  // Intersects the dominator sets of the predecessors and adds the block itself.
  method Meet(preds: map<BlockId, set<BlockId>>, dom: DomMap, b: BlockId) returns (next: set<BlockId>)
    requires b in preds && forall p :: p in preds[b] ==> p in dom
    ensures forall d :: d in next <==> InMeet(preds, dom, b, d)
  {
    var rest := preds[b];
    if rest == {} {
      return {b};
    }
    var first :| first in rest;
    next := dom[first];
    rest := rest - {first};
    ghost var done := {first};
    while rest != {}
      invariant rest + done == preds[b]
      invariant forall d :: d in next <==> DominatesAll(dom, d, done)
      decreases rest
    {
      var p :| p in rest;
      next := set candidate | candidate in next && candidate in dom[p];
      rest := rest - {p};
      done := done + {p};
    }
    assert done == preds[b];
    next := next + {b};
  }

  // One sweep over the blocks, replacing the entries of `dom` in place.
  // Recomputes the set of one block other than the entry.
  method UpdateSet(f: Function, preds: map<BlockId, set<BlockId>>, before: DomMap, b: BlockId)
    returns (dom: DomMap, changed: bool)
    requires Descending(f, preds, before) && b in before && b != f.entry
    ensures Descending(f, preds, dom)
    ensures changed ==> Size(dom) < Size(before)
    ensures !changed ==> dom == before && Settled(f, preds, dom, b)
  {
    dom, changed := before, false;
    PredecessorsHaveSets(f, preds, before, b);
    var next := Meet(preds, before, b);
    MeetKeepsDescending(f, preds, before, b, next);
    if before[b] != next {
      SizeShrinks(before, b, next);
      dom, changed := before[b := next], true;
    }
  }

  method Sweep(f: Function, preds: map<BlockId, set<BlockId>>, before: DomMap) returns (dom: DomMap, changed: bool)
    requires Descending(f, preds, before)
    ensures Descending(f, preds, dom)
    ensures changed ==> Size(dom) < Size(before)
    ensures !changed ==> dom == before && forall b :: b in dom ==> Settled(f, preds, dom, b)
  {
    dom, changed := before, false;
    for i := 0 to |f.blocks|
      invariant Descending(f, preds, dom)
      invariant changed ==> Size(dom) < Size(before)
      invariant !changed ==> dom == before && forall j :: 0 <= j < i ==> Settled(f, preds, dom, f.blocks[j].id)
    {
      var b := f.blocks[i].id;
      assert b in Ids(f);
      if b != f.entry {
        var updated;
        dom, updated := UpdateSet(f, preds, dom, b);
        changed := changed || updated;
      }
    }
  }

  lemma PredecessorsHaveSets(f: Function, preds: map<BlockId, set<BlockId>>, dom: DomMap, b: BlockId)
    requires Descending(f, preds, dom) && b in dom
    ensures b in preds && forall p :: p in preds[b] ==> p in dom
  {
    forall p | p in preds[b]
      ensures p in dom
    {
      assert Edge(f, p, b);
    }
  }

  method ComputeDominators(f: Function) returns (r: Result<DomMap, DominatorError>)
    ensures r.Success? <==> HasBlock(f, f.entry) && KnownSuccessors(f)
    ensures r.Success? ==> AreDominators(f, r.value)
  {
    var all := Ids(f);
    if f.entry !in all {
      return Failure(MissingEntry(f.entry));
    }
    var built := BuildPredecessors(f);
    if built.Failure? {
      return Failure(BadGraph(built.error));
    }
    var preds := built.value;
    var dom: DomMap := map b | b in all :: if b == f.entry then {b} else all;
    InitialDescending(f, preds, dom);
    var changed := true;
    while changed
      invariant Descending(f, preds, dom)
      invariant !changed ==> forall b :: b in dom ==> Settled(f, preds, dom, b)
      decreases Size(dom), changed
    {
      dom, changed := Sweep(f, preds, dom);
    }
    FixpointIsExact(f, preds, dom);
    r := Success(dom);
  }
}
