// One update and one sweep of the liveness loop as functions. The sweeps only ever add, so they reach
// a map that a whole sweep maps to itself, whether or not updates inside it undo one another.
module LivenessSweeps {
  import opened Ir
  import opened Cfg
  import opened Liveness

  // ---------- one update, one sweep ----------

  // What flows back from the successor s into the end of block b.
  ghost function FlowsBack(l: Liveness, b: BlockId, s: BlockId): set<VReg> {
    (if s in l.perBlock then l.perBlock[s].liveIn - (if s in l.phiDefs then l.phiDefs[s] else {}) else {}) +
    (if (b, s) in l.phiUses then l.phiUses[(b, s)] else {})
  }

  ghost function FlowsOver(l: Liveness, b: BlockId, succs: seq<BlockId>): set<VReg> {
    if succs == [] then {}
    else FlowsOver(l, b, succs[..|succs| - 1]) + FlowsBack(l, b, succs[|succs| - 1])
  }

  ghost function LiveOutOf(l: Liveness, block: Block): set<VReg> {
    FlowsOver(l, block.id, Successors(block.term))
  }

  lemma {:induction false} FlowsOverSome(l: Liveness, b: BlockId, succs: seq<BlockId>, v: VReg)
    ensures v in FlowsOver(l, b, succs) <==> exists s :: s in succs && v in FlowsBack(l, b, s)
  {
    if succs != [] {
      FlowsOverSome(l, b, succs[..|succs| - 1], v);
    }
  }

  ghost function Updated(l: Liveness, block: Block): (after: Liveness)
    ensures after.perBlock.Keys == l.perBlock.Keys
  {
    if block.id !in l.perBlock then l else
    var liveOut := LiveOutOf(l, block);
    var current := l.perBlock[block.id];
    var liveIn := current.useSet + (liveOut - current.defSet);
    l.(perBlock := l.perBlock[block.id := current.(liveIn := liveIn, liveOut := liveOut)])
  }

  // The update changes nothing.
  ghost predicate Rests(l: Liveness, block: Block) {
    block.id in l.perBlock &&
    var current := l.perBlock[block.id];
    current.liveOut == LiveOutOf(l, block) && current.liveIn == current.useSet + (current.liveOut - current.defSet)
  }

  lemma RestIsFixed(l: Liveness, block: Block)
    requires block.id in l.perBlock
    ensures Rests(l, block) <==> Updated(l, block) == l
  {
    var current := l.perBlock[block.id];
    if Rests(l, block) {
      assert l.perBlock[block.id := current] == l.perBlock;
    } else {
      assert Updated(l, block).perBlock[block.id] != current;
    }
  }

  // The sets after the updates of the last block down to the i-th.
  ghost function Swept(f: Function, l: Liveness, i: nat): (after: Liveness)
    requires i <= |f.blocks|
    ensures after.perBlock.Keys == l.perBlock.Keys
    decreases |f.blocks| - i
  {
    if i == |f.blocks| then l else Updated(Swept(f, l, i + 1), f.blocks[i])
  }

  // One of those updates changes something. A later one may change it back.
  ghost predicate Changes(f: Function, l: Liveness, i: nat)
    requires i <= |f.blocks|
    decreases |f.blocks| - i
  {
    i < |f.blocks| && (Changes(f, l, i + 1) || !Rests(Swept(f, l, i + 1), f.blocks[i]))
  }

  ghost function After(f: Function, l: Liveness, sweeps: nat): (after: Liveness)
    ensures after.perBlock.Keys == l.perBlock.Keys
  {
    if sweeps == 0 then l else Swept(f, After(f, l, sweeps - 1), 0)
  }

  ghost predicate QuietAfter(f: Function, l: Liveness, sweeps: nat) {
    !Changes(f, After(f, l, sweeps), 0)
  }

  ghost predicate ComesToRest(f: Function, l: Liveness) {
    exists n: nat :: QuietAfter(f, l, n)
  }

  ghost predicate Covers(f: Function, entries: set<BlockId>) {
    forall i :: 0 <= i < |f.blocks| ==> f.blocks[i].id in entries
  }

  // No block's update changes anything.
  ghost predicate Settled(f: Function, l: Liveness) {
    forall i {:trigger Rests(l, f.blocks[i])} :: 0 <= i < |f.blocks| ==> Rests(l, f.blocks[i])
  }

  lemma {:induction false} QuietIsSettled(f: Function, l: Liveness, i: nat)
    requires Covers(f, l.perBlock.Keys) && i <= |f.blocks| && !Changes(f, l, i)
    ensures Swept(f, l, i) == l
    ensures forall j :: i <= j < |f.blocks| ==> Rests(l, f.blocks[j])
    decreases |f.blocks| - i
  {
    if i < |f.blocks| {
      QuietIsSettled(f, l, i + 1);
      RestIsFixed(l, f.blocks[i]);
    }
  }

  // ---------- the sweeps ascend ----------

  // l has no more in any set than m has, and the rest is the same.
  ghost predicate Below(l: Liveness, m: Liveness) {
    && l.perBlock.Keys == m.perBlock.Keys && l.phiDefs == m.phiDefs && l.phiUses == m.phiUses
    && (forall b :: b in l.perBlock ==> LessLive(l.perBlock[b], m.perBlock[b]))
  }

  ghost predicate LessLive(x: BlockLiveness, y: BlockLiveness) {
    x.useSet == y.useSet && x.defSet == y.defSet && x.liveIn <= y.liveIn && x.liveOut <= y.liveOut
  }

  lemma UpdateIsMonotone(l: Liveness, m: Liveness, block: Block)
    requires Below(l, m) && block.id in l.perBlock
    ensures LiveOutOf(l, block) <= LiveOutOf(m, block)
    ensures LessLive(Updated(l, block).perBlock[block.id], Updated(m, block).perBlock[block.id])
  {
    FlowsOverIsMonotone(l, m, block.id, Successors(block.term));
  }

  lemma {:induction false} FlowsOverIsMonotone(l: Liveness, m: Liveness, b: BlockId, succs: seq<BlockId>)
    requires Below(l, m)
    ensures FlowsOver(l, b, succs) <= FlowsOver(m, b, succs)
  {
    if succs != [] {
      FlowsOverIsMonotone(l, m, b, succs[..|succs| - 1]);
      var s := succs[|succs| - 1];
      if s in l.perBlock {
        assert LessLive(l.perBlock[s], m.perBlock[s]);
      }
    }
  }

  lemma UpdateKeepsBelow(l: Liveness, m: Liveness, block: Block)
    requires Below(l, m)
    ensures Below(Updated(l, block), Updated(m, block))
  {
    if block.id in l.perBlock {
      assert LessLive(l.perBlock[block.id], m.perBlock[block.id]);
      UpdateIsMonotone(l, m, block);
    }
    var x, y := Updated(l, block), Updated(m, block);
    forall b | b in x.perBlock
      ensures LessLive(x.perBlock[b], y.perBlock[b])
    {
      assert b != block.id ==> LessLive(l.perBlock[b], m.perBlock[b]);
    }
  }

  lemma {:induction false} SweepKeepsBelow(f: Function, l: Liveness, m: Liveness, i: nat)
    requires Below(l, m) && i <= |f.blocks|
    ensures Below(Swept(f, l, i), Swept(f, m, i))
    decreases |f.blocks| - i
  {
    if i < |f.blocks| {
      SweepKeepsBelow(f, l, m, i + 1);
      UpdateKeepsBelow(Swept(f, l, i + 1), Swept(f, m, i + 1), f.blocks[i]);
    }
  }

  // Every value that can ever be live: one that is used in some block or by some phi.
  ghost function Universe(l: Liveness): set<VReg> {
    (set b, v | b in l.perBlock && v in l.perBlock[b].useSet :: v) +
    (set e, v | e in l.phiUses && v in l.phiUses[e] :: v)
  }

  ghost predicate Within(l: Liveness, u: set<VReg>) {
    Universe(l) <= u && forall b :: b in l.perBlock ==> l.perBlock[b].liveIn <= u && l.perBlock[b].liveOut <= u
  }

  lemma UpdateStaysWithin(l: Liveness, block: Block, u: set<VReg>)
    requires Within(l, u)
    ensures Within(Updated(l, block), u)
  {
    var after := Updated(l, block);
    forall v | v in LiveOutOf(l, block)
      ensures v in u
    {
      FlowsOverSome(l, block.id, Successors(block.term), v);
      var s :| s in Successors(block.term) && v in FlowsBack(l, block.id, s);
      if (block.id, s) in l.phiUses && v in l.phiUses[(block.id, s)] {
        assert v in Universe(l);
      }
    }
    assert block.id in l.perBlock ==> l.perBlock[block.id].useSet <= Universe(l);
    forall v | v in Universe(after)
      ensures v in Universe(l)
    {
      if e :| e in after.phiUses && v in after.phiUses[e] {
        assert v in l.phiUses[e];
      } else {
        var b :| b in after.perBlock && v in after.perBlock[b].useSet;
        assert v in l.perBlock[b].useSet;
      }
    }
  }

  lemma {:induction false} SweepStaysWithin(f: Function, l: Liveness, i: nat, u: set<VReg>)
    requires Within(l, u) && i <= |f.blocks|
    ensures Within(Swept(f, l, i), u)
    decreases |f.blocks| - i
  {
    if i < |f.blocks| {
      SweepStaysWithin(f, l, i + 1, u);
      UpdateStaysWithin(Swept(f, l, i + 1), f.blocks[i], u);
    }
  }

  // The termination measure: what of u the sets could still gain, tagged by the set's kind.
  ghost function Missing(u: set<VReg>, lv: LivenessMap): set<(BlockId, VReg, bool)> {
    (set b, v | b in lv && v in u && v !in lv[b].liveIn :: (b, v, true)) +
    (set b, v | b in lv && v in u && v !in lv[b].liveOut :: (b, v, false))
  }

  lemma MissingShrinks(u: set<VReg>, l: Liveness, m: Liveness)
    requires Below(l, m)
    ensures Missing(u, m.perBlock) <= Missing(u, l.perBlock)
  {
    forall b | b in l.perBlock
      ensures LessLive(l.perBlock[b], m.perBlock[b])
    {
    }
  }

  lemma RoomShrinks(u: set<VReg>, l: Liveness, m: Liveness)
    requires Below(l, m) && l != m && Within(m, u)
    ensures |Missing(u, m.perBlock)| < |Missing(u, l.perBlock)|
  {
    var b :| b in l.perBlock && l.perBlock[b] != m.perBlock[b];
    assert LessLive(l.perBlock[b], m.perBlock[b]);
    if l.perBlock[b].liveIn != m.perBlock[b].liveIn {
      var v :| v in m.perBlock[b].liveIn && v !in l.perBlock[b].liveIn;
      assert (b, v, true) in Missing(u, l.perBlock) && (b, v, true) !in Missing(u, m.perBlock);
    } else {
      var v :| v in m.perBlock[b].liveOut && v !in l.perBlock[b].liveOut;
      assert (b, v, false) in Missing(u, l.perBlock) && (b, v, false) !in Missing(u, m.perBlock);
    }
    MissingShrinks(u, l, m);
    SubsetSizes(Missing(u, m.perBlock), Missing(u, l.perBlock));
  }

  lemma {:induction false} SweepFirst(f: Function, l: Liveness, n: nat)
    ensures After(f, Swept(f, l, 0), n) == After(f, l, n + 1)
  {
    if n > 0 {
      SweepFirst(f, l, n - 1);
    }
  }

  // A whole sweep returns to where it started.
  ghost predicate Stationary(f: Function, l: Liveness) {
    Swept(f, l, 0) == l
  }

  ghost function Iterate<T>(step: T -> T, x: T, n: nat): T
    decreases n
  {
    if n == 0 then x else Iterate(step, step(x), n - 1)
  }

  // Where the step moves at all, it keeps the invariant and lowers the rank.
  ghost predicate Descends<T>(step: T -> T, inv: T -> bool, rank: T -> nat, x: T) {
    inv(x) && step(x) != x ==> inv(step(x)) && rank(step(x)) < rank(x)
  }

  lemma {:induction false} DescentEnds<T(!new)>(step: T -> T, inv: T -> bool, rank: T -> nat, x: T) returns (n: nat)
    requires (forall y :: Descends(step, inv, rank, y)) && inv(x)
    ensures step(Iterate(step, x, n)) == Iterate(step, x, n)
    decreases rank(x)
  {
    n := 0;
    if step(x) != x {
      assert Descends(step, inv, rank, x);
      var k := DescentEnds(step, inv, rank, step(x));
      n := k + 1;
    }
  }

  lemma {:induction false} SweepsIterate(f: Function, step: Liveness -> Liveness, l: Liveness, n: nat)
    requires forall x :: step(x) == Swept(f, x, 0)
    ensures Iterate(step, l, n) == After(f, l, n)
    decreases n
  {
    if n > 0 {
      SweepsIterate(f, step, step(l), n - 1);
      SweepFirst(f, l, n - 1);
    }
  }

  lemma {:induction false} EmptyIsBelow(f: Function, l: Liveness, i: nat)
    requires i <= |f.blocks|
    requires forall b :: b in l.perBlock ==> l.perBlock[b].liveIn == {} && l.perBlock[b].liveOut == {}
    ensures Below(l, Swept(f, l, i))
    decreases |f.blocks| - i
  {
    if i < |f.blocks| {
      EmptyIsBelow(f, l, i + 1);
      var m := Swept(f, l, i + 1);
      var after := Updated(m, f.blocks[i]);
      forall b | b in l.perBlock
        ensures LessLive(l.perBlock[b], after.perBlock[b])
      {
        assert LessLive(l.perBlock[b], m.perBlock[b]);
      }
    }
  }

  ghost predicate Climbs(f: Function, l: Liveness, u: set<VReg>) {
    Below(l, Swept(f, l, 0)) && Within(l, u)
  }

  lemma ClimbsOn(f: Function, l: Liveness, u: set<VReg>, m: Liveness)
    requires Climbs(f, l, u) && m == Swept(f, l, 0) && m != l
    ensures Climbs(f, m, u) && |Missing(u, m.perBlock)| < |Missing(u, l.perBlock)|
  {
    SweepStaysWithin(f, l, 0, u);
    RoomShrinks(u, l, m);
    SweepKeepsBelow(f, l, m, 0);
  }

  // Whatever the function, the sweeps reach a stationary map.
  lemma SweepsBecomeStationary(f: Function, l: Liveness) returns (n: nat)
    requires Starting(f, l)
    ensures Stationary(f, After(f, l, n))
  {
    EmptyIsBelow(f, l, 0);
    var u := Universe(l);
    var step := (x: Liveness) => Swept(f, x, 0);
    var inv := (x: Liveness) => Climbs(f, x, u);
    var rank := (x: Liveness) => |Missing(u, x.perBlock)|;
    forall x
      ensures Descends(step, inv, rank, x)
    {
      if Climbs(f, x, u) && Swept(f, x, 0) != x {
        ClimbsOn(f, x, u, Swept(f, x, 0));
      }
    }
    n := DescentEnds(step, inv, rank, l);
    SweepsIterate(f, step, l, n);
  }
}
