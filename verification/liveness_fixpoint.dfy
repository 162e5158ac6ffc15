// The loop that computes liveness, and what its result means when ids are unique.
module LivenessFixpoint {
  import opened Wrappers
  import opened Ir
  import opened Cfg
  import opened Liveness
  import opened LivenessSweeps
  import opened SweepWalks

  // ---------- the loops ----------

  // Every successor of the blocks from the i-th on has an entry.
  predicate EntriesFrom(f: Function, entries: set<BlockId>, i: nat)
    requires i <= |f.blocks|
    decreases |f.blocks| - i
  {
    i == |f.blocks| || (HasEntries(f.blocks[i], entries) && EntriesFrom(f, entries, i + 1))
  }

  predicate HasEntries(block: Block, entries: set<BlockId>) {
    forall s :: s in Successors(block.term) ==> s in entries
  }

  lemma {:induction false} EntriesAreKnown(f: Function, i: nat)
    requires i <= |f.blocks|
    ensures EntriesFrom(f, Ids(f), i) <==> forall j :: i <= j < |f.blocks| ==> SuccessorsKnown(f, f.blocks[j])
    decreases |f.blocks| - i
  {
    if i < |f.blocks| {
      EntriesAreKnown(f, i + 1);
    }
  }

  lemma {:induction false} MissingEntry(f: Function, entries: set<BlockId>, i: nat, j: nat)
    requires i <= j < |f.blocks| && !HasEntries(f.blocks[j], entries)
    ensures !EntriesFrom(f, entries, i)
    decreases j - i
  {
    if i < j {
      MissingEntry(f, entries, i + 1, j);
    }
  }

  method ComputeLiveOut(l: Liveness, block: Block) returns (r: Result<set<VReg>, LivenessError>)
    ensures r.Success? <==> HasEntries(block, l.perBlock.Keys)
    ensures r.Success? ==> r.value == LiveOutOf(l, block)
  {
    var liveOut: set<VReg> := {};
    var succs := Successors(block.term);
    for k := 0 to |succs|
      invariant forall m :: 0 <= m < k ==> succs[m] in l.perBlock
      invariant liveOut == FlowsOver(l, block.id, succs[..k])
    {
      var s := succs[k];
      if s !in l.perBlock {
        return Failure(MissingSuccessor(s));
      }
      var passing := set v | v in l.perBlock[s].liveIn && !HasPhiDef(l.phiDefs, s, v);
      var edgeUses := if (block.id, s) in l.phiUses then l.phiUses[(block.id, s)] else {};
      assert passing + edgeUses == FlowsBack(l, block.id, s);
      assert succs[..k + 1][..k] == succs[..k];
      liveOut := liveOut + passing + edgeUses;
    }
    assert succs[..|succs|] == succs;
    r := Success(liveOut);
  }

  method UpdateBlock(before: Liveness, block: Block)
    returns (l: Liveness, changed: bool, error: Option<LivenessError>)
    requires block.id in before.perBlock
    ensures error.None? <==> HasEntries(block, before.perBlock.Keys)
    ensures error.None? ==> l == Updated(before, block) && (changed <==> !Rests(before, block))
  {
    l, changed, error := before, false, None;
    var out := ComputeLiveOut(before, block);
    if out.Failure? {
      error := Some(out.error);
      return;
    }
    var liveOut := out.value;
    var current := before.perBlock[block.id];
    var liveIn := current.useSet + (liveOut - current.defSet);
    if current.liveIn != liveIn || current.liveOut != liveOut {
      l := before.(perBlock := before.perBlock[block.id := current.(liveIn := liveIn, liveOut := liveOut)]);
      changed := true;
    } else {
      assert before.perBlock[block.id := current] == before.perBlock;
    }
  }

  method Sweep(f: Function, before: Liveness)
    returns (l: Liveness, changed: bool, error: Option<LivenessError>)
    requires Covers(f, before.perBlock.Keys)
    ensures error.None? <==> EntriesFrom(f, before.perBlock.Keys, 0)
    ensures error.None? ==> l == Swept(f, before, 0) && (changed <==> Changes(f, before, 0))
  {
    l, changed, error := before, false, None;
    for i := |f.blocks| downto 0
      invariant error.None? && l == Swept(f, before, i) && (changed <==> Changes(f, before, i))
      invariant EntriesFrom(f, before.perBlock.Keys, i)
    {
      var updated;
      l, updated, error := UpdateBlock(l, f.blocks[i]);
      if error.Some? {
        MissingEntry(f, before.perBlock.Keys, 0, i);
        return;
      }
      changed := changed || updated;
    }
  }

  // If a sweep can run at all, the one numbered `last` changes nothing.
  ghost predicate QuietBy(f: Function, start: Liveness, last: nat) {
    EntriesFrom(f, start.perBlock.Keys, 0) ==> QuietAfter(f, start, last)
  }

  lemma QuietSweep(f: Function, start: Liveness) returns (last: nat)
    requires EntriesFrom(f, start.perBlock.Keys, 0) ==> ComesToRest(f, start)
    ensures QuietBy(f, start, last)
  {
    last := 0;
    if EntriesFrom(f, start.perBlock.Keys, 0) {
      last :| QuietAfter(f, start, last);
    }
  }

  // The sweep after the first `sweeps` ones.
  method SweepAgain(f: Function, before: Liveness, ghost start: Liveness, ghost sweeps: nat, ghost last: nat)
    returns (l: Liveness, changed: bool, error: Option<LivenessError>)
    requires Covers(f, before.perBlock.Keys) && before == After(f, start, sweeps)
    requires QuietBy(f, start, last)
    ensures error.None? <==> EntriesFrom(f, start.perBlock.Keys, 0)
    ensures error.None? ==> l == After(f, start, sweeps + 1) && l.perBlock.Keys == start.perBlock.Keys
    ensures error.None? && changed ==> sweeps != last
    ensures error.None? && !changed ==> Settled(f, l)
  {
    l, changed, error := Sweep(f, before);
    if error.None? && !changed {
      QuietIsSettled(f, before, 0);
    }
  }

  // Sweeps until a sweep changes nothing.
  method SweepUntilQuiet(f: Function, start: Liveness)
    returns (r: Result<Liveness, LivenessError>, ghost sweeps: nat)
    requires Covers(f, start.perBlock.Keys)
    requires EntriesFrom(f, start.perBlock.Keys, 0) ==> ComesToRest(f, start)
    ensures r.Success? <==> EntriesFrom(f, start.perBlock.Keys, 0)
    ensures r.Success? ==> Settled(f, r.value) && r.value == After(f, start, sweeps)
  {
    ghost var last := QuietSweep(f, start);
    var l := start;
    sweeps := 0;
    var changed := true;
    while changed
      invariant l == After(f, start, sweeps) && l.perBlock.Keys == start.perBlock.Keys
      invariant changed ==> sweeps <= last
      invariant !changed ==> EntriesFrom(f, start.perBlock.Keys, 0) && Settled(f, l)
      decreases if changed then last + 1 - sweeps else 0
    {
      var error;
      l, changed, error := SweepAgain(f, l, start, sweeps, last);
      if error.Some? {
        return Failure(error.value), sweeps;
      }
      sweeps := sweeps + 1;
    }
    r := Success(l);
  }

  lemma StartingEntries(f: Function, start: Liveness)
    requires Starting(f, start)
    ensures start.perBlock.Keys == Ids(f) && Covers(f, start.perBlock.Keys)
    ensures EntriesFrom(f, start.perBlock.Keys, 0) <==> KnownSuccessors(f)
  {
    assert start.perBlock.Keys == Ids(f);
    EntriesAreKnown(f, 0);
  }

  lemma RestHoldsWalks(f: Function, start: Liveness, sweeps: nat)
    requires Starting(f, start) && Settled(f, After(f, start, sweeps))
    ensures HoldsWalks(f, After(f, start, sweeps))
  {
    StartIsSound(f, start);
    SweepsAreSound(f, start, sweeps);
    SettledIsQuiet(f, After(f, start, sweeps), 0);
    QuietHoldsWalks(f, After(f, start, sweeps));
  }

  // Any function is taken for which the loop ends: one with an unknown successor, on which it fails,
  // or one whose blocks of one id have the same values live at their ends.
  method ComputeLiveness(f: Function) returns (r: Result<Liveness, LivenessError>)
    requires KnownSuccessors(f) ==> TwinsAlike(f)
    ensures r.Success? <==> KnownSuccessors(f)
    ensures r.Success? ==> HoldsWalks(f, r.value)
    ensures r.Success? && UniqueIds(f) ==> IsLiveness(f, r.value)
  {
    var phiDefs, phiUses := CollectPhiData(f);
    var lv := InitialSets(f);
    var start := Liveness(lv, phiDefs, phiUses);
    StartingEntries(f, start);
    RestIsDecided(f, start);
    ghost var sweeps;
    r, sweeps := SweepUntilQuiet(f, start);
    if r.Success? {
      RestHoldsWalks(f, start, sweeps);
      if UniqueIds(f) {
        WalksAreLiveness(f, r.value);
      }
    }
  }

  // ---------- unique ids ----------

  lemma FeederIsUnique(f: Function, k: nat, s: BlockId)
    requires UniqueIds(f) && k <= |f.blocks| && HasBlock(f, s)
    ensures Feeder(f, k, s) == IndexOf(f, s) && f.blocks[Feeder(f, k, s)] == BlockAt(f, s)
  {
    BlockAtIndex(f, Feeder(f, k, s));
  }

  // With unique ids an id's facts are its block's.
  lemma IdFactsAreUnique(f: Function, i: nat, v: VReg)
    requires UniqueIds(f) && i < |f.blocks|
    ensures IdExposes(f, f.blocks[i].id, v) <==> Exposed(f.blocks[i], 0, v)
    ensures IdDefines(f, f.blocks[i].id, v) <==> Defines(f.blocks[i], v)
    ensures IdPhiDef(f, f.blocks[i].id, v) <==> PhiDef(f.blocks[i], v)
    ensures forall a :: IdPhiUse(f, a, f.blocks[i].id, v) <==> PhiUse(f.blocks[i], a, v)
  {
    assert LastOfItsId(f, |f.blocks|, i);
  }

  lemma {:induction false} LeavesIsLive(f: Function, v: VReg, w: seq<nat>)
    requires UniqueIds(f) && LeavesAlong(f, v, w)
    ensures w[0] < |f.blocks| && LiveOut(f, f.blocks[w[0]].id, v)
    decreases |w|, 0
  {
    BlockAtIndex(f, w[0]);
    var s :| LeadsTo(f, w[0], s) && LeavesThrough(f, v, w, s);
    FeederIsUnique(f, w[0] + 1, s);
    IdFactsAreUnique(f, IndexOf(f, s), v);
    if |w| > 1 {
      EntersIsLive(f, v, w[1..]);
    }
    assert LiveOnEdge(f, f.blocks[w[0]].id, s, v);
  }

  lemma {:induction false} EntersIsLive(f: Function, v: VReg, w: seq<nat>)
    requires UniqueIds(f) && EntersAlong(f, v, w)
    ensures w[0] < |f.blocks| && LiveIn(f, f.blocks[w[0]].id, v)
    decreases |w|, 1
  {
    BlockAtIndex(f, w[0]);
    IdFactsAreUnique(f, w[0], v);
    LiveInUnfolds(f, f.blocks[w[0]].id, v);
    if LeavesAlong(f, v, w) {
      LeavesIsLive(f, v, w);
    }
  }

  lemma LiveOnEdgeLeaves(f: Function, i: nat, s: BlockId, v: VReg)
    requires UniqueIds(f) && LeadsTo(f, i, s)
    requires PhiUse(BlockAt(f, s), f.blocks[i].id, v) || (!PhiDef(BlockAt(f, s), v) && Enters(f, IndexOf(f, s), v))
    ensures Leaves(f, i, v)
  {
    FeederIsUnique(f, i + 1, s);
    IdFactsAreUnique(f, IndexOf(f, s), v);
    if PhiUse(BlockAt(f, s), f.blocks[i].id, v) {
      LeavesByPhi(f, i, v, s);
    } else {
      LeavesThroughFeeder(f, i, v, s);
    }
  }

  lemma {:induction false} LiveEnters(f: Function, v: VReg, p: seq<BlockId>)
    requires UniqueIds(f) && LiveAlong(f, v, p)
    ensures Enters(f, IndexOf(f, p[0]), v)
    decreases |p|
  {
    var i := IndexOf(f, p[0]);
    IdFactsAreUnique(f, i, v);
    if |p| > 1 {
      if !PhiUse(BlockAt(f, p[1]), p[0], v) {
        LiveEnters(f, v, p[1..]);
      }
      LiveOnEdgeLeaves(f, i, p[1], v);
    }
    EntersUnfolds(f, i, v);
  }

  // With unique ids the sweeps' walks are walks through the graph.
  lemma WalksAreLive(f: Function, i: nat, v: VReg)
    requires UniqueIds(f) && i < |f.blocks|
    ensures Enters(f, i, v) <==> LiveIn(f, f.blocks[i].id, v)
    ensures Leaves(f, i, v) <==> LiveOut(f, f.blocks[i].id, v)
  {
    var b := f.blocks[i].id;
    BlockAtIndex(f, i);
    if w :| EntersAlong(f, v, w) && w[0] == i {
      EntersIsLive(f, v, w);
    }
    if w :| LeavesAlong(f, v, w) && w[0] == i {
      LeavesIsLive(f, v, w);
    }
    if p :| LiveAlong(f, v, p) && p[0] == b {
      LiveEnters(f, v, p);
    }
    if LiveOut(f, b, v) {
      LiveOutLeaves(f, i, v);
    }
  }

  lemma LiveOutLeaves(f: Function, i: nat, v: VReg)
    requires UniqueIds(f) && i < |f.blocks| && LiveOut(f, f.blocks[i].id, v)
    ensures Leaves(f, i, v)
  {
    BlockAtIndex(f, i);
    var b := f.blocks[i].id;
    var s :| s in Successors(BlockAt(f, b).term) && LiveOnEdge(f, b, s, v);
    if !PhiUse(BlockAt(f, s), b, v) {
      var p :| LiveAlong(f, v, p) && p[0] == s;
      LiveEnters(f, v, p);
    }
    LiveOnEdgeLeaves(f, i, s, v);
  }

  lemma FactsAreData(f: Function, l: Liveness, b: BlockId)
    requires UniqueIds(f) && FactsAt(f, l, b)
    ensures forall v :: HasPhiDef(l.phiDefs, b, v) <==> HasBlock(f, b) && PhiDef(BlockAt(f, b), v)
    ensures forall a, v :: HasPhiUse(l.phiUses, a, b, v) <==> HasBlock(f, b) && PhiUse(BlockAt(f, b), a, v)
    ensures b in l.perBlock ==> HasBlock(f, b)
    ensures b in l.perBlock ==> forall v :: v in l.perBlock[b].useSet <==> Exposed(BlockAt(f, b), 0, v)
    ensures b in l.perBlock ==> forall v :: v in l.perBlock[b].defSet <==> Defines(BlockAt(f, b), v)
  {
    if HasBlock(f, b) {
      forall v
        ensures IdExposes(f, b, v) <==> Exposed(BlockAt(f, b), 0, v)
        ensures IdDefines(f, b, v) <==> Defines(BlockAt(f, b), v)
        ensures IdPhiDef(f, b, v) <==> PhiDef(BlockAt(f, b), v)
        ensures forall a :: IdPhiUse(f, a, b, v) <==> PhiUse(BlockAt(f, b), a, v)
      {
        IdFactsAreUnique(f, IndexOf(f, b), v);
      }
    }
  }

  lemma WalksAreData(f: Function, l: Liveness)
    requires UniqueIds(f) && HoldsWalks(f, l)
    ensures ArePhiData(f, l.phiDefs, l.phiUses) && AreBlockSets(f, l.perBlock)
  {
    forall b
      ensures b in l.perBlock <==> HasBlock(f, b)
    {
      assert FactsAt(f, l, b);
    }
    forall b, v
      ensures HasPhiDef(l.phiDefs, b, v) <==> HasBlock(f, b) && PhiDef(BlockAt(f, b), v)
    {
      FactsAreData(f, l, b);
    }
    forall a, b, v
      ensures HasPhiUse(l.phiUses, a, b, v) <==> HasBlock(f, b) && PhiUse(BlockAt(f, b), a, v)
    {
      FactsAreData(f, l, b);
    }
    forall b, v | b in l.perBlock
      ensures v in l.perBlock[b].useSet <==> Exposed(BlockAt(f, b), 0, v)
      ensures v in l.perBlock[b].defSet <==> Defines(BlockAt(f, b), v)
    {
      FactsAreData(f, l, b);
    }
    assert l.perBlock.Keys == Ids(f);
  }

  lemma WalksAreLiveness(f: Function, l: Liveness)
    requires UniqueIds(f) && HoldsWalks(f, l)
    ensures IsLiveness(f, l)
  {
    WalksAreData(f, l);
    forall b, v | b in l.perBlock
      ensures v in l.perBlock[b].liveIn <==> LiveIn(f, b, v)
      ensures v in l.perBlock[b].liveOut <==> LiveOut(f, b, v)
    {
      assert b in Ids(f);
      var i := IndexOf(f, b);
      assert HoldsAt(f, l, i);
      WalksAreLive(f, i, v);
    }
  }

  lemma UniqueIdsAreAlike(f: Function)
    requires UniqueIds(f)
    ensures TwinsAlike(f)
  {
  }
}
