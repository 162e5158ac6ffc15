// What verification buys the code generator: at every instruction, the result's location is free.
module Separation {
  import opened Ir
  import opened Cfg
  import opened Validation
  import opened Liveness
  import opened Intervals
  import opened Alloc
  import opened ParallelMoves
  import opened Lowering
  import opened Frames
  import opened Edges
  import opened MoveCycles
  import opened BrokenCycles
  import opened ParallelCopy
  import Coverage

  // v still matters when instruction k of block b writes its result.
  ghost predicate MeetsResult(f: Function, b: BlockId, k: nat, v: VReg) {
    HasBlock(f, b) && k < |BlockAt(f, b).insts| && v != BlockAt(f, b).insts[k].dst &&
    (LiveBefore(f, b, k + 1, v) || UsedAt(BlockAt(f, b), k, v) || (BlockAt(f, b).insts[k].PhiI64? && LiveIn(f, b, v)))
  }

  ghost predicate ApartFromResult(u: Compilation, b: BlockId, k: nat, v: VReg) {
    HasBlock(u.f, b) && k < |BlockAt(u.f, b).insts| && v in u.locs &&
    LocOf(u.locs, v) != LocOf(u.locs, BlockAt(u.f, b).insts[k].dst)
  }

  ghost predicate Separated(u: Compilation) {
    forall b, k: nat, v :: MeetsResult(u.f, b, k, v) ==> ApartFromResult(u, b, k, v)
  }

  lemma ResultMeetingIsCovered(f: Function, ivs: seq<LiveInterval>, b: BlockId, k: nat, v: VReg)
    requires AreIntervals(f, ivs) && MeetsResult(f, b, k, v) && PhisFirst(BlockAt(f, b))
    ensures CoversPoint(ivs, v, PosOf(f, b, k)) && CoversPoint(ivs, BlockAt(f, b).insts[k].dst, PosOf(f, b, k))
  {
    Coverage.TouchIsCovered(f, ivs, b, k, BlockAt(f, b).insts[k].dst);
    if LiveBefore(f, b, k + 1, v) {
      Coverage.LiveIsCovered(f, ivs, b, k + 1, v);
    } else if UsedAt(BlockAt(f, b), k, v) {
      Coverage.TouchIsCovered(f, ivs, b, k, v);
    } else {
      Coverage.LiveInMeetsPhi(f, ivs, b, k, v);
    }
  }

  lemma ResultIsFree(
      u: Compilation, ivs: seq<LiveInterval>, regs: PhysRegSet, a: Assignment, b: BlockId, k: nat, v: VReg)
    requires AreIntervals(u.f, ivs) && ValidAssignment(ivs, regs, |regs.regs|, a) && u.locs == a.locs
    requires MeetsResult(u.f, b, k, v) && PhisFirst(BlockAt(u.f, b))
    ensures ApartFromResult(u, b, k, v)
  {
    ResultMeetingIsCovered(u.f, ivs, b, k, v);
    Coverage.CommonPointSeparates(ivs, regs, |regs.regs|, a, v, BlockAt(u.f, b).insts[k].dst, PosOf(u.f, b, k));
  }

  lemma BlockHasPhisFirst(f: Function, b: BlockId)
    requires WellFormed(f) && HasBlock(f, b)
    ensures PhisFirst(BlockAt(f, b)) && ArgsInRange(f, BlockAt(f, b))
  {
    assert BlockAt(f, b) == f.blocks[IndexOf(f, b)];
  }

  lemma VerifiedIsSeparated(f: Function, a: Assignment, regs: PhysRegSet)
    requires WellFormed(f) && Verified(f, a, regs) && |regs.scratch| >= 2
    ensures Separated(CompilationOf(f, a, regs))
  {
    var u := CompilationOf(f, a, regs);
    var ivs :| AreIntervals(f, ivs) && ValidAssignment(ivs, regs, |regs.regs|, a);
    forall b, k: nat, v | MeetsResult(f, b, k, v)
      ensures ApartFromResult(u, b, k, v)
    {
      BlockHasPhisFirst(f, b);
      ResultIsFree(u, ivs, regs, a, b, k, v);
    }
  }

  // A value is never used by the instruction that defines it.
  lemma UseIsNotResult(f: Function, b: BlockId, k: nat, v: VReg)
    requires WellFormed(f) && HasBlock(f, b) && k < |BlockAt(f, b).insts| && UsedAt(BlockAt(f, b), k, v)
    ensures v != BlockAt(f, b).insts[k].dst
  {
    var bi := IndexOf(f, b);
    var block := f.blocks[bi];
    assert UsesOk(f, block) && InstUsesOk(f, block, k);
    var d, i :| DefSite(f, d, i, v) && if f.blocks[d].id == b then i < k else Dominates(f, f.blocks[d].id, b);
    assert DefSite(f, bi, k, block.insts[k].dst);
  }

  // ---------- what the theorem asks of edges ----------

  ghost function ReadSomewhere(f: Function): iset<VReg> {
    iset v | Coverage.UsedSomewhere(f, v)
  }

  // On every edge, followed symbolically, the moves leave each used phi with its input.
  ghost predicate EdgesDeliver(f: Function, a: Assignment, regs: PhysRegSet)
    requires |regs.scratch| >= 2
  {
    forall p, s :: Edge(f, p, s) && HasBlock(f, s) ==>
      EdgeDelivers(CompilationOf(f, a, regs), BlockAt(f, s).insts, p, ReadSomewhere(f))
  }

  lemma UsedPhiLast(f: Function, a: Assignment, regs: PhysRegSet, s: BlockId, i: nat, j: nat)
    requires WellFormed(f) && Verified(f, a, regs) && HasBlock(f, s) && i < j < |BlockAt(f, s).insts|
    requires BlockAt(f, s).insts[i].PhiI64? && BlockAt(f, s).insts[j].PhiI64?
    requires Coverage.UsedSomewhere(f, BlockAt(f, s).insts[i].dst)
    ensures LocOf(a.locs, BlockAt(f, s).insts[i].dst) != LocOf(a.locs, BlockAt(f, s).insts[j].dst)
  {
    var ivs :| AreIntervals(f, ivs) && ValidAssignment(ivs, regs, |regs.regs|, a);
    Coverage.UsedPhiIsPlacedLast(f, ivs, regs, |regs.regs|, a, IndexOf(f, s), i, j);
    DifferentPlaces(a.locs, BlockAt(f, s).insts[i].dst, BlockAt(f, s).insts[j].dst);
  }

  lemma VerifiedPlacesUsedLast(f: Function, a: Assignment, regs: PhysRegSet, p: BlockId, s: BlockId)
    requires WellFormed(f) && Verified(f, a, regs) && HasBlock(f, s)
    ensures UsedArePlacedLast(a.locs, BlockAt(f, s).insts, p, ReadSomewhere(f))
  {
    var insts := BlockAt(f, s).insts;
    forall i, j | 0 <= i < j < |insts| && insts[i].PhiI64? && insts[i].dst in ReadSomewhere(f) && HasInput(insts[j], p)
      ensures LocOf(a.locs, insts[j].dst) != LocOf(a.locs, insts[i].dst)
    {
      UsedPhiLast(f, a, regs, s, i, j);
    }
  }

  // For a verified assignment, an edge none of whose cycles passes through a location of two phis
  // delivers exactly when no used phi already in place shares its location with a phi that moves,
  // and no used phi closes a bad cycle.
  lemma VerifiedEdgeIsExact(f: Function, a: Assignment, regs: PhysRegSet, p: BlockId, s: BlockId)
    requires WellFormed(f) && ReadyForCodegen(regs) && f.args <= 6 && FrameFits(f.args + a.stackSlots)
    requires Verified(f, a, regs) && HasBlock(f, p) && HasBlock(f, s)
    requires CyclesOffShared(a.locs, BlockAt(f, s).insts, p)
    ensures var u := CompilationOf(f, a, regs);
      AlwaysServed(u, BlockAt(f, s).insts, p, ReadSomewhere(f)) <==>
        EdgeIsSafe(u, BlockAt(f, s).insts, p, ReadSomewhere(f))
  {
    var u := CompilationOf(f, a, regs);
    AcceptedIsPlaced(f, a, regs);
    VerifiedAssigns(f, a, regs);
    EdgePhisAreAssigned(u, p, s);
    VerifiedPlacesUsedLast(f, a, regs, p, s);
    SafeEdgeIsExact(u, BlockAt(f, s).insts, p, ReadSomewhere(f));
    EdgeIsExact(u, BlockAt(f, s).insts, p, ReadSomewhere(f));
  }

  lemma DifferentPlaces(locs: map<VReg, Location>, x: VReg, y: VReg)
    requires x in locs && y in locs && !SameLocation(locs, x, y)
    ensures LocOf(locs, x) != LocOf(locs, y)
  {
  }

  lemma PhisLieApart(u: Compilation, b: BlockId)
    requires Assigned(u) && HasBlock(u.f, b) && Coverage.PhisApart(BlockAt(u.f, b), u.locs)
    ensures ApartDsts(u.locs, BlockAt(u.f, b).insts)
  {
    var insts := BlockAt(u.f, b).insts;
    forall i, j | 0 <= i < j < |insts| && insts[i].PhiI64? && insts[j].PhiI64?
      ensures LocOf(u.locs, insts[i].dst) != LocOf(u.locs, insts[j].dst)
    {
      InstIsAssigned(u, b, i);
      InstIsAssigned(u, b, j);
      DifferentPlaces(u.locs, insts[i].dst, insts[j].dst);
    }
  }

  lemma EdgePhisAreAssigned(u: Compilation, pred: BlockId, succ: BlockId)
    requires Assigned(u) && HasBlock(u.f, pred) && HasBlock(u.f, succ)
    ensures PhisAssigned(u.locs, BlockAt(u.f, succ).insts, pred)
  {
    var insts := BlockAt(u.f, succ).insts;
    forall i, source | 0 <= i < |insts| && PhiReads(insts[i], pred, source)
      ensures insts[i].dst in u.locs && source in u.locs
    {
      InstIsAssigned(u, succ, i);
      PhiInputIsAssigned(u, pred, succ, source);
    }
  }

  lemma PhisAreDistinct(f: Function, b: BlockId)
    requires WellFormed(f) && HasBlock(f, b)
    ensures DistinctPhis(BlockAt(f, b).insts)
  {
    var bi := IndexOf(f, b);
    var insts := f.blocks[bi].insts;
    forall i, j | 0 <= i < j < |insts| && insts[i].PhiI64? && insts[j].PhiI64?
      ensures insts[i].dst != insts[j].dst
    {
      assert DefSite(f, bi, i, insts[i].dst) && DefSite(f, bi, j, insts[j].dst);
    }
  }

  // ---------- when edges deliver ----------

  // The phis of a block are all in registers, or there are at most two.
  predicate EasyPhis(block: Block, locs: map<VReg, Location>) {
    || (forall i :: 0 <= i < |block.insts| && block.insts[i].PhiI64? ==> LocOf(locs, block.insts[i].dst).InReg?)
    || |PhisOf(block.insts)| <= 2
  }

  lemma {:induction false} MovesAreFew(locs: map<VReg, Location>, phis: seq<Phi>, pred: BlockId)
    ensures |MovesFor(locs, phis, pred)| <= |phis|
    decreases phis
  {
    if phis != [] {
      MovesAreFew(locs, phis[..|phis| - 1], pred);
    }
  }

  lemma CycleIsOfDsts(moves: seq<Move>, cycle: seq<MoveLocation>, k: nat) returns (m: Move)
    requires IsCycle(moves, cycle) && k < |cycle|
    ensures m in moves && m.dst == cycle[k]
  {
    if k < |cycle| - 1 {
      m := Move(cycle[k], cycle[k + 1]);
    } else {
      m := Move(cycle[k], cycle[0]);
    }
  }

  lemma ShortCycles(moves: seq<Move>, cycle: seq<MoveLocation>)
    requires IsCycle(moves, cycle)
    ensures |cycle| <= |moves|
  {
    forall k | 0 <= k < |cycle|
      ensures IsDst(moves, cycle[k])
    {
      var m := CycleIsOfDsts(moves, cycle, k);
      var i := MemberIndex(moves, m);
    }
    TrailIsShort(moves, cycle);
  }

  lemma EasyPhisHaveNoBadCycle(locs: map<VReg, Location>, block: Block, pred: BlockId)
    requires EasyPhis(block, locs)
    ensures !HasBadCycle(MovesFor(locs, PhisOf(block.insts), pred))
  {
    var moves := MovesFor(locs, PhisOf(block.insts), pred);
    forall cycle: seq<MoveLocation> | BadCycle(moves, cycle)
      ensures false
    {
      var k :| 2 <= k < |cycle| && cycle[k].OnStack?;
      var m := CycleIsOfDsts(moves, cycle, k);
      var i := MoveOrigin(locs, block.insts, pred, m);
      MovesAreFew(locs, PhisOf(block.insts), pred);
      ShortCycles(moves, cycle);
    }
  }

  // Conditions a caller can check by looking at each block: its phis are few or unspilled, and those
  // that have a later phi beside them are used.
  ghost predicate EasyEdges(f: Function, a: Assignment) {
    forall i :: 0 <= i < |f.blocks| ==> EasyPhis(f.blocks[i], a.locs) && Coverage.EarlierPhisUsed(f, f.blocks[i])
  }

  lemma UsedPhisLieApart(f: Function, a: Assignment, regs: PhysRegSet, i: nat)
    requires WellFormed(f) && Verified(f, a, regs) && EasyEdges(f, a) && i < |f.blocks|
    ensures Coverage.PhisApart(f.blocks[i], a.locs)
  {
    var ivs :| AreIntervals(f, ivs) && ValidAssignment(ivs, regs, |regs.regs|, a);
    Coverage.UsedPhisAreApart(f, ivs, regs, |regs.regs|, a, i);
  }

  lemma DeliveringAllDeliversUsed(u: Compilation, insts: seq<Inst>, p: BlockId, used: iset<VReg>)
    requires EdgeDelivers(u, insts, p, AllPhis(insts))
    ensures EdgeDelivers(u, insts, p, used)
  {
    forall i, source | 0 <= i < |insts| && PhiReads(insts[i], p, source) && insts[i].dst in used
      ensures PhiTraced(u, insts, p, insts[i], source)
    {
      assert PhiOf(insts, |insts|, insts[i].dst);
    }
  }

  lemma EasyEdgeDelivers(f: Function, a: Assignment, regs: PhysRegSet, p: BlockId, s: BlockId)
    requires WellFormed(f) && ReadyForCodegen(regs) && f.args <= 6 && FrameFits(f.args + a.stackSlots)
    requires Verified(f, a, regs) && EasyEdges(f, a) && HasBlock(f, p) && HasBlock(f, s)
    ensures EdgeDelivers(CompilationOf(f, a, regs), BlockAt(f, s).insts, p, ReadSomewhere(f))
  {
    var u := CompilationOf(f, a, regs);
    var insts := BlockAt(f, s).insts;
    AcceptedIsPlaced(f, a, regs);
    VerifiedAssigns(f, a, regs);
    EdgePhisAreAssigned(u, p, s);
    UsedPhisLieApart(f, a, regs, IndexOf(f, s));
    PhisLieApart(u, s);
    EasyPhisHaveNoBadCycle(a.locs, BlockAt(f, s), p);
    ApartEdgeIsExact(u, insts, p);
    DeliveringAllDeliversUsed(u, insts, p, ReadSomewhere(f));
  }

  lemma EasyEdgesDeliver(f: Function, a: Assignment, regs: PhysRegSet)
    requires WellFormed(f) && ReadyForCodegen(regs) && f.args <= 6 && FrameFits(f.args + a.stackSlots)
    requires Verified(f, a, regs) && EasyEdges(f, a)
    ensures EdgesDeliver(f, a, regs)
  {
    forall p, s | Edge(f, p, s) && HasBlock(f, s)
      ensures EdgeDelivers(CompilationOf(f, a, regs), BlockAt(f, s).insts, p, ReadSomewhere(f))
    {
      EdgeHasBlocks(f, p, s);
      EasyEdgeDelivers(f, a, regs, p, s);
    }
  }
}
