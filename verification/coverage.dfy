// Live intervals over-approximate liveness at every program point, so an assignment that keeps
// overlapping intervals apart keeps interfering values apart.
module Coverage {
  import opened Ir
  import opened Cfg
  import opened Liveness
  import opened Intervals
  import opened Alloc
  import opened Validation

  lemma TouchIsCovered(f: Function, ivs: seq<LiveInterval>, b: BlockId, k: nat, v: VReg)
    requires AreIntervals(f, ivs) && TouchedAt(f, b, k, v)
    ensures CoversPoint(ivs, v, PosOf(f, b, k))
  {
    assert Touched(f, v, PosOf(f, b, k));
    assert (v, PosOf(f, b, k)) in AllTouches(f);
  }

  lemma Convex(ivs: seq<LiveInterval>, v: VReg, lo: nat, mid: nat, hi: nat)
    requires DistinctValues(ivs) && CoversPoint(ivs, v, lo) && CoversPoint(ivs, v, hi) && lo <= mid <= hi
    ensures CoversPoint(ivs, v, mid)
  {
    var i :| 0 <= i < |ivs| && ivs[i].v == v && ivs[i].start <= lo <= ivs[i].end;
    var j :| 0 <= j < |ivs| && ivs[j].v == v && ivs[j].start <= hi <= ivs[j].end;
    assert i == j;
  }

  // A value live before index k was touched at some index up to k, and before k when k > 0.
  lemma TouchedBelow(f: Function, ivs: seq<LiveInterval>, b: BlockId, k: nat, v: VReg) returns (i: nat)
    requires AreIntervals(f, ivs) && HasBlock(f, b) && k <= |BlockAt(f, b).insts| && LiveBefore(f, b, k, v)
    ensures i <= k && (k > 0 ==> i < k) && CoversPoint(ivs, v, PosOf(f, b, i))
  {
    var block := BlockAt(f, b);
    if DefinedIn(block, 0, k, v) {
      var d :| 0 <= d < |block.insts| && 0 <= d < k && block.insts[d].dst == v;
      TouchIsCovered(f, ivs, b, d, v);
      return d;
    }
    LiveFromStart(f, b, k, v);
    LiveInUnfolds(f, b, v);
    TouchIsCovered(f, ivs, b, 0, v);
    i := 0;
  }

  lemma LiveFromStart(f: Function, b: BlockId, k: nat, v: VReg)
    requires HasBlock(f, b) && k <= |BlockAt(f, b).insts|
    requires LiveBefore(f, b, k, v) && !DefinedIn(BlockAt(f, b), 0, k, v)
    ensures LiveBefore(f, b, 0, v)
  {
    var block := BlockAt(f, b);
    if Exposed(block, k, v) {
      var j :| k <= j <= |block.insts| && UsedAt(block, j, v) && !DefinedIn(block, k, j, v);
      assert !DefinedIn(block, 0, j, v);
    } else {
      assert !DefinedIn(block, 0, |block.insts|, v);
    }
  }

  lemma TouchedAbove(f: Function, ivs: seq<LiveInterval>, b: BlockId, k: nat, v: VReg) returns (j: nat)
    requires AreIntervals(f, ivs) && HasBlock(f, b) && k <= |BlockAt(f, b).insts| && LiveBefore(f, b, k, v)
    ensures k <= j <= |BlockAt(f, b).insts| && CoversPoint(ivs, v, PosOf(f, b, j))
    ensures UsedAt(BlockAt(f, b), j, v) || j == |BlockAt(f, b).insts|
  {
    var block := BlockAt(f, b);
    if Exposed(block, k, v) {
      var l :| k <= l <= |block.insts| && UsedAt(block, l, v) && !DefinedIn(block, k, l, v);
      j := l;
    } else {
      j := |block.insts|;
    }
    TouchIsCovered(f, ivs, b, j, v);
  }

  // For any block layout and any loops: where a value is live, its interval contains the position,
  // and the position of the instruction just passed.
  lemma LiveIsCovered(f: Function, ivs: seq<LiveInterval>, b: BlockId, k: nat, v: VReg)
    requires AreIntervals(f, ivs) && HasBlock(f, b) && k <= |BlockAt(f, b).insts| && LiveBefore(f, b, k, v)
    ensures CoversPoint(ivs, v, PosOf(f, b, k))
    ensures k > 0 ==> CoversPoint(ivs, v, PosOf(f, b, k - 1))
  {
    var i := TouchedBelow(f, ivs, b, k, v);
    var j := TouchedAbove(f, ivs, b, k, v);
    Convex(ivs, v, PosOf(f, b, i), PosOf(f, b, k), PosOf(f, b, j));
    if k > 0 {
      Convex(ivs, v, PosOf(f, b, i), PosOf(f, b, k - 1), PosOf(f, b, j));
    }
  }

  lemma CommonPointOverlaps(ivs: seq<LiveInterval>, v: VReg, w: VReg, pos: nat) returns (i: nat, j: nat)
    requires v != w && CoversPoint(ivs, v, pos) && CoversPoint(ivs, w, pos)
    ensures i < |ivs| && j < |ivs| && i != j && ivs[i].v == v && ivs[j].v == w && ivs[i].Overlaps(ivs[j])
  {
    i :| 0 <= i < |ivs| && ivs[i].v == v && ivs[i].start <= pos <= ivs[i].end;
    j :| 0 <= j < |ivs| && ivs[j].v == w && ivs[j].start <= pos <= ivs[j].end;
  }

  // A verified assignment separates values whose intervals share a position.
  lemma CommonPointSeparates(
      ivs: seq<LiveInterval>, regs: PhysRegSet, maxRegs: nat, a: Assignment, v: VReg, w: VReg, pos: nat)
    requires ValidAssignment(ivs, regs, maxRegs, a) && v != w && CoversPoint(ivs, v, pos) && CoversPoint(ivs, w, pos)
    ensures v in a.locs && w in a.locs && a.locs[v] != a.locs[w]
  {
    var i, j := CommonPointOverlaps(ivs, v, w, pos);
    assert ivs[i].v in Values(ivs) && ivs[j].v in Values(ivs);
    if i < j {
      assert !Share(a.locs, ivs[i], ivs[j]);
    } else {
      assert ivs[j].Overlaps(ivs[i]) && !Share(a.locs, ivs[j], ivs[i]);
    }
  }

  lemma CoveredIsAssigned(ivs: seq<LiveInterval>, regs: PhysRegSet, maxRegs: nat, a: Assignment, v: VReg, pos: nat)
    requires ValidAssignment(ivs, regs, maxRegs, a) && CoversPoint(ivs, v, pos)
    ensures v in a.locs
  {
    var i :| 0 <= i < |ivs| && ivs[i].v == v && ivs[i].start <= pos <= ivs[i].end;
    assert ivs[i].v in Values(ivs);
  }

  // ---------- phis ----------

  // A value live into a block reaches every phi of it.
  lemma LiveInMeetsPhi(f: Function, ivs: seq<LiveInterval>, b: BlockId, i: nat, v: VReg)
    requires AreIntervals(f, ivs) && HasBlock(f, b) && PhisFirst(BlockAt(f, b)) && LiveIn(f, b, v)
    requires i < |BlockAt(f, b).insts| && BlockAt(f, b).insts[i].PhiI64?
    ensures CoversPoint(ivs, v, PosOf(f, b, i))
  {
    LiveInUnfolds(f, b, v);
    TouchIsCovered(f, ivs, b, 0, v);
    var j := TouchedAbove(f, ivs, b, 0, v);
    Convex(ivs, v, PosOf(f, b, 0), PosOf(f, b, i), PosOf(f, b, j));
  }

  ghost predicate UsedSomewhere(f: Function, v: VReg) {
    || (exists c, l :: HasBlock(f, c) && UsedAt(BlockAt(f, c), l, v))
    || (exists a, s :: HasBlock(f, s) && PhiUse(BlockAt(f, s), a, v))
  }

  lemma ExposedIsUsed(f: Function, b: BlockId, k: int, v: VReg)
    requires HasBlock(f, b) && Exposed(BlockAt(f, b), k, v)
    ensures UsedSomewhere(f, v)
  {
    var j :| k <= j <= |BlockAt(f, b).insts| && UsedAt(BlockAt(f, b), j, v) && !DefinedIn(BlockAt(f, b), k, j, v);
  }

  lemma {:induction false} LiveAlongIsUsed(f: Function, v: VReg, p: seq<BlockId>)
    requires LiveAlong(f, v, p)
    ensures UsedSomewhere(f, v)
    decreases |p|
  {
    if |p| == 1 {
      ExposedIsUsed(f, p[0], 0, v);
    } else if !PhiUse(BlockAt(f, p[1]), p[0], v) {
      LiveAlongIsUsed(f, v, p[1..]);
    }
  }

  // What is live anywhere is used somewhere.
  lemma LiveIsUsed(f: Function, b: BlockId, k: int, v: VReg)
    requires LiveBefore(f, b, k, v)
    ensures UsedSomewhere(f, v)
  {
    if Exposed(BlockAt(f, b), k, v) {
      ExposedIsUsed(f, b, k, v);
    } else {
      var s :| s in Successors(BlockAt(f, b).term) && LiveOnEdge(f, b, s, v);
      if !PhiUse(BlockAt(f, s), b, v) {
        var p :| LiveAlong(f, v, p) && p[0] == s;
        LiveAlongIsUsed(f, v, p);
      }
    }
  }

  // Liveness at the end of a walk without definitions reaches back to its first block's end.
  lemma {:induction false} LiveBackAlong(f: Function, v: VReg, q: seq<BlockId>)
    requires UniqueIds(f) && KnownSuccessors(f) && IsPath(f, q) && |q| >= 2
    requires forall i :: 1 <= i < |q| ==> HasBlock(f, q[i]) && !Defines(BlockAt(f, q[i]), v)
    requires LiveIn(f, q[|q| - 1], v)
    ensures LiveOut(f, q[0], v)
    decreases |q|
  {
    assert Edge(f, q[0], q[0 + 1]);
    EdgeOfBlock(f, q[0], q[1]);
    if |q| > 2 {
      assert IsPath(f, q[1..]) by {
        forall i | 0 <= i < |q[1..]| - 1
          ensures Edge(f, q[1..][i], q[1..][i + 1])
        {
          assert Edge(f, q[i + 1], q[i + 1 + 1]);
        }
      }
      LiveBackAlong(f, v, q[1..]);
      LiveInUnfolds(f, q[1], v);
    }
    assert LiveOnEdge(f, q[0], q[1], v);
  }

  // The part of a walk from the last time it visits b.
  lemma {:induction false} LastVisit(f: Function, p: seq<BlockId>, b: BlockId) returns (q: seq<BlockId>)
    requires IsPath(f, p) && b in p && KnownSuccessors(f)
    ensures IsPath(f, q) && q[0] == b && q[|q| - 1] == p[|p| - 1]
    ensures forall i :: 1 <= i < |q| ==> q[i] != b && HasBlock(f, q[i])
    decreases |p|
  {
    if b in p[1..] {
      forall i | 0 <= i < |p[1..]| - 1
        ensures Edge(f, p[1..][i], p[1..][i + 1])
      {
        assert Edge(f, p[i + 1], p[i + 1 + 1]);
      }
      PathHasBlocks(f, p, 1);
      q := LastVisit(f, p[1..], b);
    } else {
      forall i | 1 <= i < |p|
        ensures p[i] != b && HasBlock(f, p[i])
      {
        assert p[i] == p[1..][i - 1];
        PathHasBlocks(f, p, i);
      }
      q := p;
    }
  }

  // A definition that dominates a block where its value is live in is live out of its own block.
  lemma DominatingDefIsLiveOut(f: Function, bi: nat, i: nat, c: BlockId, v: VReg)
    requires WellFormed(f) && DefSite(f, bi, i, v) && HasBlock(f, c) && c != f.blocks[bi].id
    requires Dominates(f, f.blocks[bi].id, c) && LiveIn(f, c, v)
    ensures LiveOut(f, f.blocks[bi].id, v)
  {
    var b := f.blocks[bi].id;
    assert Reachable(f, c);
    var p :| PathFromTo(f, p, f.entry, c);
    var q := LastVisit(f, p, b);
    forall k | 1 <= k < |q|
      ensures !Defines(BlockAt(f, q[k]), v)
    {
      DefinedOnce(f, bi, i, q[k], v);
    }
    LiveBackAlong(f, v, q);
  }

  lemma DefinedOnce(f: Function, bi: nat, i: nat, c: BlockId, v: VReg)
    requires SingleDefinitions(f) && DefSite(f, bi, i, v) && HasBlock(f, c) && c != f.blocks[bi].id
    ensures !Defines(BlockAt(f, c), v)
  {
    var ci := IndexOf(f, c);
    forall d | 0 <= d < |BlockAt(f, c).insts|
      ensures BlockAt(f, c).insts[d].dst != v
    {
      assert DefSite(f, ci, d, BlockAt(f, c).insts[d].dst);
    }
  }

  lemma UniqueSite(f: Function, bi: nat, i: nat, d: int, j: int, v: VReg)
    requires SingleDefinitions(f) && DefSite(f, bi, i, v) && DefSite(f, d, j, v)
    ensures d == bi && j == i
  {
  }

  // Wherever it is used, a phi's value lives on past the other phis of its block.
  lemma UseKeepsPhiLive(f: Function, ivs: seq<LiveInterval>, bi: nat, i: nat, j: nat, c: BlockId, l: int)
    requires WellFormed(f) && AreIntervals(f, ivs) && bi < |f.blocks| && i < j < |f.blocks[bi].insts|
    requires f.blocks[bi].insts[i].PhiI64? && f.blocks[bi].insts[j].PhiI64?
    requires HasBlock(f, c) && UsedAt(BlockAt(f, c), l, f.blocks[bi].insts[i].dst)
    ensures exists hi: nat :: j <= hi && CoversPoint(ivs, f.blocks[bi].insts[i].dst, PosOf(f, f.blocks[bi].id, hi))
  {
    var block := f.blocks[bi];
    var v := block.insts[i].dst;
    BlockAtIndex(f, bi);
    var ci := IndexOf(f, c);
    assert UsesOk(f, f.blocks[ci]);
    assert l < |BlockAt(f, c).insts| ==> InstUsesOk(f, f.blocks[ci], l);
    assert UseDominated(f, v, f.blocks[ci], l);
    var d, n :| DefSite(f, d, n, v) && if f.blocks[d].id == c then n < l else Dominates(f, f.blocks[d].id, c);
    UniqueSite(f, bi, i, d, n, v);
    if c == block.id {
      assert PhisFirst(block);
      TouchIsCovered(f, ivs, c, l, v);
    } else {
      DefinedOnce(f, bi, i, c, v);
      assert !DefinedIn(BlockAt(f, c), 0, l, v);
      LiveInUnfolds(f, c, v);
      DominatingDefIsLiveOut(f, bi, i, c, v);
      TouchIsCovered(f, ivs, block.id, |block.insts|, v);
    }
  }

  lemma EdgeUseKeepsPhiLive(f: Function, ivs: seq<LiveInterval>, bi: nat, i: nat, a: BlockId, s: BlockId)
    requires WellFormed(f) && AreIntervals(f, ivs) && bi < |f.blocks| && i < |f.blocks[bi].insts|
    requires HasBlock(f, s) && PhiUse(BlockAt(f, s), a, f.blocks[bi].insts[i].dst)
    ensures CoversPoint(ivs, f.blocks[bi].insts[i].dst, PosOf(f, f.blocks[bi].id, |f.blocks[bi].insts|))
  {
    var block := f.blocks[bi];
    var v := block.insts[i].dst;
    BlockAtIndex(f, bi);
    PhiUseIsDominated(f, s, a, v);
    var d, n :| DefSite(f, d, n, v) && Dominates(f, f.blocks[d].id, a);
    assert DefSite(f, bi, i, v);
    UniqueSite(f, bi, i, d, n, v);
    if a == block.id {
      assert UsedOnSomeEdge(f, a, v);
    } else {
      EdgeOfBlock(f, a, s);
      assert LiveOnEdge(f, a, s, v);
      DefinedOnce(f, bi, i, a, v);
      LiveInUnfolds(f, a, v);
      DominatingDefIsLiveOut(f, bi, i, a, v);
    }
    TouchIsCovered(f, ivs, block.id, |block.insts|, v);
  }

  lemma PhiUseIsDominated(f: Function, s: BlockId, a: BlockId, v: VReg)
    requires WellFormed(f) && HasBlock(f, s) && PhiUse(BlockAt(f, s), a, v)
    ensures HasBlock(f, a) && Edge(f, a, s) && PhiInputDominated(f, v, a)
  {
    var si := IndexOf(f, s);
    var k :| 0 <= k < |f.blocks[si].insts| && f.blocks[si].insts[k].PhiI64? && (a, v) in f.blocks[si].insts[k].incoming;
    assert UsesOk(f, f.blocks[si]) && InstUsesOk(f, f.blocks[si], k);
    var incoming := f.blocks[si].insts[k].incoming;
    var m :| 0 <= m < |incoming| && incoming[m] == (a, v);
    assert IncomingFrom(incoming, |incoming|, a);
    EdgeHasBlocks(f, a, s);
  }

  // Two phis of one block overlap whenever the earlier one's value is used anywhere.
  lemma UsedPhisOverlap(f: Function, ivs: seq<LiveInterval>, bi: nat, i: nat, j: nat)
    requires WellFormed(f) && AreIntervals(f, ivs) && bi < |f.blocks| && i < j < |f.blocks[bi].insts|
    requires f.blocks[bi].insts[i].PhiI64? && f.blocks[bi].insts[j].PhiI64?
    requires UsedSomewhere(f, f.blocks[bi].insts[i].dst)
    ensures CoversPoint(ivs, f.blocks[bi].insts[i].dst, PosOf(f, f.blocks[bi].id, j))
    ensures CoversPoint(ivs, f.blocks[bi].insts[j].dst, PosOf(f, f.blocks[bi].id, j))
  {
    var block := f.blocks[bi];
    var v := block.insts[i].dst;
    BlockAtIndex(f, bi);
    TouchIsCovered(f, ivs, block.id, i, v);
    TouchIsCovered(f, ivs, block.id, j, block.insts[j].dst);
    var hi: nat := |block.insts|;
    if c, l :| HasBlock(f, c) && UsedAt(BlockAt(f, c), l, v) {
      UseKeepsPhiLive(f, ivs, bi, i, j, c, l);
      hi :| j <= hi && CoversPoint(ivs, v, PosOf(f, block.id, hi));
    } else {
      var a, s :| HasBlock(f, s) && PhiUse(BlockAt(f, s), a, v);
      EdgeUseKeepsPhiLive(f, ivs, bi, i, a, s);
    }
    Convex(ivs, v, PosOf(f, block.id, i), PosOf(f, block.id, j), PosOf(f, block.id, hi));
  }

  // ---------- what the code generator needs of an assignment ----------

  // The phis of one block have pairwise distinct locations.
  predicate PhisApart(block: Block, locs: map<VReg, Location>) {
    forall i, j :: 0 <= i < j < |block.insts| && block.insts[i].PhiI64? && block.insts[j].PhiI64? ==>
      !SameLocation(locs, block.insts[i].dst, block.insts[j].dst)
  }

  // A used phi shares its location with no later phi of its block.
  lemma UsedPhiIsPlacedLast(
    f: Function, ivs: seq<LiveInterval>, regs: PhysRegSet, maxRegs: nat, a: Assignment, bi: nat, i: nat, j: nat)
    requires WellFormed(f) && AreIntervals(f, ivs) && ValidAssignment(ivs, regs, maxRegs, a) && bi < |f.blocks|
    requires i < j < |f.blocks[bi].insts| && f.blocks[bi].insts[i].PhiI64? && f.blocks[bi].insts[j].PhiI64?
    requires UsedSomewhere(f, f.blocks[bi].insts[i].dst)
    ensures f.blocks[bi].insts[i].dst in a.locs && f.blocks[bi].insts[j].dst in a.locs
    ensures !SameLocation(a.locs, f.blocks[bi].insts[i].dst, f.blocks[bi].insts[j].dst)
  {
    var block := f.blocks[bi];
    assert DefSite(f, bi, i, block.insts[i].dst) && DefSite(f, bi, j, block.insts[j].dst);
    UsedPhisOverlap(f, ivs, bi, i, j);
    var pos := PosOf(f, block.id, j);
    CommonPointSeparates(ivs, regs, maxRegs, a, block.insts[i].dst, block.insts[j].dst, pos);
  }

  // So the phis of a block lie apart when those that have a later phi in it are used.
  lemma UsedPhisAreApart(f: Function, ivs: seq<LiveInterval>, regs: PhysRegSet, maxRegs: nat, a: Assignment, bi: nat)
    requires WellFormed(f) && AreIntervals(f, ivs) && ValidAssignment(ivs, regs, maxRegs, a) && bi < |f.blocks|
    requires EarlierPhisUsed(f, f.blocks[bi])
    ensures PhisApart(f.blocks[bi], a.locs)
  {
    var block := f.blocks[bi];
    forall i, j | 0 <= i < j < |block.insts| && block.insts[i].PhiI64? && block.insts[j].PhiI64?
      ensures !SameLocation(a.locs, block.insts[i].dst, block.insts[j].dst)
    {
      UsedPhiIsPlacedLast(f, ivs, regs, maxRegs, a, bi, i, j);
    }
  }

  ghost predicate EarlierPhisUsed(f: Function, block: Block) {
    forall i, j :: 0 <= i < j < |block.insts| && block.insts[i].PhiI64? && block.insts[j].PhiI64? ==>
      UsedSomewhere(f, block.insts[i].dst)
  }
}
