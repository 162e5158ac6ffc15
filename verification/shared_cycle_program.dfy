// A two-block function whose only edge has a cycle through a location of two phis. It is accepted with
// its phis in either order, and only in one of them does the edge deliver.
module SharedCycleProgram {
  import opened Ir
  import opened Cfg
  import opened Validation
  import opened Liveness
  import opened Intervals
  import opened Sorting
  import opened Alloc
  import opened LinearScan
  import opened Machine
  import opened ParallelMoves
  import opened Lowering
  import opened Frames
  import opened Edges
  import opened Separation
  import opened SharedCycle
  import Coverage
  import Default = DeadPhi

  const B0 := BlockId(0)
  const B1 := BlockId(1)

  function First(): Block {
    Block(B0, [ConstI64(X, 1), ConstI64(Y, 2), ConstI64(Z, 3)], Terminator.Jmp(B1))
  }

  function Middle(swapped: bool): Inst {
    if swapped then OtherPhi(B0) else LastPhi(B0)
  }

  function Late(swapped: bool): Inst {
    if swapped then LastPhi(B0) else OtherPhi(B0)
  }

  function Second(swapped: bool): Block {
    Block(B1, [DeadPhi(B0), Middle(swapped), Late(swapped), AddI64(SUM, LAST, OTHER)], Terminator.Ret(SUM))
  }

  function Twist(swapped: bool): Function {
    Function(0, B0, [First(), Second(swapped)])
  }

  // ---------- the function is well formed ----------

  lemma TwistBlocks(swapped: bool)
    ensures var f := Twist(swapped);
      && (forall b :: HasBlock(f, b) <==> b == B0 || b == B1) && UniqueIds(f)
      && HasBlock(f, B0) && BlockAt(f, B0) == First() && IndexOf(f, B0) == 0
      && HasBlock(f, B1) && BlockAt(f, B1) == Second(swapped) && IndexOf(f, B1) == 1
  {
    var f := Twist(swapped);
    assert f.blocks[0].id == B0 && f.blocks[1].id == B1;
    BlockAtIndex(f, 0);
    BlockAtIndex(f, 1);
  }

  lemma TwistEdges(swapped: bool)
    ensures forall a, b :: Edge(Twist(swapped), a, b) <==> a == B0 && b == B1
    ensures KnownSuccessors(Twist(swapped)) && AllReachable(Twist(swapped))
  {
    var f := Twist(swapped);
    TwistBlocks(swapped);
    forall a, b
      ensures Edge(f, a, b) <==> a == B0 && b == B1
    {
      assert BlockEdge(f.blocks[0], B0, B1);
      if Edge(f, a, b) {
        var i :| 0 <= i < |f.blocks| && BlockEdge(f.blocks[i], a, b);
      }
    }
    assert PathFromTo(f, [B0], f.entry, B0);
    assert PathFromTo(f, [B0, B1], f.entry, B1);
  }

  lemma TwistSites(swapped: bool, bi: int, i: int, v: VReg)
    ensures DefSite(Twist(swapped), bi, i, v) <==>
      (bi == 0 && ((i == 0 && v == X) || (i == 1 && v == Y) || (i == 2 && v == Z))) ||
      (bi == 1 && ((i == 0 && v == DEAD) || (i == 1 && v == Middle(swapped).dst) ||
                   (i == 2 && v == Late(swapped).dst) || (i == 3 && v == SUM)))
  {
  }

  lemma TwistPhi(swapped: bool, v: VReg, i: int)
    requires DefSite(Twist(swapped), 0, i, v)
    ensures PhiMatchesPredecessors(Twist(swapped), B1, [(B0, v)])
  {
    var f := Twist(swapped);
    var incoming := [(B0, v)];
    TwistEdges(swapped);
    assert incoming[0].0 == B0;
    assert Dominates(f, B0, B0);
    assert PhiInputDominated(f, v, B0);
  }

  lemma TwistUses(swapped: bool)
    ensures UsesOk(Twist(swapped), First()) && UsesOk(Twist(swapped), Second(swapped))
  {
    var f := Twist(swapped);
    TwistPhi(swapped, X, 0);
    TwistPhi(swapped, Y, 1);
    TwistPhi(swapped, Z, 2);
    assert DefSite(f, 1, 1, Middle(swapped).dst) && DefSite(f, 1, 2, Late(swapped).dst) && DefSite(f, 1, 3, SUM);
    assert UseDominated(f, Middle(swapped).dst, Second(swapped), 3);
    assert UseDominated(f, Late(swapped).dst, Second(swapped), 3);
    assert UseDominated(f, SUM, Second(swapped), 4);
    forall index | 0 <= index < 4
      ensures InstUsesOk(f, Second(swapped), index)
    {
    }
  }

  lemma TwistIsWellFormed(swapped: bool)
    ensures WellFormed(Twist(swapped))
  {
    var f := Twist(swapped);
    TwistBlocks(swapped);
    TwistEdges(swapped);
    forall bi, i, bj, j, v | DefSite(f, bi, i, v) && DefSite(f, bj, j, v)
      ensures bi == bj && i == j
    {
      TwistSites(swapped, bi, i, v);
      TwistSites(swapped, bj, j, v);
    }
    TwistUses(swapped);
  }

  // ---------- its intervals ----------

  lemma SecondExposesNothing(swapped: bool, v: VReg)
    ensures !Exposed(Second(swapped), 0, v)
  {
    var insts := Second(swapped).insts;
    assert insts[1].dst == Middle(swapped).dst && insts[2].dst == Late(swapped).dst && insts[3].dst == SUM;
    assert DefinedIn(Second(swapped), 0, 3, LAST) && DefinedIn(Second(swapped), 0, 3, OTHER);
    assert DefinedIn(Second(swapped), 0, 4, SUM);
  }

  lemma ReadsOfSecond(swapped: bool, a: BlockId, v: VReg)
    requires PhiUse(Second(swapped), a, v)
    ensures a == B0 && (v == X || v == Y || v == Z)
  {
    var insts := Second(swapped).insts;
    var i :| 0 <= i < |insts| && insts[i].PhiI64? && (a, v) in insts[i].incoming;
  }

  lemma TwistLiveness(swapped: bool, v: VReg)
    ensures var f := Twist(swapped);
      !LiveIn(f, B0, v) && !LiveIn(f, B1, v) && !LiveOut(f, B1, v) &&
      (LiveOut(f, B0, v) ==> v == X || v == Y || v == Z)
  {
    var f := Twist(swapped);
    TwistBlocks(swapped);
    SecondExposesNothing(swapped, v);
    LiveInUnfolds(f, B1, v);
    LiveInUnfolds(f, B0, v);
    assert !Exposed(First(), 0, v);
    assert !LiveIn(f, B1, v);
    if LiveOut(f, B0, v) {
      var s :| s in Successors(First().term) && LiveOnEdge(f, B0, s, v);
      assert PhiUse(Second(swapped), B0, v);
      ReadsOfSecond(swapped, B0, v);
    }
    assert First().insts[0].dst == X && First().insts[1].dst == Y && First().insts[2].dst == Z;
  }

  function Spans(swapped: bool): seq<LiveInterval> {
    [LiveInterval(X, 0, 3), LiveInterval(Y, 1, 3), LiveInterval(Z, 2, 3), LiveInterval(DEAD, 4, 4),
     LiveInterval(Middle(swapped).dst, 5, 7), LiveInterval(Late(swapped).dst, 6, 7), LiveInterval(SUM, 7, 8)]
  }

  lemma TwistPositions(swapped: bool)
    ensures var f := Twist(swapped);
      && HasBlock(f, B0) && HasBlock(f, B1)
      && (forall k: nat :: PosOf(f, B0, k) == k && PosOf(f, B1, k) == 4 + k)
      && BlockStart(f, 2) == 9
  {
    var f := Twist(swapped);
    TwistBlocks(swapped);
    assert BlockStart(f, 0) == 0;
    assert BlockStart(f, 1) == BlockStart(f, 0) + 4;
    assert BlockStart(f, 2) == BlockStart(f, 1) + 5;
  }

  lemma SpanCovers(swapped: bool, v: VReg, pos: nat, i: nat)
    requires i < 7 && Spans(swapped)[i].v == v && Spans(swapped)[i].start <= pos <= Spans(swapped)[i].end
    ensures CoversPoint(Spans(swapped), v, pos)
  {
  }

  lemma FirstTouch(swapped: bool, k: nat, v: VReg)
    requires TouchedAt(Twist(swapped), B0, k, v)
    ensures k <= 3 && (v == X || (v == Y && k >= 1) || (v == Z && k >= 2))
  {
    TwistBlocks(swapped);
    TwistLiveness(swapped, v);
    if UsedOnSomeEdge(Twist(swapped), B0, v) {
      ReadsOfSecond(swapped, B0, v);
    }
  }

  lemma SecondTouch(swapped: bool, k: nat, v: VReg)
    requires TouchedAt(Twist(swapped), B1, k, v)
    ensures (v == DEAD && k == 0) || (v == Middle(swapped).dst && 1 <= k <= 3) ||
            (v == Late(swapped).dst && 2 <= k <= 3) || (v == SUM && 3 <= k <= 4)
  {
    TwistBlocks(swapped);
    TwistLiveness(swapped, v);
    if UsedOnSomeEdge(Twist(swapped), B1, v) {
      var s :| HasBlock(Twist(swapped), s) && PhiUse(BlockAt(Twist(swapped), s), B1, v);
      assert s == B1;
      ReadsOfSecond(swapped, B1, v);
    }
  }

  lemma TouchIsSpanned(swapped: bool, b: BlockId, k: nat, v: VReg)
    requires TouchedAt(Twist(swapped), b, k, v)
    ensures CoversPoint(Spans(swapped), v, PosOf(Twist(swapped), b, k))
  {
    TwistBlocks(swapped);
    TwistPositions(swapped);
    if b == B0 {
      FirstTouch(swapped, k, v);
      SpanCovers(swapped, v, k, if v == X then 0 else if v == Y then 1 else 2);
    } else {
      SecondTouch(swapped, k, v);
      SpanCovers(swapped, v, 4 + k,
        if v == DEAD then 3 else if v == SUM then 6 else if v == Middle(swapped).dst then 4 else 5);
    }
  }

  lemma SpansCoverAll(swapped: bool)
    ensures CoverAll(AllTouches(Twist(swapped)), Spans(swapped))
  {
    var f := Twist(swapped);
    forall v, pos: nat | (v, pos) in AllTouches(f)
      ensures CoversPoint(Spans(swapped), v, pos)
    {
      assert Touched(f, v, pos);
      var b, k: nat :| TouchedAt(f, b, k, v) && pos == PosOf(f, b, k);
      TouchIsSpanned(swapped, b, k, v);
    }
  }

  lemma TouchCounts(swapped: bool, b: BlockId, k: nat, v: VReg, pos: nat)
    requires TouchedAt(Twist(swapped), b, k, v) && pos == PosOf(Twist(swapped), b, k)
    ensures (v, pos) in AllTouches(Twist(swapped))
  {
    assert Touched(Twist(swapped), v, pos);
  }

  lemma FirstTouches(swapped: bool, k: nat, v: VReg)
    requires k < 3 && First().insts[k].dst == v
    ensures (v, k) in AllTouches(Twist(swapped)) && (v, 3) in AllTouches(Twist(swapped))
  {
    TwistBlocks(swapped);
    TwistPositions(swapped);
    var f := Twist(swapped);
    TouchCounts(swapped, B0, k, v, k);
    var insts := Second(swapped).insts;
    assert (B0, v) in insts[0].incoming || (B0, v) in insts[1].incoming || (B0, v) in insts[2].incoming;
    assert PhiUse(Second(swapped), B0, v);
    assert UsedOnSomeEdge(f, B0, v);
    TouchCounts(swapped, B0, 3, v, 3);
  }

  lemma SecondDefines(swapped: bool, k: nat, v: VReg)
    requires k < 4 && Second(swapped).insts[k].dst == v
    ensures (v, 4 + k) in AllTouches(Twist(swapped))
  {
    TwistBlocks(swapped);
    TwistPositions(swapped);
    TouchCounts(swapped, B1, k, v, 4 + k);
  }

  lemma SumReads(swapped: bool, v: VReg)
    requires v == LAST || v == OTHER
    ensures (v, 7) in AllTouches(Twist(swapped))
  {
    TwistBlocks(swapped);
    TwistPositions(swapped);
    assert UsedAt(Second(swapped), 3, v);
    assert TouchedAt(Twist(swapped), B1, 3, v);
    TouchCounts(swapped, B1, 3, v, 7);
  }

  lemma ReturnReads(swapped: bool)
    ensures (SUM, 8) in AllTouches(Twist(swapped))
  {
    TwistBlocks(swapped);
    TwistPositions(swapped);
    assert UsedAt(Second(swapped), 4, SUM);
    assert TouchedAt(Twist(swapped), B1, 4, SUM);
    TouchCounts(swapped, B1, 4, SUM, 8);
  }

  lemma SpansEndTouched(touches: Touches, swapped: bool)
    requires forall i :: 0 <= i < 7 ==>
      (Spans(swapped)[i].v, Spans(swapped)[i].start) in touches &&
      (Spans(swapped)[i].v, Spans(swapped)[i].end) in touches
    ensures EndsTouched(touches, Spans(swapped)) && DistinctValues(Spans(swapped)) && Sorted(Spans(swapped), KeyLess)
  {
  }

  lemma SpanIsTouched(swapped: bool, i: nat)
    requires i < 7
    ensures var span := Spans(swapped)[i];
      (span.v, span.start) in AllTouches(Twist(swapped)) && (span.v, span.end) in AllTouches(Twist(swapped))
  {
    if i < 3 {
      FirstTouches(swapped, i, Spans(swapped)[i].v);
    } else {
      SecondDefines(swapped, i - 3, Spans(swapped)[i].v);
      SumReads(swapped, LAST);
      SumReads(swapped, OTHER);
      ReturnReads(swapped);
    }
  }

  lemma TwistIntervals(swapped: bool)
    ensures AreIntervals(Twist(swapped), Spans(swapped))
  {
    forall i | 0 <= i < 7
      ensures (Spans(swapped)[i].v, Spans(swapped)[i].start) in AllTouches(Twist(swapped))
      ensures (Spans(swapped)[i].v, Spans(swapped)[i].end) in AllTouches(Twist(swapped))
    {
      SpanIsTouched(swapped, i);
    }
    SpansEndTouched(AllTouches(Twist(swapped)), swapped);
    SpansCoverAll(swapped);
  }

  // ---------- a verified assignment ----------

  function Assigned(): Assignment {
    Assignment(Places(), 1, 1)
  }

  lemma SpannedValues(swapped: bool)
    ensures Values(Spans(swapped)) == Places().Keys
  {
    var ivs := Spans(swapped);
    assert ivs[0].v == X && ivs[1].v == Y && ivs[2].v == Z && ivs[3].v == DEAD;
    assert ivs[4].v == Middle(swapped).dst && ivs[5].v == Late(swapped).dst && ivs[6].v == SUM;
  }

  lemma OneIsSpilled()
    ensures StackValues(Places()) == {Y}
  {
  }

  lemma SpansLieApart(swapped: bool)
    ensures OverlapsApart(Spans(swapped), Places())
  {
  }

  lemma PlacesAreAllowed()
    ensures RegistersAllowed(Default.Registers(), 5, Places()) && SlotCountExact(Places(), 1)
  {
    Default.PoolIsAllowed();
    assert Places()[Y] == Stack(StackSlot(0));
  }

  lemma AssignedIsValid(swapped: bool)
    ensures ValidAssignment(Spans(swapped), Default.Registers(), 5, Assigned())
  {
    SpannedValues(swapped);
    OneIsSpilled();
    SpansLieApart(swapped);
    PlacesAreAllowed();
  }

  lemma TwistIsAccepted(swapped: bool)
    ensures Accepted(Twist(swapped), Assigned(), Default.Registers()) && FrameFits(1)
  {
    TwistIsWellFormed(swapped);
    TwistIntervals(swapped);
    AssignedIsValid(swapped);
    Default.SharedIsValid();
    TwistPositions(swapped);
  }

  // ---------- its edge ----------

  function Unit(swapped: bool): Compilation {
    CompilationOf(Twist(swapped), Assigned(), Default.Registers())
  }

  // An instruction after the phis has no part in an edge.
  lemma OtherInstIsIgnored(u: Compilation, insts: seq<Inst>, inst: Inst, p: BlockId, used: iset<VReg>)
    requires !inst.PhiI64?
    ensures EdgeDelivers(u, insts + [inst], p, used) <==> EdgeDelivers(u, insts, p, used)
  {
    var longer := insts + [inst];
    assert longer[..|longer| - 1] == insts;
    assert PhisOf(longer) == PhisOf(insts) + [] == PhisOf(insts);
    assert EdgeOf(u, longer, p) == EdgeOf(u, insts, p);
    forall i | 0 <= i < |insts|
      ensures longer[i] == insts[i]
    {
    }
    if EdgeDelivers(u, longer, p, used) {
      forall i, source | 0 <= i < |insts| && PhiReads(insts[i], p, source) && insts[i].dst in used
        ensures PhiTraced(u, insts, p, insts[i], source)
      {
        assert PhiTraced(u, longer, p, longer[i], source);
      }
    }
    if EdgeDelivers(u, insts, p, used) {
      forall i, source | 0 <= i < |longer| && PhiReads(longer[i], p, source) && longer[i].dst in used
        ensures PhiTraced(u, longer, p, longer[i], source)
      {
        assert PhiTraced(u, insts, p, insts[i], source);
      }
    }
  }

  lemma DeadPhiIsUnused(swapped: bool)
    ensures !Coverage.UsedSomewhere(Twist(swapped), DEAD)
  {
    var f := Twist(swapped);
    TwistBlocks(swapped);
    forall a, s | HasBlock(f, s)
      ensures !PhiUse(BlockAt(f, s), a, DEAD)
    {
      if s == B1 && PhiUse(BlockAt(f, s), a, DEAD) {
        ReadsOfSecond(swapped, a, DEAD);
      }
    }
  }

  lemma OtherPhisAreUsed(swapped: bool)
    ensures Coverage.UsedSomewhere(Twist(swapped), LAST) && Coverage.UsedSomewhere(Twist(swapped), OTHER)
  {
    TwistBlocks(swapped);
    assert UsedAt(Second(swapped), 3, LAST) && UsedAt(Second(swapped), 3, OTHER);
  }

  lemma SameUsedPhis(u: Compilation, insts: seq<Inst>, p: BlockId, used: iset<VReg>, others: iset<VReg>)
    requires forall i :: 0 <= i < |insts| && insts[i].PhiI64? ==> (insts[i].dst in used <==> insts[i].dst in others)
    ensures EdgeDelivers(u, insts, p, used) <==> EdgeDelivers(u, insts, p, others)
  {
  }

  lemma OrderOfPhisDecides(u: Compilation, swapped: bool, used: iset<VReg>)
    requires InPlaces(u) && LAST in used && OTHER in used && DEAD !in used
    ensures EdgeDelivers(u, [DeadPhi(B0), Middle(swapped), Late(swapped)], B0, used) <==> swapped
  {
    OrderDecides(u, B0);
    SameUsedPhis(u, [DeadPhi(B0), Middle(swapped), Late(swapped)], B0, used, Used());
  }

  lemma OrderOfBlockDecides(u: Compilation, swapped: bool, used: iset<VReg>)
    requires InPlaces(u) && LAST in used && OTHER in used && DEAD !in used
    ensures EdgeDelivers(u, Second(swapped).insts, B0, used) <==> swapped
  {
    var phis := [DeadPhi(B0), Middle(swapped), Late(swapped)];
    OrderOfPhisDecides(u, swapped, used);
    assert Second(swapped).insts == phis + [AddI64(SUM, LAST, OTHER)];
    OtherInstIsIgnored(u, phis, AddI64(SUM, LAST, OTHER), B0, used);
  }

  lemma UnitIsInPlaces(swapped: bool)
    ensures InPlaces(Unit(swapped))
  {
    TwistIsAccepted(swapped);
    AcceptedIsPlaced(Twist(swapped), Assigned(), Default.Registers());
  }

  lemma TwistEdge(swapped: bool)
    ensures EdgeDelivers(Unit(swapped), Second(swapped).insts, B0, ReadSomewhere(Twist(swapped))) <==> swapped
  {
    UnitIsInPlaces(swapped);
    DeadPhiIsUnused(swapped);
    OtherPhisAreUsed(swapped);
    OrderOfBlockDecides(Unit(swapped), swapped, ReadSomewhere(Twist(swapped)));
  }

  // Accepted in both orders; its edge delivers in one.
  lemma TwistDelivers(swapped: bool)
    ensures Accepted(Twist(swapped), Assigned(), Default.Registers())
    ensures EdgesDeliver(Twist(swapped), Assigned(), Default.Registers()) <==> swapped
  {
    TwistIsAccepted(swapped);
    TwistBlocks(swapped);
    TwistEdges(swapped);
    TwistEdge(swapped);
  }
}
