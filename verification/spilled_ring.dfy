// Three spilled phis rotated by a loop: linear scan without registers accepts the function, and the
// emitted code returns the wrong value.
module SpilledRing {
  import opened Wrappers
  import opened Ir
  import opened Interp
  import opened Cfg
  import opened Validation
  import opened Liveness
  import opened Intervals
  import opened Sorting
  import opened Alloc
  import opened LinearScan
  import opened Machine
  import opened ParallelMoves
  import opened MoveCycles
  import opened MoveOrigins
  import opened Lowering
  import opened Frames
  import opened Layout
  import opened Edges
  import opened Separation
  import opened Simulation
  import opened Transfer
  import opened Preservation
  import opened Termination
  import Coverage

  const B0 := BlockId(0)
  const B1 := BlockId(1)
  const B2 := BlockId(2)
  const V0 := VReg(0)
  const V1 := VReg(1)
  const V2 := VReg(2)
  const V3 := VReg(3)
  const V4 := VReg(4)
  const V5 := VReg(5)

  function Head(): Block {
    Block(B0, [ConstI64(V0, 1), ConstI64(V1, 0), ConstI64(V2, 5)], Terminator.Jmp(B1))
  }

  function Turn(k: nat): Inst {
    if k == 0 then PhiI64(V3, [(B0, V0), (B1, V4)])
    else if k == 1 then PhiI64(V4, [(B0, V1), (B1, V5)])
    else PhiI64(V5, [(B0, V2), (B1, V3)])
  }

  // Each time round the three phis exchange their values in a ring.
  function Loop(): Block {
    Block(B1, [Turn(0), Turn(1), Turn(2)], Br(V3, B1, B2))
  }

  function Tail(): Block {
    Block(B2, [], Terminator.Ret(V5))
  }

  function Ring(): Function {
    Function(0, B0, [Head(), Loop(), Tail()])
  }

  // ---------- the function is well formed ----------

  lemma RingBlocks()
    ensures forall b :: HasBlock(Ring(), b) <==> b == B0 || b == B1 || b == B2
    ensures HasBlock(Ring(), B0) && BlockAt(Ring(), B0) == Head() && IndexOf(Ring(), B0) == 0
    ensures HasBlock(Ring(), B1) && BlockAt(Ring(), B1) == Loop() && IndexOf(Ring(), B1) == 1
    ensures HasBlock(Ring(), B2) && BlockAt(Ring(), B2) == Tail() && IndexOf(Ring(), B2) == 2
    ensures UniqueIds(Ring())
  {
    var f := Ring();
    assert f.blocks[0].id == B0 && f.blocks[1].id == B1 && f.blocks[2].id == B2;
    BlockAtIndex(f, 0);
    BlockAtIndex(f, 1);
    BlockAtIndex(f, 2);
  }

  lemma RingEdges()
    ensures forall a, b :: Edge(Ring(), a, b) <==> (a == B0 && b == B1) || (a == B1 && (b == B1 || b == B2))
    ensures KnownSuccessors(Ring())
  {
    var f := Ring();
    RingBlocks();
    forall a, b
      ensures Edge(f, a, b) <==> (a == B0 && b == B1) || (a == B1 && (b == B1 || b == B2))
    {
      assert BlockEdge(f.blocks[0], B0, B1) && BlockEdge(f.blocks[1], B1, B1) && BlockEdge(f.blocks[1], B1, B2);
      if Edge(f, a, b) {
        var i :| 0 <= i < |f.blocks| && BlockEdge(f.blocks[i], a, b);
      }
    }
  }

  lemma RingIsReachable()
    ensures AllReachable(Ring())
  {
    var f := Ring();
    RingBlocks();
    RingEdges();
    assert PathFromTo(f, [B0], f.entry, B0);
    assert PathFromTo(f, [B0, B1], f.entry, B1);
    assert PathFromTo(f, [B0, B1, B2], f.entry, B2);
  }

  lemma LoopDominatesTail()
    ensures Dominates(Ring(), B1, B2) && Dominates(Ring(), B1, B1) && Dominates(Ring(), B0, B0)
  {
    var f := Ring();
    RingEdges();
    forall p | PathFromTo(f, p, f.entry, B2)
      ensures B1 in p
    {
      assert Edge(f, p[|p| - 2], p[|p| - 2 + 1]);
    }
  }

  lemma RingSites(bi: int, i: int, v: VReg)
    ensures DefSite(Ring(), bi, i, v) <==>
      (bi == 0 && i == 0 && v == V0) || (bi == 0 && i == 1 && v == V1) || (bi == 0 && i == 2 && v == V2) ||
      (bi == 1 && i == 0 && v == V3) || (bi == 1 && i == 1 && v == V4) || (bi == 1 && i == 2 && v == V5)
  {
  }

  lemma RingPhi(v: VReg, i: int, w: VReg, j: int)
    requires DefSite(Ring(), 0, i, v) && DefSite(Ring(), 1, j, w)
    ensures PhiMatchesPredecessors(Ring(), B1, [(B0, v), (B1, w)])
  {
    var f := Ring();
    var incoming := [(B0, v), (B1, w)];
    RingEdges();
    LoopDominatesTail();
    assert incoming[0].0 == B0 && incoming[1].0 == B1;
    assert PhiInputDominated(f, v, B0) && PhiInputDominated(f, w, B1);
  }

  lemma LoopUses()
    ensures UsesOk(Ring(), Loop())
  {
    var f := Ring();
    RingPhi(V0, 0, V4, 1);
    RingPhi(V1, 1, V5, 2);
    RingPhi(V2, 2, V3, 0);
    assert DefSite(f, 1, 0, V3);
    assert UseDominated(f, V3, Loop(), 3);
    forall index | 0 <= index < 3
      ensures InstUsesOk(f, Loop(), index)
    {
      assert Loop().insts[index] == Turn(index);
    }
  }

  lemma OtherUses()
    ensures UsesOk(Ring(), Head()) && UsesOk(Ring(), Tail())
  {
    var f := Ring();
    LoopDominatesTail();
    assert DefSite(f, 1, 2, V5) && f.blocks[1].id == B1;
    assert UseDominated(f, V5, Tail(), 0);
  }

  lemma RingIsWellFormed()
    ensures WellFormed(Ring())
  {
    var f := Ring();
    RingBlocks();
    RingEdges();
    RingIsReachable();
    LoopUses();
    OtherUses();
    forall bi, i, bj, j, v | DefSite(f, bi, i, v) && DefSite(f, bj, j, v)
      ensures bi == bj && i == j
    {
      RingSites(bi, i, v);
      RingSites(bj, j, v);
    }
  }

  // ---------- its intervals ----------

  lemma ReadsOfLoop(a: BlockId, v: VReg)
    ensures PhiUse(Loop(), a, v) <==>
      (a == B0 && (v == V0 || v == V1 || v == V2)) || (a == B1 && (v == V3 || v == V4 || v == V5))
  {
    assert Loop().insts[0] == Turn(0) && Loop().insts[1] == Turn(1) && Loop().insts[2] == Turn(2);
    assert (B0, V0) in Turn(0).incoming && (B1, V4) in Turn(0).incoming;
    assert (B0, V1) in Turn(1).incoming && (B1, V5) in Turn(1).incoming;
    assert (B0, V2) in Turn(2).incoming && (B1, V3) in Turn(2).incoming;
    if PhiUse(Loop(), a, v) {
      var i :| 0 <= i < 3 && Loop().insts[i].PhiI64? && (a, v) in Loop().insts[i].incoming;
    }
  }

  lemma LoopDefinesAndUses(v: VReg)
    ensures Defines(Loop(), v) <==> v == V3 || v == V4 || v == V5
    ensures PhiDef(Loop(), v) <==> v == V3 || v == V4 || v == V5
    ensures !Exposed(Loop(), 0, v)
  {
    assert Loop().insts[0].dst == V3 && Loop().insts[1].dst == V4 && Loop().insts[2].dst == V5;
    assert DefinedIn(Loop(), 0, 3, V3);
  }

  lemma HeadDefinesAndUses(v: VReg)
    ensures Defines(Head(), v) <==> v == V0 || v == V1 || v == V2
    ensures !Exposed(Head(), 0, v)
  {
    assert Head().insts[0].dst == V0 && Head().insts[1].dst == V1 && Head().insts[2].dst == V2;
  }

  lemma TailIsLive(v: VReg)
    ensures LiveIn(Ring(), B2, v) <==> v == V5
    ensures !LiveOut(Ring(), B2, v)
  {
    RingBlocks();
    LiveInUnfolds(Ring(), B2, v);
    assert UsedAt(Tail(), 0, V5) && !DefinedIn(Tail(), 0, 0, V5);
  }

  lemma {:induction false} NothingIntoLoop(v: VReg, p: seq<BlockId>)
    requires LiveAlong(Ring(), v, p)
    ensures p[0] != B1
    decreases |p|
  {
    RingBlocks();
    LoopDefinesAndUses(v);
    if p[0] == B1 && |p| > 1 {
      ReadsOfLoop(B1, v);
      if p[1] == B1 && LiveAlong(Ring(), v, p[1..]) {
        NothingIntoLoop(v, p[1..]);
      } else if p[1] == B2 {
        TailIsLive(v);
        assert LiveAlong(Ring(), v, p[1..]) && p[1..][0] == B2;
        assert LiveIn(Ring(), B2, v);
      }
    }
  }

  lemma LoopIsLive(v: VReg)
    ensures !LiveIn(Ring(), B1, v)
    ensures LiveOut(Ring(), B1, v) <==> v == V3 || v == V4 || v == V5
  {
    RingBlocks();
    forall p | LiveAlong(Ring(), v, p)
      ensures p[0] != B1
    {
      NothingIntoLoop(v, p);
    }
    ReadsOfLoop(B1, v);
    TailIsLive(v);
    assert B1 in Successors(Loop().term);
    if v == V3 || v == V4 || v == V5 {
      assert LiveOnEdge(Ring(), B1, B1, v);
    }
  }

  lemma HeadLeavesInputs(v: VReg)
    ensures LiveOut(Ring(), B0, v) <==> v == V0 || v == V1 || v == V2
  {
    RingBlocks();
    LoopIsLive(v);
    ReadsOfLoop(B0, v);
    assert B1 in Successors(Head().term);
    if v == V0 || v == V1 || v == V2 {
      assert LiveOnEdge(Ring(), B0, B1, v);
    }
  }

  lemma HeadIsLive(v: VReg)
    ensures !LiveIn(Ring(), B0, v)
    ensures LiveOut(Ring(), B0, v) <==> v == V0 || v == V1 || v == V2
  {
    RingBlocks();
    HeadLeavesInputs(v);
    HeadDefinesAndUses(v);
    LiveInUnfolds(Ring(), B0, v);
  }

  function Spans(): seq<LiveInterval> {
    [LiveInterval(V0, 0, 3), LiveInterval(V1, 1, 3), LiveInterval(V2, 2, 3),
     LiveInterval(V3, 4, 7), LiveInterval(V4, 5, 7), LiveInterval(V5, 6, 8)]
  }

  lemma RingPositions()
    ensures HasBlock(Ring(), B0) && HasBlock(Ring(), B1) && HasBlock(Ring(), B2)
    ensures forall k: nat :: PosOf(Ring(), B0, k) == k && PosOf(Ring(), B1, k) == 4 + k && PosOf(Ring(), B2, k) == 8 + k
  {
    RingBlocks();
    assert BlockStart(Ring(), 0) == 0;
    assert BlockStart(Ring(), 1) == BlockStart(Ring(), 0) + 4;
    assert BlockStart(Ring(), 2) == BlockStart(Ring(), 1) + 4;
  }

  lemma EdgeReads(b: BlockId, v: VReg)
    ensures UsedOnSomeEdge(Ring(), b, v) <==> PhiUse(Loop(), b, v)
  {
    RingBlocks();
    if UsedOnSomeEdge(Ring(), b, v) {
      var s :| HasBlock(Ring(), s) && PhiUse(BlockAt(Ring(), s), b, v);
    }
  }

  lemma HeadTouch(k: nat, v: VReg)
    requires TouchedAt(Ring(), B0, k, v)
    ensures k <= 3 && ((v == V0) || (v == V1 && k >= 1) || (v == V2 && k >= 2))
  {
    RingBlocks();
    HeadIsLive(v);
    EdgeReads(B0, v);
    ReadsOfLoop(B0, v);
  }

  lemma LoopEvent(k: nat, v: VReg)
    requires TouchedAt(Ring(), B1, k, v)
    ensures k <= 3
    ensures k < 3 ==> v == VReg(3 + k)
    ensures k == 3 ==> v == V3 || PhiUse(Loop(), B1, v) || LiveOut(Ring(), B1, v)
  {
    RingBlocks();
    LoopIsLive(v);
    EdgeReads(B1, v);
  }

  lemma LoopTouch(k: nat, v: VReg)
    requires TouchedAt(Ring(), B1, k, v)
    ensures k <= 3 && ((v == V3) || (v == V4 && k >= 1) || (v == V5 && k >= 2))
  {
    LoopEvent(k, v);
    if k == 3 {
      LoopIsLive(v);
      ReadsOfLoop(B1, v);
    }
  }

  lemma TailTouch(k: nat, v: VReg)
    requires TouchedAt(Ring(), B2, k, v)
    ensures k == 0 && v == V5
  {
    RingBlocks();
    TailIsLive(v);
    EdgeReads(B2, v);
    ReadsOfLoop(B2, v);
  }

  lemma SpanCovers(v: VReg, pos: nat, i: nat)
    requires i < 6 && Spans()[i].v == v && Spans()[i].start <= pos <= Spans()[i].end
    ensures CoversPoint(Spans(), v, pos)
  {
  }

  lemma HeadIsSpanned(k: nat, v: VReg)
    requires TouchedAt(Ring(), B0, k, v)
    ensures CoversPoint(Spans(), v, PosOf(Ring(), B0, k))
  {
    RingPositions();
    HeadTouch(k, v);
    SpanCovers(v, k, v.id);
  }

  lemma LoopIsSpanned(k: nat, v: VReg)
    requires TouchedAt(Ring(), B1, k, v)
    ensures CoversPoint(Spans(), v, PosOf(Ring(), B1, k))
  {
    RingPositions();
    LoopTouch(k, v);
    SpanCovers(v, 4 + k, v.id);
  }

  lemma TailIsSpanned(k: nat, v: VReg)
    requires TouchedAt(Ring(), B2, k, v)
    ensures CoversPoint(Spans(), v, PosOf(Ring(), B2, k))
  {
    RingPositions();
    TailTouch(k, v);
    SpanCovers(v, 8, 5);
  }

  lemma OnlyThreeBlocks(b: BlockId)
    requires HasBlock(Ring(), b)
    ensures b == B0 || b == B1 || b == B2
  {
    RingBlocks();
  }

  lemma TouchIsSpanned(b: BlockId, k: nat, v: VReg)
    requires TouchedAt(Ring(), b, k, v)
    ensures CoversPoint(Spans(), v, PosOf(Ring(), b, k))
  {
    OnlyThreeBlocks(b);
    if b == B0 {
      HeadIsSpanned(k, v);
    } else if b == B1 {
      LoopIsSpanned(k, v);
    } else {
      TailIsSpanned(k, v);
    }
  }

  lemma TouchCounts(b: BlockId, k: nat, v: VReg, pos: nat)
    requires TouchedAt(Ring(), b, k, v) && pos == PosOf(Ring(), b, k)
    ensures (v, pos) in AllTouches(Ring())
  {
    assert Touched(Ring(), v, pos);
  }

  lemma HeadStartCounts(i: nat)
    requires i < 3
    ensures (VReg(i), i) in AllTouches(Ring())
  {
    RingBlocks();
    RingPositions();
    assert Head().insts[i].dst == VReg(i);
    TouchCounts(B0, i, VReg(i), i);
  }

  lemma LoopDefines(i: nat)
    requires i < 3
    ensures TouchedAt(Ring(), B1, i, VReg(3 + i))
  {
    RingBlocks();
    assert Loop().insts[i] == Turn(i) && Turn(i).dst == VReg(3 + i);
  }

  lemma LoopStartCounts(i: nat)
    requires i < 3
    ensures (VReg(3 + i), 4 + i) in AllTouches(Ring())
  {
    RingBlocks();
    RingPositions();
    LoopDefines(i);
    TouchCounts(B1, i, VReg(3 + i), 4 + i);
  }

  lemma StartCounts(i: nat)
    requires i < 6
    ensures (Spans()[i].v, Spans()[i].start) in AllTouches(Ring())
  {
    if i < 3 {
      HeadStartCounts(i);
    } else {
      LoopStartCounts(i - 3);
    }
  }

  lemma HeadEndCounts(v: VReg)
    requires v == V0 || v == V1 || v == V2
    ensures (v, 3) in AllTouches(Ring())
  {
    RingBlocks();
    RingPositions();
    HeadIsLive(v);
    assert TouchedAt(Ring(), B0, 3, v);
    TouchCounts(B0, 3, v, 3);
  }

  lemma LoopEndCounts(v: VReg)
    requires v == V3 || v == V4
    ensures (v, 7) in AllTouches(Ring())
  {
    RingBlocks();
    RingPositions();
    LoopIsLive(v);
    assert TouchedAt(Ring(), B1, 3, v);
    TouchCounts(B1, 3, v, 7);
  }

  lemma TailEndCounts()
    ensures (V5, 8) in AllTouches(Ring())
  {
    RingBlocks();
    RingPositions();
    TailIsLive(V5);
    assert TouchedAt(Ring(), B2, 0, V5);
    TouchCounts(B2, 0, V5, 8);
  }

  lemma EndCounts(i: nat)
    requires i < 6
    ensures (Spans()[i].v, Spans()[i].end) in AllTouches(Ring())
  {
    if i < 3 {
      HeadEndCounts(Spans()[i].v);
    } else if i < 5 {
      LoopEndCounts(Spans()[i].v);
    } else {
      TailEndCounts();
    }
  }

  lemma SpansEndTouched()
    ensures EndsTouched(AllTouches(Ring()), Spans())
  {
    forall i | 0 <= i < |Spans()|
      ensures (Spans()[i].v, Spans()[i].start) in AllTouches(Ring())
      ensures (Spans()[i].v, Spans()[i].end) in AllTouches(Ring())
    {
      StartCounts(i);
      EndCounts(i);
    }
  }

  lemma SpansCoverAll()
    ensures CoverAll(AllTouches(Ring()), Spans())
  {
    forall v, pos: nat | (v, pos) in AllTouches(Ring())
      ensures CoversPoint(Spans(), v, pos)
    {
      assert Touched(Ring(), v, pos);
      var b, k: nat :| TouchedAt(Ring(), b, k, v) && pos == PosOf(Ring(), b, k);
      TouchIsSpanned(b, k, v);
    }
  }

  lemma SpansAreSorted()
    ensures DistinctValues(Spans()) && Sorted(Spans(), KeyLess)
  {
  }

  lemma RingIntervals()
    ensures AreIntervals(Ring(), Spans())
  {
    SpansEndTouched();
    SpansCoverAll();
    SpansAreSorted();
  }

  // ---------- a verified assignment, and linear scan's own ----------

  // The default general-purpose set.
  function Registers(): PhysRegSet {
    PhysRegSet([Rax, Rcx, Rdx, R8, R9], [R10, R11])
  }

  function SlotOf(i: nat): Location
    requires i <= 6
  {
    Stack(StackSlot(i))
  }

  function Spilled(): Assignment {
    Assignment(
      map[V0 := SlotOf(0), V1 := SlotOf(1), V2 := SlotOf(2), V3 := SlotOf(3), V4 := SlotOf(4), V5 := SlotOf(5)], 6, 6)
  }

  lemma SpilledCounts()
    ensures |StackValues(Spilled().locs)| == 6 && SlotCountExact(Spilled().locs, 6)
    ensures Values(Spans()) == Spilled().locs.Keys
  {
    var locs := Spilled().locs;
    assert StackValues(locs) == {V0, V1, V2, V3, V4, V5};
    assert locs[V5].Stack? && SaturatingNext(locs[V5].slot.index) == 6;
    assert Spans()[0].v == V0 && Spans()[1].v == V1 && Spans()[2].v == V2;
    assert Spans()[3].v == V3 && Spans()[4].v == V4 && Spans()[5].v == V5;
  }

  lemma SpilledIsValid()
    ensures ValidAssignment(Spans(), Registers(), 5, Spilled())
  {
    SpilledCounts();
    forall i, j | 0 <= i < j < |Spans()|
      ensures !Share(Spilled().locs, Spans()[i], Spans()[j])
    {
      assert Spilled().locs[Spans()[i].v] == SlotOf(i) && Spilled().locs[Spans()[j].v] == SlotOf(j);
    }
  }

  lemma RingIsSmall()
    ensures BlockStart(Ring(), |Ring().blocks|) == 9
  {
    assert BlockStart(Ring(), 0) == 0;
    assert BlockStart(Ring(), 1) == BlockStart(Ring(), 0) + 4;
    assert BlockStart(Ring(), 2) == BlockStart(Ring(), 1) + 4;
    assert BlockStart(Ring(), 3) == BlockStart(Ring(), 2) + 1;
  }

  lemma SpilledIsVerified()
    ensures Verified(Ring(), Spilled(), Registers())
  {
    RingIntervals();
    SpilledIsValid();
  }

  lemma SpilledIsAccepted()
    ensures Accepted(Ring(), Spilled(), Registers())
  {
    RingIsWellFormed();
    SpilledIsVerified();
    RingIsSmall();
    RegistersAreReady();
  }

  lemma RegistersAreReady()
    ensures ReadyForCodegen(Registers())
    ensures FrameFits(6)
  {
  }

  lemma NothingActive(s: Scan, start: nat)
    requires s.active == []
    ensures Expire(s, start) == s
  {
    assert SortBy<Held>([], EndLess) == [];
    assert Survivors([], start) == [] && Released([], start) == [];
  }

  function SlotsTo(n: nat): map<VReg, Location>
    requires n <= 6
  {
    if n == 0 then map[] else SlotsTo(n - 1)[VReg(n - 1) := SlotOf(n - 1)]
  }

  lemma OneSpill(n: nat, iv: LiveInterval)
    requires n < 6 && iv.v == VReg(n)
    ensures Place(Expire(Scan([], [], SlotsTo(n), n), iv.start), iv) == Scan([], [], SlotsTo(n + 1), n + 1)
  {
    NothingActive(Scan([], [], SlotsTo(n), n), iv.start);
  }

  lemma {:induction false} AllSpill(ordered: seq<LiveInterval>)
    requires |ordered| <= 6 && forall i :: 0 <= i < |ordered| ==> ordered[i].v == VReg(i)
    ensures ScanAll(ordered, []) == Scan([], [], SlotsTo(|ordered|), |ordered|)
    decreases ordered
  {
    if ordered != [] {
      AllSpill(ordered[..|ordered| - 1]);
      OneSpill(|ordered| - 1, ordered[|ordered| - 1]);
    }
  }

  lemma SlotsToSix()
    ensures SlotsTo(6) == Spilled().locs
  {
    assert SlotsTo(1) == map[V0 := SlotOf(0)];
    assert SlotsTo(2) == map[V0 := SlotOf(0), V1 := SlotOf(1)];
    assert SlotsTo(3) == map[V0 := SlotOf(0), V1 := SlotOf(1), V2 := SlotOf(2)];
    assert SlotsTo(4) == map[V0 := SlotOf(0), V1 := SlotOf(1), V2 := SlotOf(2), V3 := SlotOf(3)];
    assert SlotsTo(5) == SlotsTo(4)[V4 := SlotOf(4)];
  }

  lemma SpansAreNumbered()
    ensures forall i :: 0 <= i < |Spans()| ==> Spans()[i].v == VReg(i)
  {
  }

  // With no registers allowed, linear scan spills every value to its own slot.
  lemma LinearScanSpillsAll()
    ensures TotalPreorder(KeyLess) && ScanResult(Spans(), Registers(), 0).slots == 6
    ensures ScanAssignment(Spans(), Registers(), 0) == Spilled()
  {
    KeyIsOrdered();
    SpansAreSorted();
    SortedStays(Spans(), KeyLess);
    assert Allowed(Registers(), 0) == [];
    SpansAreNumbered();
    AllSpill(Spans());
    SlotsToSix();
  }

  // ---------- what the interpreter returns ----------

  function Inputs(): Env {
    map[V0 := 1, V1 := 0, V2 := 5]
  }

  // The environment with the three phis bound.
  function Bound(x: I64, y: I64, z: I64): Env {
    Inputs()[V3 := x][V4 := y][V5 := z]
  }

  lemma HeadYields(budget: nat)
    requires budget >= 3
    ensures RunInsts(Head().insts, 0, [], map[], budget) == Success(Inputs())
  {
    var insts := Head().insts;
    assert RunInsts(insts, 3, [], Inputs(), budget - 3) == Success(Inputs());
    assert RunInsts(insts, 2, [], map[V0 := 1, V1 := 0], budget - 2) == Success(Inputs());
    assert RunInsts(insts, 1, [], map[V0 := 1], budget - 1) == Success(Inputs());
  }

  lemma LoopYields(env: Env, budget: nat)
    requires budget >= 3
    ensures RunInsts(Loop().insts, 0, [], env, budget) == Success(env)
  {
    var insts := Loop().insts;
    assert RunInsts(insts, 3, [], env, budget - 3) == Success(env);
    assert RunInsts(insts, 2, [], env, budget - 2) == Success(env);
    assert RunInsts(insts, 1, [], env, budget - 1) == Success(env);
  }

  lemma LoopInputs(k: nat)
    requires k < 3
    ensures FindIncoming(Turn(k).incoming, B0) == Some(VReg(k))
    ensures FindIncoming(Turn(k).incoming, B1) == Some(if k == 0 then V4 else if k == 1 then V5 else V3)
  {
    assert Turn(k).incoming[1..][0] == Turn(k).incoming[1];
  }

  lemma EnterFromHead()
    ensures EnterPhis(Loop().insts, 3, Some(B0), Inputs()) == Success(Bound(1, 0, 5))
  {
    var insts := Loop().insts;
    var env: Env := Inputs();
    LoopInputs(0);
    LoopInputs(1);
    LoopInputs(2);
    assert EnterPhis(insts, 1, Some(B0), env) == Success(env[V3 := 1]);
    assert EnterPhis(insts, 2, Some(B0), env) == Success(env[V3 := 1][V4 := 0]);
  }

  lemma EnterFromLoop(x: I64, y: I64, z: I64)
    ensures EnterPhis(Loop().insts, 3, Some(B1), Bound(x, y, z)) == Success(Bound(y, z, x))
  {
    var insts := Loop().insts;
    var env: Env := Bound(x, y, z);
    LoopInputs(0);
    LoopInputs(1);
    LoopInputs(2);
    assert EnterPhis(insts, 1, Some(B1), env) == Success(env[V3 := y]);
    assert EnterPhis(insts, 2, Some(B1), env) == Success(env[V3 := y][V4 := z]);
    assert env[V3 := y][V4 := z][V5 := x] == Bound(y, z, x);
  }

  lemma RingEvaluates()
    ensures Eval(Ring(), [], 13) == Success(1)
  {
    var f := Ring();
    RingBlocks();
    assert EnterPhis(Tail().insts, 0, Some(B1), Bound(0, 5, 1)) == Success(Bound(0, 5, 1));
    assert RunInsts(Tail().insts, 0, [], Bound(0, 5, 1), 0) == Success(Bound(0, 5, 1));
    assert RunFrom(f, [], B2, Some(B1), Bound(0, 5, 1), 1) == Success(1);
    EnterFromLoop(1, 0, 5);
    LoopYields(Bound(0, 5, 1), 4);
    assert RunFrom(f, [], B1, Some(B1), Bound(1, 0, 5), 5) == Success(1);
    EnterFromHead();
    LoopYields(Bound(1, 0, 5), 8);
    assert RunFrom(f, [], B1, Some(B0), Inputs(), 9) == Success(1);
    HeadYields(12);
    assert EnterPhis(Head().insts, 3, None, map[]) == Success(map[]) by {
      assert EnterPhis(Head().insts, 2, None, map[]) == Success(map[]);
      assert EnterPhis(Head().insts, 1, None, map[]) == Success(map[]);
    }
  }

  // ---------- what the code returns ----------

  function Unit(): Compilation {
    CompilationOf(Ring(), Spilled(), Registers())
  }

  function SlotAt(i: nat): MoveLocation
    requires i < 6
  {
    OnStack(StackSlot(i))
  }

  lemma SlotsAre(i: nat)
    requires i < 6
    ensures VReg(i) in Unit().locs && LocOf(Unit().locs, VReg(i)) == SlotAt(i)
  {
  }

  lemma RingGrounds(d0: Data)
    ensures Grounded(Unit(), ImageOf(Unit()), d0, [])
  {
    SpilledIsAccepted();
    RingCall(d0);
    GroundedHolds(Ring(), Spilled(), Registers(), [], d0);
  }

  lemma LoopPhis()
    ensures PhisOf(Loop().insts) ==
      [Phi(V3, Turn(0).incoming), Phi(V4, Turn(1).incoming), Phi(V5, Turn(2).incoming)]
  {
    var insts := Loop().insts;
    assert insts[..2] == [Turn(0), Turn(1)] && insts[..2][..1] == [Turn(0)] && insts[..2][..1][..0] == [];
    assert PhisOf([Turn(0)][..0]) == [];
    assert PhisOf([Turn(0)]) == [Phi(V3, Turn(0).incoming)];
    assert [Turn(0), Turn(1)][..1] == [Turn(0)];
    assert PhisOf([Turn(0), Turn(1)]) == [Phi(V3, Turn(0).incoming), Phi(V4, Turn(1).incoming)];
  }

  lemma ThreeMoves(locs: map<VReg, Location>, p: Phi, q: Phi, r: Phi, a: BlockId)
    ensures MovesFor(locs, [p, q, r], a) == MoveFor(locs, p, a) + MoveFor(locs, q, a) + MoveFor(locs, r, a)
  {
    assert [p, q, r][..2] == [p, q] && [p, q][..1] == [p] && [p][..0] == [];
    assert MovesFor(locs, [p], a) == MoveFor(locs, p, a);
    assert MovesFor(locs, [p, q], a) == MoveFor(locs, p, a) + MoveFor(locs, q, a);
  }

  lemma TurnMoves(k: nat)
    requires k < 3
    ensures MoveFor(Unit().locs, Phi(Turn(k).dst, Turn(k).incoming), B0) == [Move(SlotAt(3 + k), SlotAt(k))]
    ensures MoveFor(Unit().locs, Phi(Turn(k).dst, Turn(k).incoming), B1) ==
      [Move(SlotAt(3 + k), SlotAt(if k < 2 then 4 + k else 3))]
  {
    LoopInputs(k);
    SlotsAre(k);
    SlotsAre(3 + k);
    SlotsAre(if k < 2 then 4 + k else 3);
  }

  lemma LoopMoves()
    ensures EdgeOf(Unit(), Loop().insts, B0) ==
      [Move(SlotAt(3), SlotAt(0)), Move(SlotAt(4), SlotAt(1)), Move(SlotAt(5), SlotAt(2))]
    ensures EdgeOf(Unit(), Loop().insts, B1) ==
      [Move(SlotAt(3), SlotAt(4)), Move(SlotAt(4), SlotAt(5)), Move(SlotAt(5), SlotAt(3))]
  {
    var p, q, r := Phi(V3, Turn(0).incoming), Phi(V4, Turn(1).incoming), Phi(V5, Turn(2).incoming);
    LoopPhis();
    ThreeMoves(Unit().locs, p, q, r, B0);
    ThreeMoves(Unit().locs, p, q, r, B1);
    TurnMoves(0);
    TurnMoves(1);
    TurnMoves(2);
  }

  // ---------- the edge into the loop is good ----------

  lemma EntryEdgeHasNoCycle()
    ensures !HasBadCycle(EdgeOf(Unit(), Loop().insts, B0))
  {
    LoopMoves();
    var moves := EdgeOf(Unit(), Loop().insts, B0);
    forall cycle: seq<MoveLocation> | IsCycle(moves, cycle)
      ensures false
    {
      var m := CycleIsOfDsts(moves, cycle, 0);
    }
  }

  lemma RingIsPlaced()
    ensures Placed(Unit())
  {
    SpilledIsVerified();
    RegistersAreReady();
    AcceptedIsPlaced(Ring(), Spilled(), Registers());
  }

  lemma RingIsAssigned()
    ensures Placed(Unit()) && Assigned(Unit())
  {
    RingIsPlaced();
    SpilledIsVerified();
    VerifiedAssigns(Ring(), Spilled(), Registers());
  }

  lemma LoopIsApart()
    ensures ApartDsts(Unit().locs, Loop().insts)
  {
    SlotsAre(3);
    SlotsAre(4);
    SlotsAre(5);
  }

  lemma EntryEdgeIsGood()
    ensures EdgeIsGood(Unit(), B0, B1)
  {
    RingBlocks();
    RingIsWellFormed();
    RingIsAssigned();
    EdgePhisAreAssigned(Unit(), B0, B1);
    PhisAreDistinct(Ring(), B1);
    LoopIsApart();
    EntryEdgeHasNoCycle();
    ApartEdgeIsExact(Unit(), Loop().insts, B0);
    DeliveringAllDeliversUsed(Unit(), Loop().insts, B0, ReadSomewhere(Ring()));
  }

  lemma ExitEdgeIsGood()
    ensures EdgeIsGood(Unit(), B1, B2)
  {
    RingBlocks();
  }

  // ---------- the edge round the loop is not ----------

  lemma RingFollows()
    ensures var o := Follow(Unit().c, EdgeOf(Unit(), Loop().insts, B1), map[]);
      From(o, SlotAt(3)) == SlotAt(4) && From(o, SlotAt(4)) == SlotAt(5) && From(o, SlotAt(5)) == SlotAt(5)
  {
    LoopMoves();
    var c := Unit().c;
    var t := InReg(c.temporary);
    var moves := EdgeOf(Unit(), Loop().insts, B1);
    assert moves[0].src == SlotAt(4) && moves[1].src == SlotAt(5) && moves[2].src == SlotAt(3);
    assert FirstReady(moves, 3).None? && FirstReady(moves, 2).None? && FirstReady(moves, 1).None?;
    var rest := Redirect(moves[1..], SlotAt(3), t);
    assert rest == [Move(SlotAt(4), SlotAt(5)), Move(SlotAt(5), t)];
    var o := AfterBreaking(c, moves[0], map[]);
    RingDrains(c, rest, o);
  }

  lemma RingDrains(c: Context, rest: seq<Move>, o: Origins)
    requires rest == [Move(SlotAt(4), SlotAt(5)), Move(SlotAt(5), InReg(c.temporary))]
    requires SlotAt(5) !in o && From(o, SlotAt(3)) == SlotAt(4)
    ensures var e := Follow(c, rest, o);
      From(e, SlotAt(3)) == SlotAt(4) && From(e, SlotAt(4)) == SlotAt(5) && From(e, SlotAt(5)) == SlotAt(5)
  {
    assert rest[0].src == SlotAt(5) && rest[1].src == InReg(c.temporary);
    assert FirstReady(rest, 0) == Some(0);
    var last := Remove(rest, 0);
    assert last == [Move(SlotAt(5), InReg(c.temporary))];
    assert FirstReady(last, 0) == Some(0);
    assert Remove(last, 0) == [];
    var o1 := AfterMove(rest[0], c.temporary, o);
    var o2 := AfterMove(last[0], c.temporary, o1);
    assert Follow(c, [], o2) == o2;
    assert Follow(c, last, o1) == o2;
    assert Follow(c, rest, o) == Follow(c, last, o1);
  }

  lemma ValueAtEnd(env: Env, d: Data, v: VReg)
    requires Matches(Unit(), B1, 3, env, d) && (v == V3 || v == V4 || v == V5) && v in env
    ensures Val(Unit().c, d, LocOf(Unit().locs, v)) == env[v]
  {
    RingBlocks();
    LoopIsLive(v);
    LiveAtEnd(Ring(), B1, v);
    assert Matters(Ring(), B1, 3, v);
  }

  lemma MatchesInLoop(env: Env, e: Data)
    requires forall v :: v == V3 || v == V4 || v == V5 ==> Holds(Unit(), e, env, v)
    ensures Matches(Unit(), B1, 0, env, e)
  {
    RingBlocks();
    forall v | Matters(Ring(), B1, 0, v)
      ensures v == V3 || v == V4 || v == V5
    {
      LoopIsLive(v);
      LiveInUnfolds(Ring(), B1, v);
      LoopDefinesAndUses(v);
      PhiDefIsPhiOf(Loop(), v);
    }
  }

  // The moves round the loop leave the third phi where it was.
  lemma RingTurns(x: I64, y: I64, z: I64, d: Data)
    requires Matches(Unit(), B1, 3, Bound(x, y, z), d)
    ensures Matches(Unit(), B1, 0, Bound(y, z, z), AfterEdge(Unit(), Loop().insts, B1, d))
  {
    var u := Unit();
    var moves := EdgeOf(u, Loop().insts, B1);
    RingBlocks();
    RingIsAssigned();
    EdgePhisAreAssigned(u, B1, B1);
    EdgeIsMovable(u, Loop().insts, B1);
    RingFollows();
    OriginValue(u.c, moves, d, SlotAt(3));
    OriginValue(u.c, moves, d, SlotAt(4));
    OriginValue(u.c, moves, d, SlotAt(5));
    SlotsAre(3);
    SlotsAre(4);
    SlotsAre(5);
    ValueAtEnd(Bound(x, y, z), d, V4);
    ValueAtEnd(Bound(x, y, z), d, V5);
    MatchesInLoop(Bound(y, z, z), AfterEdge(u, Loop().insts, B1, d));
  }

  // ---------- the run ----------

  lemma RunEntry(d0: Data) returns (im: Image, d: Data)
    ensures im.code == FunctionCode(Unit()) && Grounded(Unit(), im, d0, [])
    ensures Reaches(im.code, Running(0, d0), Running(Top(im, B0), d)) && AtTop(Unit(), im, d0, B0, map[], d)
  {
    im := ImageOf(Unit());
    RingGrounds(d0);
    RingBlocks();
    assert LiesAt(Unit(), im, B0);
    d := EntryRuns(Unit(), d0);
  }

  lemma RunHead(im: Image, d0: Data, d: Data) returns (e: Data)
    requires Grounded(Unit(), im, d0, []) && AtTop(Unit(), im, d0, B0, map[], d)
    ensures Reaches(im.code, Running(Top(im, B0), d), Running(End(im, B0), e))
    ensures AtEnd(Unit(), im, d0, B0, Inputs(), e)
  {
    RingBlocks();
    HeadYields(3);
    e := TopToEnd(Unit(), im, d0, [], B0, map[], 3, Inputs(), d);
  }

  lemma HeadLeads()
    ensures Leads(Ring(), [], Stop(B0, Inputs()), Stop(B1, Bound(1, 0, 5)))
  {
    RingBlocks();
    EnterFromHead();
    LoopYields(Bound(1, 0, 5), 3);
    assert BlockYields(Ring(), [], B1, EntryEnv(Ring(), B1, Some(B0), Inputs()), 3, Bound(1, 0, 5));
  }

  lemma RunIn(im: Image, d0: Data, d: Data) returns (e: Data)
    requires Grounded(Unit(), im, d0, []) && AtEnd(Unit(), im, d0, B0, Inputs(), d)
    ensures Reaches(im.code, Running(End(im, B0), d), Running(End(im, B1), e))
    ensures AtEnd(Unit(), im, d0, B1, Bound(1, 0, 5), e)
  {
    EntryEdgeIsGood();
    HeadLeads();
    e := GoodLeadRuns(Unit(), im, d0, [], Stop(B0, Inputs()), Stop(B1, Bound(1, 0, 5)), d);
    LaterIsReached(im.code, Running(End(im, B0), d), Running(End(im, B1), e));
  }

  lemma LoopLies(im: Image, d0: Data)
    requires Grounded(Unit(), im, d0, [])
    ensures Placed(Unit()) && UniqueLabels(im.code) && Laid(Unit(), im.code, im.start)
    ensures BoundAt(im.code, B1, Top(im, B1)) && At(im.code, End(im, B1), TermCode(Unit(), Loop()))
  {
    RingBlocks();
    assert LiesAt(Unit(), im, B1);
  }

  lemma RunToStub(im: Image, d0: Data, env: Env, d: Data) returns (stub: nat, e: Data)
    requires Grounded(Unit(), im, d0, []) && AtEnd(Unit(), im, d0, B1, env, d) && V3 in env && env[V3] != 0
    ensures Reaches(im.code, Running(End(im, B1), d), Running(stub, e))
    ensures At(im.code, stub, EdgeCode(Unit(), B1, B1)) && Matches(Unit(), B1, 3, env, e)
  {
    LoopLies(im, d0);
    LoopHasThree();
    ValueAtEnd(env, d, V3);
    stub, e := FromLoop(im.code, End(im, B1), env, d);
  }

  lemma LoopHasThree()
    ensures HasBlock(Ring(), B1) && |BlockAt(Ring(), B1).insts| == 3
  {
    RingBlocks();
  }

  lemma FromLoop(code: seq<Instr>, pc: nat, env: Env, d: Data) returns (stub: nat, e: Data)
    requires Placed(Unit()) && UniqueLabels(code) && At(code, pc, TermCode(Unit(), Loop()))
    requires Matches(Unit(), B1, 3, env, d) && Val(Unit().c, d, LocOf(Unit().locs, V3)) != 0
    ensures Reaches(code, Running(pc, d), Running(stub, e))
    ensures At(code, stub, EdgeCode(Unit(), B1, B1)) && Matches(Unit(), B1, 3, env, e)
  {
    stub, e := BranchRuns(Unit(), code, B1, V3, EdgeCode(Unit(), B1, B1), EdgeCode(Unit(), B1, B2), pc, d);
    UndisturbedMatches(Unit(), B1, 3, env, d, e);
  }

  lemma EdgeIsThat(a: BlockId)
    ensures EdgeMoves(Unit(), a, B1) == EdgeOf(Unit(), Loop().insts, a)
  {
    RingBlocks();
  }

  lemma RunBack(im: Image, d0: Data, stub: nat, d: Data)
    requires Grounded(Unit(), im, d0, []) && At(im.code, stub, EdgeCode(Unit(), B1, B1))
    ensures Reaches(im.code, Running(stub, d), Running(Top(im, B1), AfterEdge(Unit(), Loop().insts, B1, d)))
  {
    LoopLies(im, d0);
    EdgeIsThat(B1);
    EdgeRuns(Unit(), im.code, B1, B1, Top(im, B1), stub, d);
  }

  lemma StaysInFrame(im: Image, d0: Data, pc: nat, d: Data, pc': nat, e: Data)
    requires Grounded(Unit(), im, d0, []) && InFrame(Unit(), im.code, im.start, d0, Running(pc, d))
    requires Reaches(im.code, Running(pc, d), Running(pc', e))
    ensures InFrame(Unit(), im.code, im.start, d0, Running(pc', e))
  {
    ReachesInFrame(Unit(), im.code, im.start, d0, Running(pc, d), Running(pc', e));
  }

  lemma BoundHas(x: I64, y: I64, z: I64)
    ensures V3 in Bound(x, y, z) && Bound(x, y, z)[V3] == x
    ensures V5 in Bound(x, y, z) && Bound(x, y, z)[V5] == z
  {
  }

  lemma RunRound(im: Image, d0: Data, x: I64, y: I64, z: I64, d: Data) returns (after: Env, e: Data)
    requires Grounded(Unit(), im, d0, []) && AtEnd(Unit(), im, d0, B1, Bound(x, y, z), d) && x != 0
    ensures Reaches(im.code, Running(End(im, B1), d), Running(Top(im, B1), e)) && AtTop(Unit(), im, d0, B1, after, e)
    ensures V3 in after && after[V3] == y && V5 in after && after[V5] == z
  {
    BoundHas(x, y, z);
    BoundHas(y, z, z);
    after := Bound(y, z, z);
    var stub, mid := RunToStub(im, d0, Bound(x, y, z), d);
    RunBack(im, d0, stub, mid);
    RingTurns(x, y, z, mid);
    e := AfterEdge(Unit(), Loop().insts, B1, mid);
    ReachesTrans(im.code, Running(End(im, B1), d), Running(stub, mid), Running(Top(im, B1), e));
    Arrives(im, d0, Bound(x, y, z), d, after, e);
  }

  lemma Arrives(im: Image, d0: Data, env: Env, d: Data, after: Env, e: Data)
    requires Grounded(Unit(), im, d0, []) && AtEnd(Unit(), im, d0, B1, env, d)
    requires Reaches(im.code, Running(End(im, B1), d), Running(Top(im, B1), e)) && Matches(Unit(), B1, 0, after, e)
    ensures AtTop(Unit(), im, d0, B1, after, e)
  {
    StaysInFrame(im, d0, End(im, B1), d, Top(im, B1), e);
    LoopHasThree();
  }

  lemma RunLoopOnce(im: Image, d0: Data, env: Env, d: Data) returns (e: Data)
    requires Grounded(Unit(), im, d0, []) && AtTop(Unit(), im, d0, B1, env, d)
    ensures Reaches(im.code, Running(Top(im, B1), d), Running(End(im, B1), e)) && AtEnd(Unit(), im, d0, B1, env, e)
  {
    RingBlocks();
    LoopYields(env, 3);
    e := TopToEnd(Unit(), im, d0, [], B1, env, 3, env, d);
  }

  lemma LoopLeadsOut(env: Env)
    requires V3 in env && env[V3] == 0
    ensures Leads(Ring(), [], Stop(B1, env), Stop(B2, env))
  {
    RingBlocks();
    assert EnterPhis(Tail().insts, 0, Some(B1), env) == Success(env);
    assert BlockYields(Ring(), [], B2, EntryEnv(Ring(), B2, Some(B1), env), 0, env);
  }

  lemma RunExit(im: Image, d0: Data, env: Env, d: Data) returns (e: Data)
    requires Grounded(Unit(), im, d0, []) && AtEnd(Unit(), im, d0, B1, env, d) && V3 in env && env[V3] == 0
    ensures Reaches(im.code, Running(End(im, B1), d), Running(End(im, B2), e)) && AtEnd(Unit(), im, d0, B2, env, e)
  {
    ExitEdgeIsGood();
    LoopLeadsOut(env);
    e := GoodLeadRuns(Unit(), im, d0, [], Stop(B1, env), Stop(B2, env), d);
    LaterIsReached(im.code, Running(End(im, B1), d), Running(End(im, B2), e));
  }

  lemma RunReturn(im: Image, d0: Data, env: Env, d: Data) returns (e: Data)
    requires Grounded(Unit(), im, d0, []) && AtEnd(Unit(), im, d0, B2, env, d) && V5 in env
    ensures Reaches(im.code, Running(End(im, B2), d), Halted(e)) && Get(e, Gp(Rax)) == env[V5]
  {
    RingBlocks();
    e := ReturnFrom(Unit(), im, d0, [], B2, env, d);
  }

  lemma RunLeave(im: Image, d0: Data, env: Env, d: Data) returns (e: Data)
    requires Grounded(Unit(), im, d0, []) && AtEnd(Unit(), im, d0, B1, env, d)
    requires V3 in env && env[V3] == 0 && V5 in env
    ensures Reaches(im.code, Running(End(im, B1), d), Halted(e)) && Get(e, Gp(Rax)) == env[V5]
  {
    var mid := RunExit(im, d0, env, d);
    e := RunReturn(im, d0, env, mid);
    ReachesTrans(im.code, Running(End(im, B1), d), Running(End(im, B2), mid), Halted(e));
  }

  lemma RunOut(im: Image, d0: Data, env: Env, d: Data) returns (e: Data)
    requires Grounded(Unit(), im, d0, []) && AtTop(Unit(), im, d0, B1, env, d)
    requires V3 in env && env[V3] == 0 && V5 in env
    ensures Reaches(im.code, Running(Top(im, B1), d), Halted(e)) && Get(e, Gp(Rax)) == env[V5]
  {
    var mid := RunLoopOnce(im, d0, env, d);
    e := RunLeave(im, d0, env, mid);
    ReachesTrans(im.code, Running(Top(im, B1), d), Running(End(im, B1), mid), Halted(e));
  }

  lemma RunFromLoop(im: Image, d0: Data, d: Data) returns (e: Data)
    requires Grounded(Unit(), im, d0, []) && AtEnd(Unit(), im, d0, B1, Bound(1, 0, 5), d)
    ensures Reaches(im.code, Running(End(im, B1), d), Halted(e)) && Get(e, Gp(Rax)) == 5
  {
    var after, mid := RunRound(im, d0, 1, 0, 5, d);
    e := RunOut(im, d0, after, mid);
    ReachesTrans(im.code, Running(End(im, B1), d), Running(Top(im, B1), mid), Halted(e));
  }

  lemma RunFromHead(im: Image, d0: Data, d: Data) returns (e: Data)
    requires Grounded(Unit(), im, d0, []) && AtTop(Unit(), im, d0, B0, map[], d)
    ensures Reaches(im.code, Running(Top(im, B0), d), Halted(e)) && Get(e, Gp(Rax)) == 5
  {
    var d1 := RunHead(im, d0, d);
    var d2 := RunIn(im, d0, d1);
    e := RunFromLoop(im, d0, d2);
    ReachesTrans(im.code, Running(Top(im, B0), d), Running(End(im, B0), d1), Running(End(im, B1), d2));
    ReachesTrans(im.code, Running(Top(im, B0), d), Running(End(im, B1), d2), Halted(e));
  }

  lemma RingHalts(d0: Data) returns (e: Data)
    ensures Reaches(FunctionCode(Unit()), Running(0, d0), Halted(e)) && Get(e, Gp(Rax)) == 5
  {
    var im, d := RunEntry(d0);
    e := RunFromHead(im, d0, d);
    ReachesTrans(im.code, Running(0, d0), Running(Top(im, B0), d), Halted(e));
  }

  lemma RingCall(d0: Data)
    ensures Called(Ring(), [], d0) && FrameFits(Ring().args + Spilled().stackSlots)
  {
    RegistersAreReady();
  }

  // The assignment linear scan chooses is accepted.
  lemma RingIsCalled(d0: Data)
    ensures CalledRight(Ring(), Spilled(), Registers(), [], d0)
  {
    SpilledIsAccepted();
    RingCall(d0);
  }

  // The function returns 1, yet its code halts with 5, from any state.
  lemma SpilledRingBreaksTheCode(d0: Data)
    ensures Evaluates(Ring(), [], 1) && !Returns(Unit(), FunctionCode(Unit()), d0, 1)
  {
    RingEvaluates();
    var e := RingHalts(d0);
    OnlyOneResult(Unit(), FunctionCode(Unit()), d0, e, 1);
  }

  lemma RingPhisAreUsed()
    ensures Coverage.UsedSomewhere(Ring(), V3) && Coverage.UsedSomewhere(Ring(), V4)
  {
    RingBlocks();
    ReadsOfLoop(B1, V3);
    ReadsOfLoop(B1, V4);
  }

  lemma UsedPhisOfLoop(f: Function)
    requires Coverage.UsedSomewhere(f, V3) && Coverage.UsedSomewhere(f, V4)
    ensures Coverage.EarlierPhisUsed(f, Loop())
  {
    assert Loop().insts[0].dst == V3 && Loop().insts[1].dst == V4;
  }

  lemma LoopLocations(i: nat)
    requires i < 3
    ensures Loop().insts[i].dst in Spilled().locs && Spilled().locs[Loop().insts[i].dst] == SlotOf(3 + i)
  {
  }

  lemma LoopPhisLieApart()
    ensures Coverage.PhisApart(Loop(), Spilled().locs)
  {
    forall i, j | 0 <= i < j < |Loop().insts|
      ensures !SameLocation(Spilled().locs, Loop().insts[i].dst, Loop().insts[j].dst)
    {
      LoopLocations(i);
      LoopLocations(j);
    }
  }

  // The loop's phis are used, and lie apart: it is the cycle through the stack that fails.
  lemma RingPhisLieApart()
    ensures Coverage.PhisApart(Loop(), Spilled().locs) && Coverage.EarlierPhisUsed(Ring(), Loop())
  {
    LoopPhisLieApart();
    RingPhisAreUsed();
    UsedPhisOfLoop(Ring());
  }
}
