// A dead phi may share its block's other phis' location, and then its move overwrites a live one:
// a verified assignment for which the emitted code returns the wrong value.
module DeadPhi {
  import opened Wrappers
  import opened Ir
  import opened Interp
  import opened Cfg
  import opened Validation
  import opened Liveness
  import opened Intervals
  import opened Sorting
  import opened Alloc
  import opened LinearScan
  import opened Machine
  import opened ParallelMoves
  import opened MoveOrigins
  import opened Lowering
  import opened Frames
  import opened Edges
  import opened Separation
  import opened Preservation
  import opened Termination
  import Coverage

  const B0 := BlockId(0)
  const B1 := BlockId(1)
  const V0 := VReg(0)
  const V1 := VReg(1)
  const V2 := VReg(2)
  const V3 := VReg(3)

  function First(): Block {
    Block(B0, [ConstI64(V0, 1), ConstI64(V1, 2)], Terminator.Jmp(B1))
  }

  function Second(): Block {
    Block(B1, [PhiI64(V2, [(B0, V0)]), PhiI64(V3, [(B0, V1)])], Terminator.Ret(V3))
  }

  function Example(): Function {
    Function(0, B0, [First(), Second()])
  }

  // ---------- the function is well formed ----------

  lemma ExampleBlocks()
    ensures forall b :: HasBlock(Example(), b) <==> b == B0 || b == B1
    ensures HasBlock(Example(), B0) && BlockAt(Example(), B0) == First() && IndexOf(Example(), B0) == 0
    ensures HasBlock(Example(), B1) && BlockAt(Example(), B1) == Second() && IndexOf(Example(), B1) == 1
    ensures UniqueIds(Example())
  {
    var f := Example();
    assert f.blocks[0].id == B0 && f.blocks[1].id == B1;
    BlockAtIndex(f, 0);
    BlockAtIndex(f, 1);
  }

  lemma ExampleEdges()
    ensures forall a, b :: Edge(Example(), a, b) <==> a == B0 && b == B1
    ensures KnownSuccessors(Example()) && AllReachable(Example())
  {
    var f := Example();
    ExampleBlocks();
    forall a, b
      ensures Edge(f, a, b) <==> a == B0 && b == B1
    {
      assert BlockEdge(f.blocks[0], B0, B1);
      if Edge(f, a, b) {
        var i :| 0 <= i < |f.blocks| && BlockEdge(f.blocks[i], a, b);
      }
    }
    assert PathFromTo(f, [B0], f.entry, B0);
    assert PathFromTo(f, [B0, B1], f.entry, B1);
  }

  lemma ExampleSites(bi: int, i: int, v: VReg)
    ensures DefSite(Example(), bi, i, v) <==>
      (bi == 0 && i == 0 && v == V0) || (bi == 0 && i == 1 && v == V1) ||
      (bi == 1 && i == 0 && v == V2) || (bi == 1 && i == 1 && v == V3)
  {
  }

  lemma ExamplePhi(v: VReg, i: int)
    requires DefSite(Example(), 0, i, v)
    ensures PhiMatchesPredecessors(Example(), B1, [(B0, v)])
  {
    var f := Example();
    var incoming := [(B0, v)];
    ExampleEdges();
    assert incoming[0].0 == B0;
    assert Dominates(f, B0, B0);
    assert PhiInputDominated(f, v, B0);
  }

  lemma ExampleIsWellFormed()
    ensures WellFormed(Example())
  {
    var f := Example();
    ExampleBlocks();
    ExampleEdges();
    ExamplePhi(V0, 0);
    ExamplePhi(V1, 1);
    forall bi, i, bj, j, v | DefSite(f, bi, i, v) && DefSite(f, bj, j, v)
      ensures bi == bj && i == j
    {
      ExampleSites(bi, i, v);
      ExampleSites(bj, j, v);
    }
    ExampleUses();
  }

  lemma ExampleUses()
    requires PhiMatchesPredecessors(Example(), B1, [(B0, V0)]) && PhiMatchesPredecessors(Example(), B1, [(B0, V1)])
    ensures UsesOk(Example(), First()) && UsesOk(Example(), Second())
  {
    var f := Example();
    assert DefSite(f, 1, 1, V3);
    assert UseDominated(f, V3, Second(), 2);
    forall index | 0 <= index < 2
      ensures InstUsesOk(f, First(), index) && InstUsesOk(f, Second(), index)
    {
      if index == 0 {
        assert Second().insts[0] == PhiI64(V2, [(B0, V0)]);
      } else {
        assert Second().insts[1] == PhiI64(V3, [(B0, V1)]);
      }
    }
  }

  // ---------- its intervals ----------

  lemma SecondExposesNothing(v: VReg)
    ensures !Exposed(Second(), 0, v)
  {
    assert DefinedIn(Second(), 0, 2, V3) by {
      assert Second().insts[1].dst == V3;
    }
  }

  lemma ExampleLiveness(v: VReg)
    ensures !LiveIn(Example(), B0, v) && !LiveIn(Example(), B1, v) && !LiveOut(Example(), B1, v)
    ensures LiveOut(Example(), B0, v) ==> v == V0 || v == V1
  {
    var f := Example();
    ExampleBlocks();
    SecondExposesNothing(v);
    LiveInUnfolds(f, B1, v);
    LiveInUnfolds(f, B0, v);
    assert !Exposed(First(), 0, v);
    assert !LiveIn(f, B1, v);
    if LiveOut(f, B0, v) {
      var s :| s in Successors(First().term) && LiveOnEdge(f, B0, s, v);
      assert PhiUse(Second(), B0, v);
      ReadsOfSecond(v);
    }
    assert First().insts[0].dst == V0 && First().insts[1].dst == V1;
  }

  lemma ReadsOfSecond(v: VReg)
    requires PhiUse(Second(), B0, v)
    ensures v == V0 || v == V1
  {
    var i :| 0 <= i < |Second().insts| && Second().insts[i].PhiI64? && (B0, v) in Second().insts[i].incoming;
  }

  function Spans(): seq<LiveInterval> {
    [LiveInterval(V0, 0, 2), LiveInterval(V1, 1, 2), LiveInterval(V2, 3, 3), LiveInterval(V3, 4, 5)]
  }

  lemma ExamplePositions()
    ensures HasBlock(Example(), B0) && HasBlock(Example(), B1)
    ensures forall k: nat :: PosOf(Example(), B0, k) == k && PosOf(Example(), B1, k) == 3 + k
  {
    ExampleBlocks();
    assert BlockStart(Example(), 0) == 0;
    assert BlockStart(Example(), 1) == BlockStart(Example(), 0) + 3;
  }

  lemma SpanCovers(v: VReg, pos: nat, i: nat)
    requires i < 4 && Spans()[i].v == v && Spans()[i].start <= pos <= Spans()[i].end
    ensures CoversPoint(Spans(), v, pos)
  {
  }

  lemma FirstTouch(k: nat, v: VReg)
    requires TouchedAt(Example(), B0, k, v)
    ensures k <= 2 && ((v == V0) || (v == V1 && k >= 1))
  {
    ExampleBlocks();
    ExampleLiveness(v);
    if UsedOnSomeEdge(Example(), B0, v) {
      ReadsOfSecond(v);
    }
  }

  lemma SecondTouch(k: nat, v: VReg)
    requires TouchedAt(Example(), B1, k, v)
    ensures k <= 2 && ((v == V2 && k == 0) || (v == V3 && k >= 1))
  {
    ExampleBlocks();
    ExampleLiveness(v);
  }

  lemma TouchIsSpanned(b: BlockId, k: nat, v: VReg)
    requires TouchedAt(Example(), b, k, v)
    ensures CoversPoint(Spans(), v, PosOf(Example(), b, k))
  {
    ExampleBlocks();
    ExamplePositions();
    if b == B0 {
      FirstTouch(k, v);
      SpanCovers(v, k, if v == V0 then 0 else 1);
    } else {
      SecondTouch(k, v);
      SpanCovers(v, 3 + k, if v == V2 then 2 else 3);
    }
  }

  lemma TouchCounts(b: BlockId, k: nat, v: VReg, pos: nat)
    requires TouchedAt(Example(), b, k, v) && pos == PosOf(Example(), b, k)
    ensures (v, pos) in AllTouches(Example())
  {
    assert Touched(Example(), v, pos);
  }

  lemma DefinitionTouches(b: BlockId, k: nat)
    requires HasBlock(Example(), b) && k < |BlockAt(Example(), b).insts|
    ensures TouchedAt(Example(), b, k, BlockAt(Example(), b).insts[k].dst)
  {
  }

  lemma DefinitionCounts(b: BlockId, k: nat, v: VReg, pos: nat)
    requires HasBlock(Example(), b) && k < |BlockAt(Example(), b).insts| && BlockAt(Example(), b).insts[k].dst == v
    requires pos == PosOf(Example(), b, k)
    ensures (v, pos) in AllTouches(Example())
  {
    DefinitionTouches(b, k);
    TouchCounts(b, k, v, pos);
  }

  lemma V0IsDefined()
    ensures (V0, 0) in AllTouches(Example())
  {
    ExampleBlocks();
    ExamplePositions();
    DefinitionCounts(B0, 0, V0, 0);
  }

  lemma V1IsDefined()
    ensures (V1, 1) in AllTouches(Example())
  {
    ExampleBlocks();
    ExamplePositions();
    DefinitionCounts(B0, 1, V1, 1);
  }

  lemma V2IsDefined()
    ensures (V2, 3) in AllTouches(Example())
  {
    ExampleBlocks();
    ExamplePositions();
    DefinitionCounts(B1, 0, V2, 3);
  }

  lemma V3IsDefined()
    ensures (V3, 4) in AllTouches(Example())
  {
    ExampleBlocks();
    ExamplePositions();
    DefinitionCounts(B1, 1, V3, 4);
  }

  lemma EdgeTouches()
    ensures (V0, 2) in AllTouches(Example()) && (V1, 2) in AllTouches(Example())
  {
    ExampleBlocks();
    ExamplePositions();
    assert (B0, V0) in Second().insts[0].incoming && (B0, V1) in Second().insts[1].incoming;
    assert PhiUse(Second(), B0, V0) && PhiUse(Second(), B0, V1);
    assert UsedOnSomeEdge(Example(), B0, V0) && UsedOnSomeEdge(Example(), B0, V1);
    TouchCounts(B0, 2, V0, 2);
    TouchCounts(B0, 2, V1, 2);
  }

  lemma ReturnTouches()
    ensures (V3, 5) in AllTouches(Example())
  {
    ExampleBlocks();
    ExamplePositions();
    assert UsedAt(Second(), 2, V3);
    assert TouchedAt(Example(), B1, 2, V3);
    TouchCounts(B1, 2, V3, 5);
  }

  lemma SpansEndTouched(touches: Touches)
    requires (V0, 0) in touches && (V0, 2) in touches && (V1, 1) in touches && (V1, 2) in touches
    requires (V2, 3) in touches && (V3, 4) in touches && (V3, 5) in touches
    ensures EndsTouched(touches, Spans()) && DistinctValues(Spans()) && Sorted(Spans(), KeyLess)
  {
  }

  lemma SpansCoverAll()
    ensures CoverAll(AllTouches(Example()), Spans())
  {
    forall v, pos: nat | (v, pos) in AllTouches(Example())
      ensures CoversPoint(Spans(), v, pos)
    {
      assert Touched(Example(), v, pos);
      var b, k: nat :| TouchedAt(Example(), b, k, v) && pos == PosOf(Example(), b, k);
      TouchIsSpanned(b, k, v);
    }
  }

  lemma ExampleIntervals()
    ensures AreIntervals(Example(), Spans())
  {
    V0IsDefined();
    V1IsDefined();
    V2IsDefined();
    V3IsDefined();
    EdgeTouches();
    ReturnTouches();
    SpansEndTouched(AllTouches(Example()));
    SpansCoverAll();
  }

  // ---------- a verified assignment ----------

  // The default general-purpose set.
  function Registers(): PhysRegSet {
    PhysRegSet(Pool(), [R10, R11])
  }

  function Pool(): seq<PhysReg> {
    [Rax, Rcx, Rdx, R8, R9]
  }

  function Shared(): Assignment {
    Assignment(map[V0 := Reg(R9), V1 := Reg(R8), V2 := Reg(R8), V3 := Reg(R8)], 0, 0)
  }

  lemma PoolIsAllowed()
    ensures forall r :: r in Pool() ==> RegisterAllowed(Registers(), 5, r)
  {
    forall r | r in Pool()
      ensures RegisterAllowed(Registers(), 5, r)
    {
      var i :| 0 <= i < 5 && Pool()[i] == r;
      assert Registers().regs[i] == r;
    }
  }

  lemma RegistersAreReady()
    ensures ReadyForCodegen(Registers())
  {
  }

  lemma SharedIsValid()
    ensures ValidAssignment(Spans(), Registers(), 5, Shared()) && ReadyForCodegen(Registers())
  {
    RegistersAreReady();
    assert Values(Spans()) == {V0, V1, V2, V3} by {
      assert Spans()[0].v == V0 && Spans()[1].v == V1 && Spans()[2].v == V2 && Spans()[3].v == V3;
    }
    assert StackValues(Shared().locs) == {};
    PoolIsAllowed();
  }

  // ---------- linear scan chooses it ----------

  lemma FilterOne(x: Held, start: nat)
    ensures Survivors([x], start) == if x.interval.end < start then [] else [x]
    ensures Released([x], start) == if x.interval.end < start then [x.reg] else []
  {
    assert [x][..0] == [];
    assert Survivors([], start) == [] && Released([], start) == [];
  }

  lemma ExpireOne(x: Held, s: Scan, start: nat)
    requires s.active == [x]
    ensures Expire(s, start) == if x.interval.end < start then Scan([], s.free + [x.reg], s.locs, s.slots) else s
  {
    SortedStays([x], EndLess);
    FilterOne(x, start);
  }

  lemma ExpireTwo(x: Held, y: Held, s: Scan, start: nat)
    requires s.active == [x, y] && x.interval.end <= y.interval.end < start
    ensures Expire(s, start) == Scan([], s.free + [x.reg, y.reg], s.locs, s.slots)
  {
    SortedStays([x, y], EndLess);
    assert [x, y][..1] == [x];
    FilterOne(x, start);
    assert Survivors([x, y], start) == [] && Released([x, y], start) == [x.reg, y.reg];
  }

  lemma FirstTwoScanned()
    ensures ScanAll(Spans()[..2], Pool()) ==
      Scan([Held(Spans()[0], R9), Held(Spans()[1], R8)], [Rax, Rcx, Rdx], map[V0 := Reg(R9), V1 := Reg(R8)], 0)
  {
    var s, pool := Spans(), Pool();
    assert s[..2][..1] == s[..1] && s[..1][..0] == [];
    var empty := Scan([], pool, map[], 0);
    assert Expire(empty, 0) == empty;
    var one := Scan([Held(s[0], R9)], [Rax, Rcx, Rdx, R8], map[V0 := Reg(R9)], 0);
    assert ScanAll(s[..1], pool) == one;
    ExpireOne(Held(s[0], R9), one, 1);
  }

  function ThreeScanned(): Scan {
    Scan([Held(Spans()[2], R8)], [Rax, Rcx, Rdx, R9], map[V0 := Reg(R9), V1 := Reg(R8), V2 := Reg(R8)], 0)
  }

  lemma FirstThreeScanned()
    ensures ScanAll(Spans()[..3], Pool()) == ThreeScanned()
  {
    var s := Spans();
    assert s[..3][..2] == s[..2];
    FirstTwoScanned();
    ExpireTwo(Held(s[0], R9), Held(s[1], R8), ScanAll(s[..2], Pool()), 3);
  }

  lemma AllScanned()
    ensures ScanAll(Spans(), Pool()).locs == Shared().locs && ScanAll(Spans(), Pool()).slots == 0
  {
    FirstThreeScanned();
    ExpireOne(Held(Spans()[2], R8), ThreeScanned(), 4);
    var mid := Scan([], [Rax, Rcx, Rdx, R9, R8], ThreeScanned().locs, 0);
    assert Expire(ThreeScanned(), 4) == mid;
    assert Place(mid, Spans()[3]) == Take(mid, Spans()[3]);
  }

  lemma LinearScanSharesPhis()
    ensures TotalPreorder(KeyLess) && ScanResult(Spans(), Registers(), 5).slots == 0
    ensures ScanAssignment(Spans(), Registers(), 5) == Shared()
  {
    KeyIsOrdered();
    SortedStays(Spans(), KeyLess);
    assert Allowed(Registers(), 5) == Pool();
    AllScanned();
  }

  lemma SharedIsAccepted()
    ensures Accepted(Example(), Shared(), Registers()) && FrameFits(0)
  {
    ExampleIsWellFormed();
    ExampleIntervals();
    SharedIsValid();
    assert BlockStart(Example(), 2) == BlockStart(Example(), 1) + 3;
    assert BlockStart(Example(), 1) == BlockStart(Example(), 0) + 3;
  }

  // ---------- what the interpreter and the code return ----------

  lemma ExampleEvaluates()
    ensures Eval(Example(), [], 6) == Success(2)
  {
    var f := Example();
    ExampleBlocks();
    var env: Env := map[V0 := 1, V1 := 2];
    assert EnterPhis(First().insts, 2, None, map[]) == Success(map[]);
    assert RunInsts(First().insts, 2, [], env, 3) == Success(env);
    assert RunInsts(First().insts, 1, [], map[V0 := 1], 4) == Success(env);
    assert RunInsts(First().insts, 0, [], map[], 5) == Success(env);
    var entered := env[V2 := 1][V3 := 2];
    assert FindIncoming([(B0, V0)], B0) == Some(V0) && FindIncoming([(B0, V1)], B0) == Some(V1);
    assert EnterPhis(Second().insts, 1, Some(B0), env) == Success(env[V2 := 1]);
    assert EnterPhis(Second().insts, 2, Some(B0), env) == Success(entered);
    assert RunInsts(Second().insts, 2, [], entered, 0) == Success(entered);
    assert RunInsts(Second().insts, 1, [], entered, 1) == Success(entered);
    assert RunInsts(Second().insts, 0, [], entered, 2) == Success(entered);
    assert RunFrom(f, [], B1, Some(B0), env, 3) == Success(2);
    assert RunFrom(f, [], B0, None, map[], 6) == Success(2);
  }

  function ExampleUnit(): Compilation {
    CompilationOf(Example(), Shared(), Registers())
  }

  lemma ExamplePhis()
    ensures PhisOf(Second().insts) == [Phi(V2, [(B0, V0)]), Phi(V3, [(B0, V1)])]
  {
    var insts := Second().insts;
    assert insts[..1] == [insts[0]] && insts[..1][..0] == [];
    assert PhisOf(insts[..1]) == [Phi(V2, [(B0, V0)])];
  }

  // The second phi's input is already in R8, where the first phi's move then puts V0.
  lemma ExampleMoves()
    ensures EdgeMoves(ExampleUnit(), B0, B1) == [Move(InReg(R8), InReg(R9))]
  {
    ExampleBlocks();
    ExamplePhis();
    TwoPhiMoves(Shared().locs, Phi(V2, [(B0, V0)]), Phi(V3, [(B0, V1)]));
  }

  lemma TwoPhiMoves(locs: map<VReg, Location>, p: Phi, q: Phi)
    ensures MovesFor(locs, [p, q], B0) == MoveFor(locs, p, B0) + MoveFor(locs, q, B0)
  {
    assert [p, q][..1] == [p] && [p][..0] == [];
    assert MovesFor(locs, [p], B0) == MoveFor(locs, p, B0);
  }

  lemma ExampleEdgeCode()
    ensures EdgeCode(ExampleUnit(), B0, B1) == [MovReg(Gp(R8), Gp(R9)), Instr.Jmp(BlockLabel(B1))]
  {
    ExampleMoves();
    var moves := [Move(InReg(R8), InReg(R9))];
    assert moves[0].dst !in Srcs(moves);
    assert Remove(moves, 0) == [];
    assert FirstReady(moves, 0) == Some(0);
  }

  function ExpectedCode(): seq<Instr> {
    [Push(Rbp), MovReg(Rbp, Rsp), Instr.Jmp(BlockLabel(B0)),
     Bind(BlockLabel(B0)), MovImm(Gp(R9), 1), MovImm(Gp(R8), 2), MovReg(Gp(R8), Gp(R9)), Instr.Jmp(BlockLabel(B1)),
     Bind(BlockLabel(B1)), MovReg(Gp(Rax), Gp(R8)), Pop(Rbp), Instr.Ret]
  }

  lemma FlattenTwo(parts: seq<seq<Instr>>)
    requires |parts| == 2
    ensures Flatten(parts, 0) == parts[0] + parts[1]
  {
    assert Flatten(parts, 2) == [];
    assert Flatten(parts, 1) == parts[1] + [];
  }

  lemma FirstInsts()
    ensures Flatten(InstParts(ExampleUnit(), First()), 0) == [MovImm(Gp(R9), 1), MovImm(Gp(R8), 2)]
  {
    var parts := InstParts(ExampleUnit(), First());
    FlattenTwo(parts);
    assert parts[0] == [MovImm(Gp(R9), 1)] && parts[1] == [MovImm(Gp(R8), 2)];
  }

  lemma FirstCode()
    ensures BlockCode(ExampleUnit(), First()) ==
      [Bind(BlockLabel(B0)), MovImm(Gp(R9), 1), MovImm(Gp(R8), 2), MovReg(Gp(R8), Gp(R9)), Instr.Jmp(BlockLabel(B1))]
  {
    FirstInsts();
    FirstTerm();
  }

  lemma FirstTerm()
    ensures TermCode(ExampleUnit(), First()) == [MovReg(Gp(R8), Gp(R9)), Instr.Jmp(BlockLabel(B1))]
  {
    ExampleEdgeCode();
  }

  lemma SecondCode()
    ensures BlockCode(ExampleUnit(), Second()) == [Bind(BlockLabel(B1)), MovReg(Gp(Rax), Gp(R8)), Pop(Rbp), Instr.Ret]
  {
    var parts := InstParts(ExampleUnit(), Second());
    FlattenTwo(parts);
    assert parts[0] == [] && parts[1] == [];
    assert ExampleUnit().Frame() == 0;
  }

  lemma ExampleCode()
    ensures FunctionCode(ExampleUnit()) == ExpectedCode()
  {
    var parts := BlockParts(ExampleUnit());
    FirstCode();
    SecondCode();
    FlattenTwo(parts);
    ExamplePrologue();
    assert parts[0] == BlockCode(ExampleUnit(), First()) && parts[1] == BlockCode(ExampleUnit(), Second());
    JoinCode(parts[0], parts[1]);
  }

  lemma JoinCode(first: seq<Instr>, second: seq<Instr>)
    requires first == [
      Bind(BlockLabel(B0)), MovImm(Gp(R9), 1), MovImm(Gp(R8), 2), MovReg(Gp(R8), Gp(R9)),
      Instr.Jmp(BlockLabel(B1))]
    requires second == [Bind(BlockLabel(B1)), MovReg(Gp(Rax), Gp(R8)), Pop(Rbp), Instr.Ret]
    ensures [Push(Rbp), MovReg(Rbp, Rsp)] + [Instr.Jmp(BlockLabel(B0))] + (first + second) == ExpectedCode()
  {
  }

  lemma ExamplePrologue()
    ensures Prologue(ExampleUnit()) == [Push(Rbp), MovReg(Rbp, Rsp)]
  {
    assert ExampleUnit().Frame() == 0;
    assert ShadowCode(0, 0) == [];
  }

  lemma LabelsOfExpected()
    ensures Address(ExpectedCode(), BlockLabel(B0), 0) == Some(3)
    ensures Address(ExpectedCode(), BlockLabel(B1), 0) == Some(8)
  {
    var code := ExpectedCode();
    assert code[3] == Bind(BlockLabel(B0)) && code[8] == Bind(BlockLabel(B1));
  }

  // Each step of the run from d0, up to the first edge.
  lemma EntrySteps(d0: Data) returns (d: Data)
    ensures Reaches(ExpectedCode(), Running(0, d0), Running(4, d))
  {
    var code := ExpectedCode();
    var d1 := Exec1(Push(Rbp), d0);
    d := Exec1(MovReg(Rbp, Rsp), d1);
    LabelsOfExpected();
    TwoSteps(code, Running(0, d0), Running(1, d1), Running(2, d));
    TwoSteps(code, Running(2, d), Running(3, d), Running(4, d));
    ReachesTrans(code, Running(0, d0), Running(2, d), Running(4, d));
  }

  lemma FirstBlockSteps(d: Data) returns (e: Data)
    ensures Reaches(ExpectedCode(), Running(4, d), Running(8, e)) && Get(e, Gp(R8)) == 1
  {
    var code := ExpectedCode();
    var d1 := Exec1(MovImm(Gp(R9), 1), d);
    var d2 := Exec1(MovImm(Gp(R8), 2), d1);
    e := Exec1(MovReg(Gp(R8), Gp(R9)), d2);
    LabelsOfExpected();
    TwoSteps(code, Running(4, d), Running(5, d1), Running(6, d2));
    TwoSteps(code, Running(6, d2), Running(7, e), Running(8, e));
    ReachesTrans(code, Running(4, d), Running(6, d2), Running(8, e));
  }

  lemma SecondBlockSteps(d: Data) returns (e: Data)
    requires Get(d, Gp(R8)) == 1
    ensures Reaches(ExpectedCode(), Running(8, d), Halted(e)) && Get(e, Gp(Rax)) == 1
  {
    var code := ExpectedCode();
    var mid := Exec1(MovReg(Gp(Rax), Gp(R8)), d);
    e := Exec1(Pop(Rbp), mid);
    TwoSteps(code, Running(8, d), Running(9, d), Running(10, mid));
    TwoSteps(code, Running(10, mid), Running(11, e), Halted(e));
    ReachesTrans(code, Running(8, d), Running(10, mid), Halted(e));
  }

  lemma ExampleHalts(d0: Data) returns (e: Data)
    ensures Reaches(FunctionCode(ExampleUnit()), Running(0, d0), Halted(e)) && Get(e, Gp(Rax)) == 1
  {
    var code := ExpectedCode();
    ExampleCode();
    var d1 := EntrySteps(d0);
    var d2 := FirstBlockSteps(d1);
    e := SecondBlockSteps(d2);
    ReachesTrans(code, Running(0, d0), Running(4, d1), Running(8, d2));
    ReachesTrans(code, Running(0, d0), Running(8, d2), Halted(e));
  }

  lemma ExampleIsCalled(d0: Data)
    ensures CalledRight(Example(), Shared(), Registers(), [], d0)
  {
    SharedIsAccepted();
  }

  // The function returns 2, yet its code halts with 1, from any state.
  lemma DeadPhiBreaksTheCode(d0: Data)
    ensures Evaluates(Example(), [], 2)
    ensures !Returns(ExampleUnit(), FunctionCode(ExampleUnit()), d0, 2)
  {
    ExampleEvaluates();
    var e := ExampleHalts(d0);
    OnlyOneResult(ExampleUnit(), FunctionCode(ExampleUnit()), d0, e, 2);
  }

  lemma SharedDoesNotDeliver()
    ensures !EdgesDeliver(Example(), Shared(), Registers())
  {
    var d0 := Data(map[], map[], Undefined);
    ExampleIsCalled(d0);
    DeadPhiBreaksTheCode(d0);
    WrongCodeDoesNotDeliver(Example(), Shared(), Registers(), [], d0, 2);
  }

  // ---------- a harmless clash ----------

  // The dead and the live phi again share R8, but both are moved there, the live one last.
  function Harmless(): Assignment {
    Assignment(map[V0 := Reg(Rax), V1 := Reg(R9), V2 := Reg(R8), V3 := Reg(R8)], 0, 0)
  }

  lemma HarmlessIsValid()
    ensures ValidAssignment(Spans(), Registers(), 5, Harmless())
  {
    assert Values(Spans()) == {V0, V1, V2, V3} by {
      assert Spans()[0].v == V0 && Spans()[1].v == V1 && Spans()[2].v == V2 && Spans()[3].v == V3;
    }
    assert StackValues(Harmless().locs) == {};
    PoolIsAllowed();
  }

  lemma HarmlessIsAccepted()
    ensures Accepted(Example(), Harmless(), Registers())
  {
    ExampleIsWellFormed();
    ExampleIntervals();
    HarmlessIsValid();
    SharedIsValid();
    assert BlockStart(Example(), 2) == BlockStart(Example(), 1) + 3;
    assert BlockStart(Example(), 1) == BlockStart(Example(), 0) + 3;
  }

  function HarmlessUnit(): Compilation {
    CompilationOf(Example(), Harmless(), Registers())
  }

  lemma HarmlessMoves()
    ensures EdgeOf(HarmlessUnit(), Second().insts, B0) == [Move(InReg(R8), InReg(Rax)), Move(InReg(R8), InReg(R9))]
  {
    ExamplePhis();
    TwoPhiMoves(Harmless().locs, Phi(V2, [(B0, V0)]), Phi(V3, [(B0, V1)]));
    assert FindIncoming([(B0, V0)], B0) == Some(V0) && FindIncoming([(B0, V1)], B0) == Some(V1);
  }

  lemma HarmlessFollows()
    ensures From(Follow(HarmlessUnit().c, EdgeOf(HarmlessUnit(), Second().insts, B0), map[]), InReg(R8)) == InReg(R9)
  {
    HarmlessMoves();
    var c := HarmlessUnit().c;
    var moves := EdgeOf(HarmlessUnit(), Second().insts, B0);
    assert FirstReady(moves, 0) == Some(0);
    var last := Remove(moves, 0);
    assert last == [Move(InReg(R8), InReg(R9))];
    assert FirstReady(last, 0) == Some(0);
    assert Remove(last, 0) == [];
    var o1 := AfterMove(moves[0], c.temporary, map[]);
    var o2 := AfterMove(last[0], c.temporary, o1);
    assert Follow(c, [], o2) == o2;
    assert Follow(c, last, o1) == o2;
    assert Follow(c, moves, map[]) == Follow(c, last, o1);
  }

  lemma V2IsUnused()
    ensures !Coverage.UsedSomewhere(Example(), V2)
  {
    ExampleBlocks();
    forall a, s | HasBlock(Example(), s)
      ensures !PhiUse(BlockAt(Example(), s), a, V2)
    {
      assert Second().insts[0] == PhiI64(V2, [(B0, V0)]) && Second().insts[1] == PhiI64(V3, [(B0, V1)]);
    }
  }

  lemma HarmlessEdge()
    ensures EdgeDelivers(HarmlessUnit(), Second().insts, B0, ReadSomewhere(Example()))
  {
    V2IsUnused();
    HarmlessFollows();
    var insts := Second().insts;
    forall i, source | 0 <= i < |insts| && PhiReads(insts[i], B0, source) && insts[i].dst in ReadSomewhere(Example())
      ensures PhiTraced(HarmlessUnit(), insts, B0, insts[i], source)
    {
      assert insts[i] == PhiI64(V3, [(B0, V1)]) && source == V1;
    }
  }

  lemma HarmlessEdges()
    ensures EdgesDeliver(Example(), Harmless(), Registers())
  {
    ExampleEdges();
    ExampleBlocks();
    HarmlessEdge();
  }

  lemma HarmlessShares()
    ensures !Coverage.PhisApart(Second(), Harmless().locs)
  {
    assert Second().insts[0].PhiI64? && Second().insts[1].PhiI64?;
    assert SameLocation(Harmless().locs, V2, V3);
  }

  // So sharing alone does no harm: this assignment is within the main theorems.
  lemma HarmlessDelivers()
    ensures Accepted(Example(), Harmless(), Registers())
    ensures EdgesDeliver(Example(), Harmless(), Registers())
    ensures !Coverage.PhisApart(Second(), Harmless().locs)
  {
    HarmlessIsAccepted();
    HarmlessEdges();
    HarmlessShares();
  }
}
