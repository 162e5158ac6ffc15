// Control leaves a block: returns, and edges with their phi moves.
module Transfer {
  import opened Wrappers
  import opened Ir
  import opened Interp
  import opened Cfg
  import opened Validation
  import opened Liveness
  import opened Alloc
  import opened Machine
  import opened ParallelMoves
  import opened Lowering
  import opened Frames
  import opened Layout
  import opened Effects
  import opened Edges
  import opened Separation
  import opened Simulation

  // ---------- values across an edge ----------

  lemma LiveOnEdgeMatters(f: Function, a: BlockId, s: BlockId, v: VReg)
    requires HasBlock(f, a) && s in Successors(BlockAt(f, a).term) && LiveOnEdge(f, a, s, v)
    ensures Matters(f, a, |BlockAt(f, a).insts|, v)
  {
    LiveAtEnd(f, a, v);
  }

  lemma PhiSourceHolds(u: Compilation, a: BlockId, s: BlockId, i: nat, source: VReg, env: Env, d: Data)
    requires HasBlock(u.f, a) && HasBlock(u.f, s) && s in Successors(BlockAt(u.f, a).term)
    requires i < |BlockAt(u.f, s).insts| && PhiReads(BlockAt(u.f, s).insts[i], a, source)
    requires Matches(u, a, |BlockAt(u.f, a).insts|, env, d)
    ensures Holds(u, d, env, source)
  {
    assert PhiUse(BlockAt(u.f, s), a, source);
    LiveOnEdgeMatters(u.f, a, s, source);
  }

  lemma PassedValueHolds(u: Compilation, a: BlockId, s: BlockId, v: VReg, env: Env, d: Data, e: Data)
    requires Placed(u) && Separated(u) && HasBlock(u.f, a) && HasBlock(u.f, s) && s in Successors(BlockAt(u.f, a).term)
    requires Matches(u, a, |BlockAt(u.f, a).insts|, env, d) && OthersKept(u, BlockAt(u.f, s).insts, d, e)
    requires LiveIn(u.f, s, v) && !PhiDef(BlockAt(u.f, s), v)
    ensures Holds(u, e, env, v)
  {
    var insts := BlockAt(u.f, s).insts;
    LiveOnEdgeMatters(u.f, a, s, v);
    assert Holds(u, d, env, v);
    forall i | 0 <= i < |insts| && insts[i].PhiI64?
      ensures LocOf(u.locs, insts[i].dst) != LocOf(u.locs, v)
    {
      assert MeetsResult(u.f, s, i, v) && ApartFromResult(u, s, i, v);
    }
  }

  lemma PhiDefIsPhiOf(block: Block, v: VReg)
    ensures PhiOf(block.insts, |block.insts|, v) <==> PhiDef(block, v)
    ensures PhiPending(block, 0, v) <==> PhiDef(block, v)
  {
    if PhiDef(block, v) {
      var i :| 0 <= i < |block.insts| && block.insts[i].PhiI64? && block.insts[i].dst == v;
    }
  }

  // After an edge's moves the relation holds at the top of the successor.
  lemma EdgeMatches(u: Compilation, a: BlockId, s: BlockId, env: Env, d: Data, e: Data)
    requires Placed(u) && Separated(u) && Assigned(u)
    requires HasBlock(u.f, a) && HasBlock(u.f, s) && s in Successors(BlockAt(u.f, a).term)
    requires Matches(u, a, |BlockAt(u.f, a).insts|, env, d) && DistinctPhis(BlockAt(u.f, s).insts)
    requires Served(u, BlockAt(u.f, s).insts, a, ReadSomewhere(u.f), d, e) && OthersKept(u, BlockAt(u.f, s).insts, d, e)
    requires EnterPhis(BlockAt(u.f, s).insts, |BlockAt(u.f, s).insts|, Some(a), env).Success?
    ensures Matches(u, s, 0, EnterPhis(BlockAt(u.f, s).insts, |BlockAt(u.f, s).insts|, Some(a), env).value, e)
  {
    var block := BlockAt(u.f, s);
    var after := EnterPhis(block.insts, |block.insts|, Some(a), env).value;
    EnteredValues(block.insts, |block.insts|, a, env);
    forall v | Matters(u.f, s, 0, v)
      ensures Holds(u, e, after, v)
    {
      PhiDefIsPhiOf(block, v);
      if PhiDef(block, v) {
        var i :| 0 <= i < |block.insts| && block.insts[i].PhiI64? && block.insts[i].dst == v;
        PhiSourceHolds(u, a, s, i, SourceOf(block.insts[i], a), env, d);
        InstIsAssigned(u, s, i);
      } else {
        LiveInUnfolds(u.f, s, v);
        PassedValueHolds(u, a, s, v, env, d, e);
      }
    }
  }

  // ---------- running an edge ----------

  // The block label of s is bound at `top`.
  predicate BoundAt(code: seq<Instr>, s: BlockId, top: nat) {
    top < |code| && code[top] == Bind(BlockLabel(s))
  }

  lemma EdgeRuns(u: Compilation, code: seq<Instr>, a: BlockId, s: BlockId, top: nat, pc: nat, d: Data)
    requires Placed(u) && UniqueLabels(code) && BoundAt(code, s, top) && At(code, pc, EdgeCode(u, a, s))
    ensures Reaches(code, Running(pc, d), Running(top, Exec(Sequence(u.c, EdgeMoves(u, a, s)), d)))
  {
    var moves := Sequence(u.c, EdgeMoves(u, a, s));
    EdgeMovesArePlain(u, a, s);
    MovesThenJump(u, code, moves, s, top, pc, d);
  }

  lemma MovesThenJump(u: Compilation, code: seq<Instr>, moves: seq<Instr>, s: BlockId, top: nat, pc: nat, d: Data)
    requires UniqueLabels(code) && BoundAt(code, s, top)
    requires AllPlain(u, moves) && At(code, pc, moves + [Instr.Jmp(BlockLabel(s))])
    ensures Reaches(code, Running(pc, d), Running(top, Exec(moves, d)))
  {
    var jump := [Instr.Jmp(BlockLabel(s))];
    var e := Exec(moves, d);
    AtSplit(code, pc, moves, jump);
    PlainRuns(u, code, pc, moves, d);
    AtFirst(code, pc + |moves|, jump);
    GotoBound(code, top, BlockLabel(s), e);
    ReachesStep(code, Running(pc + |moves|, e));
    ReachesTrans(code, Running(pc, d), Running(pc + |moves|, e), Running(top, e));
  }

  // What the simulation asks of each edge.
  ghost predicate EdgeIsGood(u: Compilation, a: BlockId, s: BlockId) {
    HasBlock(u.f, s) && PhisAssigned(u.locs, BlockAt(u.f, s).insts, a) && DistinctPhis(BlockAt(u.f, s).insts) &&
    EdgeDelivers(u, BlockAt(u.f, s).insts, a, ReadSomewhere(u.f))
  }

  ghost predicate Entered(u: Compilation, a: BlockId, s: BlockId, env: Env, e: Data) {
    HasBlock(u.f, s) && EnterPhis(BlockAt(u.f, s).insts, |BlockAt(u.f, s).insts|, Some(a), env).Success? &&
    Matches(u, s, 0, EnterPhis(BlockAt(u.f, s).insts, |BlockAt(u.f, s).insts|, Some(a), env).value, e)
  }

  lemma EdgeArrives(u: Compilation, a: BlockId, s: BlockId, d: Data)
    requires Placed(u) && EdgeIsGood(u, a, s)
    ensures var e := Exec(Sequence(u.c, EdgeMoves(u, a, s)), d);
      Served(u, BlockAt(u.f, s).insts, a, ReadSomewhere(u.f), d, e) && OthersKept(u, BlockAt(u.f, s).insts, d, e)
  {
    var insts := BlockAt(u.f, s).insts;
    EdgeIsExact(u, insts, a, ReadSomewhere(u.f));
    assert Served(u, insts, a, ReadSomewhere(u.f), d, AfterEdge(u, insts, a, d));
    EdgeKeepsOthers(u, insts, a, d);
  }

  lemma EdgeTransfers(u: Compilation, code: seq<Instr>, a: BlockId, s: BlockId, top: nat, env: Env, pc: nat, d: Data)
    returns (e: Data)
    requires Placed(u) && Separated(u) && Assigned(u) && UniqueLabels(code) && BoundAt(code, s, top)
    requires HasBlock(u.f, a) && s in Successors(BlockAt(u.f, a).term) && EdgeIsGood(u, a, s)
    requires At(code, pc, EdgeCode(u, a, s)) && Matches(u, a, |BlockAt(u.f, a).insts|, env, d)
    requires EnterPhis(BlockAt(u.f, s).insts, |BlockAt(u.f, s).insts|, Some(a), env).Success?
    ensures Reaches(code, Running(pc, d), Running(top, e))
    ensures Entered(u, a, s, env, e)
  {
    EdgeRuns(u, code, a, s, top, pc, d);
    e := Exec(Sequence(u.c, EdgeMoves(u, a, s)), d);
    EdgeArrives(u, a, s, d);
    EdgeMatches(u, a, s, env, d, e);
  }

  // ---------- branches ----------

  lemma StubsLie(
      code: seq<Instr>, pc: nat, head: seq<Instr>, thenStub: Label, s: seq<Instr>, elseStub: Label,
      t: seq<Instr>)
    requires At(code, pc, head + ([Bind(thenStub)] + s) + ([Bind(elseStub)] + t))
    ensures var first := pc + |head|;
      var second := first + 1 + |s|;
      At(code, pc, head) && At(code, first + 1, s) && At(code, second + 1, t) &&
      first < |code| && code[first] == Bind(thenStub) && second < |code| && code[second] == Bind(elseStub)
  {
    var first := pc + |head|;
    var second := first + 1 + |s|;
    AtSplit(code, pc, head + ([Bind(thenStub)] + s), [Bind(elseStub)] + t);
    AtSplit(code, pc, head, [Bind(thenStub)] + s);
    AtSplit(code, first, [Bind(thenStub)], s);
    AtSplit(code, second, [Bind(elseStub)], t);
    AtFirst(code, first, [Bind(thenStub)]);
    AtFirst(code, second, [Bind(elseStub)]);
  }

  lemma ConditionRuns(
      u: Compilation, code: seq<Instr>, b: BlockId, cond: VReg, first: nat, second: nat, pc: nat, d: Data)
    returns (e: Data)
    requires Placed(u) && UniqueLabels(code) && At(code, pc, BranchCode(u, b, cond))
    requires first < |code| && code[first] == Bind(ThenStub(b)) && second < |code| && code[second] == Bind(ElseStub(b))
    ensures Undisturbed(u, d, e)
    ensures Reaches(
      code, Running(pc, d), Running(if Val(u.c, d, LocOf(u.locs, cond)) != 0 then first + 1 else second + 1, e))
  {
    var load := ReadValue(u, cond, u.c.temporary);
    var test := Test(Gp(ValueReg(u, cond, u.c.temporary)));
    AtSplit(code, pc, load, [test, Jnz(ThenStub(b)), Instr.Jmp(ElseStub(b))]);
    var mid := Exec(load, d);
    ReadTemporary(u, cond, u.c.temporary, d);
    ReadIsPlain(u, LocOf(u.locs, cond), u.c.temporary);
    PlainRuns(u, code, pc, load, d);
    e := Exec1(test, mid);
    ForkRuns(code, pc + |load|, test, b, first, second, mid);
    var target := if Val(u.c, d, LocOf(u.locs, cond)) != 0 then first + 1 else second + 1;
    ReachesTrans(code, Running(pc, d), Running(pc + |load|, mid), Running(target, e));
  }

  // From the condition to the stub of the block it selects.
  lemma BranchRuns(
      u: Compilation, code: seq<Instr>, b: BlockId, cond: VReg, thenEdge: seq<Instr>, elseEdge: seq<Instr>,
      pc: nat, d: Data)
    returns (stub: nat, e: Data)
    requires Placed(u) && UniqueLabels(code)
    requires At(code, pc, BranchCode(u, b, cond) + ([Bind(ThenStub(b))] + thenEdge) + ([Bind(ElseStub(b))] + elseEdge))
    ensures Undisturbed(u, d, e)
    ensures At(code, stub, if Val(u.c, d, LocOf(u.locs, cond)) != 0 then thenEdge else elseEdge)
    ensures Reaches(code, Running(pc, d), Running(stub, e))
  {
    var first := pc + |BranchCode(u, b, cond)|;
    var second := first + 1 + |thenEdge|;
    StubsLie(code, pc, BranchCode(u, b, cond), ThenStub(b), thenEdge, ElseStub(b), elseEdge);
    e := ConditionRuns(u, code, b, cond, first, second, pc, d);
    stub := if Val(u.c, d, LocOf(u.locs, cond)) != 0 then first + 1 else second + 1;
  }

  lemma ForkRuns(code: seq<Instr>, pc: nat, test: Instr, b: BlockId, first: nat, second: nat, d: Data)
    requires UniqueLabels(code) && test.Test? && At(code, pc, [test, Jnz(ThenStub(b)), Instr.Jmp(ElseStub(b))])
    requires first < |code| && code[first] == Bind(ThenStub(b)) && second < |code| && code[second] == Bind(ElseStub(b))
    ensures Reaches(
      code, Running(pc, d), Running(if Get(d, test.operand) != 0 then first + 1 else second + 1, Exec1(test, d)))
  {
    var s := [test, Jnz(ThenStub(b)), Instr.Jmp(ElseStub(b))];
    var e := Exec1(test, d);
    AtIndex(code, pc, s, 0);
    AtIndex(code, pc, s, 1);
    AtIndex(code, pc, s, 2);
    GotoBound(code, first, ThenStub(b), e);
    GotoBound(code, second, ElseStub(b), e);
    ReachesStep(code, Running(pc, d));
    if Get(d, test.operand) != 0 {
      TwoSteps(code, Running(pc + 1, e), Running(first, e), Running(first + 1, e));
      ReachesTrans(code, Running(pc, d), Running(pc + 1, e), Running(first + 1, e));
    } else {
      TwoSteps(code, Running(pc + 1, e), Running(pc + 2, e), Running(second, e));
      ReachesStep(code, Running(second, e));
      ReachesTrans(code, Running(pc, d), Running(pc + 1, e), Running(second, e));
      ReachesTrans(code, Running(pc, d), Running(second, e), Running(second + 1, e));
    }
  }

  // ---------- terminators ----------

  // The block control goes to, when it has a condition to read.
  function NextBlock(term: Terminator, env: Env): Option<BlockId> {
    match term
    case Ret(_) => None
    case Jmp(target) => Some(target)
    case Br(cond, thenBB, elseBB) =>
      if cond in env then Some(if env[cond] != 0 then thenBB else elseBB) else None
  }

  lemma TermUseHolds(u: Compilation, b: BlockId, env: Env, d: Data, v: VReg)
    requires HasBlock(u.f, b) && v in TermUses(BlockAt(u.f, b).term)
    requires Matches(u, b, |BlockAt(u.f, b).insts|, env, d)
    ensures Holds(u, d, env, v)
  {
    LiveAtEnd(u.f, b, v);
    assert Matters(u.f, b, |BlockAt(u.f, b).insts|, v);
  }

  lemma TermTransfers(u: Compilation, code: seq<Instr>, b: BlockId, s: BlockId, top: nat, env: Env, pc: nat, d: Data)
    returns (e: Data)
    requires Placed(u) && Separated(u) && Assigned(u) && UniqueLabels(code) && BoundAt(code, s, top)
    requires HasBlock(u.f, b) && NextBlock(BlockAt(u.f, b).term, env) == Some(s) && EdgeIsGood(u, b, s)
    requires At(code, pc, TermCode(u, BlockAt(u.f, b))) && Matches(u, b, |BlockAt(u.f, b).insts|, env, d)
    requires EnterPhis(BlockAt(u.f, s).insts, |BlockAt(u.f, s).insts|, Some(b), env).Success?
    ensures Reaches(code, Running(pc, d), Running(top, e))
    ensures Entered(u, b, s, env, e)
  {
    var term := BlockAt(u.f, b).term;
    match term
    case Jmp(target) =>
      assert target in Successors(term);
      e := EdgeTransfers(u, code, b, s, top, env, pc, d);
    case Br(cond, thenBB, elseBB) =>
      assert cond in TermUses(term);
      TermUseHolds(u, b, env, d, cond);
      e := BranchTransfers(u, code, b, cond, thenBB, elseBB, s, top, env, pc, d);
  }

  lemma BranchTransfers(
      u: Compilation, code: seq<Instr>, b: BlockId, cond: VReg, thenBB: BlockId, elseBB: BlockId, s: BlockId,
      top: nat, env: Env, pc: nat, d: Data)
    returns (e: Data)
    requires Placed(u) && Separated(u) && Assigned(u) && UniqueLabels(code) && BoundAt(code, s, top)
    requires HasBlock(u.f, b) && BlockAt(u.f, b).term == Br(cond, thenBB, elseBB) && EdgeIsGood(u, b, s)
    requires cond in env && s == (if env[cond] != 0 then thenBB else elseBB) && Holds(u, d, env, cond)
    requires At(code, pc, TermCode(u, BlockAt(u.f, b))) && Matches(u, b, |BlockAt(u.f, b).insts|, env, d)
    requires EnterPhis(BlockAt(u.f, s).insts, |BlockAt(u.f, s).insts|, Some(b), env).Success?
    ensures Reaches(code, Running(pc, d), Running(top, e))
    ensures Entered(u, b, s, env, e)
  {
    var stub, mid := BranchRuns(u, code, b, cond, EdgeCode(u, b, thenBB), EdgeCode(u, b, elseBB), pc, d);
    UndisturbedMatches(u, b, |BlockAt(u.f, b).insts|, env, d, mid);
    e := EdgeTransfers(u, code, b, s, top, env, stub, mid);
    ReachesTrans(code, Running(pc, d), Running(stub, mid), Running(top, e));
  }

  // ---------- returns ----------

  lemma EpilogueRuns(u: Compilation, code: seq<Instr>, pc: nat, d: Data) returns (e: Data)
    requires At(code, pc, Epilogue(u))
    ensures Reaches(code, Running(pc, d), Halted(e)) && Get(e, Gp(Rax)) == Get(d, Gp(Rax))
  {
    var front := (if u.Frame() > 0 then [AddRsp(u.Frame())] else []) + [Pop(Rbp)];
    assert Epilogue(u) == front + [Instr.Ret];
    AtSplit(code, pc, front, [Instr.Ret]);
    AtFirst(code, pc + |front|, [Instr.Ret]);
    ReachesStraight(code, pc, front, d);
    e := Exec(front, d);
    FrontKeepsRax(u, d);
    ReachesStep(code, Running(pc + |front|, e));
    ReachesTrans(code, Running(pc, d), Running(pc + |front|, e), Halted(e));
  }

  lemma FrontKeepsRax(u: Compilation, d: Data)
    ensures Get(Exec((if u.Frame() > 0 then [AddRsp(u.Frame())] else []) + [Pop(Rbp)], d), Gp(Rax)) == Get(d, Gp(Rax))
  {
    var first := if u.Frame() > 0 then [AddRsp(u.Frame())] else [];
    ExecConcat(first, [Pop(Rbp)], d);
    ExecOne(AddRsp(u.Frame()), d);
    ExecOne(Pop(Rbp), Exec(first, d));
  }

  lemma ReturnRuns(u: Compilation, code: seq<Instr>, value: VReg, env: Env, pc: nat, d: Data) returns (e: Data)
    requires Placed(u) && At(code, pc, ReturnCode(u, value) + Epilogue(u)) && value in env && Holds(u, d, env, value)
    ensures Reaches(code, Running(pc, d), Halted(e)) && Get(e, Gp(Rax)) == env[value]
  {
    var load := ReturnCode(u, value);
    AtSplit(code, pc, load, Epilogue(u));
    ReadIsPlain(u, LocOf(u.locs, value), Rax);
    PlainRuns(u, code, pc, load, d);
    ReadIntoEffect(u.c, LocOf(u.locs, value), Rax, d);
    e := EpilogueRuns(u, code, pc + |load|, Exec(load, d));
    ReachesTrans(code, Running(pc, d), Running(pc + |load|, Exec(load, d)), Halted(e));
  }
}
