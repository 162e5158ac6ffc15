// Emission: the assembler's growing instruction list, and the checks that come first.
module Emitter {
  import opened Wrappers
  import opened Ir
  import opened Interp
  import opened Cfg
  import opened Validation
  import opened Liveness
  import opened Intervals
  import opened Alloc
  import opened Machine
  import opened ParallelMoves
  import opened Lowering
  import Coverage
  import SweepWalks
  import LivenessFixpoint

  datatype EmitError =
    | InvalidFunction(validation: ValidationError)
    | InvalidRegisters(registers: RegisterSetError)
    | TooManyArguments
    | NoIntervals(intervals: IntervalError)
    | InvalidAssignment(assignment: AssignmentError)
    | FrameOverflow
    | FrameTooLarge(bytes: nat)

  class Assembler {
    var code: seq<Instr>

    constructor ()
      ensures code == []
    {
      code := [];
    }

    method Emit(i: Instr)
      modifies this
      ensures code == old(code) + [i]
    {
      code := code + [i];
    }
  }

  // ---------- values ----------

  datatype MissingLocation = MissingLocation(value: VReg)

  method GetVal(asm: Assembler, u: Compilation, value: VReg, preferred: PhysReg)
    returns (r: Result<PhysReg, MissingLocation>)
    modifies asm
    ensures r.Success? <==> value in u.locs
    ensures r.Failure? ==> r.error == MissingLocation(value) && asm.code == old(asm.code)
    ensures r.Success? ==> asm.code == old(asm.code) + ReadValue(u, value, preferred)
    ensures r.Success? ==> r.value == ValueReg(u, value, preferred)
  {
    if value !in u.locs {
      return Failure(MissingLocation(value));
    }
    match u.locs[value] {
      case Reg(reg) =>
        r := Success(reg);
      case Stack(slot) =>
        asm.Emit(Load(Gp(preferred), StackOffset(u.c.shadow, slot)));
        r := Success(preferred);
    }
  }

  method SetVal(asm: Assembler, u: Compilation, value: VReg, source: PhysReg) returns (error: Option<MissingLocation>)
    modifies asm
    ensures error.None? <==> value in u.locs
    ensures error.Some? ==> error.value == MissingLocation(value) && asm.code == old(asm.code)
    ensures error.None? ==> asm.code == old(asm.code) + WriteValue(u, value, source)
  {
    if value !in u.locs {
      return Some(MissingLocation(value));
    }
    error := None;
    match u.locs[value] {
      case Reg(reg) =>
        if reg != source {
          asm.Emit(MovReg(Gp(reg), Gp(source)));
        }
      case Stack(slot) =>
        asm.Emit(Store(StackOffset(u.c.shadow, slot), Gp(source)));
    }
  }

  method CopyTo(asm: Assembler, dst: PhysReg, src: PhysReg)
    modifies asm
    ensures asm.code == old(asm.code) + CopyCode(dst, src)
  {
    if src != dst {
      asm.Emit(MovReg(Gp(dst), Gp(src)));
    }
  }

  // ---------- parallel moves ----------

  method ReadMoveLocation(asm: Assembler, c: Context, source: MoveLocation, temporary: PhysReg)
    returns (register: PhysReg)
    modifies asm
    ensures asm.code == old(asm.code) + ReadCode(c, source, temporary)
    ensures register == ReadReg(source, temporary)
  {
    match source {
      case InReg(reg) =>
        register := reg;
      case OnStack(slot) =>
        asm.Emit(Load(Gp(temporary), StackOffset(c.shadow, slot)));
        register := temporary;
    }
  }

  method WriteMoveLocation(asm: Assembler, c: Context, destination: MoveLocation, source: PhysReg)
    modifies asm
    ensures asm.code == old(asm.code) + WriteCode(c, destination, source)
  {
    match destination {
      case InReg(reg) =>
        if reg != source {
          asm.Emit(MovReg(Gp(reg), Gp(source)));
        }
      case OnStack(slot) =>
        asm.Emit(Store(StackOffset(c.shadow, slot), Gp(source)));
    }
  }

  method RedirectSources(moves: seq<Move>, from: MoveLocation, to: MoveLocation) returns (r: seq<Move>)
    ensures r == Redirect(moves, from, to)
  {
    r := moves;
    for i := 0 to |moves|
      invariant |r| == |moves|
      invariant forall k :: 0 <= k < i ==> r[k] == if moves[k].src == from then Move(moves[k].dst, to) else moves[k]
      invariant forall k :: i <= k < |moves| ==> r[k] == moves[k]
    {
      if r[i].src == from {
        r := r[i := r[i].(src := to)];
      }
    }
  }

  method EmitMove(asm: Assembler, c: Context, m: Move, temporary: PhysReg)
    modifies asm
    ensures asm.code == old(asm.code) + MoveCode(c, m, temporary)
  {
    var source := ReadMoveLocation(asm, c, m.src, temporary);
    WriteMoveLocation(asm, c, m.dst, source);
  }

  // Saves the destination in the temporary before overwriting it.
  method EmitBreak(asm: Assembler, c: Context, m: Move)
    modifies asm
    ensures asm.code == old(asm.code) + BreakCode(c, m)
  {
    var oldDestination := ReadMoveLocation(asm, c, m.dst, c.temporary);
    if oldDestination != c.temporary {
      asm.Emit(MovReg(Gp(c.temporary), Gp(oldDestination)));
    }
    assert asm.code == old(asm.code) + SaveCode(c, m.dst);
    EmitMove(asm, c, m, c.temporary2);
  }

  method EmitParallelMoves(asm: Assembler, c: Context, given: seq<Move>)
    modifies asm
    ensures asm.code == old(asm.code) + Sequence(c, Retained(given))
  {
    var moves := Retained(given);
    while moves != []
      invariant asm.code + Sequence(c, moves) == old(asm.code) + Sequence(c, Retained(given))
      decreases |moves|
    {
      ghost var before := asm.code;
      var ready := FirstReady(moves, 0);
      if ready.Some? {
        var m := moves[ready.value];
        moves := Remove(moves, ready.value);
        EmitMove(asm, c, m, c.temporary);
        Regroup(before, MoveCode(c, m, c.temporary), Sequence(c, moves));
        continue;
      }
      var m := moves[0];
      moves := moves[1..];
      EmitBreak(asm, c, m);
      moves := RedirectSources(moves, m.dst, InReg(c.temporary));
      Regroup(before, BreakCode(c, m), Sequence(c, moves));
    }
  }

  // ---------- phis ----------

  function PhisAt(phis: map<BlockId, seq<Phi>>, b: BlockId): seq<Phi> {
    if b in phis then phis[b] else []
  }

  ghost predicate ArePhis(f: Function, phis: map<BlockId, seq<Phi>>) {
    forall b :: HasBlock(f, b) ==> PhisAt(phis, b) == PhisOf(BlockAt(f, b).insts)
  }

  method CollectBlockPhis(block: Block, before: map<BlockId, seq<Phi>>) returns (phis: map<BlockId, seq<Phi>>)
    requires block.id !in before
    ensures PhisAt(phis, block.id) == PhisOf(block.insts)
    ensures forall b :: b != block.id ==> PhisAt(phis, b) == PhisAt(before, b) && (b in phis <==> b in before)
  {
    phis := before;
    for k := 0 to |block.insts|
      invariant PhisAt(phis, block.id) == PhisOf(block.insts[..k])
      invariant forall b :: b != block.id ==> PhisAt(phis, b) == PhisAt(before, b) && (b in phis <==> b in before)
    {
      assert block.insts[..k + 1][..k] == block.insts[..k];
      match block.insts[k] {
        case PhiI64(dst, incoming) =>
          phis := phis[block.id := PhisAt(phis, block.id) + [Phi(dst, incoming)]];
        case _ =>
      }
    }
    assert block.insts[..|block.insts|] == block.insts;
  }

  method CollectPhis(f: Function) returns (phis: map<BlockId, seq<Phi>>)
    requires UniqueIds(f)
    ensures ArePhis(f, phis)
  {
    phis := map[];
    for i := 0 to |f.blocks|
      invariant forall j :: 0 <= j < i ==> PhisAt(phis, f.blocks[j].id) == PhisOf(f.blocks[j].insts)
      invariant forall j :: i <= j < |f.blocks| ==> f.blocks[j].id !in phis
    {
      phis := CollectBlockPhis(f.blocks[i], phis);
    }
  }

  predicate PhiAssigned(locs: map<VReg, Location>, phi: Phi, pred: BlockId) {
    phi.dst in locs && (FindIncoming(phi.incoming, pred).Some? ==> FindIncoming(phi.incoming, pred).value in locs)
  }

  function MoveLocationOf(locs: map<VReg, Location>, value: VReg): (l: MoveLocation)
    requires value in locs
    ensures l == LocOf(locs, value)
  {
    match locs[value]
    case Reg(reg) => InReg(reg)
    case Stack(slot) => OnStack(slot)
  }

  method PhiMovesForEdge(phis: map<BlockId, seq<Phi>>, locs: map<VReg, Location>, pred: BlockId, succ: BlockId)
    returns (moves: seq<Move>)
    requires forall k :: 0 <= k < |PhisAt(phis, succ)| ==> PhiAssigned(locs, PhisAt(phis, succ)[k], pred)
    ensures moves == MovesFor(locs, PhisAt(phis, succ), pred)
  {
    moves := [];
    if succ !in phis {
      return;
    }
    for k := 0 to |phis[succ]|
      invariant moves == MovesFor(locs, phis[succ][..k], pred)
    {
      assert phis[succ][..k + 1][..k] == phis[succ][..k];
      var phi := phis[succ][k];
      assert phi == PhisAt(phis, succ)[k];
      var found := FindIncoming(phi.incoming, pred);
      if found.Some? {
        var destination := MoveLocationOf(locs, phi.dst);
        var source := MoveLocationOf(locs, found.value);
        if destination != source {
          moves := moves + [Move(destination, source)];
        }
      }
    }
    assert phis[succ][..|phis[succ]|] == phis[succ];
  }

  lemma {:induction false} MovesAreRetained(locs: map<VReg, Location>, phis: seq<Phi>, pred: BlockId)
    ensures Retained(MovesFor(locs, phis, pred)) == MovesFor(locs, phis, pred)
    decreases phis
  {
    if phis != [] {
      MovesAreRetained(locs, phis[..|phis| - 1], pred);
      var front := MovesFor(locs, phis[..|phis| - 1], pred);
      var last := MoveFor(locs, phis[|phis| - 1], pred);
      if last != [] {
        assert (front + last)[..|front|] == front;
      } else {
        assert front + last == front;
      }
    }
  }

  lemma {:induction false} PhiOrigin(insts: seq<Inst>, k: nat)
    requires k < |PhisOf(insts)|
    ensures exists i :: 0 <= i < |insts| && insts[i] == PhiI64(PhisOf(insts)[k].dst, PhisOf(insts)[k].incoming)
    decreases insts
  {
    var front := insts[..|insts| - 1];
    if k < |PhisOf(front)| {
      PhiOrigin(front, k);
      var i :| 0 <= i < |front| && front[i] == PhiI64(PhisOf(insts)[k].dst, PhisOf(insts)[k].incoming);
      assert insts[i] == front[i];
    } else {
      assert insts[|insts| - 1] == PhiI64(PhisOf(insts)[k].dst, PhisOf(insts)[k].incoming);
    }
  }

  // On an edge to a block, everything its phis need is assigned.
  lemma EdgeIsAssigned(u: Compilation, pred: BlockId, succ: BlockId, k: nat)
    requires Assigned(u) && HasBlock(u.f, pred) && HasBlock(u.f, succ) && k < |PhisOf(BlockAt(u.f, succ).insts)|
    ensures PhiAssigned(u.locs, PhisOf(BlockAt(u.f, succ).insts)[k], pred)
  {
    var insts := BlockAt(u.f, succ).insts;
    var phi := PhisOf(insts)[k];
    PhiOrigin(insts, k);
    var i :| 0 <= i < |insts| && insts[i] == PhiI64(phi.dst, phi.incoming);
    InstIsAssigned(u, succ, i);
    var found := FindIncoming(phi.incoming, pred);
    if found.Some? {
      PhiInputIsAssigned(u, pred, succ, found.value);
    }
  }

  method EmitEdge(asm: Assembler, u: Compilation, phis: map<BlockId, seq<Phi>>, pred: BlockId, succ: BlockId)
    requires Assigned(u) && HasBlock(u.f, pred) && HasBlock(u.f, succ)
    requires ArePhis(u.f, phis)
    modifies asm
    ensures asm.code == old(asm.code) + EdgeCode(u, pred, succ)
  {
    forall k | 0 <= k < |PhisAt(phis, succ)|
      ensures PhiAssigned(u.locs, PhisAt(phis, succ)[k], pred)
    {
      EdgeIsAssigned(u, pred, succ, k);
    }
    var moves := PhiMovesForEdge(phis, u.locs, pred, succ);
    MovesAreRetained(u.locs, PhisAt(phis, succ), pred);
    EmitParallelMoves(asm, u.c, moves);
    asm.Emit(Instr.Jmp(BlockLabel(succ)));
  }

  method EmitStub(
      asm: Assembler, u: Compilation, phis: map<BlockId, seq<Phi>>, stub: Label, pred: BlockId,
      succ: BlockId)
    requires Assigned(u) && HasBlock(u.f, pred) && HasBlock(u.f, succ)
    requires ArePhis(u.f, phis)
    modifies asm
    ensures asm.code == old(asm.code) + ([Bind(stub)] + EdgeCode(u, pred, succ))
  {
    asm.Emit(Bind(stub));
    EmitEdge(asm, u, phis, pred, succ);
    Regroup(old(asm.code), [Bind(stub)], EdgeCode(u, pred, succ));
  }

  // ---------- instructions and terminators ----------

  method EmitArithmetic(asm: Assembler, u: Compilation, dst: VReg, a: VReg, b: VReg, multiply: bool)
    requires dst in u.locs && a in u.locs && b in u.locs
    modifies asm
    ensures var source := Gp(ValueReg(u, b, u.c.temporary2));
      var result := Gp(ResultReg(u, dst));
      var operation := if multiply then Imul(result, source) else Add(result, source);
      asm.code == old(asm.code) + ArithmeticCode(u, dst, a, b, operation)
  {
    var destination := ResultReg(u, dst);
    var left := GetVal(asm, u, a, destination);
    CopyTo(asm, destination, left.value);
    var right := GetVal(asm, u, b, u.c.temporary2);
    if multiply {
      asm.Emit(Imul(Gp(destination), Gp(right.value)));
    } else {
      asm.Emit(Add(Gp(destination), Gp(right.value)));
    }
    var _ := SetVal(asm, u, dst, destination);
  }

  method EmitCompare(asm: Assembler, u: Compilation, b: BlockId, index: nat, dst: VReg, left: VReg, right: VReg)
    requires dst in u.locs && left in u.locs && right in u.locs
    modifies asm
    ensures asm.code == old(asm.code) +
      (CompareCode(u, left, right) + SelectCode(u, b, index) + WriteValue(u, dst, u.c.temporary))
  {
    var leftRegister := GetVal(asm, u, left, u.c.temporary);
    var rightRegister := GetVal(asm, u, right, u.c.temporary2);
    asm.Emit(Cmp(Gp(leftRegister.value), Gp(rightRegister.value)));
    asm.Emit(Jg(TrueLabel(b, index)));
    asm.Emit(MovImm(Gp(u.c.temporary), 0));
    asm.Emit(Instr.Jmp(DoneLabel(b, index)));
    asm.Emit(Bind(TrueLabel(b, index)));
    asm.Emit(MovImm(Gp(u.c.temporary), 1));
    asm.Emit(Bind(DoneLabel(b, index)));
    var _ := SetVal(asm, u, dst, u.c.temporary);
  }

  method EmitInst(asm: Assembler, u: Compilation, block: Block, index: nat)
    requires index < |block.insts| && block.insts[index].dst in u.locs
    requires forall v :: UsedAt(block, index, v) ==> v in u.locs
    modifies asm
    ensures asm.code == old(asm.code) + InstCode(u, block, index)
  {
    match block.insts[index] {
      case ConstI64(dst, imm) =>
        asm.Emit(MovImm(Gp(ResultReg(u, dst)), imm));
        var _ := SetVal(asm, u, dst, ResultReg(u, dst));
      case AddI64(dst, a, b) =>
        assert UsedAt(block, index, a) && UsedAt(block, index, b);
        EmitArithmetic(asm, u, dst, a, b, false);
      case MulI64(dst, a, b) =>
        assert UsedAt(block, index, a) && UsedAt(block, index, b);
        EmitArithmetic(asm, u, dst, a, b, true);
      case MovI64(dst, src) =>
        assert UsedAt(block, index, src);
        var source := GetVal(asm, u, src, u.c.temporary);
        var _ := SetVal(asm, u, dst, source.value);
      case CmpGtI64(dst, a, b) =>
        assert UsedAt(block, index, a) && UsedAt(block, index, b);
        EmitCompare(asm, u, block.id, index, dst, a, b);
      case PhiI64(_, _) =>
      case ArgI64(dst, idx) =>
        asm.Emit(Load(Gp(u.c.temporary), ShadowOffset(idx)));
        var _ := SetVal(asm, u, dst, u.c.temporary);
    }
  }

  method EmitReturn(asm: Assembler, u: Compilation, value: VReg)
    requires value in u.locs
    modifies asm
    ensures asm.code == old(asm.code) + (ReturnCode(u, value) + Epilogue(u))
  {
    var result := GetVal(asm, u, value, Rax);
    CopyTo(asm, Rax, result.value);
    if u.Frame() > 0 {
      asm.Emit(AddRsp(u.Frame()));
    }
    asm.Emit(Pop(Rbp));
    asm.Emit(Instr.Ret);
  }

  method EmitBranch(
      asm: Assembler, u: Compilation, phis: map<BlockId, seq<Phi>>, b: BlockId, cond: VReg, thenBB: BlockId,
      elseBB: BlockId)
    requires Assigned(u) && HasBlock(u.f, b) && HasBlock(u.f, thenBB) && HasBlock(u.f, elseBB) && cond in u.locs
    requires ArePhis(u.f, phis)
    modifies asm
    ensures asm.code == old(asm.code) +
      (BranchCode(u, b, cond)
       + ([Bind(ThenStub(b))] + EdgeCode(u, b, thenBB))
       + ([Bind(ElseStub(b))] + EdgeCode(u, b, elseBB)))
  {
    var condition := GetVal(asm, u, cond, u.c.temporary);
    asm.Emit(Test(Gp(condition.value)));
    asm.Emit(Jnz(ThenStub(b)));
    asm.Emit(Instr.Jmp(ElseStub(b)));
    assert asm.code == old(asm.code) + BranchCode(u, b, cond);
    EmitStub(asm, u, phis, ThenStub(b), b, thenBB);
    Regroup(old(asm.code), BranchCode(u, b, cond), [Bind(ThenStub(b))] + EdgeCode(u, b, thenBB));
    EmitStub(asm, u, phis, ElseStub(b), b, elseBB);
    ghost var sofar := BranchCode(u, b, cond) + ([Bind(ThenStub(b))] + EdgeCode(u, b, thenBB));
    Regroup(old(asm.code), sofar, [Bind(ElseStub(b))] + EdgeCode(u, b, elseBB));
  }

  method EmitTerm(asm: Assembler, u: Compilation, phis: map<BlockId, seq<Phi>>, b: BlockId)
    requires Assigned(u) && HasBlock(u.f, b)
    requires SuccessorsKnown(u.f, BlockAt(u.f, b))
    requires ArePhis(u.f, phis)
    modifies asm
    ensures asm.code == old(asm.code) + TermCode(u, BlockAt(u.f, b))
  {
    TermIsAssigned(u, b);
    var term := BlockAt(u.f, b).term;
    match term {
      case Ret(value) =>
        assert value in TermUses(term);
        EmitReturn(asm, u, value);
      case Jmp(target) =>
        assert target in Successors(term);
        EmitEdge(asm, u, phis, b, target);
      case Br(cond, thenBB, elseBB) =>
        assert cond in TermUses(term) && thenBB in Successors(term) && elseBB in Successors(term);
        EmitBranch(asm, u, phis, b, cond, thenBB, elseBB);
    }
  }

  method EmitInsts(asm: Assembler, u: Compilation, b: BlockId)
    requires Assigned(u) && HasBlock(u.f, b)
    modifies asm
    ensures asm.code == old(asm.code) + Flatten(InstParts(u, BlockAt(u.f, b)), 0)
  {
    var block := BlockAt(u.f, b);
    ghost var parts := InstParts(u, block);
    for k := 0 to |block.insts|
      invariant asm.code + Flatten(parts, k) == old(asm.code) + Flatten(parts, 0)
    {
      ghost var before := asm.code;
      InstIsAssigned(u, b, k);
      EmitInst(asm, u, block, k);
      Regroup(before, parts[k], Flatten(parts, k + 1));
    }
    assert asm.code + [] == asm.code;
  }

  method EmitBlock(asm: Assembler, u: Compilation, phis: map<BlockId, seq<Phi>>, b: BlockId)
    requires Assigned(u) && HasBlock(u.f, b)
    requires SuccessorsKnown(u.f, BlockAt(u.f, b))
    requires ArePhis(u.f, phis)
    modifies asm
    ensures asm.code == old(asm.code) + BlockCode(u, BlockAt(u.f, b))
  {
    ghost var insts, term := Flatten(InstParts(u, BlockAt(u.f, b)), 0), TermCode(u, BlockAt(u.f, b));
    asm.Emit(Bind(BlockLabel(b)));
    EmitInsts(asm, u, b);
    EmitTerm(asm, u, phis, b);
    Regroup(old(asm.code), [Bind(BlockLabel(b))], insts);
    Regroup(old(asm.code), [Bind(BlockLabel(b))] + insts, term);
  }

  // ---------- the whole function ----------

  method FrameSize(args: nat, stackSlots: U32) returns (r: Result<nat, EmitError>)
    requires args <= 6
    ensures r.Success? <==> FrameFits(args + stackSlots)
    ensures r.Success? ==> r.value == FrameBytes(args + stackSlots)
  {
    if stackSlots > MAX_I32 {
      return Failure(FrameOverflow);
    }
    var slots := args + stackSlots;
    FrameIsLeast(slots);
    if slots > MAX_I32 {
      return Failure(FrameOverflow);
    }
    var aligned := 0;
    if slots != 0 {
      var bytes := slots * 8;
      if bytes > MAX_I32 || bytes + 15 > MAX_I32 {
        return Failure(FrameOverflow);
      }
      aligned := (bytes + 15) / 16 * 16;
    }
    if aligned > MAX_STACK_FRAME_BYTES {
      return Failure(FrameTooLarge(aligned));
    }
    r := Success(aligned);
  }

  method EmitPrologue(asm: Assembler, u: Compilation)
    requires u.f.args <= 6
    modifies asm
    ensures asm.code == old(asm.code) + Prologue(u)
  {
    asm.Emit(Push(Rbp));
    asm.Emit(MovReg(Rbp, Rsp));
    if u.Frame() > 0 {
      asm.Emit(SubRsp(u.Frame()));
    }
    assert asm.code == old(asm.code) + FrameCode(u);
    for i := 0 to u.f.args
      invariant asm.code + ShadowCode(i, u.f.args) == old(asm.code) + Prologue(u)
    {
      asm.Emit(Store(ShadowOffset(i), Gp(ARGUMENT_REGISTERS[i])));
    }
  }

  method CheckAssignment(f: Function, a: Assignment, regs: PhysRegSet) returns (r: Option<EmitError>)
    requires WellFormed(f) && |regs.scratch| >= 2
    ensures r.None? <==> BlockStart(f, |f.blocks|) <= 0xFFFF_FFFF && Verified(f, a, regs)
  {
    WellFormedPhiPredecessors(f);
    var intervals := ComputeLiveIntervals(f);
    if intervals.Failure? {
      return Some(NoIntervals(intervals.error));
    }
    var ivs := intervals.value.0;
    VerdictOfComputed(f, ivs, a, regs);
    var rejected := VerifyAssignment(ivs, regs, |regs.regs|, a);
    if rejected.Some? {
      return Some(InvalidAssignment(rejected.value));
    }
    r := None;
  }

  method CheckInputs(f: Function, a: Assignment, regs: PhysRegSet) returns (r: Option<EmitError>)
    ensures r.None? <==> Accepted(f, a, regs)
  {
    var invalid := ValidateFunction(f);
    if invalid.Some? {
      return Some(InvalidFunction(invalid.value));
    }
    var unfit := ValidateForCodegen(regs);
    if unfit.Some? {
      return Some(InvalidRegisters(unfit.value));
    }
    if f.args > 6 {
      return Some(TooManyArguments);
    }
    r := CheckAssignment(f, a, regs);
  }

  method EmitFunctionI64(f: Function, a: Assignment, regs: PhysRegSet) returns (r: Result<seq<Instr>, EmitError>)
    ensures r.Success? <==> Accepted(f, a, regs) && FrameFits(f.args + a.stackSlots)
    ensures r.Success? ==> r.value == FunctionCode(CompilationOf(f, a, regs))
  {
    var rejected := CheckInputs(f, a, regs);
    if rejected.Some? {
      return Failure(rejected.value);
    }
    r := EmitAccepted(f, a, regs);
  }

  ghost predicate CanEmit(u: Compilation, phis: map<BlockId, seq<Phi>>) {
    UniqueIds(u.f) && KnownSuccessors(u.f) && Assigned(u) && ArePhis(u.f, phis)
  }

  ghost predicate IsBlockPart(u: Compilation, parts: seq<seq<Instr>>, i: int) {
    0 <= i < |parts| && i < |u.f.blocks| && parts[i] == BlockCode(u, u.f.blocks[i])
  }

  ghost predicate AreBlockParts(u: Compilation, parts: seq<seq<Instr>>) {
    |parts| == |u.f.blocks| &&
    forall i {:trigger IsBlockPart(u, parts, i)} :: 0 <= i < |parts| ==> IsBlockPart(u, parts, i)
  }

  // Emits the i-th block. What is emitted and what remains make the target.
  method EmitBlockAt(
      asm: Assembler, u: Compilation, phis: map<BlockId, seq<Phi>>, i: nat,
      ghost parts: seq<seq<Instr>>, ghost target: seq<Instr>)
    requires CanEmit(u, phis) && i < |parts| && AreBlockParts(u, parts)
    requires target == asm.code + Flatten(parts, i)
    modifies asm
    ensures target == asm.code + Flatten(parts, i + 1)
  {
    ghost var before := asm.code;
    BlockAtIndex(u.f, i);
    assert SuccessorsKnown(u.f, u.f.blocks[i]);
    EmitBlock(asm, u, phis, u.f.blocks[i].id);
    assert IsBlockPart(u, parts, i);
    Regroup(before, parts[i], Flatten(parts, i + 1));
  }

  method EmitBlocks(asm: Assembler, u: Compilation, phis: map<BlockId, seq<Phi>>, ghost parts: seq<seq<Instr>>)
    requires CanEmit(u, phis) && AreBlockParts(u, parts)
    modifies asm
    ensures asm.code == old(asm.code) + Flatten(parts, 0)
  {
    ghost var target := asm.code + Flatten(parts, 0);
    for i := 0 to |u.f.blocks|
      invariant target == asm.code + Flatten(parts, i)
    {
      EmitBlockAt(asm, u, phis, i, parts, target);
    }
    assert asm.code + [] == asm.code;
  }

  lemma BlockPartsAre(u: Compilation)
    ensures AreBlockParts(u, BlockParts(u))
  {
    forall i | 0 <= i < |BlockParts(u)|
      ensures IsBlockPart(u, BlockParts(u), i)
    {
    }
  }

  method EmitAll(u: Compilation) returns (code: seq<Instr>)
    requires UniqueIds(u.f) && KnownSuccessors(u.f) && Assigned(u) && u.f.args <= 6
    ensures code == FunctionCode(u)
  {
    var asm := new Assembler();
    EmitPrologue(asm, u);
    var phis := CollectPhis(u.f);
    asm.Emit(Instr.Jmp(BlockLabel(u.f.entry)));
    assert asm.code == Prologue(u) + [Instr.Jmp(BlockLabel(u.f.entry))];
    BlockPartsAre(u);
    EmitBlocks(asm, u, phis, BlockParts(u));
    code := asm.code;
  }

  method EmitAccepted(f: Function, a: Assignment, regs: PhysRegSet) returns (r: Result<seq<Instr>, EmitError>)
    requires Accepted(f, a, regs)
    ensures r.Success? <==> FrameFits(f.args + a.stackSlots)
    ensures r.Success? ==> r.value == FunctionCode(CompilationOf(f, a, regs))
  {
    var frame := FrameSize(f.args, a.stackSlots);
    if frame.Failure? {
      return Failure(frame.error);
    }
    VerifiedAssigns(f, a, regs);
    var code := EmitAll(CompilationOf(f, a, regs));
    r := Success(code);
  }

  lemma VerdictOfComputed(f: Function, ivs: seq<LiveInterval>, a: Assignment, regs: PhysRegSet)
    requires AreIntervals(f, ivs)
    ensures Verified(f, a, regs) <==> ValidAssignment(ivs, regs, |regs.regs|, a)
  {
    if Verified(f, a, regs) {
      var others :| AreIntervals(f, others) && ValidAssignment(others, regs, |regs.regs|, a);
      VerdictIsUnique(f, ivs, others, regs, |regs.regs|, a);
    }
  }

  // A validated function is one the analyses take, and no phi of it has an unknown predecessor.
  lemma WellFormedPhiPredecessors(f: Function)
    requires WellFormed(f)
    ensures PhiPredecessorsKnown(f) && SweepWalks.TwinsAlike(f)
  {
    LivenessFixpoint.UniqueIdsAreAlike(f);
    forall a, s, v | SweepWalks.IdPhiUse(f, a, s, v)
      ensures HasBlock(f, a)
    {
      EdgeUseIsUnique(f, a, s, v);
      Coverage.PhiUseIsDominated(f, s, a, v);
    }
  }
}
