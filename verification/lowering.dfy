// The code of a function: locations, phi moves on edges, instruction lowering and the frame.
module Lowering {
  import opened Wrappers
  import opened Ir
  import opened Interp
  import opened Cfg
  import opened Validation
  import opened Liveness
  import opened Intervals
  import opened Alloc
  import opened Machine
  import opened ParallelMoves
  import Coverage

  const MAX_STACK_FRAME_BYTES: nat := 16 * 1024 * 1024
  const MAX_I32: nat := 0x7FFF_FFFF
  const ARGUMENT_REGISTERS: seq<PhysReg> := [Rdi, Rsi, Rdx, Rcx, R8, R9]

  // What the lowering of every block depends on.
  datatype Compilation = Compilation(f: Function, locs: map<VReg, Location>, c: Context, stackSlots: nat) {
    // The aligned frame size in bytes.
    function Frame(): nat {
      FrameBytes(f.args + stackSlots)
    }
  }

  // Every value the lowering asks for has a location, so the default is never used.
  function LocOf(locs: map<VReg, Location>, v: VReg): MoveLocation {
    if v !in locs then InReg(Rax)
    else match locs[v]
      case Reg(reg) => InReg(reg)
      case Stack(slot) => OnStack(slot)
  }

  // ---------- phi moves ----------

  datatype Phi = Phi(dst: VReg, incoming: seq<(BlockId, VReg)>)

  function PhisOf(insts: seq<Inst>): seq<Phi> {
    if insts == [] then []
    else
      var last := insts[|insts| - 1];
      PhisOf(insts[..|insts| - 1]) + (if last.PhiI64? then [Phi(last.dst, last.incoming)] else [])
  }

  function MovesFor(locs: map<VReg, Location>, phis: seq<Phi>, pred: BlockId): seq<Move> {
    if phis == [] then []
    else MovesFor(locs, phis[..|phis| - 1], pred) + MoveFor(locs, phis[|phis| - 1], pred)
  }

  // At most one move: none for an input already in place.
  function MoveFor(locs: map<VReg, Location>, phi: Phi, pred: BlockId): seq<Move> {
    match FindIncoming(phi.incoming, pred)
    case None => []
    case Some(source) =>
      if LocOf(locs, phi.dst) != LocOf(locs, source) then [Move(LocOf(locs, phi.dst), LocOf(locs, source))] else []
  }

  function EdgeMoves(u: Compilation, pred: BlockId, succ: BlockId): seq<Move> {
    if HasBlock(u.f, succ) then MovesFor(u.locs, PhisOf(BlockAt(u.f, succ).insts), pred) else []
  }

  function Retained(moves: seq<Move>): seq<Move> {
    if moves == [] then []
    else
      var last := moves[|moves| - 1];
      Retained(moves[..|moves| - 1]) + (if last.dst != last.src then [last] else [])
  }

  // ---------- the code of a function ----------

  // Where a result is computed: in its own register, or in the first scratch register.
  function ResultReg(u: Compilation, dst: VReg): PhysReg {
    match LocOf(u.locs, dst)
    case InReg(reg) => reg
    case OnStack(_) => u.c.temporary
  }

  function ReadValue(u: Compilation, v: VReg, preferred: PhysReg): seq<Instr> {
    ReadCode(u.c, LocOf(u.locs, v), preferred)
  }

  function ValueReg(u: Compilation, v: VReg, preferred: PhysReg): PhysReg {
    ReadReg(LocOf(u.locs, v), preferred)
  }

  function WriteValue(u: Compilation, v: VReg, source: PhysReg): seq<Instr> {
    WriteCode(u.c, LocOf(u.locs, v), source)
  }

  function CopyCode(dst: PhysReg, src: PhysReg): seq<Instr> {
    if src != dst then [MovReg(Gp(dst), Gp(src))] else []
  }

  function ArithmeticCode(u: Compilation, dst: VReg, a: VReg, b: VReg, operation: Instr): seq<Instr> {
    var result := ResultReg(u, dst);
    ReadValue(u, a, result) + CopyCode(result, ValueReg(u, a, result)) + ReadValue(u, b, u.c.temporary2)
    + [operation] + WriteValue(u, dst, result)
  }

  function CompareCode(u: Compilation, a: VReg, b: VReg): seq<Instr> {
    ReadValue(u, a, u.c.temporary) + ReadValue(u, b, u.c.temporary2)
    + [Cmp(Gp(ValueReg(u, a, u.c.temporary)), Gp(ValueReg(u, b, u.c.temporary2)))]
  }

  function SelectCode(u: Compilation, b: BlockId, index: nat): seq<Instr> {
    [Jg(TrueLabel(b, index)), MovImm(Gp(u.c.temporary), 0), Instr.Jmp(DoneLabel(b, index)),
     Bind(TrueLabel(b, index)), MovImm(Gp(u.c.temporary), 1), Bind(DoneLabel(b, index))]
  }

  function ShadowOffset(index: nat): int {
    -8 * (index + 1)
  }

  function InstCode(u: Compilation, block: Block, index: nat): seq<Instr>
    requires index < |block.insts|
  {
    match block.insts[index]
    case ConstI64(dst, imm) => [MovImm(Gp(ResultReg(u, dst)), imm)] + WriteValue(u, dst, ResultReg(u, dst))
    case AddI64(dst, a, b) =>
      ArithmeticCode(u, dst, a, b, Add(Gp(ResultReg(u, dst)), Gp(ValueReg(u, b, u.c.temporary2))))
    case MulI64(dst, a, b) =>
      ArithmeticCode(u, dst, a, b, Imul(Gp(ResultReg(u, dst)), Gp(ValueReg(u, b, u.c.temporary2))))
    case MovI64(dst, src) => ReadValue(u, src, u.c.temporary) + WriteValue(u, dst, ValueReg(u, src, u.c.temporary))
    case CmpGtI64(dst, a, b) =>
      CompareCode(u, a, b) + SelectCode(u, block.id, index) + WriteValue(u, dst, u.c.temporary)
    case PhiI64(_, _) => []
    case ArgI64(dst, idx) => [Load(Gp(u.c.temporary), ShadowOffset(idx))] + WriteValue(u, dst, u.c.temporary)
  }

  function InstParts(u: Compilation, block: Block): seq<seq<Instr>> {
    seq(|block.insts|, k requires 0 <= k < |block.insts| => InstCode(u, block, k))
  }

  function EdgeCode(u: Compilation, pred: BlockId, succ: BlockId): seq<Instr> {
    Sequence(u.c, EdgeMoves(u, pred, succ)) + [Instr.Jmp(BlockLabel(succ))]
  }

  function ReturnCode(u: Compilation, value: VReg): seq<Instr> {
    ReadValue(u, value, Rax) + CopyCode(Rax, ValueReg(u, value, Rax))
  }

  function Epilogue(u: Compilation): seq<Instr> {
    (if u.Frame() > 0 then [AddRsp(u.Frame())] else []) + [Pop(Rbp), Instr.Ret]
  }

  function BranchCode(u: Compilation, b: BlockId, cond: VReg): seq<Instr> {
    ReadValue(u, cond, u.c.temporary)
    + [Test(Gp(ValueReg(u, cond, u.c.temporary))), Jnz(ThenStub(b)), Instr.Jmp(ElseStub(b))]
  }

  function TermCode(u: Compilation, block: Block): seq<Instr> {
    match block.term
    case Ret(value) => ReturnCode(u, value) + Epilogue(u)
    case Jmp(target) => EdgeCode(u, block.id, target)
    case Br(cond, thenBB, elseBB) =>
      BranchCode(u, block.id, cond)
      + ([Bind(ThenStub(block.id))] + EdgeCode(u, block.id, thenBB))
      + ([Bind(ElseStub(block.id))] + EdgeCode(u, block.id, elseBB))
  }

  function BlockCode(u: Compilation, block: Block): seq<Instr> {
    [Bind(BlockLabel(block.id))] + Flatten(InstParts(u, block), 0) + TermCode(u, block)
  }

  function BlockParts(u: Compilation): seq<seq<Instr>> {
    seq(|u.f.blocks|, i requires 0 <= i < |u.f.blocks| => BlockCode(u, u.f.blocks[i]))
  }

  function ShadowCode(from: nat, args: nat): seq<Instr>
    requires from <= args <= 6
    decreases args - from
  {
    if from == args then []
    else [Store(ShadowOffset(from), Gp(ARGUMENT_REGISTERS[from]))] + ShadowCode(from + 1, args)
  }

  function FrameCode(u: Compilation): seq<Instr> {
    [Push(Rbp), MovReg(Rbp, Rsp)] + (if u.Frame() > 0 then [SubRsp(u.Frame())] else [])
  }

  function Prologue(u: Compilation): seq<Instr>
    requires u.f.args <= 6
  {
    FrameCode(u) + ShadowCode(0, u.f.args)
  }

  function FunctionCode(u: Compilation): seq<Instr>
    requires u.f.args <= 6
  {
    Prologue(u) + [Instr.Jmp(BlockLabel(u.f.entry))] + Flatten(BlockParts(u), 0)
  }

  lemma Regroup(x: seq<Instr>, y: seq<Instr>, z: seq<Instr>)
    ensures x + y + z == x + (y + z)
  {
  }

  // ---------- the frame ----------

  function FrameBytes(slots: nat): nat {
    if slots == 0 then 0 else (slots * 8 + 15) / 16 * 16
  }

  // The limit is a multiple of 16, so it allows the rounded frame exactly when it allows the slots.
  predicate FrameFits(slots: nat) {
    slots * 8 <= MAX_STACK_FRAME_BYTES
  }

  lemma FrameIsLeast(slots: nat)
    ensures FrameBytes(slots) % 16 == 0 && FrameBytes(slots) >= 8 * slots
    ensures forall n: nat :: n % 16 == 0 && n >= 8 * slots ==> n >= FrameBytes(slots)
    ensures FrameFits(slots) <==> FrameBytes(slots) <= 16_777_216
  {
  }

  // ---------- what emission demands ----------

  function CompilationOf(f: Function, a: Assignment, regs: PhysRegSet): Compilation
    requires |regs.scratch| >= 2
  {
    Compilation(f, a.locs, Context(f.args, regs.scratch[0], regs.scratch[1]), a.stackSlots)
  }

  ghost predicate Verified(f: Function, a: Assignment, regs: PhysRegSet) {
    exists ivs :: AreIntervals(f, ivs) && ValidAssignment(ivs, regs, |regs.regs|, a)
  }

  ghost predicate Accepted(f: Function, a: Assignment, regs: PhysRegSet) {
    && WellFormed(f)
    && ReadyForCodegen(regs)
    && f.args <= 6
    && BlockStart(f, |f.blocks|) <= 0xFFFF_FFFF
    && Verified(f, a, regs)
  }

  lemma OneIntervalCoversBoth(ivs: seq<LiveInterval>, v: VReg, lo: nat, hi: nat) returns (j: nat)
    requires DistinctValues(ivs) && CoversPoint(ivs, v, lo) && CoversPoint(ivs, v, hi)
    ensures j < |ivs| && ivs[j].v == v && ivs[j].start <= lo && hi <= ivs[j].end
  {
    j :| 0 <= j < |ivs| && ivs[j].v == v && ivs[j].start <= lo <= ivs[j].end;
    var k :| 0 <= k < |ivs| && ivs[k].v == v && ivs[k].start <= hi <= ivs[k].end;
    assert j == k;
  }

  lemma ContainedIn(touches: Touches, ivs: seq<LiveInterval>, others: seq<LiveInterval>, i: nat) returns (j: nat)
    requires EndsTouched(touches, ivs) && DistinctValues(others) && CoverAll(touches, others) && i < |ivs|
    ensures j < |others| && others[j].v == ivs[i].v && others[j].start <= ivs[i].start && ivs[i].end <= others[j].end
  {
    var iv := ivs[i];
    assert (iv.v, iv.start) in touches && (iv.v, iv.end) in touches;
    j := OneIntervalCoversBoth(others, iv.v, iv.start, iv.end);
  }

  // The intervals of a function are unique up to order, and so is the verdict.
  lemma SameIntervals(f: Function, ivs: seq<LiveInterval>, others: seq<LiveInterval>, i: nat) returns (j: nat)
    requires AreIntervals(f, ivs) && AreIntervals(f, others) && i < |ivs|
    ensures j < |others| && others[j] == ivs[i]
  {
    j := ContainedIn(AllTouches(f), ivs, others, i);
    var l := ContainedIn(AllTouches(f), others, ivs, j);
    assert DistinctValues(ivs) && l == i;
  }

  lemma SameMembers(f: Function, ivs: seq<LiveInterval>, others: seq<LiveInterval>)
    requires AreIntervals(f, ivs) && AreIntervals(f, others)
    ensures forall i :: 0 <= i < |ivs| ==> ivs[i] in others
  {
    forall i | 0 <= i < |ivs|
      ensures ivs[i] in others
    {
      var j := SameIntervals(f, ivs, others, i);
    }
  }

  lemma ApartEitherWay(ivs: seq<LiveInterval>, locs: map<VReg, Location>, x: LiveInterval, y: LiveInterval)
    requires OverlapsApart(ivs, locs) && x in ivs && y in ivs && x.v != y.v && x.Overlaps(y)
    ensures !Share(locs, x, y)
  {
    var k :| 0 <= k < |ivs| && ivs[k] == x;
    var l :| 0 <= l < |ivs| && ivs[l] == y;
    if l < k {
      assert ivs[l].Overlaps(ivs[k]) && !Share(locs, ivs[l], ivs[k]);
    }
  }

  lemma VerdictOfMembers(
      ivs: seq<LiveInterval>, others: seq<LiveInterval>, regs: PhysRegSet, maxRegs: nat, a: Assignment)
    requires (forall i :: 0 <= i < |ivs| ==> ivs[i] in others) && (forall i :: 0 <= i < |others| ==> others[i] in ivs)
    requires DistinctValues(ivs) && ValidAssignment(others, regs, maxRegs, a)
    ensures ValidAssignment(ivs, regs, maxRegs, a)
  {
    forall v
      ensures v in Values(ivs) <==> v in Values(others)
    {
    }
    forall i, j | 0 <= i < j < |ivs| && ivs[i].Overlaps(ivs[j])
      ensures !Share(a.locs, ivs[i], ivs[j])
    {
      ApartEitherWay(others, a.locs, ivs[i], ivs[j]);
    }
  }

  lemma VerdictIsUnique(
      f: Function, ivs: seq<LiveInterval>, others: seq<LiveInterval>, regs: PhysRegSet, maxRegs: nat,
      a: Assignment)
    requires AreIntervals(f, ivs) && AreIntervals(f, others) && ValidAssignment(others, regs, maxRegs, a)
    ensures ValidAssignment(ivs, regs, maxRegs, a)
  {
    SameMembers(f, ivs, others);
    SameMembers(f, others, ivs);
    VerdictOfMembers(ivs, others, regs, maxRegs, a);
  }

  // Every defined, used or phi-read value has a location.
  ghost predicate Assigned(u: Compilation) {
    forall b, k: nat, v :: TouchedAt(u.f, b, k, v) ==> v in u.locs
  }

  lemma VerifiedIsAssigned(
      f: Function, ivs: seq<LiveInterval>, regs: PhysRegSet, maxRegs: nat, a: Assignment, u: Compilation)
    requires AreIntervals(f, ivs) && ValidAssignment(ivs, regs, maxRegs, a) && u.f == f && u.locs == a.locs
    ensures Assigned(u)
  {
    forall b, k: nat, v | TouchedAt(f, b, k, v)
      ensures v in a.locs
    {
      Coverage.TouchIsCovered(f, ivs, b, k, v);
      Coverage.CoveredIsAssigned(ivs, regs, maxRegs, a, v, PosOf(f, b, k));
    }
  }

  lemma VerifiedAssigns(f: Function, a: Assignment, regs: PhysRegSet)
    requires Verified(f, a, regs) && |regs.scratch| >= 2
    ensures Assigned(CompilationOf(f, a, regs))
  {
    var ivs :| AreIntervals(f, ivs) && ValidAssignment(ivs, regs, |regs.regs|, a);
    VerifiedIsAssigned(f, ivs, regs, |regs.regs|, a, CompilationOf(f, a, regs));
  }

  lemma InstIsAssigned(u: Compilation, b: BlockId, k: nat)
    requires Assigned(u) && HasBlock(u.f, b) && k < |BlockAt(u.f, b).insts|
    ensures BlockAt(u.f, b).insts[k].dst in u.locs
    ensures forall v :: UsedAt(BlockAt(u.f, b), k, v) ==> v in u.locs
  {
    assert TouchedAt(u.f, b, k, BlockAt(u.f, b).insts[k].dst);
    forall v | UsedAt(BlockAt(u.f, b), k, v)
      ensures v in u.locs
    {
      assert TouchedAt(u.f, b, k, v);
    }
  }

  lemma TermIsAssigned(u: Compilation, b: BlockId)
    requires Assigned(u) && HasBlock(u.f, b)
    ensures forall v :: v in TermUses(BlockAt(u.f, b).term) ==> v in u.locs
  {
    forall v | v in TermUses(BlockAt(u.f, b).term)
      ensures v in u.locs
    {
      assert UsedAt(BlockAt(u.f, b), |BlockAt(u.f, b).insts|, v);
      assert TouchedAt(u.f, b, |BlockAt(u.f, b).insts|, v);
    }
  }

  lemma PhiInputIsAssigned(u: Compilation, a: BlockId, s: BlockId, v: VReg)
    requires Assigned(u) && HasBlock(u.f, a) && HasBlock(u.f, s) && PhiUse(BlockAt(u.f, s), a, v)
    ensures v in u.locs
  {
    assert UsedOnSomeEdge(u.f, a, v);
    assert TouchedAt(u.f, a, |BlockAt(u.f, a).insts|, v);
  }
}
