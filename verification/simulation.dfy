// One block at a time: the emitted code keeps every live value's location equal to the
// interpreter's value.
module Simulation {
  import opened Wrappers
  import opened Ir
  import opened Interp
  import opened Cfg
  import opened Validation
  import opened Liveness
  import opened Alloc
  import opened Machine
  import opened ParallelMoves
  import opened Lowering
  import opened Frames
  import opened Layout
  import opened Effects
  import opened Edges
  import opened Separation
  import Coverage

  // ---------- the relation ----------

  predicate PhiPending(block: Block, k: int, v: VReg) {
    exists i :: 0 <= i < |block.insts| && k <= i && block.insts[i].PhiI64? && block.insts[i].dst == v
  }

  // Live before index k, or a used phi of this block not yet passed: phis are written on the edge.
  ghost predicate Matters(f: Function, b: BlockId, k: int, v: VReg) {
    HasBlock(f, b) &&
    (LiveBefore(f, b, k, v) || (PhiPending(BlockAt(f, b), k, v) && Coverage.UsedSomewhere(f, v)))
  }

  ghost predicate Holds(u: Compilation, d: Data, env: Env, v: VReg) {
    v in env ==> v in u.locs && Val(u.c, d, LocOf(u.locs, v)) == env[v]
  }

  ghost predicate Matches(u: Compilation, b: BlockId, k: int, env: Env, d: Data) {
    forall v :: Matters(u.f, b, k, v) ==> Holds(u, d, env, v)
  }

  lemma UndisturbedMatches(u: Compilation, b: BlockId, k: int, env: Env, d: Data, e: Data)
    requires Placed(u) && Matches(u, b, k, env, d) && Undisturbed(u, d, e)
    ensures Matches(u, b, k, env, e)
  {
    forall v | Matters(u.f, b, k, v)
      ensures Holds(u, e, env, v)
    {
      assert Holds(u, d, env, v);
    }
  }

  // ---------- one instruction ----------

  lemma PhiStepMatches(u: Compilation, b: BlockId, k: nat, env: Env, d: Data)
    requires HasBlock(u.f, b) && k < |BlockAt(u.f, b).insts| && BlockAt(u.f, b).insts[k].PhiI64?
    requires Matches(u, b, k, env, d)
    ensures Matches(u, b, k + 1, env, d)
  {
    forall v | Matters(u.f, b, k + 1, v)
      ensures Matters(u.f, b, k, v)
    {
      LiveBeforeUnfolds(u.f, b, k, v);
      if LiveBefore(u.f, b, k + 1, v) {
        Coverage.LiveIsUsed(u.f, b, k + 1, v);
      }
    }
  }

  lemma NoPhiAfter(block: Block, k: nat, v: VReg)
    requires PhisFirst(block) && k < |block.insts| && !block.insts[k].PhiI64?
    ensures !PhiPending(block, k, v) && !PhiPending(block, k + 1, v)
  {
  }

  lemma InstStepMatches(u: Compilation, b: BlockId, k: nat, env: Env, x: I64, d: Data, e: Data)
    requires Placed(u) && Separated(u) && HasBlock(u.f, b) && PhisFirst(BlockAt(u.f, b))
    requires k < |BlockAt(u.f, b).insts| && !BlockAt(u.f, b).insts[k].PhiI64? && BlockAt(u.f, b).insts[k].dst in u.locs
    requires Matches(u, b, k, env, d)
    requires var l := LocOf(u.locs, BlockAt(u.f, b).insts[k].dst); Writes(u, d, e, l) && Val(u.c, e, l) == x
    ensures Matches(u, b, k + 1, env[BlockAt(u.f, b).insts[k].dst := x], e)
  {
    var dst := BlockAt(u.f, b).insts[k].dst;
    var after := env[dst := x];
    forall v | Matters(u.f, b, k + 1, v)
      ensures Holds(u, e, after, v)
    {
      NoPhiAfter(BlockAt(u.f, b), k, v);
      if v != dst {
        LiveBeforeUnfolds(u.f, b, k, v);
        assert Matters(u.f, b, k, v) && Holds(u, d, env, v);
        assert MeetsResult(u.f, b, k, v) && ApartFromResult(u, b, k, v);
      }
    }
  }

  lemma UsesMatch(u: Compilation, b: BlockId, k: nat, env: Env, d: Data)
    requires HasBlock(u.f, b) && k < |BlockAt(u.f, b).insts| && Matches(u, b, k, env, d)
    ensures OperandsHold(u, BlockAt(u.f, b), k, env, d)
  {
    forall v | UsedAt(BlockAt(u.f, b), k, v) && v in env
      ensures Val(u.c, d, LocOf(u.locs, v)) == env[v]
    {
      LiveBeforeUnfolds(u.f, b, k, v);
      assert Matters(u.f, b, k, v);
    }
  }

  lemma UsesAreApart(u: Compilation, b: BlockId, k: nat)
    requires WellFormed(u.f) && Separated(u) && Assigned(u) && HasBlock(u.f, b) && k < |BlockAt(u.f, b).insts|
    ensures OperandsApart(u, BlockAt(u.f, b), k)
  {
    InstIsAssigned(u, b, k);
    forall v | UsedAt(BlockAt(u.f, b), k, v)
      ensures v in u.locs && LocOf(u.locs, v) != LocOf(u.locs, BlockAt(u.f, b).insts[k].dst)
    {
      UseIsNotResult(u.f, b, k, v);
      assert MeetsResult(u.f, b, k, v);
    }
  }

  // How the caller passes integer arguments: section 3.2.3 of the System V AMD64 psABI.
  ghost predicate ArgsHold(args: seq<I64>, d0: Data) {
    && |args| <= 6
    && (|args| > 0 ==> Get(d0, Gp(Rdi)) == args[0])
    && (|args| > 1 ==> Get(d0, Gp(Rsi)) == args[1])
    && (|args| > 2 ==> Get(d0, Gp(Rdx)) == args[2])
    && (|args| > 3 ==> Get(d0, Gp(Rcx)) == args[3])
    && (|args| > 4 ==> Get(d0, Gp(R8)) == args[4])
    && (|args| > 5 ==> Get(d0, Gp(R9)) == args[5])
  }

  // The prologue stores from the registers the caller uses.
  lemma ArgsAreStored(args: seq<I64>, d0: Data, i: nat)
    requires ArgsHold(args, d0) && i < |args|
    ensures Get(d0, Gp(ARGUMENT_REGISTERS[i])) == args[i]
  {
    assert i == 0 || i == 1 || i == 2 || i == 3 || i == 4 || i == 5;
  }

  lemma ExecBinds(inst: Inst, args: seq<I64>, env: Env)
    requires !inst.PhiI64? && ExecInst(inst, args, env).Success?
    ensures var after := ExecInst(inst, args, env).value;
      inst.dst in after && after == env[inst.dst := after[inst.dst]]
  {
  }

  // ---------- the select sequence of a comparison ----------

  lemma AtIndex(code: seq<Instr>, pc: nat, fragment: seq<Instr>, j: nat)
    requires At(code, pc, fragment) && j < |fragment|
    ensures pc + j < |code| && code[pc + j] == fragment[j]
  {
    assert code[pc..pc + |fragment|][j] == code[pc + j];
  }

  // The six instructions of a select, with both its labels bound once.
  ghost predicate SelectAt(code: seq<Instr>, pc: nat, temp: Reg, whenTrue: Label, done: Label) {
    && pc + 6 <= |code|
    && code[pc] == Jg(whenTrue) && code[pc + 1] == MovImm(temp, 0) && code[pc + 2] == Instr.Jmp(done)
    && code[pc + 3] == Bind(whenTrue) && code[pc + 4] == MovImm(temp, 1) && code[pc + 5] == Bind(done)
    && UniqueLabels(code)
  }

  lemma SelectTaken(code: seq<Instr>, pc: nat, temp: Reg, whenTrue: Label, done: Label, d: Data)
    requires SelectAt(code, pc, temp, whenTrue, done) && d.flags.Compared? && d.flags.greater
    ensures Reaches(code, Running(pc, d), Running(pc + 6, Set(d, temp, 1)))
  {
    var e := Set(d, temp, 1);
    GotoBound(code, pc + 3, whenTrue, d);
    TwoSteps(code, Running(pc, d), Running(pc + 3, d), Running(pc + 4, d));
    TwoSteps(code, Running(pc + 4, d), Running(pc + 5, e), Running(pc + 6, e));
    ReachesTrans(code, Running(pc, d), Running(pc + 4, d), Running(pc + 6, e));
  }

  lemma SelectSkipped(code: seq<Instr>, pc: nat, temp: Reg, whenTrue: Label, done: Label, d: Data)
    requires SelectAt(code, pc, temp, whenTrue, done) && d.flags.Compared? && !d.flags.greater
    ensures Reaches(code, Running(pc, d), Running(pc + 6, Set(d, temp, 0)))
  {
    var e := Set(d, temp, 0);
    GotoBound(code, pc + 5, done, e);
    TwoSteps(code, Running(pc, d), Running(pc + 1, d), Running(pc + 2, e));
    TwoSteps(code, Running(pc + 2, e), Running(pc + 5, e), Running(pc + 6, e));
    ReachesTrans(code, Running(pc, d), Running(pc + 2, e), Running(pc + 6, e));
  }

  lemma SelectLies(u: Compilation, code: seq<Instr>, b: BlockId, k: nat, pc: nat)
    requires UniqueLabels(code) && At(code, pc, SelectCode(u, b, k))
    ensures SelectAt(code, pc, Gp(u.c.temporary), TrueLabel(b, k), DoneLabel(b, k))
  {
    var s := SelectCode(u, b, k);
    AtIndex(code, pc, s, 0);
    AtIndex(code, pc, s, 1);
    AtIndex(code, pc, s, 2);
    AtIndex(code, pc, s, 3);
    AtIndex(code, pc, s, 4);
    AtIndex(code, pc, s, 5);
  }

  lemma SelectRuns(u: Compilation, code: seq<Instr>, b: BlockId, k: nat, pc: nat, d: Data)
    requires UniqueLabels(code) && At(code, pc, SelectCode(u, b, k)) && d.flags.Compared?
    ensures Reaches(code, Running(pc, d), Running(pc + 6, Set(d, Gp(u.c.temporary), if d.flags.greater then 1 else 0)))
  {
    SelectLies(u, code, b, k, pc);
    if d.flags.greater {
      SelectTaken(code, pc, Gp(u.c.temporary), TrueLabel(b, k), DoneLabel(b, k), d);
    } else {
      SelectSkipped(code, pc, Gp(u.c.temporary), TrueLabel(b, k), DoneLabel(b, k), d);
    }
  }

  lemma PlainRuns(u: Compilation, code: seq<Instr>, pc: nat, fragment: seq<Instr>, d: Data)
    requires At(code, pc, fragment) && AllPlain(u, fragment)
    ensures Reaches(code, Running(pc, d), Running(pc + |fragment|, Exec(fragment, d)))
  {
    ReachesStraight(code, pc, fragment, d);
  }

  lemma SetTemporary(u: Compilation, d: Data, x: int)
    ensures Undisturbed(u, d, Set(d, Gp(u.c.temporary), x))
  {
  }

  // The compare and the select leave 0 or 1 in the temporary.
  lemma CompareSelectRuns(u: Compilation, code: seq<Instr>, b: BlockId, k: nat, x: VReg, y: VReg, pc: nat, d: Data)
    returns (e: Data)
    requires Placed(u) && UniqueLabels(code) && x in u.locs && y in u.locs
    requires At(code, pc, CompareCode(u, x, y) + SelectCode(u, b, k))
    ensures Reaches(code, Running(pc, d), Running(pc + |CompareCode(u, x, y) + SelectCode(u, b, k)|, e))
    ensures Undisturbed(u, d, e)
    ensures Get(e, Gp(u.c.temporary)) == if Val(u.c, d, LocOf(u.locs, x)) > Val(u.c, d, LocOf(u.locs, y)) then 1 else 0
  {
    var compare, select := CompareCode(u, x, y), SelectCode(u, b, k);
    AtSplit(code, pc, compare, select);
    var pc1 := pc + |compare|;
    var d1 := Exec(compare, d);
    CompareIsPlain(u, x, y);
    PlainRuns(u, code, pc, compare, d);
    CompareEffect(u, x, y, d);
    SelectRuns(u, code, b, k, pc1, d1);
    e := Set(d1, Gp(u.c.temporary), if d1.flags.greater then 1 else 0);
    SetTemporary(u, d1, if d1.flags.greater then 1 else 0);
    ReachesTrans(code, Running(pc, d), Running(pc1, d1), Running(pc1 + 6, e));
  }

  // A comparison runs to its end with 0 or 1 in its location.
  lemma CompareRuns(u: Compilation, code: seq<Instr>, b: BlockId, k: nat, dst: VReg, x: VReg, y: VReg, pc: nat, d: Data)
    returns (e: Data)
    requires Placed(u) && UniqueLabels(code) && dst in u.locs && x in u.locs && y in u.locs
    requires At(code, pc, CompareCode(u, x, y) + SelectCode(u, b, k) + WriteValue(u, dst, u.c.temporary))
    ensures Reaches(code, Running(pc, d),
      Running(pc + |CompareCode(u, x, y) + SelectCode(u, b, k) + WriteValue(u, dst, u.c.temporary)|, e))
    ensures Writes(u, d, e, LocOf(u.locs, dst))
    ensures Val(u.c, e, LocOf(u.locs, dst)) ==
      if Val(u.c, d, LocOf(u.locs, x)) > Val(u.c, d, LocOf(u.locs, y)) then 1 else 0
  {
    var front, write := CompareCode(u, x, y) + SelectCode(u, b, k), WriteValue(u, dst, u.c.temporary);
    AtSplit(code, pc, front, write);
    var pc1 := pc + |front|;
    var mid := CompareSelectRuns(u, code, b, k, x, y, pc, d);
    LocationIsGood(u, dst);
    WriteIsPlain(u, LocOf(u.locs, dst), u.c.temporary);
    PlainRuns(u, code, pc1, write, mid);
    e := Exec(write, mid);
    StoreEffect(u, dst, u.c.temporary, mid);
    ReachesTrans(code, Running(pc, d), Running(pc1, mid), Running(pc1 + |write|, e));
  }

  lemma CompareIsPlain(u: Compilation, x: VReg, y: VReg)
    requires Placed(u)
    ensures AllPlain(u, CompareCode(u, x, y))
  {
    ReadIsPlain(u, LocOf(u.locs, x), u.c.temporary);
    ReadIsPlain(u, LocOf(u.locs, y), u.c.temporary2);
  }

  // ---------- the instructions of a block ----------

  lemma ReachesInFrame(u: Compilation, code: seq<Instr>, start: nat, d0: Data, m: Machine, m': Machine)
    requires Laid(u, code, start) && InFrame(u, code, start, d0, m) && Reaches(code, m, m')
    ensures InFrame(u, code, start, d0, m')
  {
    var n: nat :| Run(code, m, n) == m';
    InFrameForever(u, code, start, d0, m, n);
  }

  // The whole setting of a run.
  ghost predicate Fit(u: Compilation, code: seq<Instr>, start: nat) {
    && Placed(u)
    && Separated(u)
    && Assigned(u)
    && UniqueLabels(code)
    && Laid(u, code, start)
  }

  lemma ArgIsInShadow(
      u: Compilation, code: seq<Instr>, start: nat, d0: Data, args: seq<I64>, pc: nat, d: Data, idx: nat)
    requires InFrame(u, code, start, d0, Running(pc, d)) && code[pc].Load? && ArgsHold(args, d0)
    requires |args| == u.f.args && idx < |args|
    ensures Cell(d, Get(d, Rbp) + ShadowOffset(idx)) == args[idx]
  {
    ArgsAreStored(args, d0, idx);
  }

  // One instruction: its code runs to its end and the relation moves past it.
  lemma InstRuns(
      u: Compilation, code: seq<Instr>, start: nat, d0: Data, args: seq<I64>, b: BlockId, k: nat, env: Env,
      pc: nat, d: Data)
    returns (e: Data)
    requires WellFormed(u.f) && Fit(u, code, start) && HasBlock(u.f, b) && k < |BlockAt(u.f, b).insts|
    requires |args| == u.f.args && ArgsHold(args, d0)
    requires At(code, pc, InstCode(u, BlockAt(u.f, b), k)) && InFrame(u, code, start, d0, Running(pc, d))
    requires ExecInst(BlockAt(u.f, b).insts[k], args, env).Success? && Matches(u, b, k, env, d)
    ensures Reaches(code, Running(pc, d), Running(pc + |InstCode(u, BlockAt(u.f, b), k)|, e))
    ensures Matches(u, b, k + 1, ExecInst(BlockAt(u.f, b).insts[k], args, env).value, e)
  {
    var block := BlockAt(u.f, b);
    var inst := block.insts[k];
    if inst.PhiI64? {
      PhiStepMatches(u, b, k, env, d);
      assert Run(code, Running(pc, d), 0) == Running(pc, d);
      e := d;
    } else {
      e := ValueRuns(u, code, start, d0, args, b, k, env, pc, d);
      BlockHasPhisFirst(u.f, b);
      InstIsAssigned(u, b, k);
      ExecBinds(inst, args, env);
      InstStepMatches(u, b, k, env, ExecInst(inst, args, env).value[inst.dst], d, e);
    }
  }

  lemma ValueRuns(
      u: Compilation, code: seq<Instr>, start: nat, d0: Data, args: seq<I64>, b: BlockId, k: nat, env: Env,
      pc: nat, d: Data)
    returns (e: Data)
    requires WellFormed(u.f) && Fit(u, code, start) && HasBlock(u.f, b) && k < |BlockAt(u.f, b).insts|
    requires |args| == u.f.args && ArgsHold(args, d0) && !BlockAt(u.f, b).insts[k].PhiI64?
    requires At(code, pc, InstCode(u, BlockAt(u.f, b), k)) && InFrame(u, code, start, d0, Running(pc, d))
    requires ExecInst(BlockAt(u.f, b).insts[k], args, env).Success? && Matches(u, b, k, env, d)
    ensures Reaches(code, Running(pc, d), Running(pc + |InstCode(u, BlockAt(u.f, b), k)|, e))
    ensures var dst := BlockAt(u.f, b).insts[k].dst;
      dst in ExecInst(BlockAt(u.f, b).insts[k], args, env).value &&
      Val(u.c, e, LocOf(u.locs, dst)) == ExecInst(BlockAt(u.f, b).insts[k], args, env).value[dst] &&
      Writes(u, d, e, LocOf(u.locs, dst))
  {
    var block := BlockAt(u.f, b);
    UsesMatch(u, b, k, env, d);
    UsesAreApart(u, b, k);
    if block.insts[k].ArgI64? {
      AtIndex(code, pc, InstCode(u, block, k), 0);
      ArgIsInShadow(u, code, start, d0, args, pc, d, block.insts[k].idx);
    }
    e := ResultRuns(u, code, block, k, args, env, pc, d);
  }

  lemma ResultRuns(u: Compilation, code: seq<Instr>, block: Block, k: nat, args: seq<I64>, env: Env, pc: nat, d: Data)
    returns (e: Data)
    requires Placed(u) && UniqueLabels(code) && k < |block.insts| && !block.insts[k].PhiI64?
    requires OperandsHold(u, block, k, env, d) && OperandsApart(u, block, k)
    requires ExecInst(block.insts[k], args, env).Success?
    requires block.insts[k].ArgI64? ==>
      Cell(d, Get(d, Rbp) + ShadowOffset(block.insts[k].idx)) == args[block.insts[k].idx]
    requires At(code, pc, InstCode(u, block, k))
    ensures Reaches(code, Running(pc, d), Running(pc + |InstCode(u, block, k)|, e))
    ensures var dst := block.insts[k].dst;
      dst in ExecInst(block.insts[k], args, env).value &&
      Val(u.c, e, LocOf(u.locs, dst)) == ExecInst(block.insts[k], args, env).value[dst] &&
      Writes(u, d, e, LocOf(u.locs, dst))
  {
    var inst := block.insts[k];
    if inst.CmpGtI64? {
      assert UsedAt(block, k, inst.a) && UsedAt(block, k, inst.b);
      e := CompareRuns(u, code, block.id, k, inst.dst, inst.a, inst.b, pc, d);
    } else {
      InstEffect(u, block, k, args, env, d);
      InstIsPlain(u, block, k);
      PlainRuns(u, code, pc, InstCode(u, block, k), d);
      e := Exec(InstCode(u, block, k), d);
    }
  }

  ghost predicate CanStep(
      u: Compilation, code: seq<Instr>, start: nat, d0: Data, args: seq<I64>, b: BlockId,
      parts: seq<seq<Instr>>, k: nat, env: Env, pc: nat, d: Data)
  {
    && HasBlock(u.f, b) && k < |BlockAt(u.f, b).insts| && k < |parts|
    && At(code, pc, parts[k])
    && InFrame(u, code, start, d0, Running(pc, d))
    && ExecInst(BlockAt(u.f, b).insts[k], args, env).Success?
    && Matches(u, b, k, env, d)
  }

  ghost predicate Stepped(
      u: Compilation, code: seq<Instr>, start: nat, d0: Data, args: seq<I64>, b: BlockId, part: seq<Instr>,
      k: nat, env: Env, pc: nat, d: Data, e: Data)
  {
    && HasBlock(u.f, b) && k < |BlockAt(u.f, b).insts| && ExecInst(BlockAt(u.f, b).insts[k], args, env).Success?
    && Reaches(code, Running(pc, d), Running(pc + |part|, e))
    && InFrame(u, code, start, d0, Running(pc + |part|, e))
    && Matches(u, b, k + 1, ExecInst(BlockAt(u.f, b).insts[k], args, env).value, e)
  }

  // Every part is the code of its instruction: wherever it lies, it steps.
  ghost predicate AllStep(
      u: Compilation, code: seq<Instr>, start: nat, d0: Data, args: seq<I64>, b: BlockId,
      parts: seq<seq<Instr>>)
  {
    forall k: nat, env, pc: nat, d :: CanStep(u, code, start, d0, args, b, parts, k, env, pc, d) ==>
      k < |parts| && exists e :: Stepped(u, code, start, d0, args, b, parts[k], k, env, pc, d, e)
  }

  lemma BlockSteps(u: Compilation, code: seq<Instr>, start: nat, d0: Data, args: seq<I64>, b: BlockId)
    requires WellFormed(u.f) && Fit(u, code, start) && |args| == u.f.args && ArgsHold(args, d0) && HasBlock(u.f, b)
    ensures AllStep(u, code, start, d0, args, b, InstParts(u, BlockAt(u.f, b)))
  {
    var parts := InstParts(u, BlockAt(u.f, b));
    forall k: nat, env, pc: nat, d | CanStep(u, code, start, d0, args, b, parts, k, env, pc, d)
      ensures exists e :: Stepped(u, code, start, d0, args, b, parts[k], k, env, pc, d, e)
    {
      var e := InstRuns(u, code, start, d0, args, b, k, env, pc, d);
      ReachesInFrame(u, code, start, d0, Running(pc, d), Running(pc + |parts[k]|, e));
      assert Stepped(u, code, start, d0, args, b, parts[k], k, env, pc, d, e);
    }
  }

  // The code of the k-th instruction on runs through that instruction to the code of the next.
  lemma PartRuns(
      u: Compilation, code: seq<Instr>, start: nat, d0: Data, args: seq<I64>, b: BlockId,
      parts: seq<seq<Instr>>, k: nat, env: Env, pc: nat, d: Data)
    returns (mid: Data)
    requires AllStep(u, code, start, d0, args, b, parts)
    requires k < |parts| && At(code, pc, Flatten(parts, k))
    requires HasBlock(u.f, b) && k < |BlockAt(u.f, b).insts| && InFrame(u, code, start, d0, Running(pc, d))
    requires ExecInst(BlockAt(u.f, b).insts[k], args, env).Success? && Matches(u, b, k, env, d)
    ensures Stepped(u, code, start, d0, args, b, parts[k], k, env, pc, d, mid)
    ensures At(code, pc + |parts[k]|, Flatten(parts, k + 1))
    ensures |Flatten(parts, k)| == |parts[k]| + |Flatten(parts, k + 1)|
  {
    AtSplit(code, pc, parts[k], Flatten(parts, k + 1));
    assert CanStep(u, code, start, d0, args, b, parts, k, env, pc, d);
    mid :| Stepped(u, code, start, d0, args, b, parts[k], k, env, pc, d, mid);
  }

  lemma {:induction false} PartsRun(
      u: Compilation, code: seq<Instr>, start: nat, d0: Data, args: seq<I64>, b: BlockId,
      parts: seq<seq<Instr>>, k: nat, env: Env, budget: nat, pc: nat, d: Data)
    returns (e: Data)
    requires AllStep(u, code, start, d0, args, b, parts) && HasBlock(u.f, b) && k <= |BlockAt(u.f, b).insts| == |parts|
    requires At(code, pc, Flatten(parts, k)) && InFrame(u, code, start, d0, Running(pc, d))
    requires RunInsts(BlockAt(u.f, b).insts, k, args, env, budget).Success? && Matches(u, b, k, env, d)
    ensures Reaches(code, Running(pc, d), Running(pc + |Flatten(parts, k)|, e))
    ensures InFrame(u, code, start, d0, Running(pc + |Flatten(parts, k)|, e))
    ensures Matches(u, b, |parts|, RunInsts(BlockAt(u.f, b).insts, k, args, env, budget).value, e)
    decreases |parts| - k
  {
    var insts := BlockAt(u.f, b).insts;
    if k == |parts| {
      assert Run(code, Running(pc, d), 0) == Running(pc, d);
      e := d;
    } else {
      var next := ExecInst(insts[k], args, env).value;
      var mid := PartRuns(u, code, start, d0, args, b, parts, k, env, pc, d);
      e := PartsRun(u, code, start, d0, args, b, parts, k + 1, next, budget - 1, pc + |parts[k]|, mid);
      ReachesTrans(code, Running(pc, d), Running(pc + |parts[k]|, mid), Running(pc + |Flatten(parts, k)|, e));
    }
  }
}
