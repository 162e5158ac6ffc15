// What the interpreter's instructions compute, said in whole numbers, and how many steps a run takes.
module Arithmetic {
  import opened Wrappers
  import opened Ir
  import opened Interp
  import opened Liveness

  // ---------- numbers modulo 2^64 ----------

  predicate Congruent(x: int, y: int) {
    (x - y) % 0x1_0000_0000_0000_0000 == 0
  }

  predicate Fits(x: int) {
    -0x8000_0000_0000_0000 <= x <= 0x7FFF_FFFF_FFFF_FFFF
  }

  lemma CongruentBy(x: int, y: int, k: int)
    requires x - y == k * 0x1_0000_0000_0000_0000
    ensures Congruent(x, y)
  {
  }

  lemma CongruentTrans(x: int, y: int, z: int)
    requires Congruent(x, y) && Congruent(y, z)
    ensures Congruent(x, z)
  {
  }

  lemma CongruentSums(x: int, y: int, u: int, v: int)
    requires Congruent(x, u) && Congruent(y, v)
    ensures Congruent(x + y, u + v)
  {
  }

  lemma CongruentProducts(x: int, y: int, u: int, v: int)
    requires Congruent(x, u) && Congruent(y, v)
    ensures Congruent(x * y, u * v)
  {
    var m := 0x1_0000_0000_0000_0000;
    var j, k := (x - u) / m, (y - v) / m;
    assert x == u + j * m && y == v + k * m;
    calc {
      x * y - u * v;
      (u + j * m) * (v + k * m) - u * v;
      (u * k + j * v + j * k * m) * m;
    }
    CongruentBy(x * y, u * v, u * k + j * v + j * k * m);
  }

  lemma CongruentFits(x: int, y: int)
    requires Congruent(x, y) && Fits(x) && Fits(y)
    ensures x == y
  {
  }

  lemma ReductionIsCongruent(x: int)
    ensures Congruent(Wrap(x), x) && Fits(Wrap(x))
  {
  }

  // ---------- one instruction ----------

  // The value an instruction binds.
  ghost predicate Computes(inst: Inst, args: seq<I64>, env: Env, value: int)
    requires !inst.PhiI64?
  {
    Fits(value) &&
    match inst
    case ConstI64(_, imm) => value == imm
    case ArgI64(_, idx) => idx < |args| && value == args[idx]
    case MovI64(_, src) => src in env && value == env[src]
    case AddI64(_, a, b) =>
      && a in env && b in env && Congruent(value, env[a] as int + env[b])
      && (Fits(env[a] as int + env[b]) ==> value == env[a] as int + env[b])
    case MulI64(_, a, b) =>
      && a in env && b in env && Congruent(value, env[a] as int * env[b])
      && (Fits(env[a] as int * env[b]) ==> value == env[a] as int * env[b])
    case CmpGtI64(_, a, b) =>
      && a in env && b in env && (env[a] > env[b] ==> value == 1) && (env[a] <= env[b] ==> value == 0)
  }

  // An instruction succeeds exactly when what it reads is there, and then binds its result alone.
  lemma InstructionComputes(inst: Inst, args: seq<I64>, env: Env)
    requires !inst.PhiI64?
    ensures ExecInst(inst, args, env).Success? <==>
      (forall v :: v in Uses(inst) ==> v in env) && (inst.ArgI64? ==> inst.idx < |args|)
    ensures ExecInst(inst, args, env).Success? ==>
      var after := ExecInst(inst, args, env).value;
      && inst.dst in after && Computes(inst, args, env, after[inst.dst])
      && after.Keys == env.Keys + {inst.dst} && forall v :: v in env && v != inst.dst ==> after[v] == env[v]
  {
    match inst
    case AddI64(_, a, b) =>
      assert Uses(inst)[0] == a && Uses(inst)[1] == b;
      if a in env && b in env {
        SumComputes(env[a], env[b]);
      }
    case MulI64(_, a, b) =>
      assert Uses(inst)[0] == a && Uses(inst)[1] == b;
      if a in env && b in env {
        ProductComputes(env[a], env[b]);
      }
    case CmpGtI64(_, a, b) =>
      assert Uses(inst)[0] == a && Uses(inst)[1] == b;
    case MovI64(_, src) =>
      assert Uses(inst)[0] == src;
    case _ =>
  }

  lemma SumComputes(x: I64, y: I64)
    ensures Fits(WrappingAdd(x, y)) && Congruent(WrappingAdd(x, y), x + y)
    ensures Fits(x + y) ==> WrappingAdd(x, y) == x + y
  {
    ReductionIsCongruent(x + y);
    if Fits(x + y) {
      CongruentFits(WrappingAdd(x, y), x + y);
    }
  }

  lemma ProductComputes(x: I64, y: I64)
    ensures Fits(WrappingMul(x, y)) && Congruent(WrappingMul(x, y), x * y)
    ensures Fits(x * y) ==> WrappingMul(x, y) == x * y
  {
    ReductionIsCongruent(x * y);
    if Fits(x * y) {
      CongruentFits(WrappingMul(x, y), x * y);
    }
  }

  // A value is used exactly when the instruction fails without it.
  lemma UsesAreReads(inst: Inst, args: seq<I64>, env: Env, v: VReg)
    requires !inst.PhiI64? && ExecInst(inst, args, env).Success?
    ensures v in Uses(inst) <==> ExecInst(inst, args, env - {v}).Failure?
  {
    InstructionComputes(inst, args, env);
    InstructionComputes(inst, args, env - {v});
  }

  // A phi reads the first input that names the predecessor.
  lemma {:induction false} FirstInputIsRead(incoming: seq<(BlockId, VReg)>, pred: BlockId) returns (i: nat)
    ensures FindIncoming(incoming, pred).None? ==> forall j :: 0 <= j < |incoming| ==> incoming[j].0 != pred
    ensures FindIncoming(incoming, pred).Some? ==>
      && i < |incoming| && incoming[i] == (pred, FindIncoming(incoming, pred).value)
      && forall j :: 0 <= j < i ==> incoming[j].0 != pred
  {
    i := 0;
    if incoming != [] && incoming[0].0 != pred {
      var k := FirstInputIsRead(incoming[1..], pred);
      i := k + 1;
      if FindIncoming(incoming, pred).Some? {
        forall j | 0 <= j < i
          ensures incoming[j].0 != pred
        {
          assert j > 0 ==> incoming[j] == incoming[1..][j - 1];
        }
      }
    }
  }

  // ---------- how many steps a run takes ----------

  // One step to enter each block and one for each of its instructions.
  ghost function StepsOf(f: Function, visited: seq<BlockId>): nat {
    if visited == [] then 0
    else (if HasBlock(f, visited[0]) then 1 + |BlockAt(f, visited[0]).insts| else 0) + StepsOf(f, visited[1..])
  }

  lemma {:induction false} InstsTakeSteps(insts: seq<Inst>, k: nat, args: seq<I64>, env: Env, budget: nat, other: nat)
    requires k <= |insts| && RunInsts(insts, k, args, env, budget).Success?
    ensures other >= |insts| - k ==> RunInsts(insts, k, args, env, other) == RunInsts(insts, k, args, env, budget)
    ensures other < |insts| - k ==> RunInsts(insts, k, args, env, other) == Failure(StepLimitExceeded)
    decreases |insts| - k
  {
    if k < |insts| && other > 0 {
      InstsTakeSteps(insts, k + 1, args, ExecInst(insts[k], args, env).value, budget - 1, other - 1);
    }
  }

  // The run with `other` steps left gives r when it has at least `steps`, and else runs out of them.
  ghost predicate StepsDecide(
      f: Function, args: seq<I64>, b: BlockId, pred: Option<BlockId>, env: Env, r: I64, steps: nat, other: nat)
  {
    RunFrom(f, args, b, pred, env, other) == if other >= steps then Success(r) else Failure(StepLimitExceeded)
  }

  ghost predicate LeadsTo(f: Function, b: BlockId, s: BlockId) {
    HasBlock(f, b) && s in Successors(BlockAt(f, b).term)
  }

  // A walk along successors from b to a block that returns.
  ghost predicate RunsThrough(f: Function, b: BlockId, visited: seq<BlockId>)
    decreases |visited|
  {
    && visited != [] && visited[0] == b && HasBlock(f, b)
    && if |visited| == 1 then BlockAt(f, b).term.Ret?
       else LeadsTo(f, b, visited[1]) && RunsThrough(f, visited[1], visited[1..])
  }

  // A block's steps, whatever the limit.
  lemma BlockTakesSteps(
      f: Function, args: seq<I64>, b: BlockId, pred: Option<BlockId>, env: Env, budget: nat, other: nat)
    returns (entered: Env, after: Env)
    requires RunFrom(f, args, b, pred, env, budget).Success?
    ensures HasBlock(f, b) && EnterPhis(BlockAt(f, b).insts, |BlockAt(f, b).insts|, pred, env) == Success(entered)
    ensures 1 + |BlockAt(f, b).insts| <= budget
    ensures RunInsts(BlockAt(f, b).insts, 0, args, entered, budget - 1) == Success(after)
    ensures other <= |BlockAt(f, b).insts| ==> RunFrom(f, args, b, pred, env, other) == Failure(StepLimitExceeded)
    ensures other > |BlockAt(f, b).insts| ==>
      RunInsts(BlockAt(f, b).insts, 0, args, entered, other - 1) == Success(after)
  {
    var insts := BlockAt(f, b).insts;
    entered := EnterPhis(insts, |insts|, pred, env).value;
    after := RunInsts(insts, 0, args, entered, budget - 1).value;
    if other > 0 {
      InstsTakeSteps(insts, 0, args, entered, budget - 1, other - 1);
    }
  }

  // A run that returns takes one step for each block it enters and one for each instruction.
  lemma {:induction false} RunTakesSteps(
      f: Function, args: seq<I64>, b: BlockId, pred: Option<BlockId>, env: Env, budget: nat)
    returns (visited: seq<BlockId>)
    requires RunFrom(f, args, b, pred, env, budget).Success?
    ensures RunsThrough(f, b, visited)
    ensures forall other: nat ::
      StepsDecide(f, args, b, pred, env, RunFrom(f, args, b, pred, env, budget).value, StepsOf(f, visited), other)
    decreases budget
  {
    var r := RunFrom(f, args, b, pred, env, budget).value;
    var entered, after := BlockTakesSteps(f, args, b, pred, env, budget, 0);
    var block := BlockAt(f, b);
    var left := budget - 1 - |block.insts|;
    visited := [b];
    if !block.term.Ret? {
      var next := if block.term.Jmp? then block.term.target
        else if after[block.term.cond] != 0 then block.term.thenBB else block.term.elseBB;
      var rest := RunTakesSteps(f, args, next, Some(b), after, left);
      visited := [b] + rest;
      assert visited[1..] == rest;
      forall other: nat
        ensures StepsDecide(f, args, b, pred, env, r, StepsOf(f, visited), other)
      {
        var e, t := BlockTakesSteps(f, args, b, pred, env, budget, other);
        if other > |block.insts| {
          assert StepsDecide(f, args, next, Some(b), after, r, StepsOf(f, rest), other - 1 - |block.insts|);
        }
      }
    } else {
      assert visited[1..] == [] && StepsOf(f, visited) == 1 + |block.insts|;
      forall other: nat
        ensures StepsDecide(f, args, b, pred, env, r, StepsOf(f, visited), other)
      {
        var e, t := BlockTakesSteps(f, args, b, pred, env, budget, other);
      }
    }
  }

  // So every limit decides alike: enough for the blocks visited, and the result is the same; less, and
  // the limit is exceeded.
  lemma EvalTakesSteps(f: Function, args: seq<I64>, limit: nat) returns (visited: seq<BlockId>)
    requires Eval(f, args, limit).Success?
    ensures RunsThrough(f, f.entry, visited)
    ensures forall other: nat :: other > 0 ==>
      Eval(f, args, other) ==
      if other >= StepsOf(f, visited) then Eval(f, args, limit) else Failure(StepLimitExceeded)
  {
    visited := RunTakesSteps(f, args, f.entry, None, map[], limit);
    forall other: nat | other > 0
      ensures Eval(f, args, other) ==
        if other >= StepsOf(f, visited) then Eval(f, args, limit) else Failure(StepLimitExceeded)
    {
      assert StepsDecide(
        f, args, f.entry, None, map[], Eval(f, args, limit).value, StepsOf(f, visited), other);
    }
  }

  // The checks that come before any step.
  lemma EvalChecksFirst(f: Function, args: seq<I64>, limit: nat)
    ensures |args| != f.args ==> Eval(f, args, limit) == Failure(WrongArgumentCount)
    ensures |args| == f.args && limit == 0 ==> Eval(f, args, limit) == Failure(StepLimitNotPositive)
  {
  }
}
