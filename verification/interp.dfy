// The reference interpreter: simultaneous phi reads at block entry, one step per block entry
// and per instruction, and a step limit.
module Interp {
  import opened Wrappers
  import opened Ir

  type Env = map<VReg, I64>

  datatype EvalError =
    | WrongArgumentCount
    | StepLimitNotPositive
    | StepLimitExceeded
    | UnknownBlock(block: BlockId)
    | PhiInEntry
    | PhiMissingIncoming(pred: BlockId)
    | UndefinedValue(value: VReg)
    | ArgumentOutOfRange(idx: nat)

  type Outcome = Result<I64, EvalError>

  function Lookup(env: Env, v: VReg): Result<I64, EvalError> {
    if v in env then Success(env[v]) else Failure(UndefinedValue(v))
  }

  // The value the first matching incoming pair names.
  function FindIncoming(incoming: seq<(BlockId, VReg)>, pred: BlockId): (r: Option<VReg>)
    ensures r.Some? ==> (pred, r.value) in incoming
    ensures r.None? ==> forall i :: 0 <= i < |incoming| ==> incoming[i].0 != pred
  {
    if incoming == [] then None
    else if incoming[0].0 == pred then Some(incoming[0].1)
    else FindIncoming(incoming[1..], pred)
  }

  function PhiRead(incoming: seq<(BlockId, VReg)>, pred: Option<BlockId>, env: Env): Result<I64, EvalError> {
    if pred.None? then Failure(PhiInEntry)
    else match FindIncoming(incoming, pred.value)
      case None => Failure(PhiMissingIncoming(pred.value))
      case Some(source) => Lookup(env, source)
  }

  // The environment after the phis among the first k instructions: every phi reads `old`.
  function EnterPhis(insts: seq<Inst>, k: nat, pred: Option<BlockId>, before: Env): Result<Env, EvalError>
    requires k <= |insts|
  {
    if k == 0 then Success(before)
    else
      var env :- EnterPhis(insts, k - 1, pred, before);
      if insts[k - 1].PhiI64? then
        var value :- PhiRead(insts[k - 1].incoming, pred, before);
        Success(env[insts[k - 1].dst := value])
      else Success(env)
  }

  function ExecInst(inst: Inst, args: seq<I64>, env: Env): Result<Env, EvalError> {
    match inst
    case ConstI64(dst, imm) => Success(env[dst := imm])
    case ArgI64(dst, idx) =>
      if idx < |args| then Success(env[dst := args[idx]]) else Failure(ArgumentOutOfRange(idx))
    case AddI64(dst, a, b) =>
      var left :- Lookup(env, a);
      var right :- Lookup(env, b);
      Success(env[dst := WrappingAdd(left, right)])
    case MulI64(dst, a, b) =>
      var left :- Lookup(env, a);
      var right :- Lookup(env, b);
      Success(env[dst := WrappingMul(left, right)])
    case MovI64(dst, src) =>
      var value :- Lookup(env, src);
      Success(env[dst := value])
    case CmpGtI64(dst, a, b) =>
      var left :- Lookup(env, a);
      var right :- Lookup(env, b);
      Success(env[dst := if left > right then 1 else 0])
    case PhiI64(_, _) => Success(env)
  }

  // Instructions k.. of a block, one step each.
  function RunInsts(insts: seq<Inst>, k: nat, args: seq<I64>, env: Env, budget: nat): (r: Result<Env, EvalError>)
    requires k <= |insts|
    ensures r.Success? ==> |insts| - k <= budget
    decreases |insts| - k
  {
    if k == |insts| then Success(env)
    else if budget == 0 then Failure(StepLimitExceeded)
    else
      var next :- ExecInst(insts[k], args, env);
      RunInsts(insts, k + 1, args, next, budget - 1)
  }

  // What the interpreter returns from the start of `current` with `budget` steps left.
  function RunFrom(f: Function, args: seq<I64>, current: BlockId, pred: Option<BlockId>, env: Env, budget: nat): Outcome
    decreases budget
  {
    if budget == 0 then Failure(StepLimitExceeded)
    else if !HasBlock(f, current) then Failure(UnknownBlock(current))
    else
      var block := BlockAt(f, current);
      var entered :- EnterPhis(block.insts, |block.insts|, pred, env);
      var after :- RunInsts(block.insts, 0, args, entered, budget - 1);
      var left := budget - 1 - |block.insts|;
      match block.term
      case Ret(value) => Lookup(after, value)
      case Jmp(target) => RunFrom(f, args, target, Some(current), after, left)
      case Br(cond, thenBB, elseBB) =>
        var condition :- Lookup(after, cond);
        RunFrom(f, args, if condition != 0 then thenBB else elseBB, Some(current), after, left)
  }

  function Eval(f: Function, args: seq<I64>, stepLimit: nat): Outcome {
    if |args| != f.args then Failure(WrongArgumentCount)
    else if stepLimit == 0 then Failure(StepLimitNotPositive)
    else RunFrom(f, args, f.entry, None, map[], stepLimit)
  }

  function InsertAll(env: Env, results: seq<(VReg, I64)>): Env {
    if results == [] then env
    else InsertAll(env, results[..|results| - 1])[results[|results| - 1].0 := results[|results| - 1].1]
  }

  // The phi prologue of a block: read every phi, then write them all.
  method EvalPhis(insts: seq<Inst>, pred: Option<BlockId>, before: Env) returns (r: Result<Env, EvalError>)
    ensures r == EnterPhis(insts, |insts|, pred, before)
  {
    var results: seq<(VReg, I64)> := [];
    for k := 0 to |insts|
      invariant EnterPhis(insts, k, pred, before) == Success(InsertAll(before, results))
    {
      ghost var prefix := EnterPhis(insts, k + 1, pred, before);
      if insts[k].PhiI64? {
        var read := PhiRead(insts[k].incoming, pred, before);
        if read.Failure? {
          FailureSticks(insts, k + 1, pred, before);
          return Failure(read.error);
        }
        var grown := results + [(insts[k].dst, read.value)];
        assert grown[..|grown| - 1] == results;
        results := grown;
      }
    }
    var env := before;
    for i := 0 to |results|
      invariant env == InsertAll(before, results[..i])
    {
      assert results[..i + 1][..i] == results[..i];
      env := env[results[i].0 := results[i].1];
    }
    assert results[..|results|] == results;
    r := Success(env);
  }

  lemma {:induction false} FailureSticks(insts: seq<Inst>, k: nat, pred: Option<BlockId>, before: Env)
    requires k <= |insts| && EnterPhis(insts, k, pred, before).Failure?
    ensures EnterPhis(insts, |insts|, pred, before) == EnterPhis(insts, k, pred, before)
    decreases |insts| - k
  {
    if k < |insts| {
      FailureSticks(insts, k + 1, pred, before);
    }
  }

  method EvalI64WithLimit(f: Function, args: seq<I64>, stepLimit: nat) returns (r: Outcome)
    ensures r == Eval(f, args, stepLimit)
  {
    if |args| != f.args {
      return Failure(WrongArgumentCount);
    }
    if stepLimit == 0 {
      return Failure(StepLimitNotPositive);
    }
    var current: BlockId := f.entry;
    var regs: Env := map[];
    var predecessor: Option<BlockId> := None;
    var steps := 0;
    while true
      invariant steps <= stepLimit
      invariant RunFrom(f, args, current, predecessor, regs, stepLimit - steps) == Eval(f, args, stepLimit)
      decreases stepLimit - steps
    {
      steps := steps + 1;
      if steps > stepLimit {
        return Failure(StepLimitExceeded);
      }
      var found := TryBlock(f, current);
      if found.None? {
        return Failure(UnknownBlock(current));
      }
      var block := found.value;
      var entered := EvalPhis(block.insts, predecessor, regs);
      if entered.Failure? {
        return Failure(entered.error);
      }
      regs := entered.value;
      ghost var start := steps;
      ghost var whole := RunInsts(block.insts, 0, args, regs, stepLimit - start);
      for k := 0 to |block.insts|
        invariant steps == start + k <= stepLimit
        invariant RunInsts(block.insts, k, args, regs, stepLimit - steps) == whole
      {
        steps := steps + 1;
        if steps > stepLimit {
          return Failure(StepLimitExceeded);
        }
        var next := ExecInst(block.insts[k], args, regs);
        if next.Failure? {
          return Failure(next.error);
        }
        regs := next.value;
      }
      match block.term {
        case Ret(value) =>
          return Lookup(regs, value);
        case Jmp(target) =>
          predecessor := Some(current);
          current := target;
        case Br(cond, thenBB, elseBB) =>
          var condition := Lookup(regs, cond);
          if condition.Failure? {
            return Failure(condition.error);
          }
          predecessor := Some(current);
          current := if condition.value != 0 then thenBB else elseBB;
      }
    }
  }
}
