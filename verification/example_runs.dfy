// Running a given program block by block: one instruction, one block, and the steps they take.
module ExampleRuns {
  import opened Wrappers
  import opened Ir
  import opened Interp
  import opened Arithmetic

  function V(i: nat): VReg {
    VReg(i)
  }

  function B(i: nat): BlockId {
    BlockId(i)
  }

  // One instruction of a run.
  lemma Advance(insts: seq<Inst>, k: nat, args: seq<I64>, env: Env, budget: nat) returns (next: Env)
    requires k < |insts| && budget > 0 && !insts[k].PhiI64?
    requires (forall v :: v in Uses(insts[k]) ==> v in env) && (insts[k].ArgI64? ==> insts[k].idx < |args|)
    ensures RunInsts(insts, k, args, env, budget) == RunInsts(insts, k + 1, args, next, budget - 1)
    ensures insts[k].dst in next && Computes(insts[k], args, env, next[insts[k].dst])
    ensures forall v :: v in env && v != insts[k].dst ==> v in next && next[v] == env[v]
  {
    InstructionComputes(insts[k], args, env);
    next := ExecInst(insts[k], args, env).value;
  }

  ghost predicate Keeps(before: Env, after: Env, changed: VReg) {
    forall v :: v in before && v != changed ==> v in after && after[v] == before[v]
  }

  ghost predicate Near(env: Env, v: VReg, x: int) {
    v in env && Congruent(env[v], x)
  }

  lemma AddStep(insts: seq<Inst>, k: nat, args: seq<I64>, env: Env, budget: nat, x: int, y: int)
    returns (next: Env)
    requires k < |insts| && budget > 0 && insts[k].AddI64? && Near(env, insts[k].a, x) && Near(env, insts[k].b, y)
    ensures RunInsts(insts, k, args, env, budget) == RunInsts(insts, k + 1, args, next, budget - 1)
    ensures Near(next, insts[k].dst, x + y) && Keeps(env, next, insts[k].dst)
  {
    next := Advance(insts, k, args, env, budget);
    CongruentSums(env[insts[k].a], env[insts[k].b], x, y);
    CongruentTrans(next[insts[k].dst], env[insts[k].a] as int + env[insts[k].b], x + y);
  }

  lemma MulStep(insts: seq<Inst>, k: nat, args: seq<I64>, env: Env, budget: nat, x: int, y: int, product: int)
    returns (next: Env)
    requires k < |insts| && budget > 0 && insts[k].MulI64? && Near(env, insts[k].a, x) && Near(env, insts[k].b, y)
    requires product == x * y
    ensures RunInsts(insts, k, args, env, budget) == RunInsts(insts, k + 1, args, next, budget - 1)
    ensures Near(next, insts[k].dst, product) && Keeps(env, next, insts[k].dst)
  {
    next := Advance(insts, k, args, env, budget);
    CongruentProducts(env[insts[k].a], env[insts[k].b], x, y);
    CongruentTrans(next[insts[k].dst], env[insts[k].a] as int * env[insts[k].b], product);
  }

  // ---------- blocks ----------

  lemma FirstBlock(f: Function)
    requires |f.blocks| > 0
    ensures HasBlock(f, f.blocks[0].id) && BlockAt(f, f.blocks[0].id) == f.blocks[0]
  {
  }

  // A block that returns, for every number of steps left.
  lemma ReturnRuns(
      f: Function, args: seq<I64>, b: BlockId, pred: Option<BlockId>, env: Env, entered: Env, after: Env, left: nat)
    requires HasBlock(f, b) && BlockAt(f, b).term.Ret? && BlockAt(f, b).term.value in after
    requires EnterPhis(BlockAt(f, b).insts, |BlockAt(f, b).insts|, pred, env) == Success(entered)
    requires RunInsts(BlockAt(f, b).insts, 0, args, entered, |BlockAt(f, b).insts|) == Success(after)
    ensures RunFrom(f, args, b, pred, env, left) ==
      if left >= 1 + |BlockAt(f, b).insts| then Success(after[BlockAt(f, b).term.value])
      else Failure(StepLimitExceeded)
  {
    if left > 0 {
      InstsTakeSteps(BlockAt(f, b).insts, 0, args, entered, |BlockAt(f, b).insts|, left - 1);
    }
  }

  // A function of one block without phis.
  lemma OneBlockRuns(f: Function, args: seq<I64>, insts: seq<Inst>, result: VReg, env: Env, limit: nat)
    requires f.blocks == [Block(f.entry, insts, Ret(result))] && |args| == f.args && limit > 0
    requires (forall i :: 0 <= i < |insts| ==> !insts[i].PhiI64?) && result in env
    requires RunInsts(insts, 0, args, map[], |insts|) == Success(env)
    ensures Eval(f, args, limit) ==
      if limit >= 1 + |insts| then Success(env[result]) else Failure(StepLimitExceeded)
  {
    FirstBlock(f);
    NoPhis(insts, |insts|, None, map[]);
    ReturnRuns(f, args, f.entry, None, map[], map[], env, limit);
  }

  lemma {:induction false} NoPhis(insts: seq<Inst>, k: nat, pred: Option<BlockId>, env: Env)
    requires k <= |insts| && forall i :: 0 <= i < k ==> !insts[i].PhiI64?
    ensures EnterPhis(insts, k, pred, env) == Success(env)
  {
    if k > 0 {
      NoPhis(insts, k - 1, pred, env);
    }
  }

  // In its place among the instructions a phi does nothing more.
  lemma PhiIsSkipped(insts: seq<Inst>, k: nat, args: seq<I64>, env: Env, budget: nat) returns (same: Env)
    requires k < |insts| && insts[k].PhiI64? && budget > 0
    ensures same == env && RunInsts(insts, k, args, env, budget) == RunInsts(insts, k + 1, args, same, budget - 1)
  {
    same := env;
  }

  // From the start of b the run gives r, in exactly this many steps.
  ghost predicate Yields(
      f: Function, args: seq<I64>, b: BlockId, pred: Option<BlockId>, env: Env, r: I64, steps: nat)
  {
    forall left: nat :: StepsDecide(f, args, b, pred, env, r, steps, left)
  }

  // b takes env to `after` and then leads on to `next`.
  ghost predicate Passes(
      f: Function, args: seq<I64>, b: BlockId, pred: Option<BlockId>, env: Env, next: BlockId, after: Env)
  {
    HasBlock(f, b) &&
    var insts, term := BlockAt(f, b).insts, BlockAt(f, b).term;
    && EnterPhis(insts, |insts|, pred, env).Success?
    && RunInsts(insts, 0, args, EnterPhis(insts, |insts|, pred, env).value, |insts|) == Success(after)
    && match term
       case Ret(_) => false
       case Jmp(target) => next == target
       case Br(cond, thenBB, elseBB) => cond in after && next == if after[cond] != 0 then thenBB else elseBB
  }

  lemma PassesOn(
      f: Function, args: seq<I64>, b: BlockId, pred: Option<BlockId>, env: Env, next: BlockId, after: Env,
      left: nat)
    requires Passes(f, args, b, pred, env, next, after)
    ensures left > |BlockAt(f, b).insts| ==>
      RunFrom(f, args, b, pred, env, left) ==
      RunFrom(f, args, next, Some(b), after, left - 1 - |BlockAt(f, b).insts|)
    ensures left <= |BlockAt(f, b).insts| ==> RunFrom(f, args, b, pred, env, left) == Failure(StepLimitExceeded)
  {
    var insts := BlockAt(f, b).insts;
    var entered := EnterPhis(insts, |insts|, pred, env).value;
    if left > 0 {
      InstsTakeSteps(insts, 0, args, entered, |insts|, left - 1);
    }
  }

  lemma PassesYields(
      f: Function, args: seq<I64>, b: BlockId, pred: Option<BlockId>, env: Env, next: BlockId, after: Env,
      r: I64, steps: nat)
    requires Passes(f, args, b, pred, env, next, after) && Yields(f, args, next, Some(b), after, r, steps)
    ensures Yields(f, args, b, pred, env, r, 1 + |BlockAt(f, b).insts| + steps)
  {
    var total := 1 + |BlockAt(f, b).insts| + steps;
    forall left: nat
      ensures StepsDecide(f, args, b, pred, env, r, total, left)
    {
      PassesOn(f, args, b, pred, env, next, after, left);
      if left > |BlockAt(f, b).insts| {
        assert StepsDecide(f, args, next, Some(b), after, r, steps, left - 1 - |BlockAt(f, b).insts|);
      }
    }
  }

  // Two blocks in a row.
  lemma BothYield(
      f: Function, args: seq<I64>, b: BlockId, pred: Option<BlockId>, env: Env, mid: BlockId, after: Env,
      next: BlockId, more: Env, r: I64, steps: nat)
    requires Passes(f, args, b, pred, env, mid, after) && Passes(f, args, mid, Some(b), after, next, more)
    requires Yields(f, args, next, Some(mid), more, r, steps)
    ensures Yields(f, args, b, pred, env, r, 2 + |BlockAt(f, b).insts| + |BlockAt(f, mid).insts| + steps)
  {
    PassesYields(f, args, mid, Some(b), after, next, more, r, steps);
    PassesYields(f, args, b, pred, env, mid, after, r, 1 + |BlockAt(f, mid).insts| + steps);
  }

  lemma ReturnYields(f: Function, args: seq<I64>, b: BlockId, pred: Option<BlockId>, env: Env, entered: Env, after: Env)
    requires HasBlock(f, b) && BlockAt(f, b).term.Ret? && BlockAt(f, b).term.value in after
    requires EnterPhis(BlockAt(f, b).insts, |BlockAt(f, b).insts|, pred, env) == Success(entered)
    requires RunInsts(BlockAt(f, b).insts, 0, args, entered, |BlockAt(f, b).insts|) == Success(after)
    ensures Yields(f, args, b, pred, env, after[BlockAt(f, b).term.value], 1 + |BlockAt(f, b).insts|)
  {
    var r, total := after[BlockAt(f, b).term.value], 1 + |BlockAt(f, b).insts|;
    forall left: nat
      ensures StepsDecide(f, args, b, pred, env, r, total, left)
    {
      ReturnRuns(f, args, b, pred, env, entered, after, left);
    }
  }

  lemma YieldsEval(f: Function, args: seq<I64>, r: I64, steps: nat, limit: nat)
    requires Yields(f, args, f.entry, None, map[], r, steps) && |args| == f.args && limit > 0
    ensures Eval(f, args, limit) == if limit >= steps then Success(r) else Failure(StepLimitExceeded)
  {
    assert StepsDecide(f, args, f.entry, None, map[], r, steps, limit);
  }

  // One phi more is entered.
  lemma PhiEnters(insts: seq<Inst>, k: nat, pred: BlockId, before: Env, env: Env, source: VReg)
    requires k < |insts| && EnterPhis(insts, k, Some(pred), before) == Success(env) && insts[k].PhiI64?
    requires FindIncoming(insts[k].incoming, pred) == Some(source) && source in before
    ensures EnterPhis(insts, k + 1, Some(pred), before) == Success(env[insts[k].dst := before[source]])
  {
  }

  lemma {:induction false} PhisThenNone(insts: seq<Inst>, k: nat, n: nat, pred: BlockId, before: Env, env: Env)
    requires k <= n <= |insts| && EnterPhis(insts, k, Some(pred), before) == Success(env)
    requires forall i :: k <= i < n ==> !insts[i].PhiI64?
    ensures EnterPhis(insts, n, Some(pred), before) == Success(env)
    decreases n
  {
    if k < n {
      PhisThenNone(insts, k, n - 1, pred, before, env);
    }
  }

  // The one of two inputs that the predecessor names.
  lemma OneOfTwo(p: BlockId, x: VReg, q: BlockId, y: VReg)
    requires p != q
    ensures FindIncoming([(p, x), (q, y)], p) == Some(x) && FindIncoming([(p, x), (q, y)], q) == Some(y)
  {
    assert [(p, x), (q, y)][1..] == [(q, y)];
  }
}
