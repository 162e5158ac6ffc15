// The converse: emitted code halts only when the interpreter returns, and with the same result.
module Termination {
  import opened Wrappers
  import opened Ir
  import opened Interp
  import opened Cfg
  import opened Validation
  import opened Machine
  import opened Lowering
  import opened Frames
  import opened Separation
  import opened Simulation
  import opened Transfer
  import opened Preservation
  import opened Safety
  import opened Alloc

  lemma {:induction false} BudgetGrows(insts: seq<Inst>, k: nat, args: seq<I64>, env: Env, budget: nat, more: nat)
    requires k <= |insts| && RunInsts(insts, k, args, env, budget).Success?
    ensures RunInsts(insts, k, args, env, budget + more) == RunInsts(insts, k, args, env, budget)
    decreases |insts| - k
  {
    if k < |insts| {
      BudgetGrows(insts, k + 1, args, ExecInst(insts[k], args, env).value, budget - 1, more);
    }
  }

  lemma {:induction false} EnoughBudget(insts: seq<Inst>, k: nat, args: seq<I64>, env: Env, budget: nat)
    requires k <= |insts| && |insts| - k <= budget && RunInsts(insts, k, args, env, budget).Failure?
    ensures RunInsts(insts, k, args, env, budget).error != StepLimitExceeded
    decreases |insts| - k
  {
    if ExecInst(insts[k], args, env).Success? {
      EnoughBudget(insts, k + 1, args, ExecInst(insts[k], args, env).value, budget - 1);
    }
  }

  // A walk from the entry on which everything defined is bound.
  ghost predicate Walked(f: Function, walk: seq<BlockId>, before: Env) {
    IsPath(f, walk) && walk[0] == f.entry && DefinedOn(f, walk[..|walk| - 1], before)
  }

  ghost function Last(walk: seq<BlockId>): BlockId
    requires walk != []
  {
    walk[|walk| - 1]
  }

  // A validated function runs each block to its end.
  lemma BlockCompletes(f: Function, args: seq<I64>, walk: seq<BlockId>, before: Env) returns (after: Env)
    requires WellFormed(f) && |args| == f.args && Walked(f, walk, before)
    ensures EntersFrom(f, Last(walk), PredOf(walk), before)
    ensures BlockYields(
      f, args, Last(walk), EntryEnv(f, Last(walk), PredOf(walk), before), |BlockAt(f, Last(walk)).insts|, after)
    ensures var term := BlockAt(f, Last(walk)).term;
      if term.Ret? then term.value in after
      else NextBlock(term, after).Some? && Walked(f, walk + [NextBlock(term, after).value], after)
  {
    PathHasBlocks(f, walk, |walk| - 1);
    var b := Last(walk);
    var bi := IndexOf(f, b);
    var block := BlockAt(f, b);
    BlockIsSafe(f, bi, args, walk, before, |block.insts|);
    var entered := EntryEnv(f, b, PredOf(walk), before);
    if RunInsts(block.insts, 0, args, entered, |block.insts|).Failure? {
      EnoughBudget(block.insts, 0, args, entered, |block.insts|);
    }
    after := RunInsts(block.insts, 0, args, entered, |block.insts|).value;
    TermUsesAreDefined(f, bi, walk, after);
    if !block.term.Ret? {
      var next := NextBlock(block.term, after).value;
      NextIsSuccessor(block.term, after);
      WalkGrows(f, bi, walk, after, next);
      assert (walk + [next])[..|walk|] == walk;
    }
  }

  // One block more in front of a run.
  lemma RunPrepends(
      f: Function, args: seq<I64>, b: BlockId, pred: Option<BlockId>, before: Env, after: Env, budget: nat)
    requires EntersFrom(f, b, pred, before)
    requires BlockYields(f, args, b, EntryEnv(f, b, pred, before), |BlockAt(f, b).insts|, after)
    requires NextBlock(BlockAt(f, b).term, after).Some?
    ensures RunFrom(f, args, b, pred, before, 1 + |BlockAt(f, b).insts| + budget) ==
      RunFrom(f, args, NextBlock(BlockAt(f, b).term, after).value, Some(b), after, budget)
  {
    BudgetGrows(BlockAt(f, b).insts, 0, args, EntryEnv(f, b, pred, before), |BlockAt(f, b).insts|, budget);
  }

  lemma ReturnAtOnce(f: Function, args: seq<I64>, b: BlockId, pred: Option<BlockId>, before: Env, after: Env)
    requires EntersFrom(f, b, pred, before)
    requires BlockYields(f, args, b, EntryEnv(f, b, pred, before), |BlockAt(f, b).insts|, after)
    requires BlockAt(f, b).term.Ret? && BlockAt(f, b).term.value in after
    ensures RunFrom(f, args, b, pred, before, 1 + |BlockAt(f, b).insts|).Success?
  {
  }

  ghost predicate StartsRun(f: Function, args: seq<I64>, walk: seq<BlockId>, before: Env, t: seq<Stop>) {
    walk != [] && Chained(f, args, t) && t[0].block == Last(walk) && EntersFrom(f, Last(walk), PredOf(walk), before) &&
    BlockYields(
      f, args, Last(walk), EntryEnv(f, Last(walk), PredOf(walk), before), |BlockAt(f, Last(walk)).insts|,
      t[0].after)
  }

  // With some budget the interpreter returns, or it passes through n more blocks.
  lemma {:induction false} ReturnsOrRuns(f: Function, args: seq<I64>, walk: seq<BlockId>, before: Env, n: nat)
    returns (budget: nat, t: seq<Stop>)
    requires WellFormed(f) && |args| == f.args && Walked(f, walk, before)
    ensures RunFrom(f, args, Last(walk), PredOf(walk), before, budget).Success? ||
            (StartsRun(f, args, walk, before, t) && |t| == n + 1)
    decreases n
  {
    var b := Last(walk);
    var after := BlockCompletes(f, args, walk, before);
    var term := BlockAt(f, b).term;
    var here := Stop(b, after);
    budget, t := 0, [here];
    if term.Ret? {
      ReturnAtOnce(f, args, b, PredOf(walk), before, after);
      budget := 1 + |BlockAt(f, b).insts|;
    } else if n > 0 {
      var s := NextBlock(term, after).value;
      var further, rest := ReturnsOrRuns(f, args, walk + [s], after, n - 1);
      assert PredOf(walk + [s]) == Some(b) && Last(walk + [s]) == s;
      RunPrepends(f, args, b, PredOf(walk), before, after, further);
      budget := 1 + |BlockAt(f, b).insts| + further;
      if RunFrom(f, args, s, Some(b), after, further).Failure? {
        assert Leads(f, args, here, rest[0]);
        TracePrepend(f, args, here, rest);
        t := [here] + rest;
      }
    }
  }

  // Each further block costs the machine at least one step.
  lemma {:induction false} ChainLasts(
      u: Compilation, im: Image, d0: Data, args: seq<I64>, t: seq<Stop>, k: nat, d: Data)
    requires Simulates(u, im, d0, args) && Chained(u.f, args, t) && k < |t|
    requires AtEnd(u, im, d0, t[k].block, t[k].after, d)
    ensures Lasts(im.code, Running(End(im, t[k].block), d), |t| - 1 - k)
    decreases |t| - k
  {
    if k == |t| - 1 {
      assert Run(im.code, Running(End(im, t[k].block), d), 0).Running?;
    } else {
      assert LeadsAt(u.f, args, t, k);
      var next :| Advanced(u, im, d0, t[k], t[k + 1], d, next);
      ChainLasts(u, im, d0, args, t, k + 1, next);
      LastsAfterLater(im.code, Running(End(im, t[k].block), d), Running(End(im, t[k + 1].block), next), |t| - 2 - k);
    }
  }

  lemma LongRunLasts(u: Compilation, im: Image, d0: Data, args: seq<I64>, t: seq<Stop>, budget: nat, d: Data)
    requires Setting(u, im, d0, args) && Chained(u.f, args, t) && AtTop(u, im, d0, t[0].block, map[], d)
    requires BlockYields(u.f, args, t[0].block, map[], budget, t[0].after)
    ensures Lasts(im.code, Running(Top(im, t[0].block), d), |t| - 1)
  {
    var b := t[0].block;
    var first := TopToEnd(u, im, d0, args, b, map[], budget, t[0].after, d);
    SettingSimulates(u, im, d0, args);
    ChainLasts(u, im, d0, args, t, 0, first);
    LastsAfter(im.code, Running(Top(im, b), d), Running(End(im, b), first), |t| - 1);
  }

  // Some step limit is enough for the interpreter, or it passes through n blocks after the entry.
  lemma EvalsOrRuns(f: Function, args: seq<I64>, n: nat) returns (limit: nat, t: seq<Stop>)
    requires WellFormed(f) && |args| == f.args
    ensures Eval(f, args, limit).Success? ||
      (Chained(f, args, t) && |t| == n + 1 && t[0].block == f.entry &&
       BlockYields(f, args, f.entry, map[], |BlockAt(f, f.entry).insts|, t[0].after))
  {
    assert Walked(f, [f.entry], map[]);
    limit, t := ReturnsOrRuns(f, args, [f.entry], map[], n);
    if RunFrom(f, args, f.entry, None, map[], limit).Failure? {
      NoPredecessorNoPhis(BlockAt(f, f.entry).insts, |BlockAt(f, f.entry).insts|, map[]);
    }
  }

  lemma EvalsOrLasts(u: Compilation, im: Image, d0: Data, args: seq<I64>, d: Data, n: nat) returns (limit: nat)
    requires Setting(u, im, d0, args) && AtTop(u, im, d0, u.f.entry, map[], d)
    ensures Eval(u.f, args, limit).Success? || Lasts(im.code, Running(Top(im, u.f.entry), d), n)
  {
    var t;
    limit, t := EvalsOrRuns(u.f, args, n);
    if Eval(u.f, args, limit).Failure? {
      LongRunLasts(u, im, d0, args, t, |BlockAt(u.f, u.f.entry).insts|, d);
    }
  }

  // If the machine stops within n steps, some step limit is enough for the interpreter.
  lemma StoppedIsEvaluated(u: Compilation, d0: Data, args: seq<I64>, n: nat) returns (limit: nat)
    requires u.f.args <= 6 && Setting(u, ImageOf(u), d0, args) && !Run(FunctionCode(u), Running(0, d0), n).Running?
    ensures Eval(u.f, args, limit).Success?
  {
    var im := ImageOf(u);
    var d := EntryRuns(u, d0);
    limit := EvalsOrLasts(u, im, d0, args, d, n);
    if Eval(u.f, args, limit).Failure? {
      LastsAfter(im.code, Running(0, d0), Running(Top(im, u.f.entry), d), n);
      StoppedDoesNotLast(im.code, Running(0, d0), n);
    }
  }

  lemma StoppedDoesNotLast(code: seq<Instr>, m: Machine, n: nat)
    requires !Run(code, m, n).Running?
    ensures !Lasts(code, m, n)
  {
    forall later: nat | later >= n
      ensures !Run(code, m, later).Running?
    {
      StoppedStays(code, m, n, later);
    }
  }

  lemma HaltsOnce(code: seq<Instr>, m: Machine, d: Data, e: Data)
    requires Reaches(code, m, Halted(d)) && Reaches(code, m, Halted(e))
    ensures d == e
  {
    var i: nat :| Run(code, m, i) == Halted(d);
    var j: nat :| Run(code, m, j) == Halted(e);
    if i <= j {
      StoppedStays(code, m, i, j);
    } else {
      StoppedStays(code, m, j, i);
    }
  }

  lemma OnlyOneResult(u: Compilation, code: seq<Instr>, d0: Data, e: Data, x: int)
    requires Reaches(code, Running(0, d0), Halted(e)) && Get(e, Gp(Rax)) != x
    ensures !Returns(u, code, d0, x)
  {
    if e' :| Reaches(code, Running(0, d0), Halted(e')) && Get(e', Gp(Rax)) == x {
      HaltsOnce(code, Running(0, d0), e, e');
    }
  }

  ghost predicate Evaluates(f: Function, args: seq<I64>, x: int) {
    exists limit: nat :: Eval(f, args, limit).Success? && Eval(f, args, limit).value == x
  }

  lemma ReturnsIsEvaluates(u: Compilation, d0: Data, args: seq<I64>, x: int)
    requires u.f.args <= 6 && Setting(u, ImageOf(u), d0, args) && Returns(u, FunctionCode(u), d0, x)
    ensures Evaluates(u.f, args, x)
  {
    var code := FunctionCode(u);
    var e :| Reaches(code, Running(0, d0), Halted(e)) && Get(e, Gp(Rax)) == x && Restored(u, d0, e);
    var n: nat :| Run(code, Running(0, d0), n) == Halted(e);
    var limit := StoppedIsEvaluated(u, d0, args, n);
    var r := Eval(u.f, args, limit).value;
    RunReturns(u, d0, args, limit, r);
    var e' :| Reaches(code, Running(0, d0), Halted(e')) && Get(e', Gp(Rax)) == r && Restored(u, d0, e');
    HaltsOnce(code, Running(0, d0), e, e');
  }

  // The emitted code returns exactly the value the interpreter computes with some step limit.
  lemma EmittedCodeIsEquivalent(f: Function, a: Assignment, regs: PhysRegSet, args: seq<I64>, d0: Data, x: int)
    requires Accepted(f, a, regs) && FrameFits(f.args + a.stackSlots) && EdgesDeliver(f, a, regs) && Called(f, args, d0)
    ensures var u := CompilationOf(f, a, regs);
      Returns(u, FunctionCode(u), d0, x) <==> Evaluates(f, args, x)
  {
    var u := CompilationOf(f, a, regs);
    SettingHolds(f, a, regs, args, d0);
    if Returns(u, FunctionCode(u), d0, x) {
      ReturnsIsEvaluates(u, d0, args, x);
    }
    if Evaluates(f, args, x) {
      var limit: nat :| Eval(f, args, limit).Success? && Eval(f, args, limit).value == x;
      RunReturns(u, d0, args, limit, x);
    }
  }

  // And it runs forever exactly when every step limit is exceeded.
  lemma DivergeTogether(f: Function, a: Assignment, regs: PhysRegSet, args: seq<I64>, d0: Data)
    requires Accepted(f, a, regs) && FrameFits(f.args + a.stackSlots) && EdgesDeliver(f, a, regs) && Called(f, args, d0)
    ensures var code := FunctionCode(CompilationOf(f, a, regs));
      (forall n: nat :: Run(code, Running(0, d0), n).Running?) <==>
      (forall limit: nat :: limit > 0 ==> Eval(f, args, limit) == Failure(StepLimitExceeded))
  {
    var u := CompilationOf(f, a, regs);
    var code := FunctionCode(u);
    SettingHolds(f, a, regs, args, d0);
    if n: nat :| !Run(code, Running(0, d0), n).Running? {
      var limit := StoppedIsEvaluated(u, d0, args, n);
      assert limit > 0 && Eval(f, args, limit) != Failure(StepLimitExceeded);
    } else if limit: nat :| limit > 0 && Eval(f, args, limit) != Failure(StepLimitExceeded) {
      SuccessStops(u, d0, args, limit);
    }
  }

  lemma SuccessStops(u: Compilation, d0: Data, args: seq<I64>, limit: nat)
    requires u.f.args <= 6 && Setting(u, ImageOf(u), d0, args)
    requires limit > 0 && Eval(u.f, args, limit) != Failure(StepLimitExceeded)
    ensures exists n: nat :: !Run(FunctionCode(u), Running(0, d0), n).Running?
  {
    ValidatedCannotGoWrong(u.f, args, limit);
    RunReturns(u, d0, args, limit, Eval(u.f, args, limit).value);
    var e :| Reaches(FunctionCode(u), Running(0, d0), Halted(e)) && Restored(u, d0, e);
    var n: nat :| Run(FunctionCode(u), Running(0, d0), n) == Halted(e);
  }

  ghost predicate CalledRight(f: Function, a: Assignment, regs: PhysRegSet, args: seq<I64>, d0: Data) {
    Accepted(f, a, regs) && FrameFits(f.args + a.stackSlots) && Called(f, args, d0)
  }

  // If code called right misses the interpreter's result, some edge does not deliver.
  lemma WrongCodeDoesNotDeliver(f: Function, a: Assignment, regs: PhysRegSet, args: seq<I64>, d0: Data, x: int)
    requires CalledRight(f, a, regs, args, d0) && Evaluates(f, args, x)
    requires !Returns(CompilationOf(f, a, regs), FunctionCode(CompilationOf(f, a, regs)), d0, x)
    ensures !EdgesDeliver(f, a, regs)
  {
    if EdgesDeliver(f, a, regs) {
      EmittedCodeIsEquivalent(f, a, regs, args, d0, x);
    }
  }
}
