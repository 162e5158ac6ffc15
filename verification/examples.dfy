// The repository's example programs, for every argument: what the interpreter returns and in how many
// steps.
module Examples {
  import opened Wrappers
  import opened Ir
  import opened Interp
  import opened Arithmetic
  import opened ExampleRuns

  // ---------- basicblock ----------

  function Mixed(): seq<Inst> {
    [ArgI64(V(0), 0), ArgI64(V(1), 1), ArgI64(V(2), 2), AddI64(V(3), V(0), V(1)), MulI64(V(4), V(3), V(2)),
     ConstI64(V(5), 7), AddI64(V(6), V(4), V(5)), MulI64(V(7), V(0), V(2)), AddI64(V(8), V(6), V(7)),
     MulI64(V(9), V(1), V(2)), AddI64(V(10), V(8), V(9))]
  }

  function BasicBlock(): Function {
    Function(3, B(0), [Block(B(0), Mixed(), Ret(V(10)))])
  }

  // The instructions, one by one.
  ghost predicate AreMixed(insts: seq<Inst>) {
    && |insts| == 11
    && insts[0] == ArgI64(V(0), 0) && insts[1] == ArgI64(V(1), 1) && insts[2] == ArgI64(V(2), 2)
    && insts[3] == AddI64(V(3), V(0), V(1)) && insts[4] == MulI64(V(4), V(3), V(2))
    && insts[5] == ConstI64(V(5), 7) && insts[6] == AddI64(V(6), V(4), V(5))
    && insts[7] == MulI64(V(7), V(0), V(2)) && insts[8] == AddI64(V(8), V(6), V(7))
    && insts[9] == MulI64(V(9), V(1), V(2)) && insts[10] == AddI64(V(10), V(8), V(9))
  }

  ghost predicate Loaded(env: Env, x: int, y: int, z: int) {
    Near(env, V(0), x) && Near(env, V(1), y) && Near(env, V(2), z)
  }

  lemma ArgumentLoads(insts: seq<Inst>, k: nat, args: seq<I64>, env: Env, budget: nat) returns (next: Env)
    requires k < |insts| && budget > 0 && insts[k].ArgI64? && insts[k].idx < |args|
    ensures RunInsts(insts, k, args, env, budget) == RunInsts(insts, k + 1, args, next, budget - 1)
    ensures Near(next, insts[k].dst, args[insts[k].idx]) && Keeps(env, next, insts[k].dst)
  {
    next := Advance(insts, k, args, env, budget);
  }

  lemma ArgumentsLoaded(insts: seq<Inst>, args: seq<I64>) returns (env: Env)
    requires AreMixed(insts) && |args| == 3
    ensures RunInsts(insts, 0, args, map[], 11) == RunInsts(insts, 3, args, env, 8)
    ensures Loaded(env, args[0], args[1], args[2])
  {
    var e1 := ArgumentLoads(insts, 0, args, map[], 11);
    var e2 := ArgumentLoads(insts, 1, args, e1, 10);
    env := ArgumentLoads(insts, 2, args, e2, 9);
  }

  lemma FirstHalf(insts: seq<Inst>, args: seq<I64>, x: int, y: int, z: int, start: Env, p: int) returns (env: Env)
    requires AreMixed(insts) && Loaded(start, x, y, z) && p == (x + y) * z
    ensures RunInsts(insts, 3, args, start, 8) == RunInsts(insts, 7, args, env, 4)
    ensures Loaded(env, x, y, z) && Near(env, V(6), p + 7)
  {
    var e1 := AddStep(insts, 3, args, start, 8, x, y);
    var e2 := MulStep(insts, 4, args, e1, 7, x + y, z, p);
    var e3 := Advance(insts, 5, args, e2, 6);
    env := AddStep(insts, 6, args, e3, 5, p, 7);
  }

  lemma SecondHalf(
      insts: seq<Inst>, args: seq<I64>, x: int, y: int, z: int, start: Env, s: int, q: int, r: int)
    returns (env: Env)
    requires AreMixed(insts) && Loaded(start, x, y, z) && Near(start, V(6), s) && q == x * z && r == y * z
    ensures RunInsts(insts, 7, args, start, 4) == Success(env) && Near(env, V(10), s + q + r)
  {
    var e1 := MulStep(insts, 7, args, start, 4, x, z, q);
    var e2 := AddStep(insts, 8, args, e1, 3, s, q);
    var e3 := MulStep(insts, 9, args, e2, 2, y, z, r);
    env := AddStep(insts, 10, args, e3, 1, s + q, r);
  }

  lemma MixedRuns(insts: seq<Inst>, args: seq<I64>, p: int, q: int, r: int) returns (env: Env)
    requires AreMixed(insts) && |args| == 3
    requires p == (args[0] as int + args[1]) * args[2] && q == args[0] as int * args[2] && r == args[1] as int * args[2]
    ensures RunInsts(insts, 0, args, map[], 11) == Success(env) && Near(env, V(10), p + 7 + q + r)
  {
    var e1 := ArgumentsLoaded(insts, args);
    var e2 := FirstHalf(insts, args, args[0], args[1], args[2], e1, p);
    env := SecondHalf(insts, args, args[0], args[1], args[2], e2, p + 7, q, r);
  }

  // (x + y) z + 7 + x z + y z, modulo 2^64, in twelve steps.
  lemma BasicBlockComputes(x: I64, y: I64, z: I64, limit: nat) returns (r: I64)
    requires limit > 0
    ensures Eval(BasicBlock(), [x, y, z], limit) ==
      if limit >= 12 then Success(r) else Failure(StepLimitExceeded)
    ensures var value := (x as int + y) * z + 7 + x as int * z + y as int * z;
      Congruent(r, value) && (Fits(value) ==> r == value)
  {
    var env := MixedRuns(Mixed(), [x, y, z], (x as int + y) * z, x as int * z, y as int * z);
    r := env[V(10)];
    OneBlockRuns(BasicBlock(), [x, y, z], Mixed(), V(10), env, limit);
    var value := (x as int + y) * z + 7 + x as int * z + y as int * z;
    if Fits(value) {
      CongruentFits(r, value);
    }
  }

  // The repository's own test.
  lemma BasicBlockTest(limit: nat)
    requires limit >= 12
    ensures Eval(BasicBlock(), [2, 3, 4], limit) == Success(47)
  {
    var r := BasicBlockComputes(2, 3, 4, limit);
  }

  // ---------- trace ----------

  function Trace(): Function {
    Function(2, B(0), [
      Block(B(0), [ArgI64(V(0), 0), ArgI64(V(1), 1), CmpGtI64(V(2), V(0), V(1))], Br(V(2), B(1), B(2))),
      Block(B(1), [MovI64(V(3), V(0))], Terminator.Jmp(B(3))),
      Block(B(2), [MovI64(V(4), V(1))], Terminator.Jmp(B(3))),
      Block(B(3), [PhiI64(V(5), [(B(1), V(3)), (B(2), V(4))])], Ret(V(5)))])
  }

  lemma TraceBlocks()
    ensures var f := Trace();
      && HasBlock(f, B(0)) && BlockAt(f, B(0)) == f.blocks[0] && HasBlock(f, B(1)) && BlockAt(f, B(1)) == f.blocks[1]
      && HasBlock(f, B(2)) && BlockAt(f, B(2)) == f.blocks[2] && HasBlock(f, B(3)) && BlockAt(f, B(3)) == f.blocks[3]
  {
    var f := Trace();
    assert f.blocks[0].id == B(0) && f.blocks[1].id == B(1) && f.blocks[2].id == B(2) && f.blocks[3].id == B(3);
  }

  lemma ComparisonRuns(insts: seq<Inst>, args: seq<I64>) returns (after: Env)
    requires |insts| == 3 && insts[0] == ArgI64(V(0), 0) && insts[1] == ArgI64(V(1), 1) && |args| == 2
    requires insts[2] == CmpGtI64(V(2), V(0), V(1))
    ensures RunInsts(insts, 0, args, map[], 3) == Success(after)
    ensures V(0) in after && after[V(0)] == args[0] && V(1) in after && after[V(1)] == args[1]
    ensures V(2) in after && (after[V(2)] != 0 <==> args[0] > args[1])
  {
    var e1 := Advance(insts, 0, args, map[], 3);
    var e2 := Advance(insts, 1, args, e1, 2);
    after := Advance(insts, 2, args, e2, 1);
    assert RunInsts(insts, 3, args, after, 0) == Success(after);
  }

  lemma TraceCompares(x: I64, y: I64) returns (after: Env)
    ensures Passes(Trace(), [x, y], B(0), None, map[], if x > y then B(1) else B(2), after)
    ensures V(0) in after && after[V(0)] == x && V(1) in after && after[V(1)] == y
  {
    TraceBlocks();
    var insts := Trace().blocks[0].insts;
    NoPhis(insts, 3, None, map[]);
    after := ComparisonRuns(insts, [x, y]);
  }

  lemma TraceMoves(args: seq<I64>, env: Env, x: I64, y: I64, greater: bool) returns (after: Env)
    requires V(0) in env && env[V(0)] == x && V(1) in env && env[V(1)] == y
    ensures Passes(Trace(), args, if greater then B(1) else B(2), Some(B(0)), env, B(3), after)
    ensures greater ==> V(3) in after && after[V(3)] == x
    ensures !greater ==> V(4) in after && after[V(4)] == y
  {
    TraceBlocks();
    var insts := Trace().blocks[if greater then 1 else 2].insts;
    NoPhis(insts, 1, Some(B(0)), env);
    after := Advance(insts, 0, args, env, 1);
    assert RunInsts(insts, 1, args, after, 0) == Success(after);
  }

  lemma TraceReturns(args: seq<I64>, env: Env, greater: bool, r: I64)
    requires greater ==> V(3) in env && env[V(3)] == r
    requires !greater ==> V(4) in env && env[V(4)] == r
    ensures Yields(Trace(), args, B(3), Some(if greater then B(1) else B(2)), env, r, 2)
  {
    TraceBlocks();
    var insts, pred := Trace().blocks[3].insts, if greater then B(1) else B(2);
    OneOfTwo(B(1), V(3), B(2), V(4));
    assert EnterPhis(insts, 0, Some(pred), env) == Success(env);
    PhiEnters(insts, 0, pred, env, env, if greater then V(3) else V(4));
    var entered := env[V(5) := r];
    var after := PhiIsSkipped(insts, 0, args, entered, 1);
    assert RunInsts(insts, 1, args, after, 0) == Success(after);
    ReturnYields(Trace(), args, B(3), Some(pred), env, entered, after);
  }

  // The greater of the two arguments, in eight steps.
  lemma TraceComputes(x: I64, y: I64, limit: nat)
    requires limit > 0
    ensures Eval(Trace(), [x, y], limit) ==
      if limit >= 8 then Success(if x > y then x else y) else Failure(StepLimitExceeded)
  {
    TraceBlocks();
    var greater, r := x > y, if x > y then x else y;
    var side := if greater then B(1) else B(2);
    var e1 := TraceCompares(x, y);
    var e2 := TraceMoves([x, y], e1, x, y, greater);
    TraceReturns([x, y], e2, greater, r);
    PassesYields(Trace(), [x, y], side, Some(B(0)), e1, B(3), e2, r, 2);
    PassesYields(Trace(), [x, y], B(0), None, map[], side, e1, r, 4);
    YieldsEval(Trace(), [x, y], r, 8, limit);
  }

  // ---------- phi_swap_loop ----------

  function SwapHead(): Block {
    Block(B(0), [
      ArgI64(V(0), 0), ArgI64(V(1), 1), ArgI64(V(2), 2), ConstI64(V(3), 0), ConstI64(V(4), -1)], Terminator.Jmp(B(1)))
  }

  function SwapTest(): Block {
    Block(B(1), [
      PhiI64(V(5), [(B(0), V(0)), (B(2), V(6))]), PhiI64(V(6), [(B(0), V(1)), (B(2), V(5))]),
      PhiI64(V(7), [(B(0), V(2)), (B(2), V(9))]), CmpGtI64(V(8), V(7), V(3))], Br(V(8), B(2), B(3)))
  }

  function SwapBody(): Block {
    Block(B(2), [AddI64(V(9), V(7), V(4))], Terminator.Jmp(B(1)))
  }

  function PhiSwapLoop(): Function {
    Function(3, B(0), [SwapHead(), SwapTest(), SwapBody(), Block(B(3), [], Ret(V(5)))])
  }

  lemma SwapBlocks()
    ensures var f := PhiSwapLoop();
      && HasBlock(f, B(0)) && BlockAt(f, B(0)) == SwapHead() && HasBlock(f, B(1)) && BlockAt(f, B(1)) == SwapTest()
      && HasBlock(f, B(2)) && BlockAt(f, B(2)) == SwapBody()
      && HasBlock(f, B(3)) && BlockAt(f, B(3)) == Block(B(3), [], Ret(V(5)))
  {
    var f := PhiSwapLoop();
    assert f.blocks[0].id == B(0) && f.blocks[1].id == B(1) && f.blocks[2].id == B(2) && f.blocks[3].id == B(3);
  }

  ghost predicate Bound(env: Env, v: VReg, x: I64) {
    v in env && env[v] == x
  }

  // Before the test: the two values, in the order they are to be entered, and the count.
  ghost predicate SwapReady(env: Env, pred: BlockId, x: I64, y: I64, count: I64) {
    && Bound(env, V(3), 0) && Bound(env, V(4), -1) && (pred == B(0) || pred == B(2))
    && (pred == B(0) ==> Bound(env, V(0), x) && Bound(env, V(1), y) && Bound(env, V(2), count))
    && (pred == B(2) ==> Bound(env, V(6), x) && Bound(env, V(5), y) && Bound(env, V(9), count))
  }

  ghost predicate SwapTested(env: Env, x: I64, y: I64, count: I64) {
    && Bound(env, V(3), 0) && Bound(env, V(4), -1)
    && Bound(env, V(5), x) && Bound(env, V(6), y) && Bound(env, V(7), count)
  }

  // All three phis read the values from before any of them is written.
  lemma SwapEnters(env: Env, pred: BlockId, x: I64, y: I64, count: I64) returns (entered: Env)
    requires SwapReady(env, pred, x, y, count)
    ensures EnterPhis(SwapTest().insts, 4, Some(pred), env) == Success(entered)
    ensures SwapTested(entered, x, y, count)
  {
    var insts := SwapTest().insts;
    var first := pred == B(0);
    OneOfTwo(B(0), V(0), B(2), V(6));
    OneOfTwo(B(0), V(1), B(2), V(5));
    OneOfTwo(B(0), V(2), B(2), V(9));
    assert EnterPhis(insts, 0, Some(pred), env) == Success(env);
    var e1 := env[V(5) := x];
    var e2 := e1[V(6) := y];
    entered := e2[V(7) := count];
    PhiEnters(insts, 0, pred, env, env, if first then V(0) else V(6));
    PhiEnters(insts, 1, pred, env, e1, if first then V(1) else V(5));
    PhiEnters(insts, 2, pred, env, e2, if first then V(2) else V(9));
    PhisThenNone(insts, 3, 4, pred, env, entered);
  }

  lemma SwapTests(args: seq<I64>, env: Env, pred: BlockId, x: I64, y: I64, count: I64) returns (after: Env)
    requires SwapReady(env, pred, x, y, count)
    ensures Passes(PhiSwapLoop(), args, B(1), Some(pred), env, if count > 0 then B(2) else B(3), after)
    ensures SwapTested(after, x, y, count)
  {
    SwapBlocks();
    var insts := SwapTest().insts;
    var entered := SwapEnters(env, pred, x, y, count);
    var e1 := PhiIsSkipped(insts, 0, args, entered, 4);
    var e2 := PhiIsSkipped(insts, 1, args, e1, 3);
    var e3 := PhiIsSkipped(insts, 2, args, e2, 2);
    after := Advance(insts, 3, args, e3, 1);
    assert RunInsts(insts, 4, args, after, 0) == Success(after);
  }

  lemma SwapCounts(args: seq<I64>, env: Env, x: I64, y: I64, count: I64) returns (after: Env)
    requires SwapTested(env, x, y, count) && count > 0
    ensures Passes(PhiSwapLoop(), args, B(2), Some(B(1)), env, B(1), after)
    ensures SwapReady(after, B(2), y, x, count as int - 1)
  {
    SwapBlocks();
    var insts := SwapBody().insts;
    NoPhis(insts, 1, Some(B(1)), env);
    after := Advance(insts, 0, args, env, 1);
    assert RunInsts(insts, 1, args, after, 0) == Success(after);
  }

  function SwapSteps(count: int): nat {
    6 + 7 * if count <= 0 then 0 else count
  }

  function SwapResult(x: I64, y: I64, count: I64): I64 {
    if count <= 0 || count % 2 == 0 then x else y
  }

  lemma SwapLeaves(args: seq<I64>, env: Env, pred: BlockId, x: I64, y: I64, count: I64)
    requires SwapReady(env, pred, x, y, count) && count <= 0
    ensures Yields(PhiSwapLoop(), args, B(1), Some(pred), env, x, 6)
  {
    SwapBlocks();
    var after := SwapTests(args, env, pred, x, y, count);
    assert RunInsts([], 0, args, after, 0) == Success(after);
    ReturnYields(PhiSwapLoop(), args, B(3), Some(B(1)), after, after, after);
    PassesYields(PhiSwapLoop(), args, B(1), Some(pred), env, B(3), after, x, 1);
  }

  lemma SwapRoundYields(args: seq<I64>, env: Env, pred: BlockId, count: I64, after: Env, more: Env, next: I64, r: I64)
    requires Passes(PhiSwapLoop(), args, B(1), Some(pred), env, B(2), after) && count > 0 && next == count as int - 1
    requires Passes(PhiSwapLoop(), args, B(2), Some(B(1)), after, B(1), more)
    requires Yields(PhiSwapLoop(), args, B(1), Some(B(2)), more, r, SwapSteps(next))
    ensures Yields(PhiSwapLoop(), args, B(1), Some(pred), env, r, SwapSteps(count))
  {
    SwapBlocks();
    BothYield(PhiSwapLoop(), args, B(1), Some(pred), env, B(2), after, B(1), more, r, SwapSteps(next));
  }

  lemma {:induction false} SwapLoops(args: seq<I64>, env: Env, pred: BlockId, x: I64, y: I64, count: I64)
    requires SwapReady(env, pred, x, y, count)
    ensures Yields(PhiSwapLoop(), args, B(1), Some(pred), env, SwapResult(x, y, count), SwapSteps(count))
    decreases if count <= 0 then 0 else count
  {
    if count <= 0 {
      SwapLeaves(args, env, pred, x, y, count);
    } else {
      var next: I64 := count as int - 1;
      var after := SwapTests(args, env, pred, x, y, count);
      var more := SwapCounts(args, after, x, y, count);
      SwapLoops(args, more, B(2), y, x, next);
      assert SwapResult(y, x, next) == SwapResult(x, y, count);
      SwapRoundYields(args, env, pred, count, after, more, next, SwapResult(x, y, count));
    }
  }

  lemma SwapHeadRuns(insts: seq<Inst>, args: seq<I64>) returns (after: Env)
    requires |insts| == 5 && |args| == 3
    requires insts[0] == ArgI64(V(0), 0) && insts[1] == ArgI64(V(1), 1) && insts[2] == ArgI64(V(2), 2)
    requires insts[3] == ConstI64(V(3), 0) && insts[4] == ConstI64(V(4), -1)
    ensures RunInsts(insts, 0, args, map[], 5) == Success(after)
    ensures SwapReady(after, B(0), args[0], args[1], args[2])
  {
    var e1 := Advance(insts, 0, args, map[], 5);
    var e2 := Advance(insts, 1, args, e1, 4);
    var e3 := Advance(insts, 2, args, e2, 3);
    var e4 := Advance(insts, 3, args, e3, 2);
    after := Advance(insts, 4, args, e4, 1);
    assert RunInsts(insts, 5, args, after, 0) == Success(after);
  }

  lemma SwapStarts(x: I64, y: I64, count: I64) returns (after: Env)
    ensures Passes(PhiSwapLoop(), [x, y, count], B(0), None, map[], B(1), after)
    ensures SwapReady(after, B(0), x, y, count)
  {
    SwapBlocks();
    var insts, args := SwapHead().insts, [x, y, count];
    NoPhis(insts, 5, None, map[]);
    after := SwapHeadRuns(insts, args);
  }

  // The first argument after an even number of swaps, the second after an odd one.
  lemma PhiSwapLoopComputes(x: I64, y: I64, count: I64, limit: nat)
    requires limit > 0
    ensures Eval(PhiSwapLoop(), [x, y, count], limit) ==
      if limit < 12 + 7 * (if count < 0 then 0 else count) then Failure(StepLimitExceeded)
      else Success(if count <= 0 || count % 2 == 0 then x else y)
  {
    SwapRuns(x, y, count);
    YieldsEval(PhiSwapLoop(), [x, y, count], SwapResult(x, y, count), 6 + SwapSteps(count), limit);
  }

  lemma SwapRuns(x: I64, y: I64, count: I64)
    ensures Yields(
      PhiSwapLoop(), [x, y, count], B(0), None, map[], SwapResult(x, y, count), 6 + SwapSteps(count))
  {
    SwapBlocks();
    var env := SwapStarts(x, y, count);
    SwapLoops([x, y, count], env, B(0), x, y, count);
    PassesYields(
      PhiSwapLoop(), [x, y, count], B(0), None, map[], B(1), env, SwapResult(x, y, count), SwapSteps(count));
  }

  // ---------- loop_sum ----------

  function SumHead(): Block {
    Block(B(0), [ArgI64(V(0), 0), ConstI64(V(1), 0), ConstI64(V(2), 1)], Terminator.Jmp(B(1)))
  }

  function SumTest(): Block {
    Block(B(1), [
      PhiI64(V(3), [(B(0), V(2)), (B(2), V(7))]), PhiI64(V(4), [(B(0), V(1)), (B(2), V(6))]),
      CmpGtI64(V(5), V(3), V(0))], Br(V(5), B(3), B(2)))
  }

  function SumBody(): Block {
    Block(B(2), [AddI64(V(6), V(4), V(3)), AddI64(V(7), V(3), V(2))], Terminator.Jmp(B(1)))
  }

  function LoopSum(): Function {
    Function(1, B(0), [SumHead(), SumTest(), SumBody(), Block(B(3), [], Ret(V(4)))])
  }

  lemma SumBlocks()
    ensures var f := LoopSum();
      && HasBlock(f, B(0)) && BlockAt(f, B(0)) == SumHead() && HasBlock(f, B(1)) && BlockAt(f, B(1)) == SumTest()
      && HasBlock(f, B(2)) && BlockAt(f, B(2)) == SumBody()
      && HasBlock(f, B(3)) && BlockAt(f, B(3)) == Block(B(3), [], Ret(V(4)))
  {
    var f := LoopSum();
    assert f.blocks[0].id == B(0) && f.blocks[1].id == B(1) && f.blocks[2].id == B(2) && f.blocks[3].id == B(3);
  }

  // Before the test: the counter and the total come from where control comes from.
  ghost predicate SumReady(env: Env, n: I64, pred: BlockId, i: I64, total: I64) {
    && V(0) in env && env[V(0)] == n && V(2) in env && env[V(2)] == 1
    && (pred == B(0) || pred == B(2))
    && (pred == B(0) ==> i == 1 && V(1) in env && env[V(1)] == total)
    && (pred == B(2) ==> V(7) in env && env[V(7)] == i && V(6) in env && env[V(6)] == total)
  }

  ghost predicate SumTested(env: Env, n: I64, i: I64, total: I64) {
    && V(0) in env && env[V(0)] == n && V(2) in env && env[V(2)] == 1
    && V(3) in env && env[V(3)] == i && V(4) in env && env[V(4)] == total
  }

  lemma SumEnters(args: seq<I64>, env: Env, n: I64, pred: BlockId, i: I64, total: I64) returns (entered: Env)
    requires SumReady(env, n, pred, i, total)
    ensures EnterPhis(SumTest().insts, 3, Some(pred), env) == Success(entered) && SumTested(entered, n, i, total)
  {
    var insts := SumTest().insts;
    var counter, sum := if pred == B(0) then V(2) else V(7), if pred == B(0) then V(1) else V(6);
    OneOfTwo(B(0), V(2), B(2), V(7));
    OneOfTwo(B(0), V(1), B(2), V(6));
    assert EnterPhis(insts, 0, Some(pred), env) == Success(env);
    var e1 := env[V(3) := env[counter]];
    entered := e1[V(4) := env[sum]];
    PhiEnters(insts, 0, pred, env, env, counter);
    PhiEnters(insts, 1, pred, env, e1, sum);
    PhisThenNone(insts, 2, 3, pred, env, entered);
  }

  lemma SumTests(args: seq<I64>, env: Env, n: I64, pred: BlockId, i: I64, total: I64) returns (after: Env)
    requires SumReady(env, n, pred, i, total)
    ensures Passes(LoopSum(), args, B(1), Some(pred), env, if i > n then B(3) else B(2), after)
    ensures SumTested(after, n, i, total)
  {
    SumBlocks();
    var insts := SumTest().insts;
    var entered := SumEnters(args, env, n, pred, i, total);
    var e1 := PhiIsSkipped(insts, 0, args, entered, 3);
    var e2 := PhiIsSkipped(insts, 1, args, e1, 2);
    after := Advance(insts, 2, args, e2, 1);
    assert RunInsts(insts, 3, args, after, 0) == Success(after);
  }

  lemma SumAdds(args: seq<I64>, env: Env, n: I64, i: I64, total: I64) returns (after: Env, next: I64, sum: I64)
    requires SumTested(env, n, i, total)
    ensures Passes(LoopSum(), args, B(2), Some(B(1)), env, B(1), after)
    ensures SumReady(after, n, B(2), next, sum)
    ensures Congruent(sum, total as int + i) && (i as int < 0x7FFF_FFFF_FFFF_FFFF ==> next == i as int + 1)
  {
    SumBlocks();
    var insts := SumBody().insts;
    NoPhis(insts, 2, Some(B(1)), env);
    var e1 := Advance(insts, 0, args, env, 2);
    after := Advance(insts, 1, args, e1, 1);
    next, sum := after[V(7)], after[V(6)];
    assert RunInsts(insts, 2, args, after, 0) == Success(after);
  }

  function SumOf(i: int, n: int): int
    decreases if i > n then 0 else n - i + 1
  {
    if i > n then 0 else i + SumOf(i + 1, n)
  }

  lemma {:induction false} SumIsHalf(i: int, n: int)
    requires i <= n + 1
    ensures 2 * SumOf(i, n) == (n - i + 1) * (n + i)
    decreases n - i + 1
  {
    if i <= n {
      SumIsHalf(i + 1, n);
    }
  }

  function SumSteps(n: I64, i: I64): nat {
    5 + 7 * if i > n then 0 else n as int - i + 1
  }

  lemma SumLeaves(args: seq<I64>, env: Env, n: I64, pred: BlockId, i: I64, total: I64)
    requires SumReady(env, n, pred, i, total) && i > n
    ensures Yields(LoopSum(), args, B(1), Some(pred), env, total, 5)
  {
    SumBlocks();
    var after := SumTests(args, env, n, pred, i, total);
    assert RunInsts([], 0, args, after, 0) == Success(after);
    ReturnYields(LoopSum(), args, B(3), Some(B(1)), after, after, after);
    PassesYields(LoopSum(), args, B(1), Some(pred), env, B(3), after, total, 1);
  }

  lemma {:induction false} SumLoops(args: seq<I64>, env: Env, n: I64, pred: BlockId, i: I64, total: I64)
    returns (r: I64)
    requires SumReady(env, n, pred, i, total) && n as int < 0x7FFF_FFFF_FFFF_FFFF
    ensures Congruent(r, total as int + SumOf(i, n))
    ensures Yields(LoopSum(), args, B(1), Some(pred), env, r, SumSteps(n, i))
    decreases if i > n then 0 else n as int - i + 1
  {
    if i > n {
      r := total;
      SumLeaves(args, env, n, pred, i, total);
    } else {
      var after := SumTests(args, env, n, pred, i, total);
      var more, next, sum := SumAdds(args, after, n, i, total);
      r := SumLoops(args, more, n, B(2), next, sum);
      SumRoundYields(args, env, n, pred, i, after, more, next, r);
      SumRoundAdds(n, i, total, next, sum, r);
    }
  }

  lemma SumRoundYields(
      args: seq<I64>, env: Env, n: I64, pred: BlockId, i: I64, after: Env, more: Env, next: I64, r: I64)
    requires Passes(LoopSum(), args, B(1), Some(pred), env, B(2), after) && i <= n && next == i as int + 1
    requires Passes(LoopSum(), args, B(2), Some(B(1)), after, B(1), more)
    requires Yields(LoopSum(), args, B(1), Some(B(2)), more, r, SumSteps(n, next))
    ensures Yields(LoopSum(), args, B(1), Some(pred), env, r, SumSteps(n, i))
  {
    SumBlocks();
    BothYield(LoopSum(), args, B(1), Some(pred), env, B(2), after, B(1), more, r, SumSteps(n, next));
  }

  lemma SumRoundAdds(n: I64, i: I64, total: I64, next: I64, sum: I64, r: I64)
    requires i <= n && next == i as int + 1
    requires Congruent(sum, total as int + i) && Congruent(r, sum as int + SumOf(next, n))
    ensures Congruent(r, total as int + SumOf(i, n))
  {
    CongruentSums(sum, SumOf(next, n), total as int + i, SumOf(next, n));
    CongruentTrans(r, sum as int + SumOf(next, n), total as int + i + SumOf(next, n));
  }

  lemma SumStarts(n: I64) returns (after: Env)
    ensures Passes(LoopSum(), [n], B(0), None, map[], B(1), after) && SumReady(after, n, B(0), 1, 0)
  {
    SumBlocks();
    var insts := SumHead().insts;
    NoPhis(insts, 3, None, map[]);
    var e1 := Advance(insts, 0, [n], map[], 3);
    var e2 := Advance(insts, 1, [n], e1, 2);
    after := Advance(insts, 2, [n], e2, 1);
    assert RunInsts(insts, 3, [n], after, 0) == Success(after);
  }

  // The sum of the numbers up to n, modulo 2^64, in nine steps and seven for each of them.
  lemma LoopSumComputes(n: I64, limit: nat) returns (r: I64)
    requires n as int < 0x7FFF_FFFF_FFFF_FFFF && limit > 0
    ensures Eval(LoopSum(), [n], limit) ==
      if limit >= 9 + 7 * (if n < 0 then 0 else n) then Success(r) else Failure(StepLimitExceeded)
    ensures n <= 0 ==> r == 0
    ensures exists sum: int :: Congruent(r, sum) && (n >= 0 ==> 2 * sum == n as int * (n as int + 1))
  {
    SumBlocks();
    var env := SumStarts(n);
    r := SumLoops([n], env, n, B(0), 1, 0);
    PassesYields(LoopSum(), [n], B(0), None, map[], B(1), env, r, SumSteps(n, 1));
    YieldsEval(LoopSum(), [n], r, 9 + 7 * (if n < 0 then 0 else n), limit);
    if n >= 0 {
      SumIsHalf(1, n);
    }
    if n <= 0 {
      CongruentFits(r, 0);
    }
  }

  lemma {:induction false} SumNeverEnds(args: seq<I64>, env: Env, n: I64, pred: BlockId, i: I64, total: I64, left: nat)
    requires SumReady(env, n, pred, i, total) && n as int == 0x7FFF_FFFF_FFFF_FFFF
    ensures RunFrom(LoopSum(), args, B(1), Some(pred), env, left) == Failure(StepLimitExceeded)
    decreases left
  {
    var f := LoopSum();
    SumBlocks();
    var after := SumTests(args, env, n, pred, i, total);
    PassesOn(f, args, B(1), Some(pred), env, B(2), after, left);
    if left > 3 {
      var more, next, sum := SumAdds(args, after, n, i, total);
      PassesOn(f, args, B(2), Some(B(1)), after, B(1), more, left - 4);
      if left - 4 > 2 {
        SumNeverEnds(args, more, n, B(2), next, sum, left - 7);
      }
    }
  }

  // Up to the greatest number the counter wraps and the loop never ends.
  lemma LoopSumDiverges(limit: nat)
    requires limit > 0
    ensures Eval(LoopSum(), [0x7FFF_FFFF_FFFF_FFFF], limit) == Failure(StepLimitExceeded)
  {
    var n: I64 := 0x7FFF_FFFF_FFFF_FFFF;
    SumBlocks();
    var env := SumStarts(n);
    PassesOn(LoopSum(), [n], B(0), None, map[], B(1), env, limit);
    if limit > 3 {
      SumNeverEnds([n], env, n, B(0), 1, 0, limit - 4);
    }
  }
}
