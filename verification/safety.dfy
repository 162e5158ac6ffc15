// What validation buys: the interpreter can only stop with a value or at the step limit.
module Safety {
  import opened Wrappers
  import opened Ir
  import opened Cfg
  import opened Validation
  import opened Interp

  // Every value defined in a block of the walk has a binding.
  ghost predicate DefinedOn(f: Function, walk: seq<BlockId>, env: Env) {
    forall bi, i, v :: DefSite(f, bi, i, v) && f.blocks[bi].id in walk ==> v in env
  }

  ghost predicate DefinedUpTo(block: Block, k: nat, env: Env) {
    forall i :: 0 <= i < k && i < |block.insts| ==> block.insts[i].dst in env
  }

  lemma IncomingIsFound(incoming: seq<(BlockId, VReg)>, pred: BlockId, i: nat)
    requires i < |incoming| && incoming[i].0 == pred
    ensures FindIncoming(incoming, pred).Some?
  {
  }

  lemma PhiReadSucceeds(f: Function, bi: nat, k: nat, walk: seq<BlockId>, env: Env)
    requires WellFormed(f) && bi < |f.blocks| && k < |f.blocks[bi].insts| && f.blocks[bi].insts[k].PhiI64?
    requires IsPath(f, walk) && walk[0] == f.entry && Edge(f, walk[|walk| - 1], f.blocks[bi].id)
    requires DefinedOn(f, walk, env)
    ensures PhiRead(f.blocks[bi].insts[k].incoming, Some(walk[|walk| - 1]), env).Success?
  {
    var incoming := f.blocks[bi].insts[k].incoming;
    var pred := walk[|walk| - 1];
    assert UsesOk(f, f.blocks[bi]) && InstUsesOk(f, f.blocks[bi], k);
    assert IncomingFrom(incoming, |incoming|, pred);
    var j :| 0 <= j < |incoming| && incoming[j].0 == pred;
    IncomingIsFound(incoming, pred, j);
    var source := FindIncoming(incoming, pred).value;
    var i :| 0 <= i < |incoming| && incoming[i] == (pred, source);
    assert PhiInputDominated(f, source, pred);
    var d, n :| DefSite(f, d, n, source) && Dominates(f, f.blocks[d].id, pred);
    assert PathFromTo(f, walk, f.entry, pred);
  }

  lemma {:induction false} PhisSucceed(f: Function, bi: nat, k: nat, walk: seq<BlockId>, env: Env)
    requires WellFormed(f) && bi < |f.blocks| && k <= |f.blocks[bi].insts|
    requires IsPath(f, walk) && walk[0] == f.entry && Edge(f, walk[|walk| - 1], f.blocks[bi].id)
    requires DefinedOn(f, walk, env)
    ensures EnterPhis(f.blocks[bi].insts, k, Some(walk[|walk| - 1]), env).Success?
    ensures env.Keys <= EnterPhis(f.blocks[bi].insts, k, Some(walk[|walk| - 1]), env).value.Keys
    ensures forall i :: 0 <= i < k && f.blocks[bi].insts[i].PhiI64? ==>
      f.blocks[bi].insts[i].dst in EnterPhis(f.blocks[bi].insts, k, Some(walk[|walk| - 1]), env).value
    decreases k
  {
    if k > 0 {
      PhisSucceed(f, bi, k - 1, walk, env);
      if f.blocks[bi].insts[k - 1].PhiI64? {
        PhiReadSucceeds(f, bi, k - 1, walk, env);
      }
    }
  }

  lemma {:induction false} NoPhisNoChange(insts: seq<Inst>, k: nat, pred: Option<BlockId>, env: Env)
    requires k <= |insts| && forall i :: 0 <= i < k ==> !insts[i].PhiI64?
    ensures EnterPhis(insts, k, pred, env) == Success(env)
  {
    if k > 0 {
      NoPhisNoChange(insts, k - 1, pred, env);
    }
  }

  // A used value is bound when the walk's earlier blocks and the earlier instructions are.
  lemma UseIsDefined(f: Function, bi: nat, index: nat, walk: seq<BlockId>, env: Env, v: VReg)
    requires WellFormed(f) && bi < |f.blocks| && index <= |f.blocks[bi].insts|
    requires UseDominated(f, v, f.blocks[bi], index)
    requires PathFromTo(f, walk, f.entry, f.blocks[bi].id)
    requires DefinedOn(f, walk[..|walk| - 1], env) && DefinedUpTo(f.blocks[bi], index, env)
    ensures v in env
  {
    var d, i :| DefSite(f, d, i, v) &&
      if f.blocks[d].id == f.blocks[bi].id then i < index else Dominates(f, f.blocks[d].id, f.blocks[bi].id);
    if f.blocks[d].id != f.blocks[bi].id {
      assert walk == walk[..|walk| - 1] + [f.blocks[bi].id];
    }
  }

  lemma {:induction false} InstsSucceed(
      f: Function, bi: nat, k: nat, args: seq<I64>, walk: seq<BlockId>, env: Env, budget: nat)
    requires WellFormed(f) && |args| == f.args && bi < |f.blocks| && k <= |f.blocks[bi].insts|
    requires PathFromTo(f, walk, f.entry, f.blocks[bi].id)
    requires DefinedOn(f, walk[..|walk| - 1], env) && DefinedUpTo(f.blocks[bi], k, env)
    requires forall i :: 0 <= i < |f.blocks[bi].insts| && f.blocks[bi].insts[i].PhiI64? ==>
      f.blocks[bi].insts[i].dst in env
    ensures var r := RunInsts(f.blocks[bi].insts, k, args, env, budget);
      if r.Success? then env.Keys <= r.value.Keys && DefinedUpTo(f.blocks[bi], |f.blocks[bi].insts|, r.value)
      else r.error == StepLimitExceeded
    decreases |f.blocks[bi].insts| - k
  {
    var block := f.blocks[bi];
    if k < |block.insts| && budget > 0 {
      var inst := block.insts[k];
      assert InstUsesOk(f, block, k) && ArgsInRange(f, block);
      if !inst.PhiI64? {
        forall v | v in Uses(inst)
          ensures v in env
        {
          UseIsDefined(f, bi, k, walk, env, v);
        }
      }
      InstSucceeds(inst, args, env);
      var next := ExecInst(inst, args, env).value;
      InstsSucceed(f, bi, k + 1, args, walk, next, budget - 1);
    }
  }

  lemma InstSucceeds(inst: Inst, args: seq<I64>, env: Env)
    requires !inst.PhiI64? ==> forall v :: v in Uses(inst) ==> v in env
    requires inst.ArgI64? ==> inst.idx < |args|
    ensures ExecInst(inst, args, env).Success?
    ensures !inst.PhiI64? ==> ExecInst(inst, args, env).value.Keys == env.Keys + {inst.dst}
    ensures inst.PhiI64? ==> ExecInst(inst, args, env).value == env
  {
    if inst.AddI64? || inst.MulI64? || inst.CmpGtI64? {
      assert inst.a in Uses(inst) && inst.b in Uses(inst);
    } else if inst.MovI64? {
      assert inst.src in Uses(inst);
    }
  }

  ghost function PredOf(walk: seq<BlockId>): Option<BlockId> {
    if |walk| <= 1 then None else Some(walk[|walk| - 2])
  }

  lemma BlockEntrySucceeds(f: Function, bi: nat, walk: seq<BlockId>, env: Env)
    requires WellFormed(f) && bi < |f.blocks|
    requires PathFromTo(f, walk, f.entry, f.blocks[bi].id) && DefinedOn(f, walk[..|walk| - 1], env)
    ensures var r := EnterPhis(f.blocks[bi].insts, |f.blocks[bi].insts|, PredOf(walk), env);
      r.Success? && env.Keys <= r.value.Keys &&
      forall i :: 0 <= i < |f.blocks[bi].insts| && f.blocks[bi].insts[i].PhiI64? ==>
        f.blocks[bi].insts[i].dst in r.value
  {
    var block := f.blocks[bi];
    if |walk| == 1 {
      forall i | 0 <= i < |block.insts|
        ensures !block.insts[i].PhiI64?
      {
        assert InstUsesOk(f, block, i);
      }
      NoPhisNoChange(block.insts, |block.insts|, None, env);
    } else {
      assert Edge(f, walk[|walk| - 2], walk[|walk| - 2 + 1]);
      PhisSucceed(f, bi, |block.insts|, walk[..|walk| - 1], env);
    }
  }

  ghost predicate Safe(r: Outcome) {
    r.Failure? ==> r.error == StepLimitExceeded
  }

  lemma WalkGrows(f: Function, bi: nat, walk: seq<BlockId>, env: Env, next: BlockId)
    requires WellFormed(f) && bi < |f.blocks| && next in Successors(f.blocks[bi].term)
    requires PathFromTo(f, walk, f.entry, f.blocks[bi].id)
    requires DefinedOn(f, walk[..|walk| - 1], env) && DefinedUpTo(f.blocks[bi], |f.blocks[bi].insts|, env)
    ensures IsPath(f, walk + [next]) && DefinedOn(f, walk, env)
  {
    BlockAtIndex(f, bi);
    EdgeOfBlock(f, f.blocks[bi].id, next);
    assert walk == walk[..|walk| - 1] + [f.blocks[bi].id];
  }

  lemma TermUsesAreDefined(f: Function, bi: nat, walk: seq<BlockId>, env: Env)
    requires WellFormed(f) && bi < |f.blocks|
    requires PathFromTo(f, walk, f.entry, f.blocks[bi].id)
    requires DefinedOn(f, walk[..|walk| - 1], env) && DefinedUpTo(f.blocks[bi], |f.blocks[bi].insts|, env)
    ensures f.blocks[bi].term.Ret? ==> f.blocks[bi].term.value in env
    ensures f.blocks[bi].term.Br? ==> f.blocks[bi].term.cond in env
  {
    var block := f.blocks[bi];
    assert UsesOk(f, block);
    forall v | v in TermUses(block.term)
      ensures v in env
    {
      UseIsDefined(f, bi, |block.insts|, walk, env, v);
    }
    assert block.term.Ret? ==> block.term.value in TermUses(block.term);
    assert block.term.Br? ==> block.term.cond in TermUses(block.term);
  }

  lemma {:induction false} SuccessorIsSafe(
      f: Function, bi: nat, args: seq<I64>, walk: seq<BlockId>, env: Env, budget: nat, next: BlockId)
    requires WellFormed(f) && |args| == f.args && bi < |f.blocks|
    requires PathFromTo(f, walk, f.entry, f.blocks[bi].id) && next in Successors(f.blocks[bi].term)
    requires DefinedOn(f, walk[..|walk| - 1], env) && DefinedUpTo(f.blocks[bi], |f.blocks[bi].insts|, env)
    ensures Safe(RunFrom(f, args, next, Some(f.blocks[bi].id), env, budget))
    decreases budget, 1
  {
    WalkGrows(f, bi, walk, env, next);
    assert (walk + [next])[..|walk|] == walk;
    RunIsSafe(f, args, walk + [next], env, budget);
  }

  // One block entered along the walk: the instructions either hit the limit or bind everything.
  lemma BlockIsSafe(f: Function, bi: nat, args: seq<I64>, walk: seq<BlockId>, env: Env, budget: nat)
    requires WellFormed(f) && |args| == f.args && bi < |f.blocks|
    requires PathFromTo(f, walk, f.entry, f.blocks[bi].id) && DefinedOn(f, walk[..|walk| - 1], env)
    ensures EnterPhis(f.blocks[bi].insts, |f.blocks[bi].insts|, PredOf(walk), env).Success?
    ensures var entered := EnterPhis(f.blocks[bi].insts, |f.blocks[bi].insts|, PredOf(walk), env).value;
      var ran := RunInsts(f.blocks[bi].insts, 0, args, entered, budget);
      if ran.Failure? then ran.error == StepLimitExceeded
      else DefinedOn(f, walk[..|walk| - 1], ran.value) && DefinedUpTo(f.blocks[bi], |f.blocks[bi].insts|, ran.value)
  {
    BlockEntrySucceeds(f, bi, walk, env);
    var entered := EnterPhis(f.blocks[bi].insts, |f.blocks[bi].insts|, PredOf(walk), env).value;
    InstsSucceed(f, bi, 0, args, walk, entered, budget);
  }

  lemma {:induction false} RunIsSafe(f: Function, args: seq<I64>, walk: seq<BlockId>, env: Env, budget: nat)
    requires WellFormed(f) && |args| == f.args
    requires IsPath(f, walk) && walk[0] == f.entry && DefinedOn(f, walk[..|walk| - 1], env)
    ensures Safe(RunFrom(f, args, walk[|walk| - 1], PredOf(walk), env, budget))
    decreases budget, 0
  {
    PathHasBlocks(f, walk, |walk| - 1);
    if budget > 0 {
      var bi := IndexOf(f, walk[|walk| - 1]);
      var block := f.blocks[bi];
      BlockIsSafe(f, bi, args, walk, env, budget - 1);
      var entered := EnterPhis(block.insts, |block.insts|, PredOf(walk), env).value;
      var ran := RunInsts(block.insts, 0, args, entered, budget - 1);
      if ran.Success? {
        TermUsesAreDefined(f, bi, walk, ran.value);
        var left := budget - 1 - |block.insts|;
        match block.term
        case Ret(_) =>
        case Jmp(target) =>
          SuccessorIsSafe(f, bi, args, walk, ran.value, left, target);
        case Br(cond, thenBB, elseBB) =>
          var next := if ran.value[cond] != 0 then thenBB else elseBB;
          SuccessorIsSafe(f, bi, args, walk, ran.value, left, next);
      }
    }
  }

  // A validated function given the right number of arguments never reads an undefined value,
  // jumps to an unknown block, misses a phi input or indexes a missing argument.
  lemma ValidatedCannotGoWrong(f: Function, args: seq<I64>, stepLimit: nat)
    requires WellFormed(f) && |args| == f.args && stepLimit > 0
    ensures Safe(Eval(f, args, stepLimit))
  {
    assert IsPath(f, [f.entry]);
    RunIsSafe(f, args, [f.entry], map[], stepLimit);
  }
}
