// Values that are not live cannot influence the interpreter.
module LivenessSoundness {
  import opened Wrappers
  import opened Ir
  import opened Interp
  import opened Liveness

  ghost predicate Same(e1: Env, e2: Env, v: VReg) {
    (v in e1 <==> v in e2) && (v in e1 ==> e1[v] == e2[v])
  }

  ghost predicate SamePhis(block: Block, k: nat, e1: Env, e2: Env) {
    forall i :: 0 <= i < k && i < |block.insts| && block.insts[i].PhiI64? ==> Same(e1, e2, block.insts[i].dst)
  }

  ghost predicate AgreeBefore(f: Function, b: BlockId, k: nat, e1: Env, e2: Env) {
    forall v :: LiveBefore(f, b, k, v) ==> Same(e1, e2, v)
  }

  // Agreement on what block b may still read when it is entered from pred.
  ghost predicate AgreeOnEntry(f: Function, pred: Option<BlockId>, b: BlockId, e1: Env, e2: Env) {
    HasBlock(f, b) ==> forall v ::
      (pred.Some? && PhiUse(BlockAt(f, b), pred.value, v)) || (!PhiDef(BlockAt(f, b), v) && LiveIn(f, b, v)) ==>
        Same(e1, e2, v)
  }

  lemma {:induction false} PhisAgree(block: Block, k: nat, pred: Option<BlockId>, e1: Env, e2: Env)
    requires k <= |block.insts|
    requires pred.Some? ==> forall v :: PhiUse(block, pred.value, v) ==> Same(e1, e2, v)
    ensures var r1, r2 := EnterPhis(block.insts, k, pred, e1), EnterPhis(block.insts, k, pred, e2);
      if r1.Failure? then r1 == r2
      else r2.Success? && SamePhis(block, k, r1.value, r2.value) && forall v :: Same(e1, e2, v) ==>
        Same(r1.value, r2.value, v)
    decreases k
  {
    if k > 0 {
      PhisAgree(block, k - 1, pred, e1, e2);
      var inst := block.insts[k - 1];
      if inst.PhiI64? && pred.Some? {
        var found := FindIncoming(inst.incoming, pred.value);
        assert found.Some? ==> PhiUse(block, pred.value, found.value);
      }
    }
  }

  lemma InstAgrees(f: Function, b: BlockId, k: nat, args: seq<I64>, e1: Env, e2: Env)
    requires HasBlock(f, b) && k < |BlockAt(f, b).insts|
    requires AgreeBefore(f, b, k, e1, e2) && SamePhis(BlockAt(f, b), |BlockAt(f, b).insts|, e1, e2)
    ensures var r1, r2 := ExecInst(BlockAt(f, b).insts[k], args, e1), ExecInst(BlockAt(f, b).insts[k], args, e2);
      if r1.Failure? then r1 == r2
      else (r2.Success? && AgreeBefore(f, b, k + 1, r1.value, r2.value) &&
            SamePhis(BlockAt(f, b), |BlockAt(f, b).insts|, r1.value, r2.value))
  {
    var block := BlockAt(f, b);
    var inst := block.insts[k];
    forall v | UsedAt(block, k, v)
      ensures Same(e1, e2, v)
    {
      LiveBeforeUnfolds(f, b, k, v);
    }
    OperandsAgree(block, k, args, e1, e2);
    var r1, r2 := ExecInst(inst, args, e1), ExecInst(inst, args, e2);
    if r1.Success? {
      forall v | LiveBefore(f, b, k + 1, v)
        ensures Same(r1.value, r2.value, v)
      {
        LiveBeforeUnfolds(f, b, k, v);
      }
    }
  }

  lemma OperandsAgree(block: Block, k: nat, args: seq<I64>, e1: Env, e2: Env)
    requires k < |block.insts|
    requires forall v :: UsedAt(block, k, v) ==> Same(e1, e2, v)
    ensures var r1, r2 := ExecInst(block.insts[k], args, e1), ExecInst(block.insts[k], args, e2);
      if r1.Failure? then r1 == r2
      else if block.insts[k].PhiI64? then r2.Success? && r1.value == e1 && r2.value == e2
      else (r2.Success? && Same(r1.value, r2.value, block.insts[k].dst) &&
            forall v :: v != block.insts[k].dst ==> Same(e1, r1.value, v) && Same(e2, r2.value, v))
  {
    var inst := block.insts[k];
    if inst.AddI64? || inst.MulI64? || inst.CmpGtI64? {
      assert UsedAt(block, k, inst.a) && UsedAt(block, k, inst.b);
    } else if inst.MovI64? {
      assert UsedAt(block, k, inst.src);
    }
  }

  lemma {:induction false} InstsAgree(f: Function, b: BlockId, k: nat, args: seq<I64>, e1: Env, e2: Env, budget: nat)
    requires HasBlock(f, b) && k <= |BlockAt(f, b).insts|
    requires AgreeBefore(f, b, k, e1, e2) && SamePhis(BlockAt(f, b), |BlockAt(f, b).insts|, e1, e2)
    ensures var r1 := RunInsts(BlockAt(f, b).insts, k, args, e1, budget);
      var r2 := RunInsts(BlockAt(f, b).insts, k, args, e2, budget);
      if r1.Failure? then r1 == r2 else r2.Success? && AgreeBefore(f, b, |BlockAt(f, b).insts|, r1.value, r2.value)
    decreases |BlockAt(f, b).insts| - k
  {
    var insts := BlockAt(f, b).insts;
    if k < |insts| && budget > 0 {
      InstAgrees(f, b, k, args, e1, e2);
      var r1, r2 := ExecInst(insts[k], args, e1), ExecInst(insts[k], args, e2);
      if r1.Success? {
        InstsAgree(f, b, k + 1, args, r1.value, r2.value, budget - 1);
      }
    }
  }

  lemma TermAgrees(f: Function, b: BlockId, e1: Env, e2: Env)
    requires HasBlock(f, b) && AgreeBefore(f, b, |BlockAt(f, b).insts|, e1, e2)
    ensures forall v :: v in TermUses(BlockAt(f, b).term) ==> Same(e1, e2, v)
    ensures forall s :: s in Successors(BlockAt(f, b).term) ==> AgreeOnEntry(f, Some(b), s, e1, e2)
  {
    var block := BlockAt(f, b);
    var n := |block.insts|;
    forall v | v in TermUses(block.term)
      ensures Same(e1, e2, v)
    {
      LiveAtEnd(f, b, v);
    }
    forall s, v | s in Successors(block.term) && HasBlock(f, s) &&
        (PhiUse(BlockAt(f, s), b, v) || (!PhiDef(BlockAt(f, s), v) && LiveIn(f, s, v)))
      ensures Same(e1, e2, v)
    {
      assert LiveOnEdge(f, b, s, v);
      assert LiveBefore(f, b, n, v);
    }
  }

  // Entered from the same predecessor, a block computes the same outcome from any two environments
  // that agree on what is live on that edge, for every step limit.
  lemma {:induction false} LiveValuesDecide(
      f: Function, args: seq<I64>, b: BlockId, pred: Option<BlockId>, e1: Env, e2: Env, budget: nat)
    requires AgreeOnEntry(f, pred, b, e1, e2)
    ensures RunFrom(f, args, b, pred, e1, budget) == RunFrom(f, args, b, pred, e2, budget)
    decreases budget, 0
  {
    if budget > 0 && HasBlock(f, b) {
      var block := BlockAt(f, b);
      PhisAgree(block, |block.insts|, pred, e1, e2);
      var p1 := EnterPhis(block.insts, |block.insts|, pred, e1);
      var p2 := EnterPhis(block.insts, |block.insts|, pred, e2);
      if p1.Success? {
        EntryAgrees(f, b, pred, e1, e2, p1.value, p2.value);
        InstsAgree(f, b, 0, args, p1.value, p2.value, budget - 1);
        var r1 := RunInsts(block.insts, 0, args, p1.value, budget - 1);
        if r1.Success? {
          var r2 := RunInsts(block.insts, 0, args, p2.value, budget - 1);
          SuccessorsDecide(f, args, b, r1.value, r2.value, budget - 1 - |block.insts|);
        }
      }
    }
  }

  lemma EntryAgrees(f: Function, b: BlockId, pred: Option<BlockId>, e1: Env, e2: Env, p1: Env, p2: Env)
    requires HasBlock(f, b) && AgreeOnEntry(f, pred, b, e1, e2)
    requires SamePhis(BlockAt(f, b), |BlockAt(f, b).insts|, p1, p2)
    requires forall v :: Same(e1, e2, v) ==> Same(p1, p2, v)
    ensures AgreeBefore(f, b, 0, p1, p2)
  {
    forall v | LiveBefore(f, b, 0, v)
      ensures Same(p1, p2, v)
    {
      LiveInUnfolds(f, b, v);
    }
  }

  lemma {:induction false} SuccessorsDecide(f: Function, args: seq<I64>, b: BlockId, e1: Env, e2: Env, budget: nat)
    requires HasBlock(f, b) && AgreeBefore(f, b, |BlockAt(f, b).insts|, e1, e2)
    ensures forall v :: v in TermUses(BlockAt(f, b).term) ==> Same(e1, e2, v)
    ensures match BlockAt(f, b).term
      case Ret(value) => Lookup(e1, value) == Lookup(e2, value)
      case Jmp(s) => RunFrom(f, args, s, Some(b), e1, budget) == RunFrom(f, args, s, Some(b), e2, budget)
      case Br(cond, s, t) =>
        (Lookup(e1, cond) == Lookup(e2, cond) &&
         RunFrom(f, args, s, Some(b), e1, budget) == RunFrom(f, args, s, Some(b), e2, budget) &&
         RunFrom(f, args, t, Some(b), e1, budget) == RunFrom(f, args, t, Some(b), e2, budget))
    decreases budget, 1
  {
    TermAgrees(f, b, e1, e2);
    match BlockAt(f, b).term
    case Ret(value) =>
      assert value in TermUses(BlockAt(f, b).term);
    case Jmp(s) =>
      LiveValuesDecide(f, args, s, Some(b), e1, e2, budget);
    case Br(cond, s, t) =>
      assert cond in TermUses(BlockAt(f, b).term);
      LiveValuesDecide(f, args, s, Some(b), e1, e2, budget);
      LiveValuesDecide(f, args, t, Some(b), e1, e2, budget);
  }
}
