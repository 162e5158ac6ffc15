// The stages put together: whatever an allocator returns for a validated function compiles, and
// computes what the interpreter computes.
module Pipeline {
  import opened Wrappers
  import opened Ir
  import opened Interp
  import opened Validation
  import opened Intervals
  import opened Alloc
  import opened Machine
  import opened Lowering
  import opened Separation
  import opened Preservation
  import opened Termination
  import opened Liveness
  import opened Emitter
  import LinearScan
  import Anneal
  import SpillMinimality
  import Coverage
  import Cfg

  lemma IntervalIsForward(touches: Touches, ivs: seq<LiveInterval>, i: nat)
    requires SpanTouches(touches, ivs) && i < |ivs|
    ensures ivs[i].start <= ivs[i].end
  {
    assert (ivs[i].v, ivs[i].start) in touches;
    assert CoversPoint(ivs, ivs[i].v, ivs[i].start);
    var j :| 0 <= j < |ivs| && ivs[j].v == ivs[i].v && ivs[j].start <= ivs[i].start <= ivs[j].end;
    assert i == j;
  }

  lemma ReadyRegistersAreGood(regs: PhysRegSet, maxRegs: nat)
    requires ReadyForCodegen(regs)
    ensures LinearScan.GoodRegisters(regs, maxRegs)
  {
    var all := regs.regs + regs.scratch;
    forall i, j | 0 <= i < j < |regs.regs|
      ensures regs.regs[i] != regs.regs[j]
    {
      assert all[i] == regs.regs[i] && all[j] == regs.regs[j];
    }
    forall i, k | 0 <= i < |regs.regs| && 0 <= k < |regs.scratch|
      ensures regs.regs[i] != regs.scratch[k]
    {
      assert all[i] == regs.regs[i] && all[|regs.regs| + k] == regs.scratch[k];
    }
  }

  // The intervals of a function are what the allocators ask for, so linear scan never fails on them.
  lemma IntervalsFeedTheScan(f: Function, ivs: seq<LiveInterval>, regs: PhysRegSet, maxRegs: nat)
    requires AreIntervals(f, ivs) && ReadyForCodegen(regs)
    ensures LinearScan.GoodInput(ivs, regs, maxRegs)
  {
    ReadyRegistersAreGood(regs, maxRegs);
    forall iv | iv in ivs
      ensures iv.start <= iv.end
    {
      var i :| 0 <= i < |ivs| && ivs[i] == iv;
      IntervalIsForward(AllTouches(f), ivs, i);
    }
  }

  // An assignment verified under a register limit is verified under none.
  lemma LimitCanGrow(ivs: seq<LiveInterval>, regs: PhysRegSet, maxRegs: nat, a: Assignment)
    requires ValidAssignment(ivs, regs, maxRegs, a)
    ensures ValidAssignment(ivs, regs, |regs.regs|, a)
  {
    forall r | r in Allowed(regs, maxRegs)
      ensures r in Allowed(regs, |regs.regs|)
    {
    }
  }

  lemma AllocatedIsAccepted(f: Function, ivs: seq<LiveInterval>, regs: PhysRegSet, maxRegs: nat, a: Assignment)
    requires WellFormed(f) && ReadyForCodegen(regs) && f.args <= 6 && BlockStart(f, |f.blocks|) <= 0xFFFF_FFFF
    requires AreIntervals(f, ivs) && ValidAssignment(ivs, regs, maxRegs, a)
    ensures Accepted(f, a, regs)
  {
    LimitCanGrow(ivs, regs, maxRegs, a);
  }

  lemma AllocatedCodeIsEquivalent(
      f: Function, ivs: seq<LiveInterval>, regs: PhysRegSet, maxRegs: nat, a: Assignment, args: seq<I64>,
      d0: Data, x: int)
    requires WellFormed(f) && ReadyForCodegen(regs) && f.args <= 6 && BlockStart(f, |f.blocks|) <= 0xFFFF_FFFF
    requires AreIntervals(f, ivs) && ValidAssignment(ivs, regs, maxRegs, a)
    requires FrameFits(f.args + a.stackSlots) && EdgesDeliver(f, a, regs) && Called(f, args, d0)
    ensures var u := CompilationOf(f, a, regs);
      Returns(u, FunctionCode(u), d0, x) <==> Evaluates(f, args, x)
  {
    AllocatedIsAccepted(f, ivs, regs, maxRegs, a);
    EmittedCodeIsEquivalent(f, a, regs, args, d0, x);
  }

  // ---------- how many intervals there are ----------

  function Definitions(f: Function, n: nat): seq<VReg>
    requires n <= |f.blocks|
  {
    if n == 0 then []
    else
      var insts := f.blocks[n - 1].insts;
      Definitions(f, n - 1) + seq(|insts|, k requires 0 <= k < |insts| => insts[k].dst)
  }

  lemma {:induction false} DefinitionsAreFew(f: Function, n: nat)
    requires n <= |f.blocks|
    ensures |Definitions(f, n)| <= BlockStart(f, n)
    ensures forall bi, i, v :: DefSite(f, bi, i, v) && bi < n ==> v in Definitions(f, n)
  {
    if n > 0 {
      DefinitionsAreFew(f, n - 1);
      var insts := f.blocks[n - 1].insts;
      var last := seq(|insts|, k requires 0 <= k < |insts| => insts[k].dst);
      forall bi, i, v | DefSite(f, bi, i, v) && bi < n
        ensures v in Definitions(f, n)
      {
        if bi == n - 1 {
          assert last[i] == v;
        }
      }
    }
  }

  lemma DominatedIsDefined(f: Function, b: BlockId, l: int, v: VReg)
    requires WellFormed(f) && HasBlock(f, b) && UsedAt(BlockAt(f, b), l, v)
    ensures v in Definitions(f, |f.blocks|)
  {
    var bi := IndexOf(f, b);
    DefinitionsAreFew(f, |f.blocks|);
    assert UsesOk(f, f.blocks[bi]);
    if l < |f.blocks[bi].insts| {
      assert InstUsesOk(f, f.blocks[bi], l);
    }
    assert UseDominated(f, v, f.blocks[bi], l);
  }

  lemma UsedIsDefined(f: Function, v: VReg)
    requires WellFormed(f) && Coverage.UsedSomewhere(f, v)
    ensures v in Definitions(f, |f.blocks|)
  {
    DefinitionsAreFew(f, |f.blocks|);
    if c, l :| HasBlock(f, c) && UsedAt(BlockAt(f, c), l, v) {
      DominatedIsDefined(f, c, l, v);
    } else {
      var a, s :| HasBlock(f, s) && PhiUse(BlockAt(f, s), a, v);
      Coverage.PhiUseIsDominated(f, s, a, v);
    }
  }

  lemma TouchedIsDefined(f: Function, b: BlockId, k: nat, v: VReg)
    requires WellFormed(f) && TouchedAt(f, b, k, v)
    ensures v in Definitions(f, |f.blocks|)
  {
    var block := BlockAt(f, b);
    DefinitionsAreFew(f, |f.blocks|);
    if k < |block.insts| && block.insts[k].dst == v {
      assert DefSite(f, IndexOf(f, b), k, v);
    } else {
      TouchedIsUsed(f, b, k, v);
      UsedIsDefined(f, v);
    }
  }

  lemma TouchedIsUsed(f: Function, b: BlockId, k: nat, v: VReg)
    requires TouchedAt(f, b, k, v) && !(k < |BlockAt(f, b).insts| && BlockAt(f, b).insts[k].dst == v)
    ensures Coverage.UsedSomewhere(f, v)
  {
    var block := BlockAt(f, b);
    if k == |block.insts| && UsedOnSomeEdge(f, b, v) {
      var s :| HasBlock(f, s) && PhiUse(BlockAt(f, s), b, v);
    } else if k == |block.insts| && LiveOut(f, b, v) {
      assert LiveBefore(f, b, |block.insts|, v);
      Coverage.LiveIsUsed(f, b, |block.insts|, v);
    } else if k == 0 && LiveIn(f, b, v) {
      LiveInUnfolds(f, b, v);
      Coverage.LiveIsUsed(f, b, 0, v);
    }
  }

  lemma {:induction false} DistinctValuesCount(ivs: seq<LiveInterval>, n: nat)
    requires DistinctValues(ivs) && n <= |ivs|
    ensures |set i | 0 <= i < n :: ivs[i].v| == n
  {
    if n > 0 {
      DistinctValuesCount(ivs, n - 1);
      var front := set i | 0 <= i < n - 1 :: ivs[i].v;
      assert ivs[n - 1].v !in front;
      assert (set i | 0 <= i < n :: ivs[i].v) == front + {ivs[n - 1].v};
    }
  }

  lemma IntervalIsDefined(f: Function, ivs: seq<LiveInterval>, i: nat)
    requires WellFormed(f) && AreIntervals(f, ivs) && i < |ivs|
    ensures ivs[i].v in Definitions(f, |f.blocks|)
  {
    assert (ivs[i].v, ivs[i].start) in AllTouches(f);
    var b, k: nat :| TouchedAt(f, b, k, ivs[i].v) && ivs[i].start == PosOf(f, b, k);
    TouchedIsDefined(f, b, k, ivs[i].v);
  }

  // No more intervals than definitions, so the allocators' slot counters cannot overflow.
  lemma IntervalsAreFew(f: Function, ivs: seq<LiveInterval>)
    requires WellFormed(f) && AreIntervals(f, ivs)
    ensures |ivs| <= BlockStart(f, |f.blocks|)
  {
    forall i | 0 <= i < |ivs|
      ensures ivs[i].v in Definitions(f, |f.blocks|)
    {
      IntervalIsDefined(f, ivs, i);
    }
    DefinitionsAreFew(f, |f.blocks|);
    DistinctWithinAreFew(ivs, Definitions(f, |f.blocks|));
  }

  lemma DistinctWithinAreFew(ivs: seq<LiveInterval>, defs: seq<VReg>)
    requires DistinctValues(ivs) && forall i :: 0 <= i < |ivs| ==> ivs[i].v in defs
    ensures |ivs| <= |defs|
  {
    DistinctValuesCount(ivs, |ivs|);
    SpillMinimality.ElementsAtMost(defs, |defs|);
    Cfg.SubsetSizes(set i | 0 <= i < |ivs| :: ivs[i].v, set i | 0 <= i < |defs| :: defs[i]);
  }

  // ---------- from a function to its code ----------

  // The annealer's raw draws are reduced to the number of intervals and of choices.
  datatype Allocator = Scanning | Annealing(raw: seq<Anneal.Draw>)

  datatype CompileError =
    | Invalid(validation: ValidationError)
    | Unfit(registers: RegisterSetError)
    | LimitTooLarge(limit: nat)
    | Unmeasured(intervals: IntervalError)
    | NotEmitted(emission: EmitError)

  function DrawsWithin(raw: seq<Anneal.Draw>, intervals: nat, choices: nat): (draws: seq<Anneal.Draw>)
    requires choices > 0
    ensures |draws| == |raw|
    ensures intervals > 0 ==> forall d :: d in draws ==> d.index < intervals && d.choice < choices
  {
    seq(|raw|, k requires 0 <= k < |raw| =>
      Anneal.Draw(if intervals > 0 then raw[k].index % intervals else 0, raw[k].choice % choices, raw[k].acceptWorse))
  }

  lemma SmallRemainder(x: nat, n: nat)
    requires x < n
    ensures x % n == x
  {
  }

  // Draws that are within bounds already stay as they are, so every admissible list arises.
  lemma AdmissibleDrawsStay(raw: seq<Anneal.Draw>, intervals: nat, choices: nat)
    requires choices > 0 && forall d :: d in raw ==> d.index < intervals && d.choice < choices
    ensures DrawsWithin(raw, intervals, choices) == raw
  {
    forall k | 0 <= k < |raw|
      ensures DrawsWithin(raw, intervals, choices)[k] == raw[k]
    {
      SmallRemainder(raw[k].index, intervals);
      SmallRemainder(raw[k].choice, choices);
    }
  }

  method AllocateWith(allocator: Allocator, ivs: seq<LiveInterval>, regs: PhysRegSet, maxRegs: nat)
    returns (r: Result<Assignment, AssignmentError>)
    requires |ivs| <= MAX_U32 && LinearScan.GoodInput(ivs, regs, maxRegs)
    ensures r.Success? && ValidAssignment(ivs, regs, maxRegs, r.value)
    ensures MadeBy(allocator, ivs, regs, maxRegs, r.value)
  {
    match allocator {
      case Scanning =>
        r := LinearScan.Allocate(ivs, regs, maxRegs);
        forall b | ValidAssignment(ivs, regs, maxRegs, b)
          ensures r.value.spills <= b.spills
        {
          SpillMinimality.ScanSpillsLeast(ivs, regs, maxRegs, b);
        }
      case Annealing(raw) =>
        var limit := if maxRegs < |regs.regs| then maxRegs else |regs.regs|;
        r := Anneal.Allocate(ivs, regs, maxRegs, DrawsWithin(raw, |ivs|, limit + 1));
    }
  }

  ghost predicate SpillsLeast(ivs: seq<LiveInterval>, regs: PhysRegSet, maxRegs: nat, a: Assignment) {
    forall b :: ValidAssignment(ivs, regs, maxRegs, b) ==> a.spills <= b.spills
  }

  // The allocation is the one this allocator makes: linear scan's, which spills least, or what
  // annealing with these draws leads to.
  ghost predicate MadeBy(
      allocator: Allocator, ivs: seq<LiveInterval>, regs: PhysRegSet, maxRegs: nat, a: Assignment)
  {
    match allocator
    case Scanning => LinearScan.IsScan(ivs, regs, maxRegs, a) && SpillsLeast(ivs, regs, maxRegs, a)
    case Annealing(raw) =>
      var limit := if maxRegs < |regs.regs| then maxRegs else |regs.regs|;
      Anneal.AnnealedFrom(ivs, regs, maxRegs, DrawsWithin(raw, |ivs|, limit + 1), a)
  }

  // The positions fit in 32 bits.
  predicate Numbered(f: Function) {
    BlockStart(f, |f.blocks|) <= 0xFFFF_FFFF
  }

  // What a caller can check before the allocation.
  ghost predicate Checked(f: Function, regs: PhysRegSet, maxRegs: nat) {
    WellFormed(f) && ReadyForCodegen(regs) && maxRegs <= |regs.regs|
  }

  ghost predicate ComputesFunction(f: Function, a: Assignment, regs: PhysRegSet, code: seq<Instr>)
    requires |regs.scratch| >= 2
  {
    forall args, d0, x :: Called(f, args, d0) ==>
      (Returns(CompilationOf(f, a, regs), code, d0, x) <==> Evaluates(f, args, x))
  }

  // An allocation of f for at most maxRegs registers, with the intervals it is made for.
  ghost predicate Allocation(f: Function, regs: PhysRegSet, maxRegs: nat, ivs: seq<LiveInterval>, a: Assignment) {
    AreIntervals(f, ivs) && ValidAssignment(ivs, regs, maxRegs, a)
  }

  method AllocateFunction(f: Function, regs: PhysRegSet, maxRegs: nat, allocator: Allocator)
    returns (r: Result<Assignment, CompileError>, ghost ivs: seq<LiveInterval>)
    requires WellFormed(f) && ReadyForCodegen(regs)
    ensures r.Success? <==> Numbered(f)
    ensures r.Success? ==> Allocation(f, regs, maxRegs, ivs, r.value)
    ensures r.Success? ==> MadeBy(allocator, ivs, regs, maxRegs, r.value)
  {
    WellFormedPhiPredecessors(f);
    var intervals := ComputeLiveIntervals(f);
    if intervals.Failure? {
      return Failure(Unmeasured(intervals.error)), [];
    }
    ivs := intervals.value.0;
    IntervalsAreFew(f, ivs);
    IntervalsFeedTheScan(f, ivs, regs, maxRegs);
    var placed := AllocateWith(allocator, intervals.value.0, regs, maxRegs);
    r := Success(placed.value);
  }

  lemma DeliveringCodeComputes(f: Function, a: Assignment, regs: PhysRegSet)
    requires Accepted(f, a, regs) && FrameFits(f.args + a.stackSlots) && EdgesDeliver(f, a, regs)
    ensures ComputesFunction(f, a, regs, FunctionCode(CompilationOf(f, a, regs)))
  {
    forall args, d0, x | Called(f, args, d0)
      ensures Returns(CompilationOf(f, a, regs), FunctionCode(CompilationOf(f, a, regs)), d0, x) <==>
        Evaluates(f, args, x)
    {
      EmittedCodeIsEquivalent(f, a, regs, args, d0, x);
    }
  }

  lemma AllocationComputes(f: Function, regs: PhysRegSet, maxRegs: nat, ivs: seq<LiveInterval>, a: Assignment)
    requires WellFormed(f) && ReadyForCodegen(regs) && Numbered(f) && Allocation(f, regs, maxRegs, ivs, a)
    requires f.args <= 6 && FrameFits(f.args + a.stackSlots) && EdgesDeliver(f, a, regs)
    ensures ComputesFunction(f, a, regs, FunctionCode(CompilationOf(f, a, regs)))
  {
    AllocatedIsAccepted(f, ivs, regs, maxRegs, a);
    DeliveringCodeComputes(f, a, regs);
  }

  lemma AllocationIsRight(f: Function, regs: PhysRegSet, maxRegs: nat, ivs: seq<LiveInterval>, a: Assignment)
    requires WellFormed(f) && ReadyForCodegen(regs) && Numbered(f) && Allocation(f, regs, maxRegs, ivs, a)
    ensures f.args <= 6 && FrameFits(f.args + a.stackSlots) && EdgesDeliver(f, a, regs) ==>
      ComputesFunction(f, a, regs, FunctionCode(CompilationOf(f, a, regs)))
  {
    if f.args <= 6 && FrameFits(f.args + a.stackSlots) && EdgesDeliver(f, a, regs) {
      AllocationComputes(f, regs, maxRegs, ivs, a);
    }
  }

  method EmitAllocated(f: Function, regs: PhysRegSet, maxRegs: nat, ghost ivs: seq<LiveInterval>, a: Assignment)
    returns (r: Result<seq<Instr>, CompileError>)
    requires WellFormed(f) && ReadyForCodegen(regs) && Numbered(f) && Allocation(f, regs, maxRegs, ivs, a)
    ensures r.Success? <==> f.args <= 6 && FrameFits(f.args + a.stackSlots)
    ensures r.Success? && EdgesDeliver(f, a, regs) ==> ComputesFunction(f, a, regs, r.value)
  {
    if f.args <= 6 {
      AllocatedIsAccepted(f, ivs, regs, maxRegs, a);
    }
    AllocationIsRight(f, regs, maxRegs, ivs, a);
    var emitted := EmitFunctionI64(f, a, regs);
    if emitted.Failure? {
      return Failure(NotEmitted(emitted.error));
    }
    r := Success(emitted.value);
  }

  // The outcome in full: an allocation exists unless the checks or the numbering fail, and code
  // exists when it also fits.
  datatype Compiled = Compiled(assignment: Assignment, code: Result<seq<Instr>, CompileError>)

  method AllocateAndEmit(f: Function, regs: PhysRegSet, maxRegs: nat, allocator: Allocator)
    returns (r: Result<Compiled, CompileError>, ghost ivs: seq<LiveInterval>)
    requires WellFormed(f) && ReadyForCodegen(regs)
    ensures r.Success? <==> Numbered(f)
    ensures r.Success? ==> Allocation(f, regs, maxRegs, ivs, r.value.assignment)
    ensures r.Success? ==> MadeBy(allocator, ivs, regs, maxRegs, r.value.assignment)
    ensures r.Success? ==> (r.value.code.Success? <==>
      f.args <= 6 && FrameFits(f.args + r.value.assignment.stackSlots))
    ensures r.Success? && r.value.code.Success? && EdgesDeliver(f, r.value.assignment, regs) ==>
      ComputesFunction(f, r.value.assignment, regs, r.value.code.value)
  {
    var placed;
    placed, ivs := AllocateFunction(f, regs, maxRegs, allocator);
    if placed.Failure? {
      return Failure(placed.error), ivs;
    }
    var code := EmitAllocated(f, regs, maxRegs, ivs, placed.value);
    r := Success(Compiled(placed.value, code));
  }

  // Validation, allocation and emission, one after the other.
  method Compile(f: Function, regs: PhysRegSet, maxRegs: nat, allocator: Allocator)
    returns (r: Result<Compiled, CompileError>, ghost ivs: seq<LiveInterval>)
    ensures r.Success? <==> Checked(f, regs, maxRegs) && Numbered(f)
    ensures r.Success? ==> Allocation(f, regs, maxRegs, ivs, r.value.assignment)
    ensures r.Success? ==> MadeBy(allocator, ivs, regs, maxRegs, r.value.assignment)
    ensures r.Success? ==> (r.value.code.Success? <==>
      f.args <= 6 && FrameFits(f.args + r.value.assignment.stackSlots))
    ensures r.Success? && r.value.code.Success? && EdgesDeliver(f, r.value.assignment, regs) ==>
      ComputesFunction(f, r.value.assignment, regs, r.value.code.value)
  {
    ivs := [];
    var invalid := ValidateFunction(f);
    if invalid.Some? {
      return Failure(Invalid(invalid.value)), ivs;
    }
    var unfit := ValidateForCodegen(regs);
    if unfit.Some? {
      return Failure(Unfit(unfit.value)), ivs;
    }
    if maxRegs > |regs.regs| {
      return Failure(LimitTooLarge(maxRegs)), ivs;
    }
    r, ivs := AllocateAndEmit(f, regs, maxRegs, allocator);
  }
}
