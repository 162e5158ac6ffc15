// The main theorem: emitted code computes what the interpreter computes.
module Preservation {
  import opened Wrappers
  import opened Ir
  import opened Interp
  import opened Cfg
  import opened Validation
  import opened Liveness
  import opened Alloc
  import opened Machine
  import opened Lowering
  import opened Frames
  import opened Layout
  import opened Separation
  import opened Simulation
  import opened Transfer

  // A function's code in place: where its body starts, and where each block's label and terminator lie.
  datatype Image = Image(code: seq<Instr>, start: nat, tops: map<BlockId, nat>, ends: map<BlockId, nat>)

  function Top(im: Image, b: BlockId): nat {
    if b in im.tops then im.tops[b] else 0
  }

  function End(im: Image, b: BlockId): nat {
    if b in im.ends then im.ends[b] else 0
  }

  ghost predicate LiesAt(u: Compilation, im: Image, b: BlockId) {
    HasBlock(u.f, b) && BoundAt(im.code, b, Top(im, b)) &&
    var insts := Flatten(InstParts(u, BlockAt(u.f, b)), 0);
    End(im, b) == Top(im, b) + 1 + |insts| &&
    At(im.code, Top(im, b) + 1, insts) && At(im.code, End(im, b), TermCode(u, BlockAt(u.f, b)))
  }

  // What the blocks of one run of the emitted code rely on.
  ghost predicate Grounded(u: Compilation, im: Image, d0: Data, args: seq<I64>) {
    && WellFormed(u.f)
    && Fit(u, im.code, im.start)
    && |args| == u.f.args && ArgsHold(args, d0)
    && forall b :: HasBlock(u.f, b) ==> LiesAt(u, im, b)
  }

  // And its edges.
  ghost predicate Setting(u: Compilation, im: Image, d0: Data, args: seq<I64>) {
    Grounded(u, im, d0, args) && GoodEdges(u)
  }

  ghost predicate GoodEdges(u: Compilation) {
    forall a, s :: Edge(u.f, a, s) ==> EdgeIsGood(u, a, s)
  }

  // At a block's label, with the phis already entered.
  ghost predicate AtTop(u: Compilation, im: Image, d0: Data, b: BlockId, env: Env, d: Data) {
    HasBlock(u.f, b) && Matches(u, b, 0, env, d) && InFrame(u, im.code, im.start, d0, Running(Top(im, b), d))
  }

  ghost predicate AtEnd(u: Compilation, im: Image, d0: Data, b: BlockId, env: Env, d: Data) {
    && HasBlock(u.f, b) && Matches(u, b, |BlockAt(u.f, b).insts|, env, d)
    && InFrame(u, im.code, im.start, d0, Running(End(im, b), d))
  }

  // ---------- one block ----------

  lemma TopSteps(u: Compilation, im: Image, d0: Data, b: BlockId, env: Env, d: Data)
    requires AtTop(u, im, d0, b, env, d) && Laid(u, im.code, im.start) && BoundAt(im.code, b, Top(im, b))
    ensures Step(im.code, Running(Top(im, b), d)) == Running(Top(im, b) + 1, d)
    ensures InFrame(u, im.code, im.start, d0, Running(Top(im, b) + 1, d))
  {
    BodyStep(u, im.code, im.start, d0, Top(im, b), d);
  }

  // From a block's label to its terminator.
  lemma BlockFromTop(u: Compilation, im: Image, d0: Data, args: seq<I64>, b: BlockId, env: Env, budget: nat, d: Data)
    returns (e: Data)
    requires Grounded(u, im, d0, args) && AtTop(u, im, d0, b, env, d)
    requires RunInsts(BlockAt(u.f, b).insts, 0, args, env, budget).Success?
    ensures AtEnd(u, im, d0, b, RunInsts(BlockAt(u.f, b).insts, 0, args, env, budget).value, e)
    ensures Step(im.code, Running(Top(im, b), d)) == Running(Top(im, b) + 1, d)
    ensures Reaches(im.code, Running(Top(im, b) + 1, d), Running(End(im, b), e))
  {
    assert LiesAt(u, im, b);
    BlockSteps(u, im.code, im.start, d0, args, b);
    e := PartsToEnd(u, im, d0, args, b, InstParts(u, BlockAt(u.f, b)), env, budget, d);
  }

  lemma PartsToEnd(
      u: Compilation, im: Image, d0: Data, args: seq<I64>, b: BlockId, parts: seq<seq<Instr>>, env: Env,
      budget: nat, d: Data)
    returns (e: Data)
    requires AtTop(u, im, d0, b, env, d) && Laid(u, im.code, im.start) && BoundAt(im.code, b, Top(im, b))
    requires AllStep(u, im.code, im.start, d0, args, b, parts) && |parts| == |BlockAt(u.f, b).insts|
    requires At(im.code, Top(im, b) + 1, Flatten(parts, 0)) && End(im, b) == Top(im, b) + 1 + |Flatten(parts, 0)|
    requires RunInsts(BlockAt(u.f, b).insts, 0, args, env, budget).Success?
    ensures AtEnd(u, im, d0, b, RunInsts(BlockAt(u.f, b).insts, 0, args, env, budget).value, e)
    ensures Step(im.code, Running(Top(im, b), d)) == Running(Top(im, b) + 1, d)
    ensures Reaches(im.code, Running(Top(im, b) + 1, d), Running(End(im, b), e))
  {
    TopSteps(u, im, d0, b, env, d);
    e := PartsRun(u, im.code, im.start, d0, args, b, parts, 0, env, budget, Top(im, b) + 1, d);
  }

  lemma NextIsSuccessor(term: Terminator, env: Env)
    ensures NextBlock(term, env).Some? ==> NextBlock(term, env).value in Successors(term)
  {
  }

  predicate EntersFrom(f: Function, b: BlockId, pred: Option<BlockId>, env: Env) {
    HasBlock(f, b) && EnterPhis(BlockAt(f, b).insts, |BlockAt(f, b).insts|, pred, env).Success?
  }

  function EntryEnv(f: Function, b: BlockId, pred: Option<BlockId>, env: Env): Env
    requires EntersFrom(f, b, pred, env)
  {
    EnterPhis(BlockAt(f, b).insts, |BlockAt(f, b).insts|, pred, env).value
  }

  lemma LeaveRuns(u: Compilation, im: Image, d0: Data, args: seq<I64>, b: BlockId, s: BlockId, env: Env, d: Data)
    returns (e: Data)
    requires Grounded(u, im, d0, args) && AtEnd(u, im, d0, b, env, d) && NextBlock(BlockAt(u.f, b).term, env) == Some(s)
    requires EntersFrom(u.f, s, Some(b), env) && EdgeIsGood(u, b, s)
    ensures AtTop(u, im, d0, s, EntryEnv(u.f, s, Some(b), env), e)
    ensures Reaches(im.code, Running(End(im, b), d), Running(Top(im, s), e))
  {
    assert LiesAt(u, im, b) && LiesAt(u, im, s);
    e := TermTransfers(u, im.code, b, s, Top(im, s), env, End(im, b), d);
    ReachesInFrame(u, im.code, im.start, d0, Running(End(im, b), d), Running(Top(im, s), e));
  }

  lemma ReturnFrom(u: Compilation, im: Image, d0: Data, args: seq<I64>, b: BlockId, env: Env, d: Data) returns (e: Data)
    requires Grounded(u, im, d0, args) && AtEnd(u, im, d0, b, env, d)
    requires BlockAt(u.f, b).term.Ret? && BlockAt(u.f, b).term.value in env
    ensures Reaches(im.code, Running(End(im, b), d), Halted(e)) && Get(e, Gp(Rax)) == env[BlockAt(u.f, b).term.value]
  {
    var term := BlockAt(u.f, b).term;
    assert LiesAt(u, im, b);
    assert term.value in TermUses(term);
    TermUseHolds(u, b, env, d, term.value);
    e := ReturnRuns(u, im.code, term.value, env, End(im, b), d);
  }

  // ---------- a whole run ----------

  // The end of a block, with its instructions done.
  datatype Stop = Stop(block: BlockId, after: Env)

  predicate BlockYields(f: Function, args: seq<I64>, b: BlockId, env: Env, budget: nat, after: Env) {
    HasBlock(f, b) && RunInsts(BlockAt(f, b).insts, 0, args, env, budget) == Success(after)
  }

  ghost predicate Leads(f: Function, args: seq<I64>, x: Stop, y: Stop) {
    && HasBlock(f, x.block) && NextBlock(BlockAt(f, x.block).term, x.after) == Some(y.block)
    && EntersFrom(f, y.block, Some(x.block), x.after)
    && exists budget: nat ::
      BlockYields(f, args, y.block, EntryEnv(f, y.block, Some(x.block), x.after), budget, y.after)
  }

  ghost predicate LeadsAt(f: Function, args: seq<I64>, t: seq<Stop>, k: int) {
    0 <= k < |t| - 1 ==> Leads(f, args, t[k], t[k + 1])
  }

  // The blocks an interpretation passes through.
  ghost predicate Chained(f: Function, args: seq<I64>, t: seq<Stop>) {
    |t| > 0 && forall k :: LeadsAt(f, args, t, k)
  }

  // Up to its return.
  ghost predicate Trace(f: Function, args: seq<I64>, t: seq<Stop>, r: I64) {
    && Chained(f, args, t)
    && HasBlock(f, t[|t| - 1].block)
    && BlockAt(f, t[|t| - 1].block).term.Ret?
    && Lookup(t[|t| - 1].after, BlockAt(f, t[|t| - 1].block).term.value) == Success(r)
  }

  lemma TracePrepend(f: Function, args: seq<I64>, x: Stop, t: seq<Stop>)
    requires Chained(f, args, t) && Leads(f, args, x, t[0])
    ensures Chained(f, args, [x] + t)
  {
    forall k
      ensures LeadsAt(f, args, [x] + t, k)
    {
      assert LeadsAt(f, args, t, k - 1);
    }
  }

  lemma {:induction false} RunTraces(
      f: Function, args: seq<I64>, b: BlockId, pred: Option<BlockId>, before: Env, budget: nat, r: I64)
    returns (t: seq<Stop>)
    requires RunFrom(f, args, b, pred, before, budget) == Success(r)
    ensures budget > 0 && EntersFrom(f, b, pred, before) && Trace(f, args, t, r) && t[0].block == b
    ensures BlockYields(f, args, b, EntryEnv(f, b, pred, before), budget - 1, t[0].after)
    decreases budget
  {
    var block := BlockAt(f, b);
    var after := RunInsts(block.insts, 0, args, EntryEnv(f, b, pred, before), budget - 1).value;
    if block.term.Ret? {
      t := [Stop(b, after)];
    } else {
      var s := NextBlock(block.term, after).value;
      var rest := RunTraces(f, args, s, Some(b), after, budget - 1 - |block.insts|, r);
      t := [Stop(b, after)] + rest;
      TracePrepend(f, args, Stop(b, after), rest);
    }
  }

  // From one block's end to the next block's end.
  lemma NextBlockRuns(
      u: Compilation, im: Image, d0: Data, args: seq<I64>, b: BlockId, s: BlockId, env: Env, budget: nat,
      after: Env, d: Data)
    returns (e: Data)
    requires Grounded(u, im, d0, args) && AtEnd(u, im, d0, b, env, d) && NextBlock(BlockAt(u.f, b).term, env) == Some(s)
    requires EdgeIsGood(u, b, s)
    requires EntersFrom(u.f, s, Some(b), env)
    requires BlockYields(u.f, args, s, EntryEnv(u.f, s, Some(b), env), budget, after)
    ensures AtEnd(u, im, d0, s, after, e)
    ensures ReachesLater(im.code, Running(End(im, b), d), Running(End(im, s), e))
  {
    var top := LeaveRuns(u, im, d0, args, b, s, env, d);
    e := BlockFromTop(u, im, d0, args, s, EntryEnv(u.f, s, Some(b), env), budget, top);
    ReachesThroughStep(im.code, Running(End(im, b), d), Running(Top(im, s), top), Running(End(im, s), e));
  }

  // Along a good edge, from one stop to the next.
  lemma GoodLeadRuns(u: Compilation, im: Image, d0: Data, args: seq<I64>, x: Stop, y: Stop, d: Data) returns (e: Data)
    requires Grounded(u, im, d0, args) && EdgeIsGood(u, x.block, y.block)
    requires Leads(u.f, args, x, y) && AtEnd(u, im, d0, x.block, x.after, d)
    ensures AtEnd(u, im, d0, y.block, y.after, e)
    ensures ReachesLater(im.code, Running(End(im, x.block), d), Running(End(im, y.block), e))
  {
    var budget: nat :| BlockYields(u.f, args, y.block, EntryEnv(u.f, y.block, Some(x.block), x.after), budget, y.after);
    e := NextBlockRuns(u, im, d0, args, x.block, y.block, x.after, budget, y.after, d);
  }

  lemma LeadRuns(u: Compilation, im: Image, d0: Data, args: seq<I64>, x: Stop, y: Stop, d: Data) returns (e: Data)
    requires Setting(u, im, d0, args) && Leads(u.f, args, x, y) && AtEnd(u, im, d0, x.block, x.after, d)
    ensures AtEnd(u, im, d0, y.block, y.after, e)
    ensures ReachesLater(im.code, Running(End(im, x.block), d), Running(End(im, y.block), e))
  {
    NextIsSuccessor(BlockAt(u.f, x.block).term, x.after);
    EdgeOfBlock(u.f, x.block, y.block);
    e := GoodLeadRuns(u, im, d0, args, x, y, d);
  }

  ghost predicate Advanced(u: Compilation, im: Image, d0: Data, x: Stop, y: Stop, d: Data, e: Data) {
    AtEnd(u, im, d0, y.block, y.after, e) &&
        ReachesLater(im.code, Running(End(im, x.block), d), Running(End(im, y.block), e))
  }

  // The simulation diagram: what the interpreter does between two stops, the code does too.
  ghost predicate Simulates(u: Compilation, im: Image, d0: Data, args: seq<I64>) {
    forall x, y, d :: Leads(u.f, args, x, y) && AtEnd(u, im, d0, x.block, x.after, d) ==>
      exists e :: Advanced(u, im, d0, x, y, d, e)
  }

  lemma SettingSimulates(u: Compilation, im: Image, d0: Data, args: seq<I64>)
    requires Setting(u, im, d0, args)
    ensures Simulates(u, im, d0, args)
  {
    forall x, y, d | Leads(u.f, args, x, y) && AtEnd(u, im, d0, x.block, x.after, d)
      ensures exists e :: Advanced(u, im, d0, x, y, d, e)
    {
      var e := LeadRuns(u, im, d0, args, x, y, d);
      assert Advanced(u, im, d0, x, y, d, e);
    }
  }

  lemma {:induction false} TraceRuns(u: Compilation, im: Image, d0: Data, args: seq<I64>, t: seq<Stop>, k: nat, d: Data)
    returns (e: Data)
    requires Simulates(u, im, d0, args) && Chained(u.f, args, t) && k < |t|
    requires AtEnd(u, im, d0, t[k].block, t[k].after, d)
    ensures AtEnd(u, im, d0, t[|t| - 1].block, t[|t| - 1].after, e)
    ensures Reaches(im.code, Running(End(im, t[k].block), d), Running(End(im, t[|t| - 1].block), e))
    decreases |t| - k
  {
    if k == |t| - 1 {
      e := d;
      assert Run(im.code, Running(End(im, t[k].block), d), 0) == Running(End(im, t[k].block), d);
    } else {
      assert LeadsAt(u.f, args, t, k);
      var next :| Advanced(u, im, d0, t[k], t[k + 1], d, next);
      LaterIsReached(im.code, Running(End(im, t[k].block), d), Running(End(im, t[k + 1].block), next));
      e := TraceRuns(u, im, d0, args, t, k + 1, next);
      ReachesTrans(
        im.code, Running(End(im, t[k].block), d), Running(End(im, t[k + 1].block), next),
        Running(End(im, t[|t| - 1].block), e));
    }
  }

  // ---------- the emitted function ----------

  lemma ThreeParts(code: seq<Instr>, pc: nat, head: Instr, insts: seq<Instr>, term: seq<Instr>)
    requires At(code, pc, [head] + insts + term)
    ensures pc < |code| && code[pc] == head && At(code, pc + 1, insts) && At(code, pc + 1 + |insts|, term)
  {
    AtSplit(code, pc, [head] + insts, term);
    AtSplit(code, pc, [head], insts);
    AtFirst(code, pc, [head]);
  }

  function InstsLength(u: Compilation, block: Block): nat {
    |Flatten(InstParts(u, block), 0)|
  }

  function ImageOf(u: Compilation): Image
    requires u.f.args <= 6
  {
    Image(FunctionCode(u), |Prologue(u)|,
          map b | b in Ids(u.f) :: BlockPc(u, IndexOf(u.f, b)),
          map b | b in Ids(u.f) :: BlockPc(u, IndexOf(u.f, b)) + 1 + InstsLength(u, BlockAt(u.f, b)))
  }

  lemma PiecesLie(u: Compilation, im: Image, b: BlockId, head: Instr, insts: seq<Instr>, term: seq<Instr>)
    requires HasBlock(u.f, b) && At(im.code, Top(im, b), [head] + insts + term)
    requires head == Bind(BlockLabel(b)) && insts == Flatten(InstParts(u, BlockAt(u.f, b)), 0)
    requires term == TermCode(u, BlockAt(u.f, b))
    requires End(im, b) == Top(im, b) + 1 + |insts|
    ensures LiesAt(u, im, b)
  {
    ThreeParts(im.code, Top(im, b), head, insts, term);
  }

  lemma BlockLiesAt(u: Compilation, b: BlockId)
    requires u.f.args <= 6 && HasBlock(u.f, b)
    ensures LiesAt(u, ImageOf(u), b)
  {
    var block := BlockAt(u.f, b);
    BlockLies(u, IndexOf(u.f, b));
    PiecesLie(u, ImageOf(u), b, Bind(BlockLabel(b)), Flatten(InstParts(u, block), 0), TermCode(u, block));
  }

  lemma EdgeGood(f: Function, a: Assignment, regs: PhysRegSet, p: BlockId, s: BlockId)
    requires WellFormed(f) && |regs.scratch| >= 2
    requires Assigned(CompilationOf(f, a, regs)) && EdgesDeliver(f, a, regs) && Edge(f, p, s)
    ensures EdgeIsGood(CompilationOf(f, a, regs), p, s)
  {
    var u := CompilationOf(f, a, regs);
    EdgeHasBlocks(f, p, s);
    EdgePhisAreAssigned(u, p, s);
    PhisAreDistinct(f, s);
  }

  lemma EdgesGood(f: Function, a: Assignment, regs: PhysRegSet)
    requires WellFormed(f) && |regs.scratch| >= 2 && Assigned(CompilationOf(f, a, regs)) && EdgesDeliver(f, a, regs)
    ensures GoodEdges(CompilationOf(f, a, regs))
  {
    forall p, s | Edge(f, p, s)
      ensures EdgeIsGood(CompilationOf(f, a, regs), p, s)
    {
      EdgeGood(f, a, regs, p, s);
    }
  }

  lemma EmittedFits(f: Function, a: Assignment, regs: PhysRegSet)
    requires Accepted(f, a, regs) && FrameFits(f.args + a.stackSlots)
    ensures var u := CompilationOf(f, a, regs); Fit(u, FunctionCode(u), |Prologue(u)|)
  {
    var u := CompilationOf(f, a, regs);
    AcceptedIsPlaced(f, a, regs);
    VerifiedIsSeparated(f, a, regs);
    VerifiedAssigns(f, a, regs);
    CodeLabelsAreUnique(u);
    FunctionIsLaid(u);
  }

  lemma AllBlocksLie(u: Compilation)
    requires u.f.args <= 6
    ensures forall b :: HasBlock(u.f, b) ==> LiesAt(u, ImageOf(u), b)
  {
    forall b | HasBlock(u.f, b)
      ensures LiesAt(u, ImageOf(u), b)
    {
      BlockLiesAt(u, b);
    }
  }

  // What a caller provides: the arguments in the argument registers.
  ghost predicate Called(f: Function, args: seq<I64>, d0: Data) {
    |args| == f.args && ArgsHold(args, d0)
  }

  lemma GroundedHolds(f: Function, a: Assignment, regs: PhysRegSet, args: seq<I64>, d0: Data)
    requires Accepted(f, a, regs) && FrameFits(f.args + a.stackSlots) && Called(f, args, d0)
    ensures Grounded(CompilationOf(f, a, regs), ImageOf(CompilationOf(f, a, regs)), d0, args)
  {
    EmittedFits(f, a, regs);
    AllBlocksLie(CompilationOf(f, a, regs));
  }

  lemma SettingHolds(f: Function, a: Assignment, regs: PhysRegSet, args: seq<I64>, d0: Data)
    requires Accepted(f, a, regs) && FrameFits(f.args + a.stackSlots) && EdgesDeliver(f, a, regs) && Called(f, args, d0)
    ensures Setting(CompilationOf(f, a, regs), ImageOf(CompilationOf(f, a, regs)), d0, args)
  {
    GroundedHolds(f, a, regs, args, d0);
    VerifiedAssigns(f, a, regs);
    EdgesGood(f, a, regs);
  }

  // ---------- the entry ----------

  lemma {:induction false} NoPredecessorNoPhis(insts: seq<Inst>, k: nat, env: Env)
    requires k <= |insts| && EnterPhis(insts, k, None, env).Success?
    ensures EnterPhis(insts, k, None, env).value == env
    decreases k
  {
    if k > 0 {
      NoPredecessorNoPhis(insts, k - 1, env);
    }
  }

  // From the first instruction to the entry block's label.
  lemma EntryRuns(u: Compilation, d0: Data) returns (d: Data)
    requires Placed(u) && WellShaped(u.f) && UniqueLabels(FunctionCode(u)) && Laid(u, FunctionCode(u), |Prologue(u)|)
    requires LiesAt(u, ImageOf(u), u.f.entry)
    ensures AtTop(u, ImageOf(u), d0, u.f.entry, map[], d)
    ensures Reaches(FunctionCode(u), Running(0, d0), Running(Top(ImageOf(u), u.f.entry), d))
  {
    var im := ImageOf(u);
    BodyEntered(u, d0);
    d := Exec(Prologue(u), d0);
    FunctionIsPrologueAndBody(u);
    JumpToEntry(u, im, d0, d);
    ReachesTrans(im.code, Running(0, d0), Running(im.start, d), Running(Top(im, u.f.entry), d));
  }

  lemma JumpToEntry(u: Compilation, im: Image, d0: Data, d: Data)
    requires UniqueLabels(im.code) && Laid(u, im.code, im.start) && LiesAt(u, im, u.f.entry)
    requires InFrame(u, im.code, im.start, d0, Running(im.start, d))
    requires im.code[im.start] == Instr.Jmp(BlockLabel(u.f.entry))
    ensures AtTop(u, im, d0, u.f.entry, map[], d)
    ensures Reaches(im.code, Running(im.start, d), Running(Top(im, u.f.entry), d))
  {
    GotoBound(im.code, Top(im, u.f.entry), BlockLabel(u.f.entry), d);
    BodyStep(u, im.code, im.start, d0, im.start, d);
    ReachesStep(im.code, Running(im.start, d));
  }

  // ---------- the theorem ----------

  // The code halts with x in rax and everything the caller owns restored.
  ghost predicate Returns(u: Compilation, code: seq<Instr>, d0: Data, x: int) {
    exists e :: Reaches(code, Running(0, d0), Halted(e)) && Get(e, Gp(Rax)) == x && Restored(u, d0, e)
  }

  lemma EvalTraces(f: Function, args: seq<I64>, limit: nat, r: I64) returns (t: seq<Stop>)
    requires Eval(f, args, limit) == Success(r)
    ensures limit > 0 && Trace(f, args, t, r) && t[0].block == f.entry
    ensures BlockYields(f, args, f.entry, map[], limit - 1, t[0].after)
  {
    t := RunTraces(f, args, f.entry, None, map[], limit, r);
    NoPredecessorNoPhis(BlockAt(f, f.entry).insts, |BlockAt(f, f.entry).insts|, map[]);
  }

  lemma EvalFromTop(u: Compilation, im: Image, d0: Data, args: seq<I64>, limit: nat, r: I64, d: Data) returns (e: Data)
    requires Setting(u, im, d0, args) && Eval(u.f, args, limit) == Success(r) && AtTop(u, im, d0, u.f.entry, map[], d)
    ensures Reaches(im.code, Running(Top(im, u.f.entry), d), Halted(e)) && Get(e, Gp(Rax)) == r && Restored(u, d0, e)
  {
    var t := EvalTraces(u.f, args, limit, r);
    e := TraceFromTop(u, im, d0, args, t, limit - 1, r, d);
  }

  lemma RunReturns(u: Compilation, d0: Data, args: seq<I64>, limit: nat, r: I64)
    requires u.f.args <= 6 && Setting(u, ImageOf(u), d0, args) && Eval(u.f, args, limit) == Success(r)
    ensures Returns(u, FunctionCode(u), d0, r)
  {
    var im := ImageOf(u);
    var d := EntryRuns(u, d0);
    var e := EvalFromTop(u, im, d0, args, limit, r, d);
    ReachesTrans(im.code, Running(0, d0), Running(Top(im, u.f.entry), d), Halted(e));
  }

  lemma TopToEnd(
      u: Compilation, im: Image, d0: Data, args: seq<I64>, b: BlockId, env: Env, budget: nat, after: Env,
      d: Data)
    returns (e: Data)
    requires Grounded(u, im, d0, args) && AtTop(u, im, d0, b, env, d) && BlockYields(u.f, args, b, env, budget, after)
    ensures AtEnd(u, im, d0, b, after, e) && Reaches(im.code, Running(Top(im, b), d), Running(End(im, b), e))
  {
    e := BlockFromTop(u, im, d0, args, b, env, budget, d);
    ReachesStep(im.code, Running(Top(im, b), d));
    ReachesTrans(im.code, Running(Top(im, b), d), Running(Top(im, b) + 1, d), Running(End(im, b), e));
  }

  lemma TraceFromTop(u: Compilation, im: Image, d0: Data, args: seq<I64>, t: seq<Stop>, budget: nat, r: I64, d: Data)
    returns (e: Data)
    requires Setting(u, im, d0, args) && Trace(u.f, args, t, r) && AtTop(u, im, d0, t[0].block, map[], d)
    requires BlockYields(u.f, args, t[0].block, map[], budget, t[0].after)
    ensures Reaches(im.code, Running(Top(im, t[0].block), d), Halted(e)) && Get(e, Gp(Rax)) == r && Restored(u, d0, e)
  {
    var b, last := t[0].block, t[|t| - 1];
    var first := TopToEnd(u, im, d0, args, b, map[], budget, t[0].after, d);
    SettingSimulates(u, im, d0, args);
    var end := TraceRuns(u, im, d0, args, t, 0, first);
    ReachesTrans(im.code, Running(Top(im, b), d), Running(End(im, b), first), Running(End(im, last.block), end));
    e := ReturnFrom(u, im, d0, args, last.block, last.after, end);
    ReachesInFrame(u, im.code, im.start, d0, Running(End(im, last.block), end), Halted(e));
    ReachesTrans(im.code, Running(Top(im, b), d), Running(End(im, last.block), end), Halted(e));
  }

  // Whenever the interpreter returns r, the emitted code, called with the same arguments from any
  // machine state, halts with r in rax.
  lemma SemanticPreservation(f: Function, a: Assignment, regs: PhysRegSet, args: seq<I64>, limit: nat, d0: Data, r: I64)
    requires Accepted(f, a, regs) && FrameFits(f.args + a.stackSlots) && EdgesDeliver(f, a, regs) && Called(f, args, d0)
    requires Eval(f, args, limit) == Success(r)
    ensures var u := CompilationOf(f, a, regs); Returns(u, FunctionCode(u), d0, r)
  {
    SettingHolds(f, a, regs, args, d0);
    RunReturns(CompilationOf(f, a, regs), d0, args, limit, r);
  }
}
