// Frame discipline: what the shape of emitted code guarantees of every run, whatever the values.
module Frames {
  import opened Wrappers
  import opened Ir
  import opened Cfg
  import opened Validation
  import opened Intervals
  import opened Alloc
  import opened Machine
  import opened ParallelMoves
  import opened Lowering

  // ---------- the instructions of a body ----------

  predicate Ordinary(r: Reg) {
    r.Gp? && r.reg != Rbx
  }

  // Offsets from rbp of the spill slots, which lie below the argument shadows.
  predicate SpillOffset(u: Compilation, offset: int) {
    -8 * (u.f.args + u.stackSlots) <= offset <= -8 * (u.f.args + 1)
  }

  // Moves data among ordinary registers and spill slots only.
  predicate Plain(u: Compilation, i: Instr) {
    match i
    case MovReg(dst, _) => Ordinary(dst)
    case MovImm(dst, _) => Ordinary(dst)
    case Load(dst, _) => Ordinary(dst)
    case Add(dst, _) => Ordinary(dst)
    case Imul(dst, _) => Ordinary(dst)
    case Store(offset, _) => SpillOffset(u, offset)
    case Cmp(_, _) => true
    case Test(_) => true
    case _ => false
  }

  predicate Jumps(i: Instr) {
    i.Jmp? || i.Jg? || i.Jnz?
  }

  predicate Deallocates(u: Compilation, i: Instr) {
    i == AddRsp(u.Frame()) || i == Pop(Rbp) || i.Ret?
  }

  ghost predicate Resolved(u: Compilation, s: seq<Instr>, l: Label) {
    Bind(l) in s || (l.BlockLabel? && HasBlock(u.f, l.block))
  }

  ghost predicate Closed(u: Compilation, s: seq<Instr>) {
    forall i :: i in s ==> Plain(u, i) || i.Bind? || Deallocates(u, i) || (Jumps(i) && Resolved(u, s, i.target))
  }

  // Nothing of the frame is given up after i.
  predicate Open(i: Instr) {
    !i.AddRsp? && !i.Pop?
  }

  // May come after any open instruction.
  predicate Free(u: Compilation, i: Instr) {
    !i.Ret? && !i.Jg? && !i.Jnz? && (i.Pop? ==> u.Frame() == 0)
  }

  predicate MayFollow(u: Compilation, i: Instr, j: Instr) {
    match j
    case Ret => i.Pop?
    case Pop(_) => if u.Frame() > 0 then i.AddRsp? else Open(i)
    case Jg(_) => i.Cmp?
    case Jnz(_) => i.Test?
    case _ => Open(i)
  }

  predicate LinkedAt(u: Compilation, s: seq<Instr>, k: int) {
    0 < k < |s| ==> MayFollow(u, s[k - 1], s[k])
  }

  ghost predicate Linked(u: Compilation, s: seq<Instr>) {
    forall k :: LinkedAt(u, s, k)
  }

  // A piece of a body that can be put next to any other.
  ghost predicate Piece(u: Compilation, s: seq<Instr>) {
    Closed(u, s) && Linked(u, s) && (s != [] ==> Free(u, s[0]) && Open(s[|s| - 1]))
  }

  lemma PieceConcat(u: Compilation, s: seq<Instr>, t: seq<Instr>)
    requires Piece(u, s) && Piece(u, t)
    ensures Piece(u, s + t)
  {
    var both := s + t;
    forall i | i in both
      ensures Plain(u, i) || i.Bind? || Deallocates(u, i) || (Jumps(i) && Resolved(u, both, i.target))
    {
      if i in s {
        assert Jumps(i) && Resolved(u, s, i.target) ==> Resolved(u, both, i.target);
      } else {
        assert Jumps(i) && Resolved(u, t, i.target) ==> Resolved(u, both, i.target);
      }
    }
    forall k
      ensures LinkedAt(u, both, k)
    {
      assert LinkedAt(u, s, k) && LinkedAt(u, t, k - |s|);
    }
  }

  ghost predicate AllPlain(u: Compilation, s: seq<Instr>) {
    forall i :: i in s ==> Plain(u, i)
  }

  lemma PlainIsPiece(u: Compilation, s: seq<Instr>)
    requires AllPlain(u, s)
    ensures Piece(u, s)
  {
    forall k | 0 <= k < |s|
      ensures Plain(u, s[k])
    {
      assert s[k] in s;
    }
  }

  // ---------- locations fit for the frame ----------

  predicate GoodReg(r: PhysReg) {
    r != Rbx
  }

  predicate GoodLocation(u: Compilation, l: MoveLocation) {
    match l
    case InReg(reg) => reg != Rbx
    case OnStack(slot) => slot.index < u.stackSlots
  }

  // What a verified assignment and a register set fit for code generation give.
  ghost predicate Placed(u: Compilation) {
    && u.f.args <= 6
    && u.c.shadow == u.f.args
    && Temporaries(u.c)
    && GoodReg(u.c.temporary) && GoodReg(u.c.temporary2)
    && (forall v :: v in u.locs ==> GoodLocation(u, LocOf(u.locs, v)))
    && (forall v :: v in u.locs ==> !IsTemporary(u.c, LocOf(u.locs, v)))
  }

  lemma LocationIsGood(u: Compilation, v: VReg)
    requires Placed(u)
    ensures GoodLocation(u, LocOf(u.locs, v))
  {
  }

  lemma AcceptedIsPlaced(f: Function, a: Assignment, regs: PhysRegSet)
    requires ReadyForCodegen(regs) && f.args <= 6 && Verified(f, a, regs) && FrameFits(f.args + a.stackSlots)
    ensures Placed(CompilationOf(f, a, regs))
  {
    ScratchIsGood(regs);
    LocationsAreGood(f, a, regs);
  }

  lemma ScratchIsGood(regs: PhysRegSet)
    requires ReadyForCodegen(regs)
    ensures regs.scratch[0] != regs.scratch[1] && GoodReg(regs.scratch[0]) && GoodReg(regs.scratch[1])
    ensures Rbx !in regs.regs
  {
    var all := regs.regs + regs.scratch;
    assert all[|regs.regs|] == regs.scratch[0] && all[|regs.regs| + 1] == regs.scratch[1];
    assert regs.scratch[0] in regs.scratch && regs.scratch[1] in regs.scratch;
  }

  lemma VerifiedCounts(f: Function, a: Assignment, regs: PhysRegSet)
    requires Verified(f, a, regs)
    ensures SlotCountExact(a.locs, a.stackSlots) && RegistersAllowed(regs, |regs.regs|, a.locs)
  {
    var ivs :| AreIntervals(f, ivs) && ValidAssignment(ivs, regs, |regs.regs|, a);
  }

  lemma LocationsAreGood(f: Function, a: Assignment, regs: PhysRegSet)
    requires Verified(f, a, regs) && Rbx !in regs.regs && |regs.scratch| >= 2 && FrameFits(f.args + a.stackSlots)
    ensures forall v :: v in a.locs ==> GoodLocation(CompilationOf(f, a, regs), LocOf(a.locs, v))
    ensures forall v :: v in a.locs ==> !IsTemporary(CompilationOf(f, a, regs).c, LocOf(a.locs, v))
  {
    VerifiedCounts(f, a, regs);
    PlacedByValid(f, a, regs);
  }

  lemma PlacedByValid(f: Function, a: Assignment, regs: PhysRegSet)
    requires SlotCountExact(a.locs, a.stackSlots) && RegistersAllowed(regs, |regs.regs|, a.locs)
    requires Rbx !in regs.regs && |regs.scratch| >= 2 && a.stackSlots < MAX_U32
    ensures forall v :: v in a.locs ==> GoodLocation(CompilationOf(f, a, regs), LocOf(a.locs, v))
    ensures forall v :: v in a.locs ==> !IsTemporary(CompilationOf(f, a, regs).c, LocOf(a.locs, v))
  {
    forall v | v in a.locs
      ensures GoodLocation(CompilationOf(f, a, regs), LocOf(a.locs, v))
      ensures !IsTemporary(CompilationOf(f, a, regs).c, LocOf(a.locs, v))
    {
      if a.locs[v].Reg? {
        assert a.locs[v].reg in Allowed(regs, |regs.regs|) && a.locs[v].reg !in regs.scratch;
        assert regs.scratch[0] in regs.scratch && regs.scratch[1] in regs.scratch;
      } else {
        assert SaturatingNext(a.locs[v].slot.index) <= a.stackSlots;
      }
    }
  }

  // ---------- the pieces ----------

  lemma SlotIsSpill(u: Compilation, slot: StackSlot)
    requires u.c.shadow == u.f.args && slot.index < u.stackSlots
    ensures SpillOffset(u, StackOffset(u.c.shadow, slot))
  {
  }

  lemma ReadIsPlain(u: Compilation, l: MoveLocation, temp: PhysReg)
    requires GoodReg(temp)
    ensures AllPlain(u, ReadCode(u.c, l, temp))
  {
  }

  lemma WriteIsPlain(u: Compilation, l: MoveLocation, source: PhysReg)
    requires u.c.shadow == u.f.args && GoodLocation(u, l)
    ensures AllPlain(u, WriteCode(u.c, l, source))
  {
    if l.OnStack? {
      SlotIsSpill(u, l.slot);
    }
  }

  lemma MoveIsPlain(u: Compilation, m: Move, temp: PhysReg)
    requires Placed(u) && GoodReg(temp) && GoodLocation(u, m.dst)
    ensures AllPlain(u, MoveCode(u.c, m, temp))
  {
    ReadIsPlain(u, m.src, temp);
    WriteIsPlain(u, m.dst, ReadReg(m.src, temp));
  }

  ghost predicate GoodDsts(u: Compilation, moves: seq<Move>) {
    forall k :: 0 <= k < |moves| ==> GoodLocation(u, moves[k].dst)
  }

  lemma {:induction false} SequenceIsPlain(u: Compilation, moves: seq<Move>)
    requires Placed(u) && GoodDsts(u, moves)
    ensures AllPlain(u, Sequence(u.c, moves))
    decreases |moves|
  {
    if moves != [] {
      match FirstReady(moves, 0)
      case Some(i) =>
        MoveIsPlain(u, moves[i], u.c.temporary);
        SequenceIsPlain(u, Remove(moves, i));
      case None =>
        ReadIsPlain(u, moves[0].dst, u.c.temporary);
        MoveIsPlain(u, moves[0], u.c.temporary2);
        SequenceIsPlain(u, Redirect(moves[1..], moves[0].dst, InReg(u.c.temporary)));
    }
  }

  lemma {:induction false} MovesHaveGoodDsts(u: Compilation, phis: seq<Phi>, pred: BlockId)
    requires Placed(u)
    ensures GoodDsts(u, MovesFor(u.locs, phis, pred))
    decreases phis
  {
    if phis != [] {
      MovesHaveGoodDsts(u, phis[..|phis| - 1], pred);
      LocationIsGood(u, phis[|phis| - 1].dst);
    }
  }

  lemma EdgeMovesArePlain(u: Compilation, pred: BlockId, succ: BlockId)
    requires Placed(u)
    ensures AllPlain(u, Sequence(u.c, EdgeMoves(u, pred, succ)))
  {
    if HasBlock(u.f, succ) {
      MovesHaveGoodDsts(u, PhisOf(BlockAt(u.f, succ).insts), pred);
    }
    SequenceIsPlain(u, EdgeMoves(u, pred, succ));
  }

  lemma EdgeIsPiece(u: Compilation, pred: BlockId, succ: BlockId)
    requires Placed(u) && HasBlock(u.f, succ)
    ensures Piece(u, EdgeCode(u, pred, succ))
  {
    EdgeMovesArePlain(u, pred, succ);
    PlainIsPiece(u, Sequence(u.c, EdgeMoves(u, pred, succ)));
    assert Piece(u, [Instr.Jmp(BlockLabel(succ))]);
    PieceConcat(u, Sequence(u.c, EdgeMoves(u, pred, succ)), [Instr.Jmp(BlockLabel(succ))]);
  }

  lemma ResultRegIsGood(u: Compilation, v: VReg)
    requires Placed(u)
    ensures GoodReg(ResultReg(u, v))
  {
    LocationIsGood(u, v);
  }

  lemma ArithmeticIsPlain(u: Compilation, dst: VReg, a: VReg, b: VReg, operation: Instr)
    requires Placed(u) && Plain(u, operation)
    ensures AllPlain(u, ArithmeticCode(u, dst, a, b, operation))
  {
    ResultRegIsGood(u, dst);
    ReadIsPlain(u, LocOf(u.locs, a), ResultReg(u, dst));
    ReadIsPlain(u, LocOf(u.locs, b), u.c.temporary2);
    LocationIsGood(u, dst);
    WriteIsPlain(u, LocOf(u.locs, dst), ResultReg(u, dst));
  }

  // A comparison: the conditional jump follows the compare, and both its labels are bound here.
  lemma CompareIsPiece(u: Compilation, b: BlockId, index: nat, x: VReg, y: VReg)
    requires Placed(u)
    ensures Piece(u, CompareCode(u, x, y) + SelectCode(u, b, index))
  {
    ReadIsPlain(u, LocOf(u.locs, x), u.c.temporary);
    ReadIsPlain(u, LocOf(u.locs, y), u.c.temporary2);
    var loads := ReadValue(u, x, u.c.temporary) + ReadValue(u, y, u.c.temporary2);
    var compare :=
      [Cmp(Gp(ValueReg(u, x, u.c.temporary)), Gp(ValueReg(u, y, u.c.temporary2)))] + SelectCode(u, b, index);
    PlainIsPiece(u, loads);
    SelectIsPiece(u, b, index, compare[0]);
    PieceConcat(u, loads, compare);
    assert loads + compare == CompareCode(u, x, y) + SelectCode(u, b, index);
  }

  lemma SelectIsPiece(u: Compilation, b: BlockId, index: nat, compare: Instr)
    requires Placed(u) && compare.Cmp?
    ensures Piece(u, [compare] + SelectCode(u, b, index))
  {
    var s := [compare] + SelectCode(u, b, index);
    assert s[4] == Bind(TrueLabel(b, index)) && s[6] == Bind(DoneLabel(b, index));
    assert Resolved(u, s, TrueLabel(b, index)) && Resolved(u, s, DoneLabel(b, index));
  }

  lemma InstIsPlain(u: Compilation, block: Block, k: nat)
    requires Placed(u) && k < |block.insts| && !block.insts[k].CmpGtI64?
    ensures AllPlain(u, InstCode(u, block, k))
  {
    var dst := block.insts[k].dst;
    ResultRegIsGood(u, dst);
    LocationIsGood(u, dst);
    match block.insts[k]
    case ConstI64(_, _) =>
      WriteIsPlain(u, LocOf(u.locs, dst), ResultReg(u, dst));
    case AddI64(_, a, b) =>
      ArithmeticIsPlain(u, dst, a, b, Add(Gp(ResultReg(u, dst)), Gp(ValueReg(u, b, u.c.temporary2))));
    case MulI64(_, a, b) =>
      ArithmeticIsPlain(u, dst, a, b, Imul(Gp(ResultReg(u, dst)), Gp(ValueReg(u, b, u.c.temporary2))));
    case MovI64(_, src) =>
      ReadIsPlain(u, LocOf(u.locs, src), u.c.temporary);
      WriteIsPlain(u, LocOf(u.locs, dst), ValueReg(u, src, u.c.temporary));
    case PhiI64(_, _) =>
    case ArgI64(_, _) =>
      WriteIsPlain(u, LocOf(u.locs, dst), u.c.temporary);
  }

  lemma InstIsPiece(u: Compilation, block: Block, k: nat)
    requires Placed(u) && k < |block.insts|
    ensures Piece(u, InstCode(u, block, k))
  {
    match block.insts[k]
    case CmpGtI64(dst, a, b) =>
      CompareIsPiece(u, block.id, k, a, b);
      LocationIsGood(u, dst);
      WriteIsPlain(u, LocOf(u.locs, dst), u.c.temporary);
      PlainIsPiece(u, WriteValue(u, dst, u.c.temporary));
      PieceConcat(u, CompareCode(u, a, b) + SelectCode(u, block.id, k), WriteValue(u, dst, u.c.temporary));
    case _ =>
      InstIsPlain(u, block, k);
      PlainIsPiece(u, InstCode(u, block, k));
  }

  lemma {:induction false} PiecesFlatten(u: Compilation, parts: seq<seq<Instr>>, from: nat)
    requires from <= |parts| && forall k :: from <= k < |parts| ==> Piece(u, parts[k])
    ensures Piece(u, Flatten(parts, from))
    decreases |parts| - from
  {
    if from < |parts| {
      PiecesFlatten(u, parts, from + 1);
      PieceConcat(u, parts[from], Flatten(parts, from + 1));
    }
  }

  lemma InstsArePiece(u: Compilation, block: Block)
    requires Placed(u)
    ensures Piece(u, Flatten(InstParts(u, block), 0))
  {
    var parts := InstParts(u, block);
    forall k | 0 <= k < |parts|
      ensures Piece(u, parts[k])
    {
      InstIsPiece(u, block, k);
    }
    PiecesFlatten(u, parts, 0);
  }

  lemma ReturnIsPiece(u: Compilation, value: VReg)
    requires Placed(u)
    ensures Piece(u, ReturnCode(u, value) + Epilogue(u))
  {
    ReadIsPlain(u, LocOf(u.locs, value), Rax);
    PlainIsPiece(u, ReturnCode(u, value));
    assert Piece(u, Epilogue(u)) by {
      if u.Frame() > 0 {
        assert Epilogue(u) == [AddRsp(u.Frame()), Pop(Rbp), Instr.Ret];
      } else {
        assert Epilogue(u) == [Pop(Rbp), Instr.Ret];
      }
    }
    PieceConcat(u, ReturnCode(u, value), Epilogue(u));
  }

  // Both stubs are bound inside the branch.
  lemma BranchIsPiece(u: Compilation, b: BlockId, cond: VReg, thenBB: BlockId, elseBB: BlockId)
    requires Placed(u) && HasBlock(u.f, thenBB) && HasBlock(u.f, elseBB)
    ensures Piece(u, TermCode(u, Block(b, [], Br(cond, thenBB, elseBB))))
  {
    var loads := ReadValue(u, cond, u.c.temporary);
    var thenEdge := EdgeCode(u, b, thenBB);
    var elseEdge := EdgeCode(u, b, elseBB);
    var test := Test(Gp(ValueReg(u, cond, u.c.temporary)));
    ReadIsPlain(u, LocOf(u.locs, cond), u.c.temporary);
    PlainIsPiece(u, loads);
    EdgeIsPiece(u, b, thenBB);
    EdgeIsPiece(u, b, elseBB);
    ForkIsPiece(u, b, test, thenEdge, elseEdge);
    var head := [test, Jnz(ThenStub(b)), Instr.Jmp(ElseStub(b))];
    PieceConcat(u, loads, head + ([Bind(ThenStub(b))] + thenEdge) + ([Bind(ElseStub(b))] + elseEdge));
    Regroup(loads, head + ([Bind(ThenStub(b))] + thenEdge), [Bind(ElseStub(b))] + elseEdge);
    Regroup(loads, head, [Bind(ThenStub(b))] + thenEdge);
  }

  lemma ForkIsPiece(u: Compilation, b: BlockId, test: Instr, s: seq<Instr>, t: seq<Instr>)
    requires test.Test? && Piece(u, s) && Piece(u, t)
    ensures Piece(u,
      [test, Jnz(ThenStub(b)), Instr.Jmp(ElseStub(b))] + ([Bind(ThenStub(b))] + s) + ([Bind(ElseStub(b))] + t))
  {
    var head := [test, Jnz(ThenStub(b)), Instr.Jmp(ElseStub(b))];
    var first, second := [Bind(ThenStub(b))] + s, [Bind(ElseStub(b))] + t;
    assert Piece(u, [Bind(ThenStub(b))]) && Piece(u, [Bind(ElseStub(b))]);
    PieceConcat(u, [Bind(ThenStub(b))], s);
    PieceConcat(u, [Bind(ElseStub(b))], t);
    PieceConcat(u, first, second);
    var rest := first + second;
    assert first[0] in rest && second[0] in rest;
    HeadIsPiece(u, head, rest);
    Regroup(head, first, second);
  }

  // A branch's own jumps, whose stubs lie in what follows.
  lemma HeadIsPiece(u: Compilation, head: seq<Instr>, rest: seq<Instr>)
    requires |head| == 3 && head[0].Test? && head[1].Jnz? && head[2].Jmp? && Piece(u, rest)
    requires Bind(head[1].target) in rest && Bind(head[2].target) in rest
    ensures Piece(u, head + rest)
  {
    var all := head + rest;
    assert Resolved(u, all, head[1].target) && Resolved(u, all, head[2].target);
    forall i | i in all
      ensures Plain(u, i) || i.Bind? || Deallocates(u, i) || (Jumps(i) && Resolved(u, all, i.target))
    {
      if i in rest {
        assert Jumps(i) && Resolved(u, rest, i.target) ==> Resolved(u, all, i.target);
      }
    }
    forall k
      ensures LinkedAt(u, all, k)
    {
      assert LinkedAt(u, rest, k - 3);
    }
  }

  lemma TermIsPiece(u: Compilation, block: Block)
    requires Placed(u) && forall s :: s in Successors(block.term) ==> HasBlock(u.f, s)
    ensures Piece(u, TermCode(u, block))
  {
    match block.term
    case Ret(value) =>
      ReturnIsPiece(u, value);
    case Jmp(target) =>
      assert target in Successors(block.term);
      EdgeIsPiece(u, block.id, target);
    case Br(cond, thenBB, elseBB) =>
      assert thenBB in Successors(block.term) && elseBB in Successors(block.term);
      BranchIsPiece(u, block.id, cond, thenBB, elseBB);
  }

  lemma BlockIsPiece(u: Compilation, block: Block)
    requires Placed(u) && SuccessorsKnown(u.f, block)
    ensures Piece(u, BlockCode(u, block))
  {
    InstsArePiece(u, block);
    TermIsPiece(u, block);
    var head := [Bind(BlockLabel(block.id))];
    assert Piece(u, head);
    PieceConcat(u, head, Flatten(InstParts(u, block), 0));
    PieceConcat(u, head + Flatten(InstParts(u, block), 0), TermCode(u, block));
  }

  lemma BlockIsPieceAt(u: Compilation, i: nat)
    requires Placed(u) && KnownSuccessors(u.f) && i < |u.f.blocks|
    ensures Piece(u, BlockCode(u, u.f.blocks[i]))
  {
    assert SuccessorsKnown(u.f, u.f.blocks[i]);
    BlockIsPiece(u, u.f.blocks[i]);
  }

  lemma BlocksArePiece(u: Compilation)
    requires Placed(u) && KnownSuccessors(u.f)
    ensures Piece(u, Flatten(BlockParts(u), 0))
  {
    var parts := BlockParts(u);
    forall i | 0 <= i < |parts|
      ensures Piece(u, parts[i])
    {
      BlockIsPieceAt(u, i);
    }
    PiecesFlatten(u, parts, 0);
  }

  // ---------- the layout of a whole function ----------

  function Body(u: Compilation): seq<Instr> {
    [Instr.Jmp(BlockLabel(u.f.entry))] + Flatten(BlockParts(u), 0)
  }

  lemma FunctionIsPrologueAndBody(u: Compilation)
    requires u.f.args <= 6
    ensures FunctionCode(u) == Prologue(u) + Body(u)
  {
    Regroup(Prologue(u), [Instr.Jmp(BlockLabel(u.f.entry))], Flatten(BlockParts(u), 0));
  }

  predicate Ends(s: seq<Instr>) {
    s != [] && (s[|s| - 1].Ret? || s[|s| - 1].Jmp?)
  }

  lemma ConcatEnds(s: seq<Instr>, t: seq<Instr>)
    requires Ends(t)
    ensures Ends(s + t)
  {
  }

  lemma BlockEnds(u: Compilation, block: Block)
    ensures Ends(BlockCode(u, block))
  {
    assert Ends(TermCode(u, block));
    ConcatEnds([Bind(BlockLabel(block.id))] + Flatten(InstParts(u, block), 0), TermCode(u, block));
  }

  lemma {:induction false} FlattenEnds(parts: seq<seq<Instr>>, from: nat)
    requires from < |parts| && Ends(parts[|parts| - 1])
    ensures Ends(Flatten(parts, from))
    decreases |parts| - from
  {
    if from + 1 < |parts| {
      FlattenEnds(parts, from + 1);
      ConcatEnds(parts[from], Flatten(parts, from + 1));
    } else {
      assert Flatten(parts, from) == parts[from];
    }
  }

  lemma BlocksEnd(u: Compilation)
    requires |u.f.blocks| > 0
    ensures Ends(Flatten(BlockParts(u), 0))
  {
    BlockEnds(u, u.f.blocks[|u.f.blocks| - 1]);
    FlattenEnds(BlockParts(u), 0);
  }

  lemma WholeAt(code: seq<Instr>)
    ensures At(code, 0, code)
  {
    assert code[0..0 + |code|] == code;
  }

  lemma BlocksBind(u: Compilation, j: nat)
    requires j < |u.f.blocks|
    ensures Bind(BlockLabel(u.f.blocks[j].id)) in Flatten(BlockParts(u), 0)
  {
    var code := Flatten(BlockParts(u), 0);
    WholeAt(code);
    PartAt(code, 0, BlockParts(u), j);
    AtFirst(code, FlatOffset(BlockParts(u), j), BlockCode(u, u.f.blocks[j]));
  }

  // A body that starts at `start`: every jump has its target there, and control never runs off its end.
  ghost predicate Laid(u: Compilation, code: seq<Instr>, start: nat) {
    && start < |code|
    && Ends(code)
    && (forall k :: start < k < |code| ==> LinkedAt(u, code, k))
    && (forall k :: start <= k < |code| ==> InBody(u, code, start, code[k]))
    && (forall k :: 0 <= k < start ==> !code[k].Bind?)
    && !code[start].Jg? && !code[start].Jnz?
  }

  ghost predicate InBody(u: Compilation, code: seq<Instr>, start: nat, i: Instr) {
    Plain(u, i) || i.Bind? || Deallocates(u, i) || (Jumps(i) && Bind(i.target) in code)
  }

  lemma {:induction false} ShadowHasNoLabels(from: nat, args: nat)
    requires from <= args <= 6
    ensures forall i :: i in ShadowCode(from, args) ==> Straight(i) && !i.Bind?
    decreases args - from
  {
    if from < args {
      ShadowHasNoLabels(from + 1, args);
    }
  }

  lemma PrologueHasNoLabels(u: Compilation)
    requires u.f.args <= 6
    ensures forall i :: i in Prologue(u) ==> Straight(i) && !i.Bind?
  {
    ShadowHasNoLabels(0, u.f.args);
  }

  lemma BodyIsPiece(u: Compilation)
    requires Placed(u) && KnownSuccessors(u.f) && HasBlock(u.f, u.f.entry)
    ensures Piece(u, Body(u))
  {
    BlocksArePiece(u);
    JumpIsPiece(u, u.f.entry);
    PieceConcat(u, [Instr.Jmp(BlockLabel(u.f.entry))], Flatten(BlockParts(u), 0));
  }

  lemma JumpIsPiece(u: Compilation, b: BlockId)
    requires HasBlock(u.f, b)
    ensures Piece(u, [Instr.Jmp(BlockLabel(b))])
  {
  }

  lemma BodyResolves(u: Compilation, l: Label)
    requires Resolved(u, Body(u), l)
    ensures Bind(l) in Body(u)
  {
    if Bind(l) !in Body(u) {
      var j :| 0 <= j < |u.f.blocks| && u.f.blocks[j].id == l.block;
      BlocksBind(u, j);
    }
  }

  lemma PieceIsLaid(u: Compilation, before: seq<Instr>, body: seq<Instr>)
    requires Piece(u, body) && Ends(body) && body[0].Jmp?
    requires forall i :: i in before ==> !i.Bind?
    requires forall i :: i in body && Jumps(i) ==> Bind(i.target) in body
    ensures Laid(u, before + body, |before|)
  {
    var code := before + body;
    forall k | |before| < k < |code|
      ensures LinkedAt(u, code, k)
    {
      assert LinkedAt(u, body, k - |before|);
    }
    forall k | |before| <= k < |code|
      ensures InBody(u, code, |before|, code[k])
    {
      assert code[k] == body[k - |before|] && code[k] in body;
    }
    forall k | 0 <= k < |before|
      ensures !code[k].Bind?
    {
      assert before[k] in before;
    }
  }

  lemma FunctionIsLaid(u: Compilation)
    requires Placed(u) && WellShaped(u.f)
    ensures Laid(u, FunctionCode(u), |Prologue(u)|)
  {
    FunctionIsPrologueAndBody(u);
    PrologueHasNoLabels(u);
    BodyIsPiece(u);
    BlocksEnd(u);
    BodyJumpsResolve(u);
    PieceIsLaid(u, Prologue(u), Body(u));
  }

  lemma JumpIsResolved(u: Compilation, s: seq<Instr>, i: Instr)
    requires Closed(u, s) && i in s && Jumps(i)
    ensures Resolved(u, s, i.target)
  {
  }

  lemma BodyJumpsResolve(u: Compilation)
    requires Closed(u, Body(u))
    ensures forall i :: i in Body(u) && Jumps(i) ==> Bind(i.target) in Body(u)
  {
    forall i | i in Body(u) && Jumps(i)
      ensures Bind(i.target) in Body(u)
    {
      JumpIsResolved(u, Body(u), i);
      BodyResolves(u, i.target);
    }
  }

  // ---------- the invariant of every run ----------

  function EntryRsp(d0: Data): int {
    Get(d0, Rsp)
  }

  // Where rbp points while the frame stands: at the saved rbp, just below the return address.
  function Base(d0: Data): int {
    EntryRsp(d0) - 8
  }

  ghost predicate ShadowsHold(u: Compilation, d0: Data, d: Data) {
    u.f.args <= 6 && forall i :: 0 <= i < u.f.args ==>
      Cell(d, Base(d0) + ShadowOffset(i)) == Get(d0, Gp(ARGUMENT_REGISTERS[i]))
  }

  // Memory above and below the frame is untouched.
  ghost predicate OutsideKept(u: Compilation, d0: Data, d: Data) {
    forall a :: a >= EntryRsp(d0) || a < Base(d0) - u.Frame() ==> Cell(d, a) == Cell(d0, a)
  }

  ghost predicate Kept(u: Compilation, d0: Data, d: Data) {
    && Get(d, Gp(Rbx)) == Get(d0, Gp(Rbx))
    && Cell(d, Base(d0)) == Get(d0, Rbp)
    && OutsideKept(u, d0, d)
    && ShadowsHold(u, d0, d)
  }

  // Where rsp and rbp point before instruction i, and that a conditional jump has a comparison.
  ghost predicate FrameAt(u: Compilation, d0: Data, d: Data, i: Instr) {
    && (match i
        case Ret => Get(d, Rsp) == EntryRsp(d0) && Get(d, Rbp) == Get(d0, Rbp)
        case Pop(_) => Get(d, Rsp) == Base(d0) && Get(d, Rbp) == Base(d0)
        case _ => Get(d, Rsp) == Base(d0) - u.Frame() && Get(d, Rbp) == Base(d0))
    && (i.Jg? || i.Jnz? ==> d.flags.Compared?)
  }

  ghost predicate Restored(u: Compilation, d0: Data, d: Data) {
    && Get(d, Rsp) == EntryRsp(d0)
    && Get(d, Rbp) == Get(d0, Rbp)
    && Get(d, Gp(Rbx)) == Get(d0, Gp(Rbx))
    && OutsideKept(u, d0, d)
    && ShadowsHold(u, d0, d)
  }

  ghost predicate InFrame(u: Compilation, code: seq<Instr>, start: nat, d0: Data, m: Machine) {
    match m
    case Running(pc, d) => start <= pc < |code| && Kept(u, d0, d) && FrameAt(u, d0, d, code[pc])
    case Halted(d) => Restored(u, d0, d)
    case Stuck => false
  }

  lemma SpillIsInside(u: Compilation, offset: int)
    requires SpillOffset(u, offset)
    ensures -offset <= u.Frame() && offset < 0
    ensures forall i :: 0 <= i < u.f.args ==> offset < ShadowOffset(i)
  {
    FrameIsLeast(u.f.args + u.stackSlots);
  }

  lemma PlainKeeps(u: Compilation, d0: Data, d: Data, i: Instr)
    requires Plain(u, i) && Kept(u, d0, d) && Get(d, Rbp) == Base(d0)
    ensures Kept(u, d0, Exec1(i, d)) && Get(Exec1(i, d), Rsp) == Get(d, Rsp) && Get(Exec1(i, d), Rbp) == Get(d, Rbp)
    ensures i.Cmp? || i.Test? ==> Exec1(i, d).flags.Compared?
  {
    if i.Store? {
      SpillIsInside(u, i.offset);
      var e := Exec1(i, d);
      forall k | 0 <= k < u.f.args
        ensures Cell(e, Base(d0) + ShadowOffset(k)) == Cell(d, Base(d0) + ShadowOffset(k))
      {
      }
    }
  }

  lemma FallsThrough(u: Compilation, code: seq<Instr>, start: nat, pc: nat)
    requires Laid(u, code, start) && start <= pc < |code| && !code[pc].Ret? && !code[pc].Jmp?
    ensures pc + 1 < |code| && MayFollow(u, code[pc], code[pc + 1])
  {
    assert LinkedAt(u, code, pc + 1);
  }

  lemma JumpLands(u: Compilation, code: seq<Instr>, start: nat, d0: Data, d: Data, l: Label)
    requires Laid(u, code, start) && Bind(l) in code && Kept(u, d0, d)
    requires Get(d, Rsp) == Base(d0) - u.Frame() && Get(d, Rbp) == Base(d0)
    ensures InFrame(u, code, start, d0, Goto(code, l, d))
  {
    var found := Address(code, l, 0);
  }

  lemma PlainStep(u: Compilation, code: seq<Instr>, start: nat, d0: Data, pc: nat, d: Data)
    requires Laid(u, code, start) && InFrame(u, code, start, d0, Running(pc, d)) && Plain(u, code[pc])
    ensures InFrame(u, code, start, d0, Step(code, Running(pc, d)))
  {
    PlainKeeps(u, d0, d, code[pc]);
    FallsThrough(u, code, start, pc);
  }

  lemma JumpStep(u: Compilation, code: seq<Instr>, start: nat, d0: Data, pc: nat, d: Data)
    requires Laid(u, code, start) && InFrame(u, code, start, d0, Running(pc, d))
    requires Jumps(code[pc]) && Bind(code[pc].target) in code
    ensures InFrame(u, code, start, d0, Step(code, Running(pc, d)))
  {
    JumpLands(u, code, start, d0, d, code[pc].target);
    if !code[pc].Jmp? {
      FallsThrough(u, code, start, pc);
    }
  }

  lemma OtherStep(u: Compilation, code: seq<Instr>, start: nat, d0: Data, pc: nat, d: Data)
    requires Laid(u, code, start) && InFrame(u, code, start, d0, Running(pc, d))
    requires code[pc].Bind? || code[pc] == AddRsp(u.Frame()) || code[pc] == Pop(Rbp)
    ensures InFrame(u, code, start, d0, Step(code, Running(pc, d)))
  {
    FallsThrough(u, code, start, pc);
  }

  lemma BodyStep(u: Compilation, code: seq<Instr>, start: nat, d0: Data, pc: nat, d: Data)
    requires Laid(u, code, start) && InFrame(u, code, start, d0, Running(pc, d))
    ensures InFrame(u, code, start, d0, Step(code, Running(pc, d)))
  {
    var i := code[pc];
    assert InBody(u, code, start, i);
    if Plain(u, i) {
      PlainStep(u, code, start, d0, pc, d);
    } else if Jumps(i) {
      JumpStep(u, code, start, d0, pc, d);
    } else if !i.Ret? {
      OtherStep(u, code, start, d0, pc, d);
    }
  }

  lemma {:induction false} InFrameForever(u: Compilation, code: seq<Instr>, start: nat, d0: Data, m: Machine, n: nat)
    requires Laid(u, code, start) && InFrame(u, code, start, d0, m)
    ensures InFrame(u, code, start, d0, Run(code, m, n))
    decreases n
  {
    if n > 0 {
      if m.Running? {
        BodyStep(u, code, start, d0, m.pc, m.data);
      }
      InFrameForever(u, code, start, d0, Step(code, m), n - 1);
    }
  }

  // ---------- the prologue ----------

  lemma {:induction false} ShadowEffect(from: nat, args: nat, d: Data)
    requires from <= args <= 6
    ensures var e := Exec(ShadowCode(from, args), d);
      e.regs == d.regs && e.flags == d.flags &&
      (forall i :: from <= i < args ==> Cell(e, Get(d, Rbp) + ShadowOffset(i)) == Get(d, Gp(ARGUMENT_REGISTERS[i]))) &&
      (forall a :: a >= Get(d, Rbp) + ShadowOffset(from) + 8 || a < Get(d, Rbp) - 8 * args ==> Cell(e, a) == Cell(d, a))
    decreases args - from
  {
    if from < args {
      var mid := Exec1(Store(ShadowOffset(from), Gp(ARGUMENT_REGISTERS[from])), d);
      ShadowEffect(from + 1, args, mid);
      assert ShadowCode(from, args)[1..] == ShadowCode(from + 1, args);
      assert Exec(ShadowCode(from, args), d) == Exec(ShadowCode(from + 1, args), mid);
      assert Cell(mid, Get(d, Rbp) + ShadowOffset(from)) == Get(d, Gp(ARGUMENT_REGISTERS[from]));
    }
  }

  lemma FrameEffect(u: Compilation, d0: Data)
    ensures var e := Exec(FrameCode(u), d0);
      Get(e, Rsp) == Base(d0) - u.Frame() && Get(e, Rbp) == Base(d0) &&
      (forall r: PhysReg :: Get(e, Gp(r)) == Get(d0, Gp(r))) &&
      (forall a :: Cell(e, a) == if a == Base(d0) then Get(d0, Rbp) else Cell(d0, a))
  {
    var d1 := Exec1(Push(Rbp), d0);
    var d2 := Exec1(MovReg(Rbp, Rsp), d1);
    var tail := if u.Frame() > 0 then [SubRsp(u.Frame())] else [];
    assert FrameCode(u) == [Push(Rbp)] + ([MovReg(Rbp, Rsp)] + tail);
    ExecConcat([Push(Rbp)], [MovReg(Rbp, Rsp)] + tail, d0);
    ExecOne(Push(Rbp), d0);
    ExecConcat([MovReg(Rbp, Rsp)], tail, d1);
    ExecOne(MovReg(Rbp, Rsp), d1);
    if u.Frame() > 0 {
      ExecOne(SubRsp(u.Frame()), d2);
    }
  }

  lemma PrologueEffect(u: Compilation, d0: Data)
    requires u.f.args <= 6
    ensures var e := Exec(Prologue(u), d0);
      Kept(u, d0, e) && Get(e, Rsp) == Base(d0) - u.Frame() && Get(e, Rbp) == Base(d0)
  {
    var d := Exec(FrameCode(u), d0);
    ExecConcat(FrameCode(u), ShadowCode(0, u.f.args), d0);
    FrameEffect(u, d0);
    ShadowEffect(0, u.f.args, d);
    FrameIsLeast(u.f.args + u.stackSlots);
  }

  // After the prologue the arguments lie below the saved rbp, one under the other.
  lemma ArgumentsAreShadowed(u: Compilation, d0: Data)
    requires u.f.args <= 6
    ensures var e := Exec(Prologue(u), d0); var rbp := Get(d0, Rsp) - 8;
      && Get(e, Rbp) == rbp && Cell(e, rbp) == Get(d0, Rbp)
      && (u.f.args > 0 ==> Cell(e, rbp - 8) == Get(d0, Gp(Rdi)))
      && (u.f.args > 1 ==> Cell(e, rbp - 16) == Get(d0, Gp(Rsi)))
      && (u.f.args > 2 ==> Cell(e, rbp - 24) == Get(d0, Gp(Rdx)))
      && (u.f.args > 3 ==> Cell(e, rbp - 32) == Get(d0, Gp(Rcx)))
      && (u.f.args > 4 ==> Cell(e, rbp - 40) == Get(d0, Gp(R8)))
      && (u.f.args > 5 ==> Cell(e, rbp - 48) == Get(d0, Gp(R9)))
  {
    PrologueEffect(u, d0);
    if u.f.args > 0 {
      ArgumentIsShadowed(u, d0, 0);
    }
    if u.f.args > 1 {
      ArgumentIsShadowed(u, d0, 1);
    }
    if u.f.args > 2 {
      ArgumentIsShadowed(u, d0, 2);
    }
    if u.f.args > 3 {
      ArgumentIsShadowed(u, d0, 3);
    }
    if u.f.args > 4 {
      ArgumentIsShadowed(u, d0, 4);
    }
    if u.f.args > 5 {
      ArgumentIsShadowed(u, d0, 5);
    }
  }

  lemma ArgumentIsShadowed(u: Compilation, d0: Data, i: nat)
    requires u.f.args <= 6 && i < u.f.args
    ensures Cell(Exec(Prologue(u), d0), Get(d0, Rsp) - 8 - 8 * (i + 1)) == Get(d0, Gp(ARGUMENT_REGISTERS[i]))
  {
    PrologueEffect(u, d0);
    assert ShadowsHold(u, d0, Exec(Prologue(u), d0));
    assert Base(d0) + ShadowOffset(i) == Get(d0, Rsp) - 8 - 8 * (i + 1);
  }

  // The prologue itself cannot stop, and leaves the frame standing.
  lemma PrologueRuns(u: Compilation, d0: Data, n: nat)
    requires Placed(u) && WellShaped(u.f) && n <= |Prologue(u)|
    ensures Run(FunctionCode(u), Running(0, d0), n) == Running(n, Exec(Prologue(u)[..n], d0))
  {
    FunctionIsPrologueAndBody(u);
    PrologueHasNoLabels(u);
    var prefix := Prologue(u)[..n];
    assert FunctionCode(u)[0..0 + |prefix|] == prefix;
    forall i | i in prefix
      ensures Straight(i)
    {
      assert i in Prologue(u);
    }
    RunStraight(FunctionCode(u), 0, prefix, d0);
  }

  lemma BodyEntered(u: Compilation, d0: Data)
    requires Placed(u) && WellShaped(u.f)
    ensures var m := Run(FunctionCode(u), Running(0, d0), |Prologue(u)|);
      m == Running(|Prologue(u)|, Exec(Prologue(u), d0)) && InFrame(u, FunctionCode(u), |Prologue(u)|, d0, m)
  {
    PrologueRuns(u, d0, |Prologue(u)|);
    assert Prologue(u)[..|Prologue(u)|] == Prologue(u);
    PrologueEffect(u, d0);
    FunctionIsPrologueAndBody(u);
    assert FunctionCode(u)[|Prologue(u)|] == Instr.Jmp(BlockLabel(u.f.entry));
  }

  // In every run of emitted code, from any state: it never gets stuck; once the frame stands rbp,
  // rsp and the argument shadows are right at every instruction and nothing outside the frame has
  // changed; and at `ret`, rsp, rbp and rbx have their entry values.
  lemma FrameDiscipline(f: Function, a: Assignment, regs: PhysRegSet, d0: Data, n: nat)
    requires Accepted(f, a, regs) && FrameFits(f.args + a.stackSlots)
    ensures var u := CompilationOf(f, a, regs);
      var m := Run(FunctionCode(u), Running(0, d0), n);
      if n < |Prologue(u)| then m.Running? && m.pc == n else InFrame(u, FunctionCode(u), |Prologue(u)|, d0, m)
  {
    var u := CompilationOf(f, a, regs);
    AcceptedIsPlaced(f, a, regs);
    FramedRun(u, d0, n);
  }

  lemma RunFromBody(u: Compilation, code: seq<Instr>, start: nat, d0: Data, n: nat)
    requires Laid(u, code, start) && n >= start && InFrame(u, code, start, d0, Run(code, Running(0, d0), start))
    ensures InFrame(u, code, start, d0, Run(code, Running(0, d0), n))
  {
    RunAdds(code, Running(0, d0), start, n - start);
    InFrameForever(u, code, start, d0, Run(code, Running(0, d0), start), n - start);
  }

  lemma FramedRun(u: Compilation, d0: Data, n: nat)
    requires Placed(u) && WellShaped(u.f)
    ensures var m := Run(FunctionCode(u), Running(0, d0), n);
      if n < |Prologue(u)| then m.Running? && m.pc == n else InFrame(u, FunctionCode(u), |Prologue(u)|, d0, m)
  {
    if n < |Prologue(u)| {
      PrologueRuns(u, d0, n);
    } else {
      BodyEntered(u, d0);
      FunctionIsLaid(u);
      RunFromBody(u, FunctionCode(u), |Prologue(u)|, d0, n);
    }
  }

  // Distinct slots and shadows have distinct cells, all inside the frame.
  lemma SlotsAreDisjoint(u: Compilation, i: nat, s: StackSlot, t: StackSlot)
    requires u.c.shadow == u.f.args && i < u.f.args && s.index < u.stackSlots && t.index < u.stackSlots
    ensures StackOffset(u.c.shadow, s) < ShadowOffset(i) < 0 && -StackOffset(u.c.shadow, s) <= u.Frame()
    ensures s != t ==> StackOffset(u.c.shadow, s) != StackOffset(u.c.shadow, t)
    ensures t.index == s.index + 1 ==> StackOffset(u.c.shadow, t) == StackOffset(u.c.shadow, s) - 8
    ensures s.index == 0 && i == u.f.args - 1 ==> StackOffset(u.c.shadow, s) == ShadowOffset(i) - 8
  {
    FrameIsLeast(u.f.args + u.stackSlots);
  }
}
