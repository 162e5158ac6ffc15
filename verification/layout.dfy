// Where the blocks of emitted code lie, and that every label is bound once.
module Layout {
  import opened Ir
  import opened Cfg
  import opened Alloc
  import opened Machine
  import opened Lowering
  import opened Frames

  ghost predicate UniqueLabels(s: seq<Instr>) {
    forall i, j :: 0 <= i < j < |s| && s[i].Bind? ==> s[i] != s[j]
  }

  lemma UniqueConcat(s: seq<Instr>, t: seq<Instr>)
    requires UniqueLabels(s) && UniqueLabels(t)
    requires forall l :: Bind(l) in s ==> Bind(l) !in t
    ensures UniqueLabels(s + t)
  {
    var both := s + t;
    forall i, j | 0 <= i < j < |both| && both[i].Bind?
      ensures both[i] != both[j]
    {
      if i < |s| && j >= |s| {
        assert Bind(both[i].name) in s && both[j] in t;
      }
    }
  }

  predicate NoLabels(s: seq<Instr>) {
    forall i :: i in s ==> !i.Bind?
  }

  lemma NoLabelsConcat(s: seq<Instr>, t: seq<Instr>)
    requires NoLabels(s) && UniqueLabels(t)
    ensures UniqueLabels(s + t) && UniqueLabels(t + s)
    ensures forall l :: Bind(l) in s + t <==> Bind(l) in t
    ensures forall l :: Bind(l) in t + s <==> Bind(l) in t
  {
    assert UniqueLabels(s);
    UniqueConcat(s, t);
    UniqueConcat(t, s);
  }

  // Every label bound in s has the key k.
  ghost predicate Keyed(s: seq<Instr>, key: Label -> int, k: int) {
    forall l :: Bind(l) in s ==> key(l) == k
  }

  lemma {:induction false} UniqueFlatten(parts: seq<seq<Instr>>, from: nat, key: Label -> int)
    requires from <= |parts|
    requires forall k :: from <= k < |parts| ==> UniqueLabels(parts[k]) && Keyed(parts[k], key, k)
    ensures UniqueLabels(Flatten(parts, from))
    ensures forall l :: Bind(l) in Flatten(parts, from) ==> from <= key(l) < |parts|
    decreases |parts| - from
  {
    if from < |parts| {
      UniqueFlatten(parts, from + 1, key);
      UniqueConcat(parts[from], Flatten(parts, from + 1));
    }
  }

  // A uniquely bound label is found where it is bound.
  lemma GotoBound(code: seq<Instr>, pc: nat, l: Label, d: Data)
    requires UniqueLabels(code) && pc < |code| && code[pc] == Bind(l)
    ensures Goto(code, l, d) == Running(pc, d)
  {
    var found := Address(code, l, 0).value;
    assert code[found] == code[pc];
  }

  // ---------- the labels of one block ----------

  lemma SelectLabels(u: Compilation, b: BlockId, k: nat)
    ensures UniqueLabels(SelectCode(u, b, k))
    ensures forall l :: Bind(l) in SelectCode(u, b, k) ==> l == TrueLabel(b, k) || l == DoneLabel(b, k)
  {
  }

  lemma CompareHasNoLabels(u: Compilation, x: VReg, y: VReg)
    requires Placed(u)
    ensures NoLabels(CompareCode(u, x, y))
  {
    ReadIsPlain(u, LocOf(u.locs, x), u.c.temporary);
    ReadIsPlain(u, LocOf(u.locs, y), u.c.temporary2);
  }

  lemma InstLabels(u: Compilation, block: Block, k: nat)
    requires Placed(u) && k < |block.insts|
    ensures UniqueLabels(InstCode(u, block, k))
    ensures forall l :: Bind(l) in InstCode(u, block, k) ==> l == TrueLabel(block.id, k) || l == DoneLabel(block.id, k)
  {
    match block.insts[k]
    case CmpGtI64(dst, x, y) =>
      var write := WriteValue(u, dst, u.c.temporary);
      SelectLabels(u, block.id, k);
      CompareHasNoLabels(u, x, y);
      LocationIsGood(u, dst);
      WriteIsPlain(u, LocOf(u.locs, dst), u.c.temporary);
      NoLabelsConcat(CompareCode(u, x, y), SelectCode(u, block.id, k));
      NoLabelsConcat(write, CompareCode(u, x, y) + SelectCode(u, block.id, k));
    case _ =>
      InstIsPlain(u, block, k);
  }

  function IndexKey(l: Label): int {
    if l.TrueLabel? || l.DoneLabel? then l.index else -1
  }

  lemma InstsLabels(u: Compilation, block: Block)
    requires Placed(u)
    ensures UniqueLabels(Flatten(InstParts(u, block), 0))
    ensures forall l :: Bind(l) in Flatten(InstParts(u, block), 0) ==>
      l.block == block.id && (l.TrueLabel? || l.DoneLabel?)
  {
    var parts := InstParts(u, block);
    forall k | 0 <= k < |parts|
      ensures UniqueLabels(parts[k]) && Keyed(parts[k], IndexKey, k)
      ensures forall l :: Bind(l) in parts[k] ==> l.block == block.id
    {
      InstLabels(u, block, k);
    }
    UniqueFlatten(parts, 0, IndexKey);
    FlattenLabels(parts, 0, block.id);
  }

  lemma {:induction false} FlattenLabels(parts: seq<seq<Instr>>, from: nat, b: BlockId)
    requires from <= |parts|
    requires forall k, l :: from <= k < |parts| && Bind(l) in parts[k] ==> l.block == b
    ensures forall l :: Bind(l) in Flatten(parts, from) ==> l.block == b
    decreases |parts| - from
  {
    if from < |parts| {
      FlattenLabels(parts, from + 1, b);
    }
  }

  lemma EdgeHasNoLabels(u: Compilation, pred: BlockId, succ: BlockId)
    requires Placed(u)
    ensures NoLabels(EdgeCode(u, pred, succ))
  {
    EdgeMovesArePlain(u, pred, succ);
  }

  lemma TermLabels(u: Compilation, block: Block)
    requires Placed(u)
    ensures UniqueLabels(TermCode(u, block))
    ensures forall l :: Bind(l) in TermCode(u, block) ==> l == ThenStub(block.id) || l == ElseStub(block.id)
  {
    match block.term
    case Ret(value) =>
      ReadIsPlain(u, LocOf(u.locs, value), Rax);
      assert NoLabels(TermCode(u, block));
    case Jmp(target) =>
      EdgeHasNoLabels(u, block.id, target);
    case Br(cond, thenBB, elseBB) =>
      ReadIsPlain(u, LocOf(u.locs, cond), u.c.temporary);
      EdgeHasNoLabels(u, block.id, thenBB);
      EdgeHasNoLabels(u, block.id, elseBB);
      StubLabels(ThenStub(block.id), EdgeCode(u, block.id, thenBB));
      StubLabels(ElseStub(block.id), EdgeCode(u, block.id, elseBB));
      var first := [Bind(ThenStub(block.id))] + EdgeCode(u, block.id, thenBB);
      var second := [Bind(ElseStub(block.id))] + EdgeCode(u, block.id, elseBB);
      NoLabelsConcat(BranchCode(u, block.id, cond), first);
      UniqueConcat(BranchCode(u, block.id, cond) + first, second);
  }

  lemma StubLabels(stub: Label, edge: seq<Instr>)
    requires NoLabels(edge)
    ensures UniqueLabels([Bind(stub)] + edge)
    ensures forall l :: Bind(l) in [Bind(stub)] + edge <==> l == stub
  {
    NoLabelsConcat(edge, [Bind(stub)]);
  }

  lemma BlockLabels(u: Compilation, block: Block)
    requires Placed(u)
    ensures UniqueLabels(BlockCode(u, block))
    ensures forall l :: Bind(l) in BlockCode(u, block) ==> l.block == block.id
  {
    var head := [Bind(BlockLabel(block.id))];
    var insts := Flatten(InstParts(u, block), 0);
    InstsLabels(u, block);
    TermLabels(u, block);
    UniqueConcat(head, insts);
    UniqueConcat(head + insts, TermCode(u, block));
  }

  function BlockKey(f: Function): Label -> int {
    (l: Label) => if HasBlock(f, l.block) then IndexOf(f, l.block) else -1
  }

  lemma CodeLabelsAreUnique(u: Compilation)
    requires Placed(u) && UniqueIds(u.f)
    ensures UniqueLabels(FunctionCode(u))
  {
    var parts := BlockParts(u);
    forall i | 0 <= i < |parts|
      ensures UniqueLabels(parts[i]) && Keyed(parts[i], BlockKey(u.f), i)
    {
      BlockLabels(u, u.f.blocks[i]);
      BlockAtIndex(u.f, i);
    }
    UniqueFlatten(parts, 0, BlockKey(u.f));
    PrologueHasNoLabels(u);
    NoLabelsConcat(Prologue(u) + [Instr.Jmp(BlockLabel(u.f.entry))], Flatten(parts, 0));
  }

  // ---------- where blocks lie ----------

  function BlockPc(u: Compilation, i: nat): nat
    requires u.f.args <= 6 && i <= |u.f.blocks|
  {
    |Prologue(u)| + 1 + FlatOffset(BlockParts(u), i)
  }

  lemma PartBehind(head: seq<Instr>, parts: seq<seq<Instr>>, i: nat)
    requires i < |parts|
    ensures At(head + Flatten(parts, 0), |head| + FlatOffset(parts, i), parts[i])
  {
    var code := head + Flatten(parts, 0);
    WholeAt(code);
    AtSplit(code, 0, head, Flatten(parts, 0));
    PartAt(code, |head|, parts, i);
  }

  lemma BlockLies(u: Compilation, i: nat)
    requires u.f.args <= 6 && i < |u.f.blocks|
    ensures At(FunctionCode(u), BlockPc(u, i), BlockCode(u, u.f.blocks[i]))
  {
    var head, parts := Prologue(u) + [Instr.Jmp(BlockLabel(u.f.entry))], BlockParts(u);
    PartBehind(head, parts, i);
    assert parts[i] == BlockCode(u, u.f.blocks[i]) && |head| == |Prologue(u)| + 1;
  }
}
