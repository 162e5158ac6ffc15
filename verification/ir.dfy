// The intermediate representation: SSA values, instructions, blocks and functions.
module Ir {
  import opened Wrappers

  const TWO_TO_THE_63: int := 0x8000_0000_0000_0000
  const TWO_TO_THE_64: int := 0x1_0000_0000_0000_0000

  type I64 = x: int | -TWO_TO_THE_63 <= x < TWO_TO_THE_63

  datatype VReg = VReg(id: nat)
  datatype BlockId = BlockId(id: nat)

  datatype Inst =
    | ConstI64(dst: VReg, imm: I64)
    | AddI64(dst: VReg, a: VReg, b: VReg)
    | MulI64(dst: VReg, a: VReg, b: VReg)
    | MovI64(dst: VReg, src: VReg)
    | CmpGtI64(dst: VReg, a: VReg, b: VReg)
    | PhiI64(dst: VReg, incoming: seq<(BlockId, VReg)>)
    | ArgI64(dst: VReg, idx: nat)

  datatype Terminator =
    | Ret(value: VReg)
    | Jmp(target: BlockId)
    | Br(cond: VReg, thenBB: BlockId, elseBB: BlockId)

  datatype Block = Block(id: BlockId, insts: seq<Inst>, term: Terminator)

  datatype Function = Function(args: nat, entry: BlockId, blocks: seq<Block>)

  function Successors(term: Terminator): seq<BlockId> {
    match term
    case Ret(_) => []
    case Jmp(target) => [target]
    case Br(_, thenBB, elseBB) => [thenBB, elseBB]
  }

  // Every instruction defines exactly one value, its `dst`.

  function Uses(inst: Inst): seq<VReg> {
    match inst
    case ConstI64(_, _) => []
    case ArgI64(_, _) => []
    case AddI64(_, a, b) => [a, b]
    case MulI64(_, a, b) => [a, b]
    case CmpGtI64(_, a, b) => [a, b]
    case MovI64(_, src) => [src]
    case PhiI64(_, incoming) => seq(|incoming|, i requires 0 <= i < |incoming| => incoming[i].1)
  }

  function TermUses(term: Terminator): seq<VReg> {
    match term
    case Ret(value) => [value]
    case Jmp(_) => []
    case Br(cond, _, _) => [cond]
  }

  // Two's-complement reduction to 64 bits, shared by the interpreter and the machine.
  function Wrap(x: int): I64 {
    (x + TWO_TO_THE_63) % TWO_TO_THE_64 - TWO_TO_THE_63
  }

  function WrappingAdd(x: int, y: int): I64 {
    Wrap(x + y)
  }

  function WrappingMul(x: int, y: int): I64 {
    Wrap(x * y)
  }

  // ---------- block lookup ----------

  predicate HasBlock(f: Function, id: BlockId) {
    exists i :: 0 <= i < |f.blocks| && f.blocks[i].id == id
  }

  predicate UniqueIds(f: Function) {
    forall i, j :: 0 <= i < j < |f.blocks| ==> f.blocks[i].id != f.blocks[j].id
  }

  function FindIndex(blocks: seq<Block>, id: BlockId, from: nat): (r: Option<nat>)
    requires from <= |blocks|
    ensures r.Some? ==> from <= r.value < |blocks| && blocks[r.value].id == id
    ensures r.None? ==> forall i :: from <= i < |blocks| ==> blocks[i].id != id
    decreases |blocks| - from
  {
    if from == |blocks| then None
    else if blocks[from].id == id then Some(from)
    else FindIndex(blocks, id, from + 1)
  }

  // The first block with the given id, as `Function::try_block` finds it.
  function TryBlock(f: Function, id: BlockId): (r: Option<Block>)
    ensures r.Some? <==> HasBlock(f, id)
    ensures r.Some? ==> r.value in f.blocks && r.value.id == id
  {
    match FindIndex(f.blocks, id, 0)
    case None => None
    case Some(i) => Some(f.blocks[i])
  }

  predicate FirstWithId(blocks: seq<Block>, id: BlockId, from: nat, i: nat) {
    && from <= i < |blocks|
    && blocks[i].id == id
    && forall j :: from <= j < i ==> blocks[j].id != id
  }

  lemma {:induction false} FirstIndexIsFound(blocks: seq<Block>, id: BlockId, from: nat)
    requires from <= |blocks| && FindIndex(blocks, id, from).Some?
    ensures FirstWithId(blocks, id, from, FindIndex(blocks, id, from).value)
    decreases |blocks| - from
  {
    if blocks[from].id != id {
      FirstIndexIsFound(blocks, id, from + 1);
    }
  }

  // Lookup decides whether a block has the id, and of several such blocks it finds the first.
  lemma FirstBlockIsFound(f: Function, id: BlockId)
    ensures TryBlock(f, id).None? <==> forall i :: 0 <= i < |f.blocks| ==> f.blocks[i].id != id
    ensures TryBlock(f, id).Some? ==>
      exists i: nat :: FirstWithId(f.blocks, id, 0, i) && TryBlock(f, id).value == f.blocks[i]
  {
    if TryBlock(f, id).Some? {
      FirstIndexIsFound(f.blocks, id, 0);
    }
  }

  function IndexOf(f: Function, id: BlockId): (i: nat)
    requires HasBlock(f, id)
    ensures i < |f.blocks| && f.blocks[i].id == id
  {
    FindIndex(f.blocks, id, 0).value
  }

  function BlockAt(f: Function, id: BlockId): (b: Block)
    requires HasBlock(f, id)
    ensures b in f.blocks && b.id == id && b == f.blocks[IndexOf(f, id)]
  {
    TryBlock(f, id).value
  }

  lemma BlockAtIndex(f: Function, i: nat)
    requires UniqueIds(f) && i < |f.blocks|
    ensures HasBlock(f, f.blocks[i].id) && IndexOf(f, f.blocks[i].id) == i && BlockAt(f, f.blocks[i].id) == f.blocks[i]
  {
  }
}
