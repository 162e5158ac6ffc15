// What the code of one instruction does to the values of locations.
module Effects {
  import opened Wrappers
  import opened Ir
  import opened Interp
  import opened Liveness
  import opened Alloc
  import opened Machine
  import opened ParallelMoves
  import opened Lowering
  import opened Frames

  // Only l and the temporaries may change.
  ghost predicate Writes(u: Compilation, d: Data, e: Data, l: MoveLocation) {
    forall o :: o != l && !IsTemporary(u.c, o) ==> Val(u.c, e, o) == Val(u.c, d, o)
  }

  ghost predicate OnlyReg(d: Data, e: Data, r: PhysReg) {
    e.mem == d.mem && forall o :: o != Gp(r) ==> Get(e, o) == Get(d, o)
  }

  lemma OnlyRegKeeps(c: Context, d: Data, e: Data, r: PhysReg, l: MoveLocation)
    requires OnlyReg(d, e, r) && l != InReg(r)
    ensures Val(c, e, l) == Val(c, d, l)
  {
  }

  lemma CopyEffect(dst: PhysReg, src: PhysReg, d: Data)
    ensures var e := Exec(CopyCode(dst, src), d); OnlyReg(d, e, dst) && Get(e, Gp(dst)) == Get(d, Gp(src))
  {
    ExecOne(MovReg(Gp(dst), Gp(src)), d);
  }

  lemma ReadIntoEffect(c: Context, l: MoveLocation, r: PhysReg, d: Data)
    ensures var e := Exec(ReadCode(c, l, r) + CopyCode(r, ReadReg(l, r)), d);
      OnlyReg(d, e, r) && Get(e, Gp(r)) == Val(c, d, l)
  {
    ExecConcat(ReadCode(c, l, r), CopyCode(r, ReadReg(l, r)), d);
    ReadEffect(c, l, r, d);
    CopyEffect(r, ReadReg(l, r), Exec(ReadCode(c, l, r), d));
  }

  // Storing a register that holds x into l.
  lemma StoreEffect(u: Compilation, v: VReg, source: PhysReg, d: Data)
    ensures var e := Exec(WriteValue(u, v, source), d);
      Val(u.c, e, LocOf(u.locs, v)) == Get(d, Gp(source)) && Writes(u, d, e, LocOf(u.locs, v))
  {
    WriteEffect(u.c, LocOf(u.locs, v), source, d);
  }

  lemma WritesAfter(u: Compilation, d: Data, mid: Data, e: Data, l: MoveLocation)
    requires Writes(u, d, mid, l) && Writes(u, mid, e, l)
    ensures Writes(u, d, e, l)
  {
  }

  // The scratch register or the result's own register.
  lemma OnlyRegWrites(u: Compilation, d: Data, e: Data, r: PhysReg, l: MoveLocation)
    requires OnlyReg(d, e, r) && (l == InReg(r) || IsTemporary(u.c, InReg(r)))
    ensures Writes(u, d, e, l)
  {
  }

  function Combine(operation: Instr, x: int, y: int): int {
    match operation
    case Add(_, _) => WrappingAdd(x, y)
    case Imul(_, _) => WrappingMul(x, y)
    case _ => 0
  }

  predicate Arithmetic(operation: Instr, dst: PhysReg, src: PhysReg) {
    operation == Add(Gp(dst), Gp(src)) || operation == Imul(Gp(dst), Gp(src))
  }

  lemma OperandsEffect(u: Compilation, dst: VReg, a: VReg, b: VReg, d: Data)
    requires Placed(u) && dst in u.locs && b in u.locs && LocOf(u.locs, b) != LocOf(u.locs, dst)
    ensures var r := ResultReg(u, dst);
      var e := Exec(ReadValue(u, a, r) + CopyCode(r, ValueReg(u, a, r)) + ReadValue(u, b, u.c.temporary2), d);
      Get(e, Gp(r)) == Val(u.c, d, LocOf(u.locs, a)) &&
      Get(e, Gp(ValueReg(u, b, u.c.temporary2))) == Val(u.c, d, LocOf(u.locs, b)) &&
      Writes(u, d, e, LocOf(u.locs, dst))
  {
    var r := ResultReg(u, dst);
    var first := ReadValue(u, a, r) + CopyCode(r, ValueReg(u, a, r));
    var second := ReadValue(u, b, u.c.temporary2);
    ExecConcat(first, second, d);
    ReadIntoEffect(u.c, LocOf(u.locs, a), r, d);
    var mid := Exec(first, d);
    assert !IsTemporary(u.c, LocOf(u.locs, b)) && !IsTemporary(u.c, LocOf(u.locs, dst));
    OnlyRegKeeps(u.c, d, mid, r, LocOf(u.locs, b));
    OnlyRegWrites(u, d, mid, r, LocOf(u.locs, dst));
    ReadEffect(u.c, LocOf(u.locs, b), u.c.temporary2, mid);
    var e := Exec(second, mid);
    assert OnlyReg(mid, e, u.c.temporary2);
    OnlyRegWrites(u, mid, e, u.c.temporary2, LocOf(u.locs, dst));
    WritesAfter(u, d, mid, e, LocOf(u.locs, dst));
  }

  lemma ArithmeticEffect(u: Compilation, dst: VReg, a: VReg, b: VReg, operation: Instr, d: Data)
    requires Placed(u) && dst in u.locs && b in u.locs && LocOf(u.locs, b) != LocOf(u.locs, dst)
    requires Arithmetic(operation, ResultReg(u, dst), ValueReg(u, b, u.c.temporary2))
    ensures var e := Exec(ArithmeticCode(u, dst, a, b, operation), d);
      Val(u.c, e, LocOf(u.locs, dst)) ==
        Combine(operation, Val(u.c, d, LocOf(u.locs, a)), Val(u.c, d, LocOf(u.locs, b))) &&
      Writes(u, d, e, LocOf(u.locs, dst))
  {
    var r := ResultReg(u, dst);
    var l := LocOf(u.locs, dst);
    var loads := ReadValue(u, a, r) + CopyCode(r, ValueReg(u, a, r)) + ReadValue(u, b, u.c.temporary2);
    OperandsEffect(u, dst, a, b, d);
    var d1 := Exec(loads, d);
    var d2 := Exec1(operation, d1);
    ExecConcat(loads + [operation], WriteValue(u, dst, r), d);
    ExecConcat(loads, [operation], d);
    ExecOne(operation, d1);
    OnlyRegWrites(u, d1, d2, r, l);
    WritesAfter(u, d, d1, d2, l);
    StoreEffect(u, dst, r, d2);
    WritesAfter(u, d, d2, Exec(WriteValue(u, dst, r), d2), l);
  }

  ghost predicate OperandsHold(u: Compilation, block: Block, k: nat, env: Env, d: Data) {
    forall v :: UsedAt(block, k, v) && v in env ==> Val(u.c, d, LocOf(u.locs, v)) == env[v]
  }

  ghost predicate OperandsApart(u: Compilation, block: Block, k: nat)
    requires k < |block.insts|
  {
    block.insts[k].dst in u.locs &&
    forall v :: UsedAt(block, k, v) ==> v in u.locs && LocOf(u.locs, v) != LocOf(u.locs, block.insts[k].dst)
  }

  // The result reaches its location, and no other value is disturbed.
  lemma InstEffect(u: Compilation, block: Block, k: nat, args: seq<I64>, env: Env, d: Data)
    requires Placed(u) && k < |block.insts| && !block.insts[k].PhiI64? && !block.insts[k].CmpGtI64?
    requires OperandsHold(u, block, k, env, d) && OperandsApart(u, block, k)
    requires ExecInst(block.insts[k], args, env).Success?
    requires block.insts[k].ArgI64? ==>
      Cell(d, Get(d, Rbp) + ShadowOffset(block.insts[k].idx)) == args[block.insts[k].idx]
    ensures var dst := block.insts[k].dst;
      var e := Exec(InstCode(u, block, k), d);
      Val(u.c, e, LocOf(u.locs, dst)) == ExecInst(block.insts[k], args, env).value[dst] &&
      Writes(u, d, e, LocOf(u.locs, dst))
  {
    var dst := block.insts[k].dst;
    match block.insts[k]
    case ConstI64(_, imm) => ConstEffect(u, dst, imm, d);
    case AddI64(_, a, b) =>
      assert UsedAt(block, k, a) && UsedAt(block, k, b);
      ArithmeticEffect(u, dst, a, b, Add(Gp(ResultReg(u, dst)), Gp(ValueReg(u, b, u.c.temporary2))), d);
    case MulI64(_, a, b) =>
      assert UsedAt(block, k, a) && UsedAt(block, k, b);
      ArithmeticEffect(u, dst, a, b, Imul(Gp(ResultReg(u, dst)), Gp(ValueReg(u, b, u.c.temporary2))), d);
    case MovI64(_, src) =>
      assert UsedAt(block, k, src);
      MoveValueEffect(u, dst, src, d);
    case ArgI64(_, idx) => ArgEffect(u, dst, idx, d);
  }

  lemma ConstEffect(u: Compilation, dst: VReg, imm: I64, d: Data)
    requires Placed(u) && dst in u.locs
    ensures var r := ResultReg(u, dst);
      var e := Exec([MovImm(Gp(r), imm)] + WriteValue(u, dst, r), d);
      Val(u.c, e, LocOf(u.locs, dst)) == imm && Writes(u, d, e, LocOf(u.locs, dst))
  {
    var r := ResultReg(u, dst);
    var mid := Exec1(MovImm(Gp(r), imm), d);
    ExecConcat([MovImm(Gp(r), imm)], WriteValue(u, dst, r), d);
    ExecOne(MovImm(Gp(r), imm), d);
    OnlyRegWrites(u, d, mid, r, LocOf(u.locs, dst));
    StoreEffect(u, dst, r, mid);
    WritesAfter(u, d, mid, Exec(WriteValue(u, dst, r), mid), LocOf(u.locs, dst));
  }

  lemma MoveValueEffect(u: Compilation, dst: VReg, src: VReg, d: Data)
    requires Placed(u) && dst in u.locs
    ensures var e := Exec(ReadValue(u, src, u.c.temporary) + WriteValue(u, dst, ValueReg(u, src, u.c.temporary)), d);
      Val(u.c, e, LocOf(u.locs, dst)) == Val(u.c, d, LocOf(u.locs, src)) && Writes(u, d, e, LocOf(u.locs, dst))
  {
    var m := Move(LocOf(u.locs, dst), LocOf(u.locs, src));
    assert !IsTemporary(u.c, m.dst);
    MoveEffect(u.c, m, u.c.temporary, d);
    var e := Exec(MoveCode(u.c, m, u.c.temporary), d);
    forall o | o != m.dst && !IsTemporary(u.c, o)
      ensures Val(u.c, e, o) == Val(u.c, d, o)
    {
      OnlyChangesKeeps(u.c, d, e, m.dst, o);
    }
  }

  lemma ArgEffect(u: Compilation, dst: VReg, idx: nat, d: Data)
    requires Placed(u) && dst in u.locs
    ensures var e := Exec([Load(Gp(u.c.temporary), ShadowOffset(idx))] + WriteValue(u, dst, u.c.temporary), d);
      Val(u.c, e, LocOf(u.locs, dst)) == Cell(d, Get(d, Rbp) + ShadowOffset(idx)) && Writes(u, d, e, LocOf(u.locs, dst))
  {
    var load := Load(Gp(u.c.temporary), ShadowOffset(idx));
    var mid := Exec1(load, d);
    ExecConcat([load], WriteValue(u, dst, u.c.temporary), d);
    ExecOne(load, d);
    OnlyRegWrites(u, d, mid, u.c.temporary, LocOf(u.locs, dst));
    StoreEffect(u, dst, u.c.temporary, mid);
    WritesAfter(u, d, mid, Exec(WriteValue(u, dst, u.c.temporary), mid), LocOf(u.locs, dst));
  }

  // Only the temporaries may change.
  ghost predicate Undisturbed(u: Compilation, d: Data, e: Data) {
    forall o :: !IsTemporary(u.c, o) ==> Val(u.c, e, o) == Val(u.c, d, o)
  }

  lemma ReadTemporary(u: Compilation, v: VReg, temp: PhysReg, d: Data)
    requires temp == u.c.temporary || temp == u.c.temporary2
    ensures var e := Exec(ReadValue(u, v, temp), d);
      OnlyReg(d, e, temp) && Undisturbed(u, d, e) && Get(e, Gp(ValueReg(u, v, temp))) == Val(u.c, d, LocOf(u.locs, v))
  {
    ReadEffect(u.c, LocOf(u.locs, v), temp, d);
  }

  lemma CompareEffect(u: Compilation, a: VReg, b: VReg, d: Data)
    requires Placed(u) && a in u.locs && b in u.locs
    ensures var x := Val(u.c, d, LocOf(u.locs, a));
      var y := Val(u.c, d, LocOf(u.locs, b));
      var e := Exec(CompareCode(u, a, b), d);
      e.flags == Compared(x == y, x > y) && Undisturbed(u, d, e)
  {
    var first, second := ReadValue(u, a, u.c.temporary), ReadValue(u, b, u.c.temporary2);
    var left, right := ValueReg(u, a, u.c.temporary), ValueReg(u, b, u.c.temporary2);
    var compare := Cmp(Gp(left), Gp(right));
    var d1 := Exec(first, d);
    var d2 := Exec(second, d1);
    ExecConcat(first + second, [compare], d);
    ExecConcat(first, second, d);
    ReadTemporary(u, a, u.c.temporary, d);
    ReadTemporary(u, b, u.c.temporary2, d1);
    assert !IsTemporary(u.c, LocOf(u.locs, a)) && !IsTemporary(u.c, LocOf(u.locs, b));
    ExecOne(compare, d2);
  }
}
