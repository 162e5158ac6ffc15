// The target machine: the x86-64 instructions the emitter uses, with symbolic labels.
module Machine {
  import opened Wrappers
  import opened Ir
  import opened Alloc

  datatype Reg = Gp(reg: PhysReg) | Rbp | Rsp

  datatype Label =
    | BlockLabel(block: BlockId)
    | TrueLabel(block: BlockId, index: nat)
    | DoneLabel(block: BlockId, index: nat)
    | ThenStub(block: BlockId)
    | ElseStub(block: BlockId)

  // Memory operands are addressed relative to rbp.
  datatype Instr =
    | Push(src: Reg)
    | Pop(dst: Reg)
    | MovReg(dst: Reg, src: Reg)
    | MovImm(dst: Reg, imm: int)
    | Load(dst: Reg, offset: int)
    | Store(offset: int, src: Reg)
    | SubRsp(bytes: nat)
    | AddRsp(bytes: nat)
    | Add(dst: Reg, src: Reg)
    | Imul(dst: Reg, src: Reg)
    | Cmp(left: Reg, right: Reg)
    | Test(operand: Reg)
    | Jg(target: Label)
    | Jnz(target: Label)
    | Jmp(target: Label)
    | Bind(name: Label)
    | Ret

  // Zero and signed-greater outcomes of the last comparison; arithmetic leaves them undefined.
  datatype Flags = Undefined | Compared(zero: bool, greater: bool)

  datatype Data = Data(regs: map<Reg, int>, mem: map<int, int>, flags: Flags)

  function Get(d: Data, r: Reg): int {
    if r in d.regs then d.regs[r] else 0
  }

  function Cell(d: Data, address: int): int {
    if address in d.mem then d.mem[address] else 0
  }

  function Set(d: Data, r: Reg, x: int): Data {
    d.(regs := d.regs[r := x])
  }

  function SetCell(d: Data, address: int, x: int): Data {
    d.(mem := d.mem[address := x])
  }

  predicate Straight(i: Instr) {
    !i.Jg? && !i.Jnz? && !i.Jmp? && !i.Ret?
  }

  function Exec1(i: Instr, d: Data): Data {
    match i
    case Push(src) =>
      SetCell(Set(d, Rsp, Get(d, Rsp) - 8), Get(d, Rsp) - 8, Get(d, src))
    case Pop(dst) =>
      Set(Set(d, Rsp, Get(d, Rsp) + 8), dst, Cell(d, Get(d, Rsp)))
    case MovReg(dst, src) => Set(d, dst, Get(d, src))
    case MovImm(dst, imm) => Set(d, dst, imm)
    case Load(dst, offset) => Set(d, dst, Cell(d, Get(d, Rbp) + offset))
    case Store(offset, src) => SetCell(d, Get(d, Rbp) + offset, Get(d, src))
    case SubRsp(bytes) => Set(d, Rsp, Get(d, Rsp) - bytes).(flags := Undefined)
    case AddRsp(bytes) => Set(d, Rsp, Get(d, Rsp) + bytes).(flags := Undefined)
    case Add(dst, src) => Set(d, dst, WrappingAdd(Get(d, dst), Get(d, src))).(flags := Undefined)
    case Imul(dst, src) => Set(d, dst, WrappingMul(Get(d, dst), Get(d, src))).(flags := Undefined)
    case Cmp(left, right) => d.(flags := Compared(Get(d, left) == Get(d, right), Get(d, left) > Get(d, right)))
    case Test(operand) => d.(flags := Compared(Get(d, operand) == 0, Get(d, operand) > 0))
    case Bind(_) => d
    case _ => d
  }

  // Straight-line execution.
  function Exec(code: seq<Instr>, d: Data): Data {
    if code == [] then d else Exec(code[1..], Exec1(code[0], d))
  }

  lemma {:induction false} ExecConcat(a: seq<Instr>, b: seq<Instr>, d: Data)
    ensures Exec(a + b, d) == Exec(b, Exec(a, d))
    decreases a
  {
    if a == [] {
      assert a + b == b;
    } else {
      assert (a + b)[1..] == a[1..] + b;
      ExecConcat(a[1..], b, Exec1(a[0], d));
    }
  }

  // ---------- running code ----------

  datatype Machine = Running(pc: nat, data: Data) | Halted(data: Data) | Stuck

  // A label's address: the first place it is bound.
  function Address(code: seq<Instr>, l: Label, from: nat): (r: Option<nat>)
    requires from <= |code|
    ensures r.Some? ==> from <= r.value < |code| && code[r.value] == Bind(l)
    ensures r.None? ==> forall i :: from <= i < |code| ==> code[i] != Bind(l)
    decreases |code| - from
  {
    if from == |code| then None
    else if code[from] == Bind(l) then Some(from)
    else Address(code, l, from + 1)
  }

  function Goto(code: seq<Instr>, l: Label, d: Data): Machine {
    match Address(code, l, 0)
    case Some(pc) => Running(pc, d)
    case None => Stuck
  }

  function Step(code: seq<Instr>, m: Machine): Machine {
    if !m.Running? then m
    else if m.pc >= |code| then Stuck
    else
      match code[m.pc]
      case Ret => Halted(m.data)
      case Jmp(target) => Goto(code, target, m.data)
      case Jg(target) =>
        if m.data.flags.Undefined? then Stuck
        else if m.data.flags.greater then Goto(code, target, m.data)
        else Running(m.pc + 1, m.data)
      case Jnz(target) =>
        if m.data.flags.Undefined? then Stuck
        else if !m.data.flags.zero then Goto(code, target, m.data)
        else Running(m.pc + 1, m.data)
      case i => Running(m.pc + 1, Exec1(i, m.data))
  }

  function Run(code: seq<Instr>, m: Machine, n: nat): Machine
    decreases n
  {
    if n == 0 then m else Run(code, Step(code, m), n - 1)
  }

  lemma {:induction false} RunAdds(code: seq<Instr>, m: Machine, a: nat, b: nat)
    ensures Run(code, m, a + b) == Run(code, Run(code, m, a), b)
    decreases a
  {
    if a > 0 {
      RunAdds(code, Step(code, m), a - 1, b);
    }
  }

  lemma {:induction false} RunStops(code: seq<Instr>, m: Machine, n: nat)
    requires !m.Running?
    ensures Run(code, m, n) == m
    decreases n
  {
    if n > 0 {
      RunStops(code, m, n - 1);
    }
  }

  // A fragment lies in the code at pc.
  predicate At(code: seq<Instr>, pc: nat, fragment: seq<Instr>) {
    pc + |fragment| <= |code| && code[pc..pc + |fragment|] == fragment
  }

  lemma AtSplit(code: seq<Instr>, pc: nat, a: seq<Instr>, b: seq<Instr>)
    requires At(code, pc, a + b)
    ensures At(code, pc, a) && At(code, pc + |a|, b)
  {
    assert code[pc..pc + |a|] == code[pc..pc + |a + b|][..|a|];
    assert code[pc + |a|..pc + |a| + |b|] == code[pc..pc + |a + b|][|a|..];
  }

  // The parts from an index on, one after another.
  function Flatten(parts: seq<seq<Instr>>, from: nat): seq<Instr>
    requires from <= |parts|
    decreases |parts| - from
  {
    if from == |parts| then [] else parts[from] + Flatten(parts, from + 1)
  }

  function FlatOffset(parts: seq<seq<Instr>>, i: nat): nat
    requires i <= |parts|
  {
    if i == 0 then 0 else FlatOffset(parts, i - 1) + |parts[i - 1]|
  }

  lemma {:induction false} FlattenAt(code: seq<Instr>, pc: nat, parts: seq<seq<Instr>>, i: nat)
    requires i <= |parts| && At(code, pc, Flatten(parts, 0))
    ensures At(code, pc + FlatOffset(parts, i), Flatten(parts, i))
    decreases i
  {
    if i > 0 {
      FlattenAt(code, pc, parts, i - 1);
      AtSplit(code, pc + FlatOffset(parts, i - 1), parts[i - 1], Flatten(parts, i));
    }
  }

  lemma PartAt(code: seq<Instr>, pc: nat, parts: seq<seq<Instr>>, i: nat)
    requires i < |parts| && At(code, pc, Flatten(parts, 0))
    ensures At(code, pc + FlatOffset(parts, i), parts[i])
    ensures FlatOffset(parts, i + 1) == FlatOffset(parts, i) + |parts[i]|
  {
    FlattenAt(code, pc, parts, i);
    AtSplit(code, pc + FlatOffset(parts, i), parts[i], Flatten(parts, i + 1));
  }

  lemma AtFirst(code: seq<Instr>, pc: nat, fragment: seq<Instr>)
    requires At(code, pc, fragment) && fragment != []
    ensures pc < |code| && code[pc] == fragment[0]
  {
    assert code[pc..pc + |fragment|][0] == code[pc];
  }

  lemma {:induction false} RunStraight(code: seq<Instr>, pc: nat, fragment: seq<Instr>, d: Data)
    requires At(code, pc, fragment) && forall i :: i in fragment ==> Straight(i)
    ensures Run(code, Running(pc, d), |fragment|) == Running(pc + |fragment|, Exec(fragment, d))
    decreases fragment
  {
    if fragment != [] {
      assert fragment == [fragment[0]] + fragment[1..];
      AtSplit(code, pc, [fragment[0]], fragment[1..]);
      assert code[pc] == code[pc..pc + |fragment|][0];
      assert Straight(fragment[0]);
      assert Step(code, Running(pc, d)) == Running(pc + 1, Exec1(fragment[0], d));
      RunStraight(code, pc + 1, fragment[1..], Exec1(fragment[0], d));
    }
  }

  // m reaches m' in some number of steps.
  ghost predicate Reaches(code: seq<Instr>, m: Machine, m': Machine) {
    exists n: nat :: Run(code, m, n) == m'
  }

  // In at least one step.
  ghost predicate ReachesLater(code: seq<Instr>, m: Machine, m': Machine) {
    exists n: nat :: n > 0 && Run(code, m, n) == m'
  }

  lemma LaterIsReached(code: seq<Instr>, m: Machine, m': Machine)
    requires ReachesLater(code, m, m')
    ensures Reaches(code, m, m')
  {
  }

  // A step somewhere on the way.
  lemma ReachesThroughStep(code: seq<Instr>, a: Machine, b: Machine, c: Machine)
    requires Reaches(code, a, b) && Reaches(code, Step(code, b), c)
    ensures ReachesLater(code, a, c)
  {
    var n: nat :| Run(code, a, n) == b;
    var k: nat :| Run(code, Step(code, b), k) == c;
    assert Run(code, b, k + 1) == c;
    RunAdds(code, a, n, k + 1);
  }

  // A machine that has stopped stays as it is.
  lemma StoppedStays(code: seq<Instr>, m: Machine, n: nat, later: nat)
    requires n <= later && !Run(code, m, n).Running?
    ensures Run(code, m, later) == Run(code, m, n)
  {
    RunAdds(code, m, n, later - n);
    RunStops(code, Run(code, m, n), later - n);
  }

  // Still running after n steps or more.
  ghost predicate Lasts(code: seq<Instr>, m: Machine, n: nat) {
    exists later: nat :: later >= n && Run(code, m, later).Running?
  }

  lemma LastsAfter(code: seq<Instr>, a: Machine, b: Machine, n: nat)
    requires Reaches(code, a, b) && Lasts(code, b, n)
    ensures Lasts(code, a, n)
  {
    var k: nat :| Run(code, a, k) == b;
    var later: nat :| later >= n && Run(code, b, later).Running?;
    RunAdds(code, a, k, later);
    assert Run(code, a, k + later).Running?;
  }

  lemma LastsAfterLater(code: seq<Instr>, a: Machine, b: Machine, n: nat)
    requires ReachesLater(code, a, b) && Lasts(code, b, n)
    ensures Lasts(code, a, n + 1)
  {
    var k: nat :| k > 0 && Run(code, a, k) == b;
    var later: nat :| later >= n && Run(code, b, later).Running?;
    RunAdds(code, a, k, later);
    assert Run(code, a, k + later).Running?;
  }

  lemma ReachesTrans(code: seq<Instr>, a: Machine, b: Machine, c: Machine)
    requires Reaches(code, a, b) && Reaches(code, b, c)
    ensures Reaches(code, a, c)
  {
    var n: nat :| Run(code, a, n) == b;
    var k: nat :| Run(code, b, k) == c;
    RunAdds(code, a, n, k);
  }

  lemma ReachesStraight(code: seq<Instr>, pc: nat, fragment: seq<Instr>, d: Data)
    requires At(code, pc, fragment) && forall i :: i in fragment ==> Straight(i)
    ensures Reaches(code, Running(pc, d), Running(pc + |fragment|, Exec(fragment, d)))
  {
    RunStraight(code, pc, fragment, d);
  }

  lemma ReachesStep(code: seq<Instr>, m: Machine)
    ensures Reaches(code, m, Step(code, m))
  {
    assert Run(code, m, 1) == Step(code, m);
  }

  lemma TwoSteps(code: seq<Instr>, a: Machine, b: Machine, c: Machine)
    requires Step(code, a) == b && Step(code, b) == c
    ensures Reaches(code, a, c)
  {
    ReachesStep(code, a);
    ReachesStep(code, b);
    ReachesTrans(code, a, b, c);
  }
}
