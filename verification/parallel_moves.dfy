// Sequencing simultaneous moves: emit ready moves first, break a cycle through a temporary.
module ParallelMoves {
  import opened Wrappers
  import opened Alloc
  import opened Machine

  datatype MoveLocation = InReg(reg: PhysReg) | OnStack(slot: StackSlot)

  datatype Move = Move(dst: MoveLocation, src: MoveLocation)

  // How many argument shadow slots precede the spill slots, and the two scratch registers.
  datatype Context = Context(shadow: nat, temporary: PhysReg, temporary2: PhysReg)

  function StackOffset(shadow: nat, slot: StackSlot): int {
    -8 * (shadow + slot.index + 1)
  }

  function Val(c: Context, d: Data, l: MoveLocation): int {
    match l
    case InReg(reg) => Get(d, Gp(reg))
    case OnStack(slot) => Cell(d, Get(d, Rbp) + StackOffset(c.shadow, slot))
  }

  // ---------- the emitted code, as a function of the moves ----------

  function ReadCode(c: Context, src: MoveLocation, temp: PhysReg): seq<Instr> {
    match src
    case InReg(_) => []
    case OnStack(slot) => [Load(Gp(temp), StackOffset(c.shadow, slot))]
  }

  function ReadReg(src: MoveLocation, temp: PhysReg): PhysReg {
    match src
    case InReg(reg) => reg
    case OnStack(_) => temp
  }

  function WriteCode(c: Context, dst: MoveLocation, source: PhysReg): seq<Instr> {
    match dst
    case InReg(reg) => if reg != source then [MovReg(Gp(reg), Gp(source))] else []
    case OnStack(slot) => [Store(StackOffset(c.shadow, slot), Gp(source))]
  }

  function MoveCode(c: Context, m: Move, temp: PhysReg): seq<Instr> {
    ReadCode(c, m.src, temp) + WriteCode(c, m.dst, ReadReg(m.src, temp))
  }

  // Saves the old destination in the temporary, then moves through the second one.
  function BreakCode(c: Context, m: Move): seq<Instr> {
    SaveCode(c, m.dst) + MoveCode(c, m, c.temporary2)
  }

  function SaveCode(c: Context, dst: MoveLocation): seq<Instr> {
    ReadCode(c, dst, c.temporary) +
    (if ReadReg(dst, c.temporary) != c.temporary then [MovReg(Gp(c.temporary), Gp(ReadReg(dst, c.temporary)))] else [])
  }

  function Srcs(moves: seq<Move>): set<MoveLocation> {
    set i | 0 <= i < |moves| :: moves[i].src
  }

  function DstsFrom(moves: seq<Move>, from: nat): set<MoveLocation> {
    set i | from <= i < |moves| :: moves[i].dst
  }

  // The first move whose destination nothing pending still reads.
  function FirstReady(moves: seq<Move>, from: nat): (r: Option<nat>)
    requires from <= |moves|
    ensures r.Some? ==> from <= r.value < |moves| && moves[r.value].dst !in Srcs(moves)
    ensures r.None? ==> DstsFrom(moves, from) <= Srcs(moves)
    decreases |moves| - from
  {
    if from == |moves| then None
    else if moves[from].dst !in Srcs(moves) then Some(from)
    else
      assert DstsFrom(moves, from) == DstsFrom(moves, from + 1) + {moves[from].dst};
      FirstReady(moves, from + 1)
  }

  function Remove(moves: seq<Move>, i: nat): seq<Move>
    requires i < |moves|
  {
    moves[..i] + moves[i + 1..]
  }

  function Redirect(moves: seq<Move>, from: MoveLocation, to: MoveLocation): seq<Move> {
    seq(|moves|, i requires 0 <= i < |moves| => if moves[i].src == from then Move(moves[i].dst, to) else moves[i])
  }

  function Sequence(c: Context, moves: seq<Move>): seq<Instr>
    decreases |moves|
  {
    if moves == [] then []
    else
      match FirstReady(moves, 0)
      case Some(i) => MoveCode(c, moves[i], c.temporary) + Sequence(c, Remove(moves, i))
      case None => BreakCode(c, moves[0]) + Sequence(c, Redirect(moves[1..], moves[0].dst, InReg(c.temporary)))
  }

  // ---------- what single moves do ----------

  predicate Temporaries(c: Context) {
    c.temporary != c.temporary2
  }

  predicate IsTemporary(c: Context, l: MoveLocation) {
    l == InReg(c.temporary) || l == InReg(c.temporary2)
  }

  // Only the temporaries and the given location may differ.
  ghost predicate OnlyChanges(c: Context, d: Data, e: Data, l: MoveLocation) {
    && (forall r :: r != Gp(c.temporary) && r != Gp(c.temporary2) && !(l.InReg? && r == Gp(l.reg)) ==>
         Get(e, r) == Get(d, r))
    && (forall a :: !(l.OnStack? && a == Get(d, Rbp) + StackOffset(c.shadow, l.slot)) ==> Cell(e, a) == Cell(d, a))
    && e.flags == d.flags
  }

  lemma OnlyChangesKeeps(c: Context, d: Data, e: Data, l: MoveLocation, other: MoveLocation)
    requires OnlyChanges(c, d, e, l) && other != l && !IsTemporary(c, other)
    ensures Val(c, e, other) == Val(c, d, other)
  {
  }

  lemma ExecOne(i: Instr, d: Data)
    ensures Exec([i], d) == Exec1(i, d)
    ensures Exec([], d) == d
  {
    assert [i][1..] == [];
  }

  lemma ReadEffect(c: Context, src: MoveLocation, temp: PhysReg, d: Data)
    ensures Exec(ReadCode(c, src, temp), d) == if src.OnStack? then Set(d, Gp(temp), Val(c, d, src)) else d
    ensures Get(Exec(ReadCode(c, src, temp), d), Gp(ReadReg(src, temp))) == Val(c, d, src)
  {
    if src.OnStack? {
      ExecOne(Load(Gp(temp), StackOffset(c.shadow, src.slot)), d);
    }
  }

  lemma WriteEffect(c: Context, dst: MoveLocation, source: PhysReg, d: Data)
    ensures var e := Exec(WriteCode(c, dst, source), d);
      Val(c, e, dst) == Get(d, Gp(source)) && e.flags == d.flags &&
      (forall r :: !(dst.InReg? && r == Gp(dst.reg)) ==> Get(e, r) == Get(d, r)) &&
      (forall a :: !(dst.OnStack? && a == Get(d, Rbp) + StackOffset(c.shadow, dst.slot)) ==> Cell(e, a) == Cell(d, a))
  {
    match dst
    case InReg(reg) =>
      if reg != source {
        ExecOne(MovReg(Gp(reg), Gp(source)), d);
      }
    case OnStack(slot) =>
      ExecOne(Store(StackOffset(c.shadow, slot), Gp(source)), d);
  }

  lemma MoveEffect(c: Context, m: Move, temp: PhysReg, d: Data)
    requires temp == c.temporary || temp == c.temporary2
    requires m.dst != InReg(temp)
    ensures var e := Exec(MoveCode(c, m, temp), d);
      OnlyChanges(c, d, e, m.dst) && Val(c, e, m.dst) == Val(c, d, m.src) &&
      (forall r :: r != temp && m.dst != InReg(r) ==> Get(e, Gp(r)) == Get(d, Gp(r))) &&
      Get(e, Gp(temp)) == if m.src.OnStack? then Val(c, d, m.src) else Get(d, Gp(temp))
  {
    ExecConcat(ReadCode(c, m.src, temp), WriteCode(c, m.dst, ReadReg(m.src, temp)), d);
    ReadEffect(c, m.src, temp, d);
    WriteEffect(c, m.dst, ReadReg(m.src, temp), Exec(ReadCode(c, m.src, temp), d));
  }

  lemma SaveEffect(c: Context, dst: MoveLocation, d: Data)
    requires dst != InReg(c.temporary)
    ensures Exec(SaveCode(c, dst), d) == Set(d, Gp(c.temporary), Val(c, d, dst))
  {
    match dst
    case InReg(reg) =>
      ExecOne(MovReg(Gp(c.temporary), Gp(reg)), d);
      assert SaveCode(c, dst) == [MovReg(Gp(c.temporary), Gp(reg))];
    case OnStack(slot) =>
      ExecOne(Load(Gp(c.temporary), StackOffset(c.shadow, slot)), d);
      assert SaveCode(c, dst) == [Load(Gp(c.temporary), StackOffset(c.shadow, slot))];
  }

  lemma BreakEffect(c: Context, m: Move, d: Data)
    requires Temporaries(c) && !IsTemporary(c, m.dst)
    ensures var e := Exec(BreakCode(c, m), d);
      OnlyChanges(c, d, e, m.dst) && Get(e, Gp(c.temporary)) == Val(c, d, m.dst) &&
      (!IsTemporary(c, m.src) ==> Val(c, e, m.dst) == Val(c, d, m.src))
  {
    ExecConcat(SaveCode(c, m.dst), MoveCode(c, m, c.temporary2), d);
    SaveEffect(c, m.dst, d);
    MoveEffect(c, m, c.temporary2, Set(d, Gp(c.temporary), Val(c, d, m.dst)));
  }
}
