// Cycles through a location of two phis: what becomes of them depends on the order of the phis.
module SharedCycle {
  import opened Wrappers
  import opened Ir
  import opened Interp
  import opened Alloc
  import opened Machine
  import opened ParallelMoves
  import opened MoveCycles
  import opened BrokenCycles
  import opened MoveOrigins
  import opened Lowering
  import opened Frames
  import opened Edges
  import Cfg

  const DEAD := VReg(0)
  const LAST := VReg(1)
  const OTHER := VReg(2)
  const X := VReg(3)
  const Y := VReg(4)
  const Z := VReg(5)
  const SUM := VReg(6)

  // The dead phi and the last one share R8; together with the other one, in R9, the dead phi closes
  // a cycle of two registers. The last phi is loaded from the stack.
  function Places(): map<VReg, Location> {
    map[
      DEAD := Reg(R8), LAST := Reg(R8), OTHER := Reg(R9), X := Reg(R9), Y := Stack(StackSlot(0)), Z := Reg(R8),
      SUM := Reg(Rax)]
  }

  ghost predicate InPlaces(u: Compilation) {
    Placed(u) && u.locs == Places() && u.c.temporary == R10 && u.c.temporary2 == R11
  }

  ghost function Used(): iset<VReg> {
    iset{LAST, OTHER}
  }

  function DeadPhi(p: BlockId): Inst {
    PhiI64(DEAD, [(p, X)])
  }

  function LastPhi(p: BlockId): Inst {
    PhiI64(LAST, [(p, Y)])
  }

  function OtherPhi(p: BlockId): Inst {
    PhiI64(OTHER, [(p, Z)])
  }

  lemma PhisTaken(a: Inst, b: Inst, c: Inst)
    requires a.PhiI64? && b.PhiI64? && c.PhiI64?
    ensures PhisOf([a, b, c]) == [Phi(a.dst, a.incoming), Phi(b.dst, b.incoming), Phi(c.dst, c.incoming)]
  {
    assert [a, b, c][..2] == [a, b] && [a, b][..1] == [a] && [a][..0] == [];
    assert PhisOf([a]) == [Phi(a.dst, a.incoming)];
    assert PhisOf([a, b]) == [Phi(a.dst, a.incoming), Phi(b.dst, b.incoming)];
  }

  lemma MovesTaken(locs: map<VReg, Location>, a: Phi, b: Phi, c: Phi, p: BlockId)
    ensures MovesFor(locs, [a, b, c], p) == MoveFor(locs, a, p) + MoveFor(locs, b, p) + MoveFor(locs, c, p)
  {
    assert [a, b, c][..2] == [a, b] && [a, b][..1] == [a] && [a][..0] == [];
    assert MovesFor(locs, [a], p) == MoveFor(locs, a, p);
    assert MovesFor(locs, [a, b], p) == MoveFor(locs, a, p) + MoveFor(locs, b, p);
  }

  lemma OneMove(u: Compilation, dst: VReg, source: VReg, p: BlockId)
    requires u.locs == Places() && dst in Places() && source in Places() && Places()[dst] != Places()[source]
    ensures MoveFor(u.locs, Phi(dst, [(p, source)]), p) == [Move(LocOf(u.locs, dst), LocOf(u.locs, source))]
  {
    assert FindIncoming([(p, source)], p) == Some(source);
  }

  lemma EdgeTaken(u: Compilation, a: Inst, b: Inst, c: Inst, p: BlockId)
    requires a.PhiI64? && b.PhiI64? && c.PhiI64?
    ensures EdgeOf(u, [a, b, c], p) == MoveFor(u.locs, Phi(a.dst, a.incoming), p) +
      MoveFor(u.locs, Phi(b.dst, b.incoming), p) + MoveFor(u.locs, Phi(c.dst, c.incoming), p)
  {
    PhisTaken(a, b, c);
    MovesTaken(u.locs, Phi(a.dst, a.incoming), Phi(b.dst, b.incoming), Phi(c.dst, c.incoming), p);
  }

  // The three moves, however ordered.
  function ToDead(): Move {
    Move(InReg(R8), InReg(R9))
  }

  function ToLast(): Move {
    Move(InReg(R8), OnStack(StackSlot(0)))
  }

  function ToOther(): Move {
    Move(InReg(R9), InReg(R8))
  }

  lemma MovesOfPhis(u: Compilation, p: BlockId)
    requires u.locs == Places()
    ensures EdgeOf(u, [DeadPhi(p), LastPhi(p), OtherPhi(p)], p) == [ToDead(), ToLast(), ToOther()]
    ensures EdgeOf(u, [DeadPhi(p), OtherPhi(p), LastPhi(p)], p) == [ToDead(), ToOther(), ToLast()]
  {
    OneMove(u, DEAD, X, p);
    OneMove(u, LAST, Y, p);
    OneMove(u, OTHER, Z, p);
    EdgeTaken(u, DeadPhi(p), LastPhi(p), OtherPhi(p), p);
    EdgeTaken(u, DeadPhi(p), OtherPhi(p), LastPhi(p), p);
  }

  lemma NothingReadyAtFirst(moves: seq<Move>)
    requires moves == [ToDead(), ToLast(), ToOther()] || moves == [ToDead(), ToOther(), ToLast()]
    ensures FirstReady(moves, 0) == None
  {
    assert moves[0].src == InReg(R9);
    assert InReg(R8) in Srcs(moves) by {
      assert moves[1].src == InReg(R8) || moves[2].src == InReg(R8);
    }
    assert FirstReady(moves, 3) == None && FirstReady(moves, 2) == None && FirstReady(moves, 1) == None;
  }

  lemma DrainTwo(c: Context, m: Move, n: Move, o: Origins)
    requires m.dst != m.src && m.dst != n.src && n.dst != n.src
    ensures Follow(c, [m, n], o) == AfterMove(n, c.temporary, AfterMove(m, c.temporary, o))
  {
    var both := [m, n];
    assert both[0] == m && both[1] == n;
    assert FirstReady(both, 0) == Some(0);
    var last := Remove(both, 0);
    assert last == [n] && last[0] == n;
    assert FirstReady(last, 0) == Some(0);
    assert Remove(last, 0) == [];
    var o1 := AfterMove(m, c.temporary, o);
    assert Follow(c, [], AfterMove(n, c.temporary, o1)) == AfterMove(n, c.temporary, o1);
    assert Follow(c, last, o1) == AfterMove(n, c.temporary, o1);
  }

  // The saved value is overwritten by the load of the last phi before the other one reads it.
  lemma LosingOrder(c: Context)
    requires c.temporary == R10 && c.temporary2 == R11
    ensures From(Follow(c, [ToDead(), ToLast(), ToOther()], map[]), InReg(R9)) == OnStack(StackSlot(0))
  {
    var moves, t := [ToDead(), ToLast(), ToOther()], InReg(R10);
    NothingReadyAtFirst(moves);
    var rest := Redirect(moves[1..], InReg(R8), t);
    assert rest == [ToLast(), Move(InReg(R9), t)];
    DrainTwo(c, ToLast(), Move(InReg(R9), t), AfterBreaking(c, ToDead(), map[]));
  }

  lemma ServingOrder(c: Context)
    requires c.temporary == R10 && c.temporary2 == R11
    ensures var o := Follow(c, [ToDead(), ToOther(), ToLast()], map[]);
      From(o, InReg(R9)) == InReg(R8) && From(o, InReg(R8)) == OnStack(StackSlot(0))
  {
    var moves, t := [ToDead(), ToOther(), ToLast()], InReg(R10);
    NothingReadyAtFirst(moves);
    var rest := Redirect(moves[1..], InReg(R8), t);
    assert rest == [Move(InReg(R9), t), ToLast()];
    DrainTwo(c, Move(InReg(R9), t), ToLast(), AfterBreaking(c, ToDead(), map[]));
  }

  lemma OnlyTwoDsts(moves: seq<Move>)
    requires moves == [ToDead(), ToLast(), ToOther()]
    ensures !HasBadCycle(moves)
  {
    forall cycle: seq<MoveLocation> | IsCycle(moves, cycle)
      ensures |cycle| <= 2
    {
      forall k | 0 <= k < |cycle|
        ensures cycle[k] in {InReg(R8), InReg(R9)}
      {
        assert k < |cycle| - 1 ==> Move(cycle[k], cycle[k + 1]) in moves;
      }
      CountTrail(cycle);
      Cfg.SubsetSizes(Elements(cycle), {InReg(R8), InReg(R9)});
    }
  }

  // The used phis come last to their places and no cycle is bad, yet an edge whose cycle passes
  // through the shared place serves them in one order of the phis and not in the other.
  lemma OrderDecides(u: Compilation, p: BlockId)
    requires InPlaces(u)
    ensures UsedArePlacedLast(u.locs, [DeadPhi(p), LastPhi(p), OtherPhi(p)], p, Used())
    ensures !HasBadCycle(EdgeOf(u, [DeadPhi(p), LastPhi(p), OtherPhi(p)], p))
    ensures !EdgeDelivers(u, [DeadPhi(p), LastPhi(p), OtherPhi(p)], p, Used())
    ensures EdgeDelivers(u, [DeadPhi(p), OtherPhi(p), LastPhi(p)], p, Used())
  {
    MovesOfPhis(u, p);
    UsedComeLast(u, p);
    OnlyTwoDsts([ToDead(), ToLast(), ToOther()]);
    LosingOrder(u.c);
    ServingOrder(u.c);
    LosesOther(u, p);
    ServesAll(u, p);
  }

  lemma UsedComeLast(u: Compilation, p: BlockId)
    requires u.locs == Places()
    ensures UsedArePlacedLast(u.locs, [DeadPhi(p), LastPhi(p), OtherPhi(p)], p, Used())
  {
    assert LocOf(Places(), LAST) == InReg(R8) && LocOf(Places(), OTHER) == InReg(R9);
  }

  lemma LosesOther(u: Compilation, p: BlockId)
    requires InPlaces(u) && EdgeOf(u, [DeadPhi(p), LastPhi(p), OtherPhi(p)], p) == [ToDead(), ToLast(), ToOther()]
    requires From(Follow(u.c, [ToDead(), ToLast(), ToOther()], map[]), InReg(R9)) == OnStack(StackSlot(0))
    ensures !EdgeDelivers(u, [DeadPhi(p), LastPhi(p), OtherPhi(p)], p, Used())
  {
    var insts := [DeadPhi(p), LastPhi(p), OtherPhi(p)];
    assert PhiReads(insts[2], p, Z);
    assert !PhiTraced(u, insts, p, insts[2], Z);
  }

  lemma ServesAll(u: Compilation, p: BlockId)
    requires InPlaces(u) && EdgeOf(u, [DeadPhi(p), OtherPhi(p), LastPhi(p)], p) == [ToDead(), ToOther(), ToLast()]
    requires var o := Follow(u.c, [ToDead(), ToOther(), ToLast()], map[]);
      From(o, InReg(R9)) == InReg(R8) && From(o, InReg(R8)) == OnStack(StackSlot(0))
    ensures EdgeDelivers(u, [DeadPhi(p), OtherPhi(p), LastPhi(p)], p, Used())
  {
    var insts := [DeadPhi(p), OtherPhi(p), LastPhi(p)];
    forall i, source | 0 <= i < 3 && PhiReads(insts[i], p, source) && insts[i].dst in Used()
      ensures PhiTraced(u, insts, p, insts[i], source)
    {
      assert source == if i == 1 then Z else Y;
    }
  }
}
