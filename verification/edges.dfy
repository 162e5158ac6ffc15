// The moves of an edge against the interpreter's simultaneous phi reads.
module Edges {
  import opened Wrappers
  import opened Ir
  import opened Interp
  import opened Alloc
  import opened Machine
  import opened ParallelMoves
  import opened MoveCycles
  import opened ParallelCopy
  import opened MoveOrigins
  import opened SharedMoves
  import opened Lowering
  import opened Frames

  // ---------- the moves of a block's phis ----------

  predicate PhiReads(inst: Inst, pred: BlockId, source: VReg) {
    inst.PhiI64? && FindIncoming(inst.incoming, pred) == Some(source)
  }

  ghost predicate PhiMove(locs: map<VReg, Location>, inst: Inst, pred: BlockId, m: Move) {
    exists source ::
      PhiReads(inst, pred, source) && m == Move(LocOf(locs, inst.dst), LocOf(locs, source)) && m.dst != m.src
  }

  lemma MovesUnfold(locs: map<VReg, Location>, insts: seq<Inst>, pred: BlockId)
    requires insts != []
    ensures var last := insts[|insts| - 1];
      MovesFor(locs, PhisOf(insts), pred) ==
      MovesFor(locs, PhisOf(insts[..|insts| - 1]), pred) +
      (if last.PhiI64? then MoveFor(locs, Phi(last.dst, last.incoming), pred) else [])
  {
    var front, last := insts[..|insts| - 1], insts[|insts| - 1];
    if last.PhiI64? {
      var phi := Phi(last.dst, last.incoming);
      assert PhisOf(insts) == PhisOf(front) + [phi];
      assert (PhisOf(front) + [phi])[..|PhisOf(front)|] == PhisOf(front);
    } else {
      assert PhisOf(insts) == PhisOf(front);
    }
  }

  lemma {:induction false} MoveOrigin(locs: map<VReg, Location>, insts: seq<Inst>, pred: BlockId, m: Move)
    returns (i: nat)
    requires m in MovesFor(locs, PhisOf(insts), pred)
    ensures i < |insts| && PhiMove(locs, insts[i], pred, m)
    decreases insts
  {
    var front, last := insts[..|insts| - 1], insts[|insts| - 1];
    MovesUnfold(locs, insts, pred);
    if m in MovesFor(locs, PhisOf(front), pred) {
      i := MoveOrigin(locs, front, pred, m);
    } else {
      i := |insts| - 1;
    }
  }

  lemma {:induction false} MoveOfPhi(locs: map<VReg, Location>, insts: seq<Inst>, pred: BlockId, i: nat, m: Move)
    requires i < |insts| && PhiMove(locs, insts[i], pred, m)
    ensures m in MovesFor(locs, PhisOf(insts), pred)
    decreases insts
  {
    MovesUnfold(locs, insts, pred);
    if i < |insts| - 1 {
      MoveOfPhi(locs, insts[..|insts| - 1], pred, i, m);
    }
  }

  lemma {:induction false} OriginsInOrder(locs: map<VReg, Location>, insts: seq<Inst>, pred: BlockId, n: nat, k: nat)
    returns (i: nat, j: nat)
    requires n < k < |MovesFor(locs, PhisOf(insts), pred)|
    ensures i < j < |insts|
    ensures PhiMove(locs, insts[i], pred, MovesFor(locs, PhisOf(insts), pred)[n])
    ensures PhiMove(locs, insts[j], pred, MovesFor(locs, PhisOf(insts), pred)[k])
    decreases insts
  {
    var front := insts[..|insts| - 1];
    var moves := MovesFor(locs, PhisOf(front), pred);
    MovesUnfold(locs, insts, pred);
    if k < |moves| {
      i, j := OriginsInOrder(locs, front, pred, n, k);
    } else {
      i := MoveOrigin(locs, front, pred, moves[n]);
      j := |insts| - 1;
    }
  }

  predicate HasInput(inst: Inst, pred: BlockId) {
    inst.PhiI64? && FindIncoming(inst.incoming, pred).Some?
  }

  // No phi after i shares its location.
  predicate LastPlaced(locs: map<VReg, Location>, insts: seq<Inst>, pred: BlockId, i: nat)
    requires i < |insts|
  {
    forall j :: i < j < |insts| && HasInput(insts[j], pred) ==> LocOf(locs, insts[j].dst) != LocOf(locs, insts[i].dst)
  }

  lemma {:induction false} LastPhiMovesLast(locs: map<VReg, Location>, insts: seq<Inst>, pred: BlockId, i: nat, m: Move)
    returns (n: nat)
    requires i < |insts| && PhiMove(locs, insts[i], pred, m) && LastPlaced(locs, insts, pred, i)
    ensures LastTo(MovesFor(locs, PhisOf(insts), pred), n) && MovesFor(locs, PhisOf(insts), pred)[n] == m
    decreases insts
  {
    var front := insts[..|insts| - 1];
    MovesUnfold(locs, insts, pred);
    if i < |insts| - 1 {
      n := LastPhiMovesLast(locs, front, pred, i, m);
    } else {
      n := |MovesFor(locs, PhisOf(front), pred)|;
    }
  }

  ghost predicate PhisAssigned(locs: map<VReg, Location>, insts: seq<Inst>, pred: BlockId) {
    forall i, source :: 0 <= i < |insts| && PhiReads(insts[i], pred, source) ==> insts[i].dst in locs && source in locs
  }

  lemma EdgeIsMovable(u: Compilation, insts: seq<Inst>, pred: BlockId)
    requires Placed(u) && PhisAssigned(u.locs, insts, pred)
    ensures Movable(u.c, MovesFor(u.locs, PhisOf(insts), pred))
  {
    forall m | m in MovesFor(u.locs, PhisOf(insts), pred)
      ensures !IsTemporary(u.c, m.dst) && !IsTemporary(u.c, m.src) && m.dst != m.src
    {
      var i := MoveOrigin(u.locs, insts, pred, m);
    }
  }

  // ---------- what an edge delivers ----------

  function EdgeOf(u: Compilation, insts: seq<Inst>, pred: BlockId): seq<Move> {
    MovesFor(u.locs, PhisOf(insts), pred)
  }

  function AfterEdge(u: Compilation, insts: seq<Inst>, pred: BlockId, d: Data): Data {
    Exec(Sequence(u.c, EdgeOf(u, insts, pred)), d)
  }

  // The location of phi i receives the value its input's location had.
  predicate PhiServed(u: Compilation, inst: Inst, source: VReg, d: Data, e: Data) {
    Val(u.c, e, LocOf(u.locs, inst.dst)) == Val(u.c, d, LocOf(u.locs, source))
  }

  // Every phi whose value is used receives its input.
  ghost predicate Served(u: Compilation, insts: seq<Inst>, pred: BlockId, used: iset<VReg>, d: Data, e: Data) {
    forall i, source :: 0 <= i < |insts| && PhiReads(insts[i], pred, source) && insts[i].dst in used ==>
      PhiServed(u, insts[i], source, d, e)
  }

  ghost predicate AlwaysServed(u: Compilation, insts: seq<Inst>, pred: BlockId, used: iset<VReg>) {
    forall d :: Served(u, insts, pred, used, d, AfterEdge(u, insts, pred, d))
  }

  ghost predicate OthersKept(u: Compilation, insts: seq<Inst>, d: Data, e: Data) {
    forall l :: !IsTemporary(u.c, l) && NoPhiIn(u, insts, l) ==> Val(u.c, e, l) == Val(u.c, d, l)
  }

  ghost predicate NoPhiIn(u: Compilation, insts: seq<Inst>, l: MoveLocation) {
    forall i :: 0 <= i < |insts| && insts[i].PhiI64? ==> LocOf(u.locs, insts[i].dst) != l
  }

  lemma NotADestination(u: Compilation, insts: seq<Inst>, pred: BlockId, l: MoveLocation)
    requires NoPhiIn(u, insts, l)
    ensures !IsDst(MovesFor(u.locs, PhisOf(insts), pred), l)
  {
    var moves := MovesFor(u.locs, PhisOf(insts), pred);
    forall k | 0 <= k < |moves|
      ensures moves[k].dst != l
    {
      var i := MoveOrigin(u.locs, insts, pred, moves[k]);
    }
  }

  // Whatever its moves, an edge touches only its phis' locations and the temporaries.
  lemma EdgeKeepsOthers(u: Compilation, insts: seq<Inst>, pred: BlockId, d: Data)
    requires Placed(u) && PhisAssigned(u.locs, insts, pred)
    ensures OthersKept(u, insts, d, AfterEdge(u, insts, pred, d))
  {
    var moves := EdgeOf(u, insts, pred);
    EdgeIsMovable(u, insts, pred);
    SequenceFrame(u.c, moves, d);
    forall l | !IsTemporary(u.c, l) && NoPhiIn(u, insts, l)
      ensures Val(u.c, AfterEdge(u, insts, pred, d), l) == Val(u.c, d, l)
    {
      NotADestination(u, insts, pred, l);
      FramedKeeps(u.c, d, AfterEdge(u, insts, pred, d), moves, l);
    }
  }

  // ---------- when an edge delivers: every edge, by following its moves ----------

  // Followed symbolically, the moves leave each used phi with its input.
  ghost predicate EdgeDelivers(u: Compilation, insts: seq<Inst>, pred: BlockId, used: iset<VReg>) {
    forall i, source :: 0 <= i < |insts| && PhiReads(insts[i], pred, source) && insts[i].dst in used ==>
      PhiTraced(u, insts, pred, insts[i], source)
  }

  predicate PhiTraced(u: Compilation, insts: seq<Inst>, pred: BlockId, inst: Inst, source: VReg) {
    From(Follow(u.c, EdgeOf(u, insts, pred), map[]), LocOf(u.locs, inst.dst)) == LocOf(u.locs, source)
  }

  // From every state the used phis are served exactly when following the moves says so, whether or
  // not phis share locations and whatever the cycles.
  lemma EdgeIsExact(u: Compilation, insts: seq<Inst>, pred: BlockId, used: iset<VReg>)
    requires Placed(u) && PhisAssigned(u.locs, insts, pred)
    ensures AlwaysServed(u, insts, pred, used) <==> EdgeDelivers(u, insts, pred, used)
  {
    forall i, source | 0 <= i < |insts| && PhiReads(insts[i], pred, source) && insts[i].dst in used
      ensures (forall d :: PhiServed(u, insts[i], source, d, AfterEdge(u, insts, pred, d))) <==>
        PhiTraced(u, insts, pred, insts[i], source)
    {
      PhiIsExact(u, insts, pred, insts[i], source);
    }
    if AlwaysServed(u, insts, pred, used) {
      forall i, source | 0 <= i < |insts| && PhiReads(insts[i], pred, source) && insts[i].dst in used
        ensures PhiTraced(u, insts, pred, insts[i], source)
      {
        forall d
          ensures PhiServed(u, insts[i], source, d, AfterEdge(u, insts, pred, d))
        {
          assert Served(u, insts, pred, used, d, AfterEdge(u, insts, pred, d));
        }
      }
    }
  }

  lemma PhiIsExact(u: Compilation, insts: seq<Inst>, pred: BlockId, inst: Inst, source: VReg)
    requires Placed(u) && PhisAssigned(u.locs, insts, pred)
    ensures (forall d :: PhiServed(u, inst, source, d, AfterEdge(u, insts, pred, d))) <==>
      PhiTraced(u, insts, pred, inst, source)
  {
    EdgeIsMovable(u, insts, pred);
    OriginIsExact(u.c, EdgeOf(u, insts, pred), LocOf(u.locs, inst.dst), LocOf(u.locs, source));
    if PhiTraced(u, insts, pred, inst, source) {
      forall d
        ensures PhiServed(u, inst, source, d, AfterEdge(u, insts, pred, d))
      {
        OriginValue(u.c, EdgeOf(u, insts, pred), d, LocOf(u.locs, inst.dst));
      }
    } else {
      var d :| Val(u.c, Exec(Sequence(u.c, EdgeOf(u, insts, pred)), d), LocOf(u.locs, inst.dst)) !=
        Val(u.c, d, LocOf(u.locs, source));
      assert !PhiServed(u, inst, source, d, AfterEdge(u, insts, pred, d));
    }
  }

  // ---------- when an edge delivers: by the shape of its cycles ----------

  predicate SharedPlace(locs: map<VReg, Location>, insts: seq<Inst>, pred: BlockId, l: MoveLocation) {
    exists i, j :: 0 <= i < j < |insts| && HasInput(insts[i], pred) && HasInput(insts[j], pred) &&
      LocOf(locs, insts[i].dst) == l && LocOf(locs, insts[j].dst) == l
  }

  ghost predicate CycleOffShared(locs: map<VReg, Location>, insts: seq<Inst>, pred: BlockId, cycle: seq<MoveLocation>) {
    forall k :: 0 <= k < |cycle| ==> !SharedPlace(locs, insts, pred, cycle[k])
  }

  // No cycle of the edge's moves passes through a location of two phis.
  ghost predicate CyclesOffShared(locs: map<VReg, Location>, insts: seq<Inst>, pred: BlockId) {
    forall cycle :: IsCycle(MovesFor(locs, PhisOf(insts), pred), cycle) ==> CycleOffShared(locs, insts, pred, cycle)
  }

  // What a verified assignment gives: a used phi shares its location with no later one.
  ghost predicate UsedArePlacedLast(locs: map<VReg, Location>, insts: seq<Inst>, pred: BlockId, used: iset<VReg>) {
    forall i :: 0 <= i < |insts| && insts[i].PhiI64? && insts[i].dst in used ==> LastPlaced(locs, insts, pred, i)
  }

  // A used phi in place is not overwritten; one that moves closes no bad cycle.
  ghost predicate PhiIsSafe(u: Compilation, insts: seq<Inst>, pred: BlockId, inst: Inst, source: VReg) {
    var m := Move(LocOf(u.locs, inst.dst), LocOf(u.locs, source));
    if m.dst == m.src then !IsDst(EdgeOf(u, insts, pred), m.dst) else !ClosesSomeBad(EdgeOf(u, insts, pred), m)
  }

  ghost predicate EdgeIsSafe(u: Compilation, insts: seq<Inst>, pred: BlockId, used: iset<VReg>) {
    forall i, source :: 0 <= i < |insts| && PhiReads(insts[i], pred, source) && insts[i].dst in used ==>
      PhiIsSafe(u, insts, pred, insts[i], source)
  }

  lemma SharedDstIsSharedPlace(locs: map<VReg, Location>, insts: seq<Inst>, pred: BlockId, l: MoveLocation)
    requires SharedDst(MovesFor(locs, PhisOf(insts), pred), l)
    ensures SharedPlace(locs, insts, pred, l)
  {
    var moves := MovesFor(locs, PhisOf(insts), pred);
    var n, k :| 0 <= n < k < |moves| && moves[n].dst == l && moves[k].dst == l;
    var i, j := OriginsInOrder(locs, insts, pred, n, k);
  }

  lemma OffSharedIsUnshared(locs: map<VReg, Location>, insts: seq<Inst>, pred: BlockId)
    requires CyclesOffShared(locs, insts, pred)
    ensures NoSharedCycle(MovesFor(locs, PhisOf(insts), pred))
  {
    var moves := MovesFor(locs, PhisOf(insts), pred);
    forall cycle: seq<MoveLocation> | IsCycle(moves, cycle)
      ensures CycleUnshared(moves, cycle)
    {
      assert CycleOffShared(locs, insts, pred, cycle);
      forall k | 0 <= k < |cycle|
        ensures !SharedDst(moves, cycle[k])
      {
        if SharedDst(moves, cycle[k]) {
          SharedDstIsSharedPlace(locs, insts, pred, cycle[k]);
        }
      }
    }
  }

  lemma PhiMoves(u: Compilation, insts: seq<Inst>, pred: BlockId, i: nat, source: VReg) returns (n: nat)
    requires i < |insts| && PhiReads(insts[i], pred, source) && LastPlaced(u.locs, insts, pred, i)
    requires LocOf(u.locs, insts[i].dst) != LocOf(u.locs, source)
    ensures LastTo(EdgeOf(u, insts, pred), n)
    ensures EdgeOf(u, insts, pred)[n] == Move(LocOf(u.locs, insts[i].dst), LocOf(u.locs, source))
  {
    var m := Move(LocOf(u.locs, insts[i].dst), LocOf(u.locs, source));
    assert PhiMove(u.locs, insts[i], pred, m);
    n := LastPhiMovesLast(u.locs, insts, pred, i, m);
  }

  // A bad cycle that closes at an unshared move loses its source's value from some state.
  lemma CloserLoses(c: Context, moves: seq<Move>, n: nat, cycle: seq<MoveLocation>)
    requires Movable(c, moves) && NoSharedCycle(moves) && LastTo(moves, n) && ClosesBad(moves, cycle, moves[n])
    ensures Val(c, Exec(Sequence(c, moves), Marked(c, moves[n].src)), moves[n].dst) !=
      Val(c, Marked(c, moves[n].src), moves[n].src)
  {
    var m := moves[n];
    var d := Marked(c, m.src);
    var e := Exec(Sequence(c, moves), d);
    LastMoveDelivers(c, moves, d, n);
    var other: seq<MoveLocation> :| ClosesBad(moves, other, m) && GotSlotValue(c, d, e, m, other);
    ClosingMove(moves, m, other);
    var k :| 2 <= k < |other| && other[k].OnStack? && Val(c, e, m.dst) == Val(c, d, other[k]);
    MarkedIsOne(c, m.src, other[k]);
    MarkedIsOne(c, m.src, m.src);
  }

  lemma ClosingMove(moves: seq<Move>, m: Move, cycle: seq<MoveLocation>)
    requires NoSharedCycle(moves) && m in moves && ClosesBad(moves, cycle, m)
    ensures cycle[0] == m.src
  {
    var last := Move(cycle[|cycle| - 1], cycle[0]);
    assert CycleUnshared(moves, cycle);
    assert !SharedDst(moves, cycle[|cycle| - 1]);
    if m != last {
      TwoMovesShare(moves, m, last);
    }
  }

  lemma MovingPhiIsExact(u: Compilation, insts: seq<Inst>, pred: BlockId, i: nat, source: VReg)
    requires Placed(u) && PhisAssigned(u.locs, insts, pred) && CyclesOffShared(u.locs, insts, pred)
    requires i < |insts| && PhiReads(insts[i], pred, source) && LastPlaced(u.locs, insts, pred, i)
    requires LocOf(u.locs, insts[i].dst) != LocOf(u.locs, source)
    ensures (forall d :: PhiServed(u, insts[i], source, d, AfterEdge(u, insts, pred, d))) <==>
      PhiIsSafe(u, insts, pred, insts[i], source)
  {
    var moves := EdgeOf(u, insts, pred);
    var n := PhiMoves(u, insts, pred, i, source);
    EdgeIsMovable(u, insts, pred);
    OffSharedIsUnshared(u.locs, insts, pred);
    if cycle: seq<MoveLocation> :| ClosesBad(moves, cycle, moves[n]) {
      CloserLoses(u.c, moves, n, cycle);
      var d := Marked(u.c, moves[n].src);
      assert !PhiServed(u, insts[i], source, d, AfterEdge(u, insts, pred, d));
    } else {
      forall d
        ensures PhiServed(u, insts[i], source, d, AfterEdge(u, insts, pred, d))
      {
        LastMoveDelivers(u.c, moves, d, n);
      }
    }
  }

  // The last move to l, if any.
  lemma {:induction false} LastMoveTo(moves: seq<Move>, l: MoveLocation) returns (n: nat)
    requires IsDst(moves, l)
    ensures LastTo(moves, n) && moves[n].dst == l
    decreases moves
  {
    n := |moves| - 1;
    if moves[n].dst != l {
      assert moves == moves[..n] + [moves[n]];
      IsDstAppend(moves[..n], moves[n], l);
      n := LastMoveTo(moves[..|moves| - 1], l);
    }
  }

  // A phi in place whose location another phi moves to is overwritten.
  lemma OverwrittenInPlace(u: Compilation, insts: seq<Inst>, pred: BlockId, i: nat, source: VReg)
    requires Placed(u) && PhisAssigned(u.locs, insts, pred) && CyclesOffShared(u.locs, insts, pred)
    requires i < |insts| && PhiReads(insts[i], pred, source) && LocOf(u.locs, insts[i].dst) == LocOf(u.locs, source)
    requires IsDst(EdgeOf(u, insts, pred), LocOf(u.locs, source))
    ensures var d := Marked(u.c, LocOf(u.locs, source));
      !PhiServed(u, insts[i], source, d, AfterEdge(u, insts, pred, d))
  {
    var moves := EdgeOf(u, insts, pred);
    var l := LocOf(u.locs, source);
    var n := LastMoveTo(moves, l);
    var m := moves[n];
    EdgeIsMovable(u, insts, pred);
    OffSharedIsUnshared(u.locs, insts, pred);
    PlaceIsShared(u, insts, pred, i, source, m);
    forall cycle: seq<MoveLocation> | IsCycle(moves, cycle)
      ensures cycle[|cycle| - 1] != m.dst
    {
      assert CycleOffShared(u.locs, insts, pred, cycle);
      assert !SharedPlace(u.locs, insts, pred, cycle[|cycle| - 1]);
    }
    LastMoveDelivers(u.c, moves, Marked(u.c, l), n);
    MarkedIsOne(u.c, l, m.src);
    MarkedIsOne(u.c, l, l);
  }

  lemma PlaceIsShared(u: Compilation, insts: seq<Inst>, pred: BlockId, i: nat, source: VReg, m: Move)
    requires i < |insts| && PhiReads(insts[i], pred, source) && LocOf(u.locs, insts[i].dst) == LocOf(u.locs, source)
    requires m in EdgeOf(u, insts, pred) && m.dst == LocOf(u.locs, source)
    ensures SharedPlace(u.locs, insts, pred, m.dst) && m.src != m.dst
  {
    var j := MoveOrigin(u.locs, insts, pred, m);
    assert HasInput(insts[i], pred) && HasInput(insts[j], pred);
    if i < j {
      assert LocOf(u.locs, insts[i].dst) == m.dst;
    } else {
      assert LocOf(u.locs, insts[j].dst) == m.dst;
    }
  }

  lemma PhiInPlaceIsExact(u: Compilation, insts: seq<Inst>, pred: BlockId, i: nat, source: VReg)
    requires Placed(u) && PhisAssigned(u.locs, insts, pred) && CyclesOffShared(u.locs, insts, pred)
    requires i < |insts| && PhiReads(insts[i], pred, source) && LocOf(u.locs, insts[i].dst) == LocOf(u.locs, source)
    ensures (forall d :: PhiServed(u, insts[i], source, d, AfterEdge(u, insts, pred, d))) <==>
      PhiIsSafe(u, insts, pred, insts[i], source)
  {
    var moves := EdgeOf(u, insts, pred);
    var l := LocOf(u.locs, source);
    EdgeIsMovable(u, insts, pred);
    if IsDst(moves, l) {
      OverwrittenInPlace(u, insts, pred, i, source);
    } else {
      forall d
        ensures PhiServed(u, insts[i], source, d, AfterEdge(u, insts, pred, d))
      {
        SequenceFrame(u.c, moves, d);
        FramedKeeps(u.c, d, AfterEdge(u, insts, pred, d), moves, l);
      }
    }
  }

  // With no cycle through a shared location, the used phis are served from every state exactly when
  // no used phi in place shares its location with one that moves, and none closes a bad cycle.
  lemma SafeEdgeIsExact(u: Compilation, insts: seq<Inst>, pred: BlockId, used: iset<VReg>)
    requires Placed(u) && PhisAssigned(u.locs, insts, pred)
    requires UsedArePlacedLast(u.locs, insts, pred, used) && CyclesOffShared(u.locs, insts, pred)
    ensures EdgeDelivers(u, insts, pred, used) <==> EdgeIsSafe(u, insts, pred, used)
  {
    forall i, source | 0 <= i < |insts| && PhiReads(insts[i], pred, source) && insts[i].dst in used
      ensures PhiTraced(u, insts, pred, insts[i], source) <==> PhiIsSafe(u, insts, pred, insts[i], source)
    {
      PhiIsExact(u, insts, pred, insts[i], source);
      if LocOf(u.locs, insts[i].dst) == LocOf(u.locs, source) {
        PhiInPlaceIsExact(u, insts, pred, i, source);
      } else {
        MovingPhiIsExact(u, insts, pred, i, source);
      }
    }
  }

  // ---------- phis in distinct locations ----------

  ghost predicate ApartDsts(locs: map<VReg, Location>, insts: seq<Inst>) {
    forall i, j :: 0 <= i < j < |insts| && insts[i].PhiI64? && insts[j].PhiI64? ==>
      LocOf(locs, insts[i].dst) != LocOf(locs, insts[j].dst)
  }

  lemma EdgeMovesAreDistinct(locs: map<VReg, Location>, insts: seq<Inst>, pred: BlockId)
    requires ApartDsts(locs, insts)
    ensures DistinctDsts(MovesFor(locs, PhisOf(insts), pred))
  {
    var moves := MovesFor(locs, PhisOf(insts), pred);
    forall n, k | 0 <= n < k < |moves|
      ensures moves[n].dst != moves[k].dst
    {
      var i, j := OriginsInOrder(locs, insts, pred, n, k);
    }
  }

  ghost function AllPhis(insts: seq<Inst>): iset<VReg> {
    iset v | PhiOf(insts, |insts|, v)
  }

  // With phis in distinct locations, all of them are served exactly when there is no bad cycle.
  lemma ApartEdgeIsExact(u: Compilation, insts: seq<Inst>, pred: BlockId)
    requires Placed(u) && ApartDsts(u.locs, insts) && PhisAssigned(u.locs, insts, pred)
    ensures EdgeDelivers(u, insts, pred, AllPhis(insts)) <==> !HasBadCycle(EdgeOf(u, insts, pred))
  {
    var moves := EdgeOf(u, insts, pred);
    var all := AllPhis(insts);
    EdgeMovesAreDistinct(u.locs, insts, pred);
    SafeEdgeIsExact(u, insts, pred, all);
    if cycle: seq<MoveLocation> :| BadCycle(moves, cycle) {
      var m := Move(cycle[|cycle| - 1], cycle[0]);
      var i := MoveOrigin(u.locs, insts, pred, m);
      var source :| PhiReads(insts[i], pred, source) && m == Move(LocOf(u.locs, insts[i].dst), LocOf(u.locs, source));
      assert ClosesBad(moves, cycle, m);
      assert !PhiIsSafe(u, insts, pred, insts[i], source);
    } else {
      forall i, source | 0 <= i < |insts| && PhiReads(insts[i], pred, source)
        ensures PhiIsSafe(u, insts, pred, insts[i], source)
      {
        ApartPhiIsSafe(u, insts, pred, i, source);
      }
    }
  }

  lemma ApartPhiIsSafe(u: Compilation, insts: seq<Inst>, pred: BlockId, i: nat, source: VReg)
    requires ApartDsts(u.locs, insts) && !HasBadCycle(EdgeOf(u, insts, pred))
    requires i < |insts| && PhiReads(insts[i], pred, source)
    ensures PhiIsSafe(u, insts, pred, insts[i], source)
  {
    var moves := EdgeOf(u, insts, pred);
    var m := Move(LocOf(u.locs, insts[i].dst), LocOf(u.locs, source));
    assert forall cycle :: ClosesBad(moves, cycle, m) ==> BadCycle(moves, cycle);
    if m.dst == m.src && IsDst(moves, m.dst) {
      var n := LastMoveTo(moves, m.dst);
      PlaceIsShared(u, insts, pred, i, source, moves[n]);
    }
  }

  // ---------- what the interpreter reads ----------

  ghost predicate DistinctPhis(insts: seq<Inst>) {
    forall i, j :: 0 <= i < j < |insts| && insts[i].PhiI64? && insts[j].PhiI64? ==> insts[i].dst != insts[j].dst
  }

  predicate PhiOf(insts: seq<Inst>, k: nat, v: VReg) {
    exists i :: 0 <= i < k && i < |insts| && insts[i].PhiI64? && insts[i].dst == v
  }

  // Entering a block binds each phi to its input's old value and leaves other values alone.
  lemma {:induction false} EnteredValues(insts: seq<Inst>, k: nat, pred: BlockId, before: Env)
    requires k <= |insts| && DistinctPhis(insts) && EnterPhis(insts, k, Some(pred), before).Success?
    ensures var after := EnterPhis(insts, k, Some(pred), before).value;
      (forall i :: 0 <= i < k && insts[i].PhiI64? ==>
        PhiReads(insts[i], pred, SourceOf(insts[i], pred)) && SourceOf(insts[i], pred) in before &&
        insts[i].dst in after && after[insts[i].dst] == before[SourceOf(insts[i], pred)]) &&
      (forall v :: !PhiOf(insts, k, v) ==> (v in after <==> v in before) && (v in after ==> after[v] == before[v]))
    decreases k
  {
    if k > 0 {
      EnteredValues(insts, k - 1, pred, before);
      forall v | !PhiOf(insts, k, v)
        ensures !PhiOf(insts, k - 1, v)
      {
      }
    }
  }

  function SourceOf(inst: Inst, pred: BlockId): VReg
    requires inst.PhiI64?
  {
    match FindIncoming(inst.incoming, pred)
    case Some(source) => source
    case None => inst.dst
  }
}
