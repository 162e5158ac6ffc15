// Cycles among pending moves, the moves left when some destinations are done, and frames.
module MoveCycles {
  import opened Wrappers
  import opened Machine
  import opened ParallelMoves

  predicate IsDst(moves: seq<Move>, l: MoveLocation) {
    exists i :: 0 <= i < |moves| && moves[i].dst == l
  }

  predicate DistinctDsts(moves: seq<Move>) {
    forall i, j :: 0 <= i < j < |moves| ==> moves[i].dst != moves[j].dst
  }

  // What the sequencer expects of its moves: distinct destinations, no temporaries, no self-moves.
  predicate Sequenceable(c: Context, moves: seq<Move>) {
    && Temporaries(c)
    && DistinctDsts(moves)
    && forall m :: m in moves ==> !IsTemporary(c, m.dst) && !IsTemporary(c, m.src) && m.dst != m.src
  }

  // ---------- cycles ----------

  ghost predicate Before(moves: seq<Move>, x: MoveLocation, y: MoveLocation) {
    exists i, j :: 0 <= i < j < |moves| && moves[i].dst == x && moves[j].dst == y
  }

  ghost predicate DistinctLocations(s: seq<MoveLocation>) {
    forall i, j :: 0 <= i < j < |s| ==> s[i] != s[j]
  }

  // cycle[k] receives cycle[k + 1], and the last receives the first.
  ghost predicate IsCycle(moves: seq<Move>, cycle: seq<MoveLocation>) {
    && |cycle| > 0
    && DistinctLocations(cycle)
    && (forall k :: 0 <= k < |cycle| - 1 ==> Move(cycle[k], cycle[k + 1]) in moves)
    && Move(cycle[|cycle| - 1], cycle[0]) in moves
  }

  ghost predicate FirstListed(moves: seq<Move>, cycle: seq<MoveLocation>) {
    |cycle| > 0 && forall k :: 0 < k < |cycle| ==> Before(moves, cycle[0], cycle[k])
  }

  // Counting from the destination listed first, a cycle whose third or later location is a stack slot.
  ghost predicate BadCycle(moves: seq<Move>, cycle: seq<MoveLocation>) {
    && IsCycle(moves, cycle)
    && FirstListed(moves, cycle)
    && exists k :: 2 <= k < |cycle| && cycle[k].OnStack?
  }

  ghost predicate HasBadCycle(moves: seq<Move>) {
    exists cycle :: BadCycle(moves, cycle)
  }

  // ---------- dropping moves by destination ----------

  function Without(moves: seq<Move>, gone: set<MoveLocation>): seq<Move> {
    if moves == [] then []
    else Without(moves[..|moves| - 1], gone) + (if moves[|moves| - 1].dst in gone then [] else [moves[|moves| - 1]])
  }

  lemma {:induction false} WithoutMember(moves: seq<Move>, gone: set<MoveLocation>, m: Move)
    ensures m in Without(moves, gone) <==> m in moves && m.dst !in gone
    decreases moves
  {
    if moves != [] {
      WithoutMember(moves[..|moves| - 1], gone, m);
      assert moves == moves[..|moves| - 1] + [moves[|moves| - 1]];
    }
  }

  lemma WithoutAppend(moves: seq<Move>, last: Move, gone: set<MoveLocation>)
    ensures Without(moves + [last], gone) ==
      if last.dst in gone then Without(moves, gone) else Without(moves, gone) + [last]
  {
    assert (moves + [last])[..|moves|] == moves;
  }

  lemma {:induction false} WithoutTwice(moves: seq<Move>, a: set<MoveLocation>, b: set<MoveLocation>)
    ensures Without(Without(moves, a), b) == Without(moves, a + b)
    decreases moves
  {
    if moves != [] {
      var front, last := moves[..|moves| - 1], moves[|moves| - 1];
      WithoutTwice(front, a, b);
      assert moves == front + [last];
      WithoutAppend(front, last, a);
      WithoutAppend(front, last, a + b);
      WithoutAppend(Without(front, a), last, b);
    }
  }

  lemma IsDstAppend(front: seq<Move>, last: Move, l: MoveLocation)
    ensures IsDst(front + [last], l) <==> IsDst(front, l) || last.dst == l
  {
    if IsDst(front, l) {
      var i :| 0 <= i < |front| && front[i].dst == l;
      assert (front + [last])[i] == front[i];
    }
    assert (front + [last])[|front|] == last;
  }

  lemma {:induction false} WithoutAbsent(moves: seq<Move>, l: MoveLocation)
    requires !IsDst(moves, l)
    ensures Without(moves, {l}) == moves
    decreases moves
  {
    if moves != [] {
      var front, last := moves[..|moves| - 1], moves[|moves| - 1];
      assert moves == front + [last];
      IsDstAppend(front, last, l);
      WithoutAbsent(front, l);
    }
  }

  lemma {:induction false} RemoveIsWithout(moves: seq<Move>, i: nat)
    requires DistinctDsts(moves) && i < |moves|
    ensures Remove(moves, i) == Without(moves, {moves[i].dst})
    decreases moves
  {
    var front, last := moves[..|moves| - 1], moves[|moves| - 1];
    if i == |moves| - 1 {
      WithoutAbsent(front, last.dst);
      assert Remove(moves, i) == front;
    } else {
      RemoveIsWithout(front, i);
      assert Remove(moves, i) == Remove(front, i) + [last];
    }
  }

  lemma MemberIndex(moves: seq<Move>, m: Move) returns (i: nat)
    requires m in moves
    ensures i < |moves| && moves[i] == m
  {
    i :| 0 <= i < |moves| && moves[i] == m;
  }

  lemma SameDstSameMove(moves: seq<Move>, m: Move, n: Move)
    requires DistinctDsts(moves) && m in moves && n in moves && m.dst == n.dst
    ensures m == n
  {
  }

  lemma {:induction false} WithoutIsDst(moves: seq<Move>, gone: set<MoveLocation>, l: MoveLocation)
    ensures IsDst(Without(moves, gone), l) <==> IsDst(moves, l) && l !in gone
  {
    if IsDst(moves, l) && l !in gone {
      var i :| 0 <= i < |moves| && moves[i].dst == l;
      assert moves[i] in moves;
      WithoutMember(moves, gone, moves[i]);
      var j := MemberIndex(Without(moves, gone), moves[i]);
    }
    if IsDst(Without(moves, gone), l) {
      var j :| 0 <= j < |Without(moves, gone)| && Without(moves, gone)[j].dst == l;
      WithoutMember(moves, gone, Without(moves, gone)[j]);
      var i := MemberIndex(moves, Without(moves, gone)[j]);
    }
  }

  lemma BeforeAppend(moves: seq<Move>, last: Move, x: MoveLocation, y: MoveLocation)
    ensures Before(moves + [last], x, y) <==> Before(moves, x, y) || (last.dst == y && IsDst(moves, x))
  {
    var all := moves + [last];
    if Before(moves, x, y) {
      var i, j :| 0 <= i < j < |moves| && moves[i].dst == x && moves[j].dst == y;
      assert all[i].dst == x && all[j].dst == y;
    }
    if last.dst == y && IsDst(moves, x) {
      var i :| 0 <= i < |moves| && moves[i].dst == x;
      assert all[i].dst == x && all[|moves|].dst == y;
    }
    if Before(all, x, y) {
      var i, j :| 0 <= i < j < |all| && all[i].dst == x && all[j].dst == y;
      assert all[i] == moves[i];
      assert j < |moves| ==> all[j] == moves[j];
    }
  }

  lemma {:induction false} WithoutBefore(moves: seq<Move>, gone: set<MoveLocation>, x: MoveLocation, y: MoveLocation)
    requires x !in gone && y !in gone
    ensures Before(Without(moves, gone), x, y) <==> Before(moves, x, y)
    decreases moves
  {
    if moves != [] {
      var front, last := moves[..|moves| - 1], moves[|moves| - 1];
      WithoutBefore(front, gone, x, y);
      WithoutIsDst(front, gone, x);
      assert moves == front + [last];
      WithoutAppend(front, last, gone);
      BeforeAppend(front, last, x, y);
      BeforeAppend(Without(front, gone), last, x, y);
    }
  }

  lemma {:induction false} WithoutDistinct(moves: seq<Move>, gone: set<MoveLocation>)
    requires DistinctDsts(moves)
    ensures DistinctDsts(Without(moves, gone))
    decreases moves
  {
    if moves != [] {
      var front, last := moves[..|moves| - 1], moves[|moves| - 1];
      WithoutDistinct(front, gone);
      var rest := Without(front, gone);
      forall i | 0 <= i < |rest|
        ensures rest[i].dst != last.dst
      {
        WithoutMember(front, gone, rest[i]);
        var j := MemberIndex(front, rest[i]);
        assert moves[j].dst != moves[|moves| - 1].dst;
      }
    }
  }

  lemma WithoutSequenceable(c: Context, moves: seq<Move>, gone: set<MoveLocation>)
    requires Sequenceable(c, moves)
    ensures Sequenceable(c, Without(moves, gone))
  {
    WithoutDistinct(moves, gone);
    forall m | m in Without(moves, gone)
      ensures m in moves
    {
      WithoutMember(moves, gone, m);
    }
  }

  // A cycle clear of the dropped destinations is a cycle before and after.
  lemma WithoutBadCycle(moves: seq<Move>, gone: set<MoveLocation>, cycle: seq<MoveLocation>)
    requires forall k :: 0 <= k < |cycle| ==> cycle[k] !in gone
    ensures BadCycle(Without(moves, gone), cycle) <==> BadCycle(moves, cycle)
  {
    forall k | 0 <= k < |cycle| - 1
      ensures Move(cycle[k], cycle[k + 1]) in Without(moves, gone) <==> Move(cycle[k], cycle[k + 1]) in moves
    {
      WithoutMember(moves, gone, Move(cycle[k], cycle[k + 1]));
    }
    if |cycle| > 0 {
      WithoutMember(moves, gone, Move(cycle[|cycle| - 1], cycle[0]));
      forall k | 0 < k < |cycle|
        ensures Before(Without(moves, gone), cycle[0], cycle[k]) <==> Before(moves, cycle[0], cycle[k])
      {
        WithoutBefore(moves, gone, cycle[0], cycle[k]);
      }
    }
  }

  // ---------- frames ----------

  // Registers and cells that are neither a temporary nor a destination keep their contents.
  ghost predicate Framed(c: Context, d: Data, e: Data, moves: seq<Move>) {
    && (forall r :: r != Gp(c.temporary) && r != Gp(c.temporary2) && !(r.Gp? && IsDst(moves, InReg(r.reg))) ==>
         Get(e, r) == Get(d, r))
    && (forall a :: !IsDstCell(c, d, moves, a) ==> Cell(e, a) == Cell(d, a))
    && e.flags == d.flags
  }

  ghost predicate IsDstCell(c: Context, d: Data, moves: seq<Move>, a: int) {
    exists i :: 0 <= i < |moves| && moves[i].dst.OnStack? && a == Get(d, Rbp) + StackOffset(c.shadow, moves[i].dst.slot)
  }

  lemma FramedKeeps(c: Context, d: Data, e: Data, moves: seq<Move>, l: MoveLocation)
    requires Framed(c, d, e, moves) && !IsDst(moves, l) && !IsTemporary(c, l)
    ensures Val(c, e, l) == Val(c, d, l)
  {
    if l.OnStack? {
      assert !IsDstCell(c, d, moves, Get(d, Rbp) + StackOffset(c.shadow, l.slot));
    }
  }

  // A first move to l and then moves with destinations among `moves`.
  lemma FramedStep(c: Context, d: Data, mid: Data, e: Data, moves: seq<Move>, l: MoveLocation, later: seq<Move>)
    requires OnlyChanges(c, d, mid, l) && Framed(c, mid, e, later) && IsDst(moves, l)
    requires forall k :: 0 <= k < |later| ==> IsDst(moves, later[k].dst)
    ensures Framed(c, d, e, moves)
  {
    assert Get(mid, Rbp) == Get(d, Rbp);
    forall a | !IsDstCell(c, d, moves, a)
      ensures Cell(e, a) == Cell(d, a)
    {
      var i :| 0 <= i < |moves| && moves[i].dst == l;
    }
    forall r | r != Gp(c.temporary) && r != Gp(c.temporary2) && !(r.Gp? && IsDst(moves, InReg(r.reg)))
      ensures Get(e, r) == Get(d, r)
    {
    }
  }

  lemma {:induction false} SequenceFrame(c: Context, moves: seq<Move>, d: Data)
    requires Temporaries(c) && forall m :: m in moves ==> !IsTemporary(c, m.dst)
    ensures Framed(c, d, Exec(Sequence(c, moves), d), moves)
    decreases |moves|
  {
    if moves != [] {
      match FirstReady(moves, 0)
      case Some(i) =>
        var rest := Remove(moves, i);
        MoveEffect(c, moves[i], c.temporary, d);
        var mid := Exec(MoveCode(c, moves[i], c.temporary), d);
        ExecConcat(MoveCode(c, moves[i], c.temporary), Sequence(c, rest), d);
        SequenceFrame(c, rest, mid);
        FramedStep(c, d, mid, Exec(Sequence(c, rest), mid), moves, moves[i].dst, rest);
      case None =>
        var rest := Redirect(moves[1..], moves[0].dst, InReg(c.temporary));
        assert forall k :: 0 <= k < |rest| ==> rest[k].dst == moves[k + 1].dst;
        BreakEffect(c, moves[0], d);
        var mid := Exec(BreakCode(c, moves[0]), d);
        ExecConcat(BreakCode(c, moves[0]), Sequence(c, rest), d);
        SequenceFrame(c, rest, mid);
        FramedStep(c, d, mid, Exec(Sequence(c, rest), mid), moves, moves[0].dst, rest);
    }
  }
}
