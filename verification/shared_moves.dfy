// Moves that may share a destination: the last one listed is the one that counts.
module SharedMoves {
  import opened Wrappers
  import opened Machine
  import opened ParallelMoves
  import opened MoveCycles
  import opened BrokenCycles
  import opened ParallelCopy

  ghost predicate SharedDst(moves: seq<Move>, l: MoveLocation) {
    exists i, j :: 0 <= i < j < |moves| && moves[i].dst == l && moves[j].dst == l
  }

  ghost predicate CycleUnshared(moves: seq<Move>, cycle: seq<MoveLocation>) {
    forall k :: 0 <= k < |cycle| ==> !SharedDst(moves, cycle[k])
  }

  // No cycle passes through a destination of two moves.
  ghost predicate NoSharedCycle(moves: seq<Move>) {
    forall cycle :: IsCycle(moves, cycle) ==> CycleUnshared(moves, cycle)
  }

  predicate LastTo(moves: seq<Move>, n: nat) {
    n < |moves| && forall k :: n < k < |moves| ==> moves[k].dst != moves[n].dst
  }

  // The sequencer's demands on its moves, apart from distinct destinations.
  predicate Movable(c: Context, moves: seq<Move>) {
    Temporaries(c) && forall m :: m in moves ==> !IsTemporary(c, m.dst) && !IsTemporary(c, m.src) && m.dst != m.src
  }

  // ---------- with nothing ready ----------

  // Each location is read by the next; trail[k + 1] receives trail[k].
  ghost predicate IsReaderTrail(moves: seq<Move>, trail: seq<MoveLocation>) {
    && |trail| > 0
    && DistinctLocations(trail)
    && (forall k :: 0 <= k < |trail| ==> IsDst(moves, trail[k]))
    && (forall k :: 0 <= k < |trail| - 1 ==> Move(trail[k + 1], trail[k]) in moves)
  }

  lemma TwoMovesShare(moves: seq<Move>, m: Move, n: Move)
    requires m in moves && n in moves && m.dst == n.dst && m != n
    ensures SharedDst(moves, m.dst)
  {
    var i := MemberIndex(moves, m);
    var j := MemberIndex(moves, n);
    if i < j {
      assert moves[i].dst == m.dst && moves[j].dst == m.dst;
    } else {
      assert moves[j].dst == m.dst && moves[i].dst == m.dst;
    }
  }

  function Reversed(s: seq<MoveLocation>): seq<MoveLocation> {
    seq(|s|, k requires 0 <= k < |s| => s[|s| - 1 - k])
  }

  // A reader trail that comes back to its k-th location holds a cycle from there.
  lemma TrailCloses(moves: seq<Move>, trail: seq<MoveLocation>, k: nat) returns (cycle: seq<MoveLocation>)
    requires IsReaderTrail(moves, trail) && k < |trail| && Move(trail[k], trail[|trail| - 1]) in moves
    ensures IsCycle(moves, cycle) && trail[k] in cycle
  {
    var part := trail[k..];
    cycle := Reversed(part);
    var n := |cycle|;
    forall i | 0 <= i < n - 1
      ensures Move(cycle[i], cycle[i + 1]) in moves
    {
      var j := |trail| - 2 - i;
      assert Move(trail[j + 1], trail[j]) in moves;
    }
    assert cycle[n - 1] == trail[k] && cycle[0] == trail[|trail| - 1];
  }

  lemma TrailExtends(moves: seq<Move>, trail: seq<MoveLocation>, l: MoveLocation)
    requires IsReaderTrail(moves, trail) && l !in trail && Move(l, trail[|trail| - 1]) in moves
    ensures IsReaderTrail(moves, trail + [l])
  {
    var longer := trail + [l];
    var i := MemberIndex(moves, Move(l, trail[|trail| - 1]));
    forall k | 0 <= k < |longer| - 1
      ensures Move(longer[k + 1], longer[k]) in moves
    {
      if k < |trail| - 1 {
        assert Move(trail[k + 1], trail[k]) in moves;
      }
    }
  }

  lemma ReaderExists(moves: seq<Move>, l: MoveLocation) returns (m: Move)
    requires NothingReady(moves) && IsDst(moves, l)
    ensures m in moves && m.src == l
  {
    assert l in DstsFrom(moves, 0);
    var i :| 0 <= i < |moves| && moves[i].src == l;
    m := moves[i];
  }

  // Following readers from a shared destination runs into a cycle through a shared one.
  lemma {:induction false} SharedLeadsToCycle(moves: seq<Move>, trail: seq<MoveLocation>)
    requires NothingReady(moves) && IsReaderTrail(moves, trail) && SharedDst(moves, trail[0])
    ensures !NoSharedCycle(moves)
    decreases |moves| - |trail|
  {
    var last := trail[|trail| - 1];
    var m := ReaderExists(moves, last);
    if m.dst in trail {
      var k :| 0 <= k < |trail| && trail[k] == m.dst;
      assert m == Move(trail[k], last);
      var cycle := TrailCloses(moves, trail, k);
      if k > 0 {
        assert Move(trail[k - 1 + 1], trail[k - 1]) in moves;
        TwoMovesShare(moves, m, Move(trail[k], trail[k - 1]));
      }
      var n :| 0 <= n < |cycle| && cycle[n] == trail[k];
      assert !CycleUnshared(moves, cycle);
    } else {
      assert m == Move(m.dst, last);
      TrailExtends(moves, trail, m.dst);
      TrailIsShort(moves, trail + [m.dst]);
      SharedLeadsToCycle(moves, trail + [m.dst]);
    }
  }

  // When nothing is ready, the pending destinations are distinct.
  lemma NothingReadyIsDistinct(moves: seq<Move>)
    requires NothingReady(moves) && NoSharedCycle(moves)
    ensures DistinctDsts(moves)
  {
    forall i, j | 0 <= i < j < |moves|
      ensures moves[i].dst != moves[j].dst
    {
      if moves[i].dst == moves[j].dst {
        assert SharedDst(moves, moves[i].dst);
        SharedLeadsToCycle(moves, [moves[i].dst]);
      }
    }
  }

  // ---------- one ready move ----------

  lemma RemovedMember(moves: seq<Move>, i: nat, m: Move)
    requires i < |moves|
    ensures m in Remove(moves, i) ==> m in moves
    ensures m in moves && m.dst != moves[i].dst ==> m in Remove(moves, i)
  {
    if m in moves && m.dst != moves[i].dst {
      var k := MemberIndex(moves, m);
      assert Remove(moves, i)[if k < i then k else k - 1] == m;
    }
  }

  lemma RemoveKeepsMovable(c: Context, moves: seq<Move>, i: nat)
    requires Movable(c, moves) && i < |moves|
    ensures Movable(c, Remove(moves, i))
  {
    forall m | m in Remove(moves, i)
      ensures m in moves
    {
      RemovedMember(moves, i, m);
    }
  }

  lemma RemoveShares(moves: seq<Move>, i: nat, l: MoveLocation)
    requires i < |moves| && SharedDst(Remove(moves, i), l)
    ensures SharedDst(moves, l)
  {
    var rest := Remove(moves, i);
    var j, k :| 0 <= j < k < |rest| && rest[j].dst == l && rest[k].dst == l;
    var j', k' := if j < i then j else j + 1, if k < i then k else k + 1;
    assert moves[j'].dst == l && moves[k'].dst == l;
  }

  lemma RemoveKeepsUnshared(moves: seq<Move>, i: nat)
    requires NoSharedCycle(moves) && i < |moves|
    ensures NoSharedCycle(Remove(moves, i))
  {
    var rest := Remove(moves, i);
    forall cycle: seq<MoveLocation> | IsCycle(rest, cycle)
      ensures CycleUnshared(rest, cycle)
    {
      CycleRemains(moves, i, cycle);
      forall k | 0 <= k < |cycle|
        ensures !SharedDst(rest, cycle[k])
      {
        if SharedDst(rest, cycle[k]) {
          RemoveShares(moves, i, cycle[k]);
        }
      }
    }
  }

  lemma CycleRemains(moves: seq<Move>, i: nat, cycle: seq<MoveLocation>)
    requires i < |moves| && IsCycle(Remove(moves, i), cycle)
    ensures IsCycle(moves, cycle)
  {
    RemovedMember(moves, i, Move(cycle[|cycle| - 1], cycle[0]));
    forall k | 0 <= k < |cycle| - 1
      ensures Move(cycle[k], cycle[k + 1]) in moves
    {
      RemovedMember(moves, i, Move(cycle[k], cycle[k + 1]));
    }
  }

  lemma {:induction false} WithoutConcat(s: seq<Move>, t: seq<Move>, gone: set<MoveLocation>)
    ensures Without(s + t, gone) == Without(s, gone) + Without(t, gone)
    decreases t
  {
    if t == [] {
      assert s + t == s;
    } else {
      var front, last := t[..|t| - 1], t[|t| - 1];
      WithoutConcat(s, front, gone);
      assert s + t == (s + front) + [last];
      WithoutAppend(s + front, last, gone);
    }
  }

  lemma WithoutMiddle(s: seq<Move>, m: Move, t: seq<Move>)
    ensures Without(s + [m] + t, {m.dst}) == Without(s + t, {m.dst})
  {
    WithoutConcat(s + [m], t, {m.dst});
    WithoutAppend(s, m, {m.dst});
    WithoutConcat(s, t, {m.dst});
  }

  lemma SplitAt(moves: seq<Move>, i: nat)
    requires i < |moves|
    ensures moves == moves[..i] + [moves[i]] + moves[i + 1..]
  {
  }

  lemma WithoutRemoved(moves: seq<Move>, i: nat)
    requires i < |moves|
    ensures Without(Remove(moves, i), {moves[i].dst}) == Without(moves, {moves[i].dst})
  {
    SplitAt(moves, i);
    WithoutMiddle(moves[..i], moves[i], moves[i + 1..]);
  }

  // A ready move is on no cycle, so the bad cycles are the same without it.
  lemma ReadyKeepsBadCycles(moves: seq<Move>, i: nat, cycle: seq<MoveLocation>)
    requires i < |moves| && moves[i].dst !in Srcs(moves)
    ensures BadCycle(Remove(moves, i), cycle) <==> BadCycle(moves, cycle)
  {
    var l := moves[i].dst;
    var rest := Remove(moves, i);
    if BadCycle(moves, cycle) || BadCycle(rest, cycle) {
      if BadCycle(rest, cycle) {
        CycleRemains(moves, i, cycle);
      }
      ReadyIsOnNoCycle(moves, cycle, l);
      assert forall k :: 0 <= k < |cycle| ==> cycle[k] !in {l};
      WithoutRemoved(moves, i);
      WithoutBadCycle(moves, {l}, cycle);
      WithoutBadCycle(rest, {l}, cycle);
    }
  }

  lemma ReadyClosesTheSame(moves: seq<Move>, i: nat, m: Move)
    requires i < |moves| && moves[i].dst !in Srcs(moves)
    ensures forall cycle :: ClosesBad(Remove(moves, i), cycle, m) <==> ClosesBad(moves, cycle, m)
  {
    forall cycle: seq<MoveLocation>
      ensures ClosesBad(Remove(moves, i), cycle, m) <==> ClosesBad(moves, cycle, m)
    {
      ReadyKeepsBadCycles(moves, i, cycle);
    }
  }

  lemma SlotThroughOther(
    c: Context, l: MoveLocation, d: Data, mid: Data, e: Data, m: Move, cycle: seq<MoveLocation>)
    requires Clear(cycle, {l}) && OnlyChanges(c, d, mid, l) && GotSlotValue(c, mid, e, m, cycle)
    ensures GotSlotValue(c, d, e, m, cycle)
  {
    var k :| 2 <= k < |cycle| && cycle[k].OnStack? && Val(c, e, m.dst) == Val(c, mid, cycle[k]);
    assert cycle[k] !in {l};
    OnlyChangesKeeps(c, d, mid, l, cycle[k]);
  }

  lemma DeliveryThroughOther(c: Context, moves: seq<Move>, i: nat, d: Data, mid: Data, e: Data, m: Move)
    requires Movable(c, moves) && i < |moves| && moves[i].dst !in Srcs(moves) && m in moves
    requires OnlyChanges(c, d, mid, moves[i].dst) && Delivered(c, Remove(moves, i), mid, e, m)
    ensures Delivered(c, moves, d, e, m)
  {
    var l := moves[i].dst;
    var j := MemberIndex(moves, m);
    assert m.src in Srcs(moves);
    OnlyChangesKeeps(c, d, mid, l, m.src);
    ReadyClosesTheSame(moves, i, m);
    if cycle: seq<MoveLocation> :| ClosesBad(Remove(moves, i), cycle, m) && GotSlotValue(c, mid, e, m, cycle) {
      assert ClosesBad(moves, cycle, m);
      ReadyIsOnNoCycle(moves, cycle, l);
      SlotThroughOther(c, l, d, mid, e, m, cycle);
    }
  }

  // ---------- a whole run ----------

  // The first ready move that is the last to its destination leaves no other move to it.
  lemma LastReadyIsOnly(moves: seq<Move>, i: nat)
    requires FirstReady(moves, 0) == Some(i) && LastTo(moves, i)
    ensures !IsDst(Remove(moves, i), moves[i].dst)
  {
    FirstReadyIsFirst(moves, 0);
    var rest := Remove(moves, i);
    forall k | 0 <= k < |rest|
      ensures rest[k].dst != moves[i].dst
    {
      assert rest[k] == moves[if k < i then k else k + 1];
    }
  }

  lemma {:induction false} FirstReadyIsFirst(moves: seq<Move>, from: nat)
    requires from <= |moves|
    ensures var r := FirstReady(moves, from);
      r.Some? ==> forall k :: from <= k < r.value ==> moves[k].dst in Srcs(moves)
    decreases |moves| - from
  {
    if from < |moves| && moves[from].dst in Srcs(moves) {
      FirstReadyIsFirst(moves, from + 1);
    }
  }

  lemma ReadyMoves(c: Context, moves: seq<Move>, i: nat, d: Data) returns (mid: Data)
    requires Movable(c, moves) && i < |moves| && FirstReady(moves, 0) == Some(i)
    ensures Exec(Sequence(c, moves), d) == Exec(Sequence(c, Remove(moves, i)), mid)
    ensures OnlyChanges(c, d, mid, moves[i].dst) && Val(c, mid, moves[i].dst) == Val(c, d, moves[i].src)
  {
    mid := Exec(MoveCode(c, moves[i], c.temporary), d);
    ExecConcat(MoveCode(c, moves[i], c.temporary), Sequence(c, Remove(moves, i)), d);
    assert moves[i] in moves;
    MoveEffect(c, moves[i], c.temporary, d);
  }

  lemma LastReadyDelivers(c: Context, moves: seq<Move>, d: Data, n: nat)
    requires Movable(c, moves) && LastTo(moves, n) && FirstReady(moves, 0) == Some(n)
    ensures Delivered(c, moves, d, Exec(Sequence(c, moves), d), moves[n])
  {
    var rest := Remove(moves, n);
    var mid := ReadyMoves(c, moves, n, d);
    RemoveKeepsMovable(c, moves, n);
    LastReadyIsOnly(moves, n);
    SequenceFrame(c, rest, mid);
    assert moves[n] in moves;
    FramedKeeps(c, mid, Exec(Sequence(c, rest), mid), rest, moves[n].dst);
    ReadyClosesNothing(moves, moves[n]);
  }

  // Where move n stands once move i is gone.
  lemma RemovedIndex(moves: seq<Move>, i: nat, n: nat) returns (k: nat)
    requires i < |moves| && i != n && LastTo(moves, n)
    ensures k < |Remove(moves, i)| && Remove(moves, i)[k] == moves[n] && LastTo(Remove(moves, i), k)
  {
    k := if n < i then n else n - 1;
    assert forall j :: k < j < |Remove(moves, i)| ==> Remove(moves, i)[j] == moves[if j < i then j else j + 1];
  }

  // The last move to a destination delivers to it as if it were the only one.
  lemma {:induction false} LastMoveDelivers(c: Context, moves: seq<Move>, d: Data, n: nat)
    requires Movable(c, moves) && NoSharedCycle(moves) && LastTo(moves, n)
    ensures Delivered(c, moves, d, Exec(Sequence(c, moves), d), moves[n])
    decreases |moves|
  {
    match FirstReady(moves, 0)
    case Some(i) =>
      if i == n {
        LastReadyDelivers(c, moves, d, n);
      } else {
        var rest := Remove(moves, i);
        var mid := ReadyMoves(c, moves, i, d);
        var k := RemovedIndex(moves, i, n);
        RemoveKeepsMovable(c, moves, i);
        RemoveKeepsUnshared(moves, i);
        LastMoveDelivers(c, rest, mid, k);
        DeliveryThroughOther(c, moves, i, d, mid, Exec(Sequence(c, rest), mid), moves[n]);
      }
    case None =>
      NothingReadyIsDistinct(moves);
      SequenceDelivers(c, moves, d, moves[n]);
  }
}
