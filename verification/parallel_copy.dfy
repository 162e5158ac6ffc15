// When the sequenced moves amount to the simultaneous assignment, exactly.
module ParallelCopy {
  import opened Wrappers
  import opened Alloc
  import opened Machine
  import opened ParallelMoves
  import opened MoveCycles
  import opened BrokenCycles

  // ---------- one move's final value ----------

  ghost predicate ClosesBad(moves: seq<Move>, cycle: seq<MoveLocation>, m: Move) {
    BadCycle(moves, cycle) && cycle[|cycle| - 1] == m.dst
  }

  ghost predicate ClosesSomeBad(moves: seq<Move>, m: Move) {
    exists cycle :: ClosesBad(moves, cycle, m)
  }

  ghost predicate GotSlotValue(c: Context, d: Data, e: Data, m: Move, cycle: seq<MoveLocation>) {
    exists k :: 2 <= k < |cycle| && cycle[k].OnStack? && Val(c, e, m.dst) == Val(c, d, cycle[k])
  }

  ghost predicate Misdelivered(c: Context, moves: seq<Move>, d: Data, e: Data, m: Move) {
    exists cycle :: ClosesBad(moves, cycle, m) && GotSlotValue(c, d, e, m, cycle)
  }

  // A move gets its source's value, unless it closes a bad cycle: then it gets the value of a
  // stack slot on that cycle, which came through the temporary.
  ghost predicate Delivered(c: Context, moves: seq<Move>, d: Data, e: Data, m: Move) {
    if ClosesSomeBad(moves, m) then Misdelivered(c, moves, d, e, m) else Val(c, e, m.dst) == Val(c, d, m.src)
  }

  // Cycles follow sources, so two cycles from the same location are the same.
  lemma {:induction false} CyclesAgree(moves: seq<Move>, a: seq<MoveLocation>, b: seq<MoveLocation>, k: nat)
    requires DistinctDsts(moves) && IsCycle(moves, a) && IsCycle(moves, b) && a[0] == b[0]
    requires k < |a| && k < |b|
    ensures a[k] == b[k]
    decreases k
  {
    if k > 0 {
      CyclesAgree(moves, a, b, k - 1);
      assert Move(a[k - 1], a[k - 1 + 1]) in moves && Move(b[k - 1], b[k - 1 + 1]) in moves;
      SameDstSameMove(moves, Move(a[k - 1], a[k]), Move(b[k - 1], b[k]));
    }
  }

  lemma SameStartSameCycle(moves: seq<Move>, a: seq<MoveLocation>, b: seq<MoveLocation>)
    requires DistinctDsts(moves) && IsCycle(moves, a) && IsCycle(moves, b) && a[0] == b[0]
    ensures a == b
  {
    forall k | 0 <= k < |a| && k < |b|
      ensures a[k] == b[k]
    {
      CyclesAgree(moves, a, b, k);
    }
    if |a| < |b| {
      SameLength(moves, a, b);
    } else if |b| < |a| {
      SameLength(moves, b, a);
    }
  }

  lemma SameLength(moves: seq<Move>, a: seq<MoveLocation>, b: seq<MoveLocation>)
    requires DistinctDsts(moves) && IsCycle(moves, a) && IsCycle(moves, b)
    requires |a| <= |b| && forall k :: 0 <= k < |a| ==> a[k] == b[k]
    ensures |a| == |b|
  {
    if |a| < |b| {
      var n := |a|;
      assert Move(b[n - 1], b[n - 1 + 1]) in moves;
      SameDstSameMove(moves, Move(a[n - 1], a[0]), Move(b[n - 1], b[n]));
    }
  }

  lemma SourceStaysOnCycle(moves: seq<Move>, cycle: seq<MoveLocation>, m: Move)
    requires DistinctDsts(moves) && IsCycle(moves, cycle) && m in moves && m.dst in cycle
    ensures m.src in cycle
  {
    var k :| 0 <= k < |cycle| && cycle[k] == m.dst;
    if k < |cycle| - 1 {
      assert Move(cycle[k], cycle[k + 1]) in moves;
      SameDstSameMove(moves, m, Move(cycle[k], cycle[k + 1]));
    } else {
      SameDstSameMove(moves, m, Move(cycle[k], cycle[0]));
    }
  }

  lemma {:induction false} LaterOnCycle(moves: seq<Move>, a: seq<MoveLocation>, b: seq<MoveLocation>, i: nat, j: nat)
    requires DistinctDsts(moves) && IsCycle(moves, a) && IsCycle(moves, b)
    requires i <= j < |a| && a[i] in b
    ensures a[j] in b
    decreases j
  {
    if i < j {
      LaterOnCycle(moves, a, b, i, j - 1);
      assert Move(a[j - 1], a[j - 1 + 1]) in moves;
      SourceStaysOnCycle(moves, b, Move(a[j - 1], a[j]));
    }
  }

  lemma SharedCycleHoldsAll(moves: seq<Move>, a: seq<MoveLocation>, b: seq<MoveLocation>, l: MoveLocation)
    requires DistinctDsts(moves) && IsCycle(moves, a) && IsCycle(moves, b) && l in a && l in b
    ensures a[0] in b
  {
    var i :| 0 <= i < |a| && a[i] == l;
    LaterOnCycle(moves, a, b, i, |a| - 1);
    SourceStaysOnCycle(moves, b, Move(a[|a| - 1], a[0]));
  }

  // A first-listed cycle that shares a location with the cycle through moves[0] is that cycle.
  lemma FirstListedCycleIs(moves: seq<Move>, first: seq<MoveLocation>, cycle: seq<MoveLocation>, l: MoveLocation)
    requires DistinctDsts(moves) && moves != [] && IsCycle(moves, first) && first[0] == moves[0].dst
    requires IsCycle(moves, cycle) && FirstListed(moves, cycle) && l in first && l in cycle
    ensures cycle == first
  {
    SharedCycleHoldsAll(moves, first, cycle, l);
    var k :| 0 <= k < |cycle| && cycle[k] == first[0];
    SameStartSameCycle(moves, first, cycle);
  }

  // ---------- delivery ----------

  ghost predicate Clear(cycle: seq<MoveLocation>, gone: set<MoveLocation>) {
    forall k :: 0 <= k < |cycle| ==> cycle[k] !in gone
  }

  // A ready move: nothing reads its destination, so no cycle passes through it.
  lemma ReadyIsOnNoCycle(moves: seq<Move>, cycle: seq<MoveLocation>, l: MoveLocation)
    requires IsCycle(moves, cycle) && l !in Srcs(moves)
    ensures Clear(cycle, {l})
  {
    forall k | 0 <= k < |cycle|
      ensures cycle[k] in Srcs(moves)
    {
      if k > 0 {
        assert Move(cycle[k - 1], cycle[k - 1 + 1]) in moves;
        var i := MemberIndex(moves, Move(cycle[k - 1], cycle[k]));
      } else {
        var i := MemberIndex(moves, Move(cycle[|cycle| - 1], cycle[0]));
      }
    }
  }

  lemma CycleAvoidsGone(moves: seq<Move>, gone: set<MoveLocation>, cycle: seq<MoveLocation>)
    requires IsCycle(Without(moves, gone), cycle)
    ensures forall k :: 0 <= k < |cycle| ==> cycle[k] !in gone
  {
    forall k | 0 <= k < |cycle|
      ensures cycle[k] !in gone
    {
      if k < |cycle| - 1 {
        WithoutMember(moves, gone, Move(cycle[k], cycle[k + 1]));
      } else {
        WithoutMember(moves, gone, Move(cycle[k], cycle[0]));
      }
    }
  }

  // What the remaining moves deliver is delivered, when the dropped destinations are off the move's
  // cycles and only they have changed.
  lemma DeliveryTransfers(c: Context, moves: seq<Move>, gone: set<MoveLocation>, d: Data, mid: Data, e: Data, m: Move)
    requires Val(c, mid, m.src) == Val(c, d, m.src)
    requires forall cycle :: ClosesBad(moves, cycle, m) ==> Clear(cycle, gone)
    requires forall l :: l !in gone && !IsTemporary(c, l) ==> Val(c, mid, l) == Val(c, d, l)
    requires Delivered(c, Without(moves, gone), mid, e, m)
    ensures Delivered(c, moves, d, e, m)
  {
    if ClosesSomeBad(moves, m) {
      var cycle: seq<MoveLocation> :| ClosesBad(moves, cycle, m);
      WithoutBadCycle(moves, gone, cycle);
      assert ClosesBad(Without(moves, gone), cycle, m);
      MisdeliveryTransfers(c, moves, gone, d, mid, e, m);
    }
    ClosesTransfersBack(moves, gone, m);
  }

  lemma ClosesTransfersBack(moves: seq<Move>, gone: set<MoveLocation>, m: Move)
    ensures ClosesSomeBad(Without(moves, gone), m) ==> ClosesSomeBad(moves, m)
  {
    if cycle: seq<MoveLocation> :| ClosesBad(Without(moves, gone), cycle, m) {
      CycleAvoidsGone(moves, gone, cycle);
      WithoutBadCycle(moves, gone, cycle);
      assert ClosesBad(moves, cycle, m);
    }
  }

  lemma MisdeliveryTransfers(
      c: Context, moves: seq<Move>, gone: set<MoveLocation>, d: Data, mid: Data, e: Data, m: Move)
    requires forall l :: l !in gone && !IsTemporary(c, l) ==> Val(c, mid, l) == Val(c, d, l)
    requires Misdelivered(c, Without(moves, gone), mid, e, m)
    ensures Misdelivered(c, moves, d, e, m)
  {
    var cycle: seq<MoveLocation> :| ClosesBad(Without(moves, gone), cycle, m) && GotSlotValue(c, mid, e, m, cycle);
    CycleAvoidsGone(moves, gone, cycle);
    WithoutBadCycle(moves, gone, cycle);
    SlotValueTransfers(c, gone, d, mid, e, m, cycle);
    assert ClosesBad(moves, cycle, m);
  }

  lemma SlotValueTransfers(
      c: Context, gone: set<MoveLocation>, d: Data, mid: Data, e: Data, m: Move, cycle: seq<MoveLocation>)
    requires forall l :: l !in gone && !IsTemporary(c, l) ==> Val(c, mid, l) == Val(c, d, l)
    requires Clear(cycle, gone) && GotSlotValue(c, mid, e, m, cycle)
    ensures GotSlotValue(c, d, e, m, cycle)
  {
    var k :| 2 <= k < |cycle| && cycle[k].OnStack? && Val(c, e, m.dst) == Val(c, mid, cycle[k]);
    assert Val(c, mid, cycle[k]) == Val(c, d, cycle[k]);
  }

  lemma DeliveryThroughReady(c: Context, moves: seq<Move>, l: MoveLocation, d: Data, mid: Data, e: Data, m: Move)
    requires Sequenceable(c, moves) && m in moves && l !in Srcs(moves)
    requires OnlyChanges(c, d, mid, l) && Delivered(c, Without(moves, {l}), mid, e, m)
    ensures Delivered(c, moves, d, e, m)
  {
    var i := MemberIndex(moves, m);
    OnlyChangesKeeps(c, d, mid, l, m.src);
    forall x | x != l && !IsTemporary(c, x)
      ensures Val(c, mid, x) == Val(c, d, x)
    {
      OnlyChangesKeeps(c, d, mid, l, x);
    }
    forall cycle | ClosesBad(moves, cycle, m)
      ensures Clear(cycle, {l})
    {
      ReadyIsOnNoCycle(moves, cycle, l);
    }
    DeliveryTransfers(c, moves, {l}, d, mid, e, m);
  }

  // A move off the cycle just drained: its source is off it too, and so are the cycles it closes.
  lemma DeliveryBesideCycle(
      c: Context, moves: seq<Move>, first: seq<MoveLocation>, d: Data, mid: Data, e: Data, m: Move)
    requires Broken(c, moves, first) && m in moves && m.dst !in first
    requires forall l :: l !in first && !IsTemporary(c, l) ==> Val(c, mid, l) == Val(c, d, l)
    requires Delivered(c, Without(moves, Elements(first)), mid, e, m)
    ensures Delivered(c, moves, d, e, m)
  {
    SourceOffCycle(c, moves, first, m);
    forall cycle | ClosesBad(moves, cycle, m)
      ensures Clear(cycle, Elements(first))
    {
      OtherCycleIsClear(c, moves, first, cycle, m);
    }
    DeliveryTransfers(c, moves, Elements(first), d, mid, e, m);
  }

  lemma OtherCycleIsClear(c: Context, moves: seq<Move>, first: seq<MoveLocation>, cycle: seq<MoveLocation>, m: Move)
    requires Broken(c, moves, first) && m.dst !in first && ClosesBad(moves, cycle, m)
    ensures Clear(cycle, Elements(first))
  {
    forall k | 0 <= k < |cycle|
      ensures cycle[k] !in first
    {
      if cycle[k] in first {
        FirstListedCycleIs(moves, first, cycle, cycle[k]);
      }
    }
  }

  lemma SourceOffCycle(c: Context, moves: seq<Move>, first: seq<MoveLocation>, m: Move)
    requires Broken(c, moves, first) && m in moves && m.dst !in first
    ensures m.src !in first
  {
    if m.src in first {
      var k :| 0 <= k < |first| && first[k] == m.src;
      var n := Move(first[if k == 0 then |first| - 1 else k - 1], first[k]);
      assert k > 0 ==> Move(first[k - 1], first[k - 1 + 1]) in moves;
      SourceIsUnique(moves, m, n);
    }
  }

  // ---------- a whole run ----------

  // On the broken cycle: every move but the closing one is delivered, and the closing one receives
  // what is left in the temporary.
  lemma CycleEffect(c: Context, moves: seq<Move>, first: seq<MoveLocation>, d: Data) returns (mid: Data)
    requires Broken(c, moves, first)
    ensures |first| >= 2
    ensures Exec(Sequence(c, moves), d) == Exec(Sequence(c, Without(moves, Elements(first))), mid)
    ensures forall k :: 0 <= k < |first| - 1 ==> Val(c, mid, first[k]) == Val(c, d, first[k + 1])
    ensures Val(c, mid, first[|first| - 1]) == Residue(c, d, first[1..], Val(c, d, first[0]))
    ensures forall l :: l !in first && !IsTemporary(c, l) ==> Val(c, mid, l) == Val(c, d, l)
  {
    FirstMove(c, moves, first);
    BreakIsHot(c, moves, first);
    ChainIsClear(c, AfterBreak(c, moves), first[1..]);
    BreakUnfolds(c, moves, first);
    assert moves[0] in moves;
    var rest := Sequence(c, Without(moves, Elements(first)));
    var broken := Exec(BreakCode(c, moves[0]), d);
    ExecConcat(BreakCode(c, moves[0]), ChainCode(c, first[1..]) + rest, d);
    ExecConcat(ChainCode(c, first[1..]), rest, broken);
    mid := Exec(ChainCode(c, first[1..]), broken);
    BreakEffect(c, moves[0], d);
    CycleValues(c, first, d, broken, mid);
  }

  lemma CycleValues(c: Context, first: seq<MoveLocation>, d: Data, broken: Data, mid: Data)
    requires |first| >= 2 && DistinctLocations(first) && ClearChain(c, first[1..]) && !IsTemporary(c, first[0])
    requires OnlyChanges(c, d, broken, first[0]) && Get(broken, Gp(c.temporary)) == Val(c, d, first[0])
    requires Val(c, broken, first[0]) == Val(c, d, first[1])
    requires mid == Exec(ChainCode(c, first[1..]), broken)
    ensures forall k :: 0 <= k < |first| - 1 ==> Val(c, mid, first[k]) == Val(c, d, first[k + 1])
    ensures Val(c, mid, first[|first| - 1]) == Residue(c, d, first[1..], Val(c, d, first[0]))
    ensures forall l :: l !in first && !IsTemporary(c, l) ==> Val(c, mid, l) == Val(c, d, l)
  {
    var chain := first[1..];
    forall l | l != first[0] && !IsTemporary(c, l)
      ensures Val(c, broken, l) == Val(c, d, l)
    {
      OnlyChangesKeeps(c, d, broken, first[0], l);
    }
    ChainEffect(c, chain, broken);
    ResidueSame(c, d, broken, chain, Val(c, d, first[0]));
    assert first[0] !in chain;
    forall k | 0 <= k < |first| - 1
      ensures Val(c, mid, first[k]) == Val(c, d, first[k + 1])
    {
      if k > 0 {
        assert first[k] == chain[k - 1] && first[k + 1] == chain[k];
      }
    }
    forall l | l !in first && !IsTemporary(c, l)
      ensures Val(c, mid, l) == Val(c, d, l)
    {
      assert l !in chain;
    }
  }

  // A first-listed cycle that closes at a move of the broken cycle is the broken cycle.
  lemma CloserIsLast(c: Context, moves: seq<Move>, first: seq<MoveLocation>, cycle: seq<MoveLocation>, m: Move)
    requires Broken(c, moves, first) && m.dst in first && ClosesBad(moves, cycle, m)
    ensures cycle == first
  {
    assert m.dst in cycle;
    FirstListedCycleIs(moves, first, cycle, m.dst);
  }

  lemma FirstCycleIsListed(c: Context, moves: seq<Move>, first: seq<MoveLocation>)
    requires Broken(c, moves, first)
    ensures FirstListed(moves, first)
  {
    forall k | 0 < k < |first|
      ensures Before(moves, first[0], first[k])
    {
      var m := Move(first[k], if k < |first| - 1 then first[k + 1] else first[0]);
      assert k < |first| - 1 ==> Move(first[k], first[k + 1]) in moves;
      var j := MemberIndex(moves, m);
    }
  }

  lemma DeliveryOnCycle(c: Context, moves: seq<Move>, first: seq<MoveLocation>, d: Data, e: Data, m: Move)
    requires Broken(c, moves, first) && |first| >= 2 && m in moves && m.dst in first
    requires forall k :: 0 <= k < |first| - 1 ==> Val(c, e, first[k]) == Val(c, d, first[k + 1])
    requires Val(c, e, first[|first| - 1]) == Residue(c, d, first[1..], Val(c, d, first[0]))
    ensures Delivered(c, moves, d, e, m)
  {
    var k :| 0 <= k < |first| && first[k] == m.dst;
    if k < |first| - 1 {
      assert Move(first[k], first[k + 1]) in moves;
      SameDstSameMove(moves, m, Move(first[k], first[k + 1]));
      if ClosesSomeBad(moves, m) {
        var cycle: seq<MoveLocation> :| ClosesBad(moves, cycle, m);
        CloserIsLast(c, moves, first, cycle, m);
      }
    } else {
      SameDstSameMove(moves, m, Move(first[k], first[0]));
      ClosingDelivery(c, moves, first, d, e, m);
    }
  }

  lemma ClosingDelivery(c: Context, moves: seq<Move>, first: seq<MoveLocation>, d: Data, e: Data, m: Move)
    requires Broken(c, moves, first) && |first| >= 2 && m == Move(first[|first| - 1], first[0])
    requires Val(c, e, m.dst) == Residue(c, d, first[1..], Val(c, d, first[0]))
    ensures Delivered(c, moves, d, e, m)
  {
    var chain := first[1..];
    ResidueIs(c, d, chain, Val(c, d, first[0]));
    CloserHasSlot(c, moves, first, m);
    if n :| 1 <= n < |chain| && chain[n].OnStack? {
      FirstCycleIsListed(c, moves, first);
      assert first[n + 1] == chain[n];
      assert ClosesBad(moves, first, m);
      var k :| 1 <= k < |chain| && chain[k].OnStack? &&
                 Residue(c, d, chain, Val(c, d, first[0])) == Val(c, d, chain[k]);
      assert first[k + 1] == chain[k];
      assert GotSlotValue(c, d, e, m, first);
    }
  }

  lemma CloserHasSlot(c: Context, moves: seq<Move>, first: seq<MoveLocation>, m: Move)
    requires Broken(c, moves, first) && |first| >= 2 && m.dst in first
    ensures ClosesSomeBad(moves, m) ==> exists n :: 1 <= n < |first[1..]| && first[1..][n].OnStack?
  {
    if cycle: seq<MoveLocation> :| ClosesBad(moves, cycle, m) {
      CloserIsLast(c, moves, first, cycle, m);
      var k :| 2 <= k < |cycle| && cycle[k].OnStack?;
      assert first[1..][k - 1] == first[k];
    }
  }

  lemma RemainingKeep(c: Context, moves: seq<Move>, gone: set<MoveLocation>, mid: Data, l: MoveLocation)
    requires Sequenceable(c, moves) && l in gone && !IsTemporary(c, l)
    ensures Val(c, Exec(Sequence(c, Without(moves, gone)), mid), l) == Val(c, mid, l)
  {
    WithoutSequenceable(c, moves, gone);
    SequenceFrame(c, Without(moves, gone), mid);
    WithoutIsDst(moves, gone, l);
    FramedKeeps(c, mid, Exec(Sequence(c, Without(moves, gone)), mid), Without(moves, gone), l);
  }

  lemma {:induction false} SequenceDelivers(c: Context, moves: seq<Move>, d: Data, m: Move)
    requires Sequenceable(c, moves) && m in moves
    ensures Delivered(c, moves, d, Exec(Sequence(c, moves), d), m)
    decreases |moves|
  {
    match FirstReady(moves, 0)
    case Some(i) =>
      var l := moves[i].dst;
      var mid := Exec(MoveCode(c, moves[i], c.temporary), d);
      ReadyUnfolds(c, moves, i, d);
      if m.dst == l {
        SameDstSameMove(moves, m, moves[i]);
        RemainingKeep(c, moves, {l}, mid, l);
        ReadyClosesNothing(moves, m);
      } else {
        WithoutSequenceable(c, moves, {l});
        WithoutMember(moves, {l}, m);
        RemoveIsWithout(moves, i);
        SequenceDelivers(c, Without(moves, {l}), mid, m);
        DeliveryThroughReady(c, moves, l, d, mid, Exec(Sequence(c, Without(moves, {l})), mid), m);
      }
    case None =>
      assert moves != [];
      assert IsTrail(moves, [moves[0].dst]);
      var first := FindCycle(moves, [moves[0].dst]);
      var mid := CycleEffect(c, moves, first, d);
      var gone := Elements(first);
      if m.dst in first {
        CycleDelivers(c, moves, first, d, mid, m);
      } else {
        WithoutSequenceable(c, moves, gone);
        WithoutMember(moves, gone, m);
        WithoutShrinks(moves, gone, moves[0]);
        SequenceDelivers(c, Without(moves, gone), mid, m);
        DeliveryBesideCycle(c, moves, first, d, mid, Exec(Sequence(c, Without(moves, gone)), mid), m);
      }
  }

  lemma ReadyUnfolds(c: Context, moves: seq<Move>, i: nat, d: Data)
    requires Sequenceable(c, moves) && i < |moves| && FirstReady(moves, 0) == Some(i)
    ensures var mid := Exec(MoveCode(c, moves[i], c.temporary), d);
      Exec(Sequence(c, moves), d) == Exec(Sequence(c, Without(moves, {moves[i].dst})), mid) &&
      OnlyChanges(c, d, mid, moves[i].dst) && Val(c, mid, moves[i].dst) == Val(c, d, moves[i].src)
  {
    RemoveIsWithout(moves, i);
    ExecConcat(MoveCode(c, moves[i], c.temporary), Sequence(c, Remove(moves, i)), d);
    assert moves[i] in moves;
    MoveEffect(c, moves[i], c.temporary, d);
  }

  lemma ReadyClosesNothing(moves: seq<Move>, m: Move)
    requires m.dst !in Srcs(moves)
    ensures !ClosesSomeBad(moves, m)
  {
    forall cycle | ClosesBad(moves, cycle, m)
      ensures false
    {
      ReadyIsOnNoCycle(moves, cycle, m.dst);
    }
  }

  lemma CycleDelivers(c: Context, moves: seq<Move>, first: seq<MoveLocation>, d: Data, mid: Data, m: Move)
    requires Broken(c, moves, first) && |first| >= 2 && m in moves && m.dst in first
    requires forall k :: 0 <= k < |first| - 1 ==> Val(c, mid, first[k]) == Val(c, d, first[k + 1])
    requires Val(c, mid, first[|first| - 1]) == Residue(c, d, first[1..], Val(c, d, first[0]))
    ensures Delivered(c, moves, d, Exec(Sequence(c, Without(moves, Elements(first))), mid), m)
  {
    var e := Exec(Sequence(c, Without(moves, Elements(first))), mid);
    forall k | 0 <= k < |first|
      ensures Val(c, e, first[k]) == Val(c, mid, first[k])
    {
      CycleIsClear(c, moves, first, k);
      assert first[k] in Elements(first);
      RemainingKeep(c, moves, Elements(first), mid, first[k]);
    }
    DeliveryOnCycle(c, moves, first, d, e, m);
  }

  lemma CycleIsClear(c: Context, moves: seq<Move>, first: seq<MoveLocation>, k: nat)
    requires Broken(c, moves, first) && k < |first|
    ensures !IsTemporary(c, first[k])
  {
    assert k < |first| - 1 ==> Move(first[k], first[k + 1]) in moves;
  }

  lemma {:induction false} WithoutShrinks(moves: seq<Move>, gone: set<MoveLocation>, m: Move)
    ensures |Without(moves, gone)| <= |moves|
    ensures m in moves && m.dst in gone ==> |Without(moves, gone)| < |moves|
    decreases moves
  {
    if moves != [] {
      WithoutShrinks(moves[..|moves| - 1], gone, m);
      assert moves == moves[..|moves| - 1] + [moves[|moves| - 1]];
    }
  }

  // ---------- the parallel copy, exactly ----------

  ghost predicate AllDelivered(c: Context, moves: seq<Move>, d: Data, e: Data) {
    forall m :: m in moves ==> Val(c, e, m.dst) == Val(c, d, m.src)
  }

  lemma GoodCyclesDeliver(c: Context, moves: seq<Move>, d: Data)
    requires Sequenceable(c, moves) && !HasBadCycle(moves)
    ensures AllDelivered(c, moves, d, Exec(Sequence(c, moves), d))
    ensures Framed(c, d, Exec(Sequence(c, moves), d), moves)
  {
    forall m | m in moves
      ensures Val(c, Exec(Sequence(c, moves), d), m.dst) == Val(c, d, m.src)
    {
      SequenceDelivers(c, moves, d, m);
      assert forall cycle :: ClosesBad(moves, cycle, m) ==> BadCycle(moves, cycle);
    }
    SequenceFrame(c, moves, d);
  }

  // A state in which one location holds 1 and every other location holds 0.
  function Marked(c: Context, l: MoveLocation): Data {
    match l
    case InReg(reg) => Data(map[Gp(reg) := 1], map[], Undefined)
    case OnStack(slot) => Data(map[], map[StackOffset(c.shadow, slot) := 1], Undefined)
  }

  lemma MarkedIsOne(c: Context, l: MoveLocation, other: MoveLocation)
    ensures Val(c, Marked(c, l), other) == if other == l then 1 else 0
  {
  }

  lemma BadCycleLoses(c: Context, moves: seq<Move>, cycle: seq<MoveLocation>)
    requires Sequenceable(c, moves) && BadCycle(moves, cycle)
    ensures !AllDelivered(c, moves, Marked(c, cycle[0]), Exec(Sequence(c, moves), Marked(c, cycle[0])))
  {
    var d := Marked(c, cycle[0]);
    var e := Exec(Sequence(c, moves), d);
    var m := Move(cycle[|cycle| - 1], cycle[0]);
    SequenceDelivers(c, moves, d, m);
    assert ClosesBad(moves, cycle, m);
    var other: seq<MoveLocation> :| ClosesBad(moves, other, m) && GotSlotValue(c, d, e, m, other);
    SameDstSameMove(moves, m, Move(other[|other| - 1], other[0]));
    var k :| 2 <= k < |other| && other[k].OnStack? && Val(c, e, m.dst) == Val(c, d, other[k]);
    MarkedIsOne(c, cycle[0], other[k]);
    MarkedIsOne(c, cycle[0], m.src);
  }

  // The emitted moves act as one simultaneous assignment from every state exactly when there is no
  // bad cycle.
  lemma ParallelCopyIsExact(c: Context, moves: seq<Move>)
    requires Sequenceable(c, moves)
    ensures (forall d :: AllDelivered(c, moves, d, Exec(Sequence(c, moves), d))) <==> !HasBadCycle(moves)
  {
    if HasBadCycle(moves) {
      var cycle: seq<MoveLocation> :| BadCycle(moves, cycle);
      BadCycleLoses(c, moves, cycle);
    } else {
      forall d
        ensures AllDelivered(c, moves, d, Exec(Sequence(c, moves), d))
      {
        GoodCyclesDeliver(c, moves, d);
      }
    }
  }

  // Two-cycles and cycles through registers alone are always safe.
  lemma RegisterCyclesAreSafe(c: Context, moves: seq<Move>, d: Data)
    requires Sequenceable(c, moves)
    requires forall cycle: seq<MoveLocation> :: IsCycle(moves, cycle) && |cycle| >= 3 ==>
      forall k :: 0 <= k < |cycle| ==> cycle[k].InReg?
    ensures AllDelivered(c, moves, d, Exec(Sequence(c, moves), d))
  {
    GoodCyclesDeliver(c, moves, d);
  }

  // Three stack slots in a ring: slot 2 is to receive slot 0, whose saved value is lost.
  function StackRing(): seq<Move> {
    [Move(OnStack(StackSlot(0)), OnStack(StackSlot(1))),
     Move(OnStack(StackSlot(1)), OnStack(StackSlot(2))),
     Move(OnStack(StackSlot(2)), OnStack(StackSlot(0)))]
  }

  lemma StackRingIsBad(c: Context)
    requires Temporaries(c)
    ensures Sequenceable(c, StackRing())
    ensures BadCycle(StackRing(), [OnStack(StackSlot(0)), OnStack(StackSlot(1)), OnStack(StackSlot(2))])
  {
    var moves := StackRing();
    var cycle := [OnStack(StackSlot(0)), OnStack(StackSlot(1)), OnStack(StackSlot(2))];
    assert Move(cycle[0], cycle[1]) == moves[0] && Move(cycle[1], cycle[2]) == moves[1];
    assert Move(cycle[2], cycle[0]) == moves[2];
    assert Before(moves, cycle[0], cycle[1]) by {
      assert moves[0].dst == cycle[0] && moves[1].dst == cycle[1];
    }
    assert Before(moves, cycle[0], cycle[2]) by {
      assert moves[0].dst == cycle[0] && moves[2].dst == cycle[2];
    }
    assert cycle[2].OnStack?;
  }

  lemma StackRingLosesAValue(c: Context)
    requires Temporaries(c)
    ensures var d := Marked(c, OnStack(StackSlot(0)));
      !AllDelivered(c, StackRing(), d, Exec(Sequence(c, StackRing()), d))
  {
    StackRingIsBad(c);
    BadCycleLoses(c, StackRing(), [OnStack(StackSlot(0)), OnStack(StackSlot(1)), OnStack(StackSlot(2))]);
  }
}
