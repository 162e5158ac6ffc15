// A broken cycle: when one is broken, and how the chain it leaves drains.
module BrokenCycles {
  import opened Wrappers
  import opened Machine
  import opened ParallelMoves
  import opened MoveCycles
  import Cfg

  // ---------- a broken cycle drains ----------

  // The destinations waiting, in order, for the value saved in the temporary; every other pending
  // move belongs to a permutation.
  ghost predicate Hot(c: Context, moves: seq<Move>, chain: seq<MoveLocation>) {
    && Temporaries(c)
    && |chain| > 0
    && DistinctLocations(chain)
    && DistinctDsts(moves)
    && (forall m :: m in moves ==> !IsTemporary(c, m.dst) && m.src != InReg(c.temporary2))
    && (forall m :: m in moves && m.src == InReg(c.temporary) ==> m.dst == chain[|chain| - 1])
    && (forall k :: 0 <= k < |chain| - 1 ==> Move(chain[k], chain[k + 1]) in moves)
    && Move(chain[|chain| - 1], InReg(c.temporary)) in moves
    && chain[0] !in Srcs(moves)
    && DstsFrom(moves, 0) <= Srcs(moves) + {chain[0]}
    && (forall m, n :: m in moves && n in moves && m.src == n.src ==> m == n)
  }

  function HeadMove(c: Context, chain: seq<MoveLocation>): Move
    requires |chain| > 0
  {
    Move(chain[0], if |chain| == 1 then InReg(c.temporary) else chain[1])
  }

  lemma HotHasReady(c: Context, moves: seq<Move>, chain: seq<MoveLocation>)
    requires Hot(c, moves, chain)
    ensures moves != [] && FirstReady(moves, 0).Some? && moves[FirstReady(moves, 0).value] == HeadMove(c, chain)
  {
    var head := HeadMove(c, chain);
    assert head in moves;
    var i := MemberIndex(moves, head);
    assert moves[i].dst in DstsFrom(moves, 0) && moves[i].dst !in Srcs(moves);
    var r := FirstReady(moves, 0).value;
    assert moves[r] in moves && moves[r].dst in DstsFrom(moves, 0);
    SameDstSameMove(moves, moves[r], head);
  }

  lemma HotStep(c: Context, moves: seq<Move>, chain: seq<MoveLocation>)
    requires Hot(c, moves, chain) && |chain| > 1
    ensures Hot(c, Without(moves, {chain[0]}), chain[1..])
  {
    var rest := Without(moves, {chain[0]});
    WithoutDistinct(moves, {chain[0]});
    forall m
      ensures m in rest <==> m in moves && m.dst != chain[0]
    {
      WithoutMember(moves, {chain[0]}, m);
    }
    var head := HeadMove(c, chain);
    forall i | 0 <= i < |rest|
      ensures rest[i].src != chain[1]
    {
      assert rest[i] in rest && head in moves;
    }
    forall l | l in DstsFrom(rest, 0) && l != chain[1]
      ensures l in Srcs(rest)
    {
      HotSourceStays(c, moves, chain, l);
    }
  }

  // The move that reads l is not the head's, whose source is next on the chain.
  lemma HotReader(c: Context, moves: seq<Move>, chain: seq<MoveLocation>, l: MoveLocation) returns (m: Move)
    requires Hot(c, moves, chain) && |chain| > 1 && l != chain[1] && l != chain[0] && l in DstsFrom(moves, 0)
    ensures m in moves && m.src == l && m.dst != chain[0]
  {
    var i :| 0 <= i < |moves| && moves[i].src == l;
    m := moves[i];
    assert m in moves;
    assert HeadMove(c, chain) in moves;
  }

  lemma HotSourceStays(c: Context, moves: seq<Move>, chain: seq<MoveLocation>, l: MoveLocation)
    requires Hot(c, moves, chain) && |chain| > 1 && l != chain[1] && l in DstsFrom(Without(moves, {chain[0]}), 0)
    ensures l in Srcs(Without(moves, {chain[0]}))
  {
    var rest := Without(moves, {chain[0]});
    var k :| 0 <= k < |rest| && rest[k].dst == l;
    WithoutMember(moves, {chain[0]}, rest[k]);
    var n := MemberIndex(moves, rest[k]);
    assert moves[n].dst in DstsFrom(moves, 0);
    var m := HotReader(c, moves, chain, l);
    WithoutMember(moves, {chain[0]}, m);
    var j := MemberIndex(rest, m);
  }

  // What the end of the chain receives when x is in the temporary: a stack source on the way
  // replaces it.
  function Residue(c: Context, d: Data, chain: seq<MoveLocation>, x: int): int
    requires |chain| > 0
    decreases |chain|
  {
    if |chain| == 1 then x
    else Residue(c, d, chain[1..], if chain[1].OnStack? then Val(c, d, chain[1]) else x)
  }

  lemma {:induction false} ResidueSame(c: Context, d: Data, e: Data, chain: seq<MoveLocation>, x: int)
    requires |chain| > 0 && forall k :: 1 <= k < |chain| ==> Val(c, e, chain[k]) == Val(c, d, chain[k])
    ensures Residue(c, e, chain, x) == Residue(c, d, chain, x)
    decreases |chain|
  {
    if |chain| > 1 {
      ResidueSame(c, d, e, chain[1..], if chain[1].OnStack? then Val(c, d, chain[1]) else x);
    }
  }

  lemma {:induction false} ResidueIs(c: Context, d: Data, chain: seq<MoveLocation>, x: int)
    requires |chain| > 0
    ensures (forall k :: 1 <= k < |chain| ==> !chain[k].OnStack?) ==> Residue(c, d, chain, x) == x
    ensures Residue(c, d, chain, x) == x || exists k ::
      1 <= k < |chain| && chain[k].OnStack? && Residue(c, d, chain, x) == Val(c, d, chain[k])
    ensures (exists k :: 1 <= k < |chain| && chain[k].OnStack?) ==>
      exists k :: 1 <= k < |chain| && chain[k].OnStack? && Residue(c, d, chain, x) == Val(c, d, chain[k])
    decreases |chain|
  {
    if |chain| > 1 {
      var y := if chain[1].OnStack? then Val(c, d, chain[1]) else x;
      ResidueIs(c, d, chain[1..], y);
      if k :| 1 <= k < |chain[1..]| && chain[1..][k].OnStack? &&
                   Residue(c, d, chain[1..], y) == Val(c, d, chain[1..][k]) {
        assert chain[k + 1] == chain[1..][k];
      } else {
        assert forall k :: 1 <= k < |chain[1..]| ==> !chain[1..][k].OnStack?;
        assert forall k :: 2 <= k < |chain| ==> chain[k] == chain[1..][k - 1];
      }
    }
  }

  function Elements(chain: seq<MoveLocation>): set<MoveLocation> {
    set k | 0 <= k < |chain| :: chain[k]
  }

  // The code that drains a chain, head first.
  function ChainCode(c: Context, chain: seq<MoveLocation>): seq<Instr>
    decreases |chain|
  {
    if chain == [] then [] else MoveCode(c, HeadMove(c, chain), c.temporary) + ChainCode(c, chain[1..])
  }

  lemma HotUnfolds(c: Context, moves: seq<Move>, chain: seq<MoveLocation>)
    requires Hot(c, moves, chain)
    ensures Sequence(c, moves) == MoveCode(c, HeadMove(c, chain), c.temporary) + Sequence(c, Without(moves, {chain[0]}))
  {
    HotHasReady(c, moves, chain);
    RemoveIsWithout(moves, FirstReady(moves, 0).value);
  }

  lemma ElementsUnfold(chain: seq<MoveLocation>)
    requires |chain| > 0
    ensures Elements(chain) == {chain[0]} + Elements(chain[1..])
  {
    forall l
      ensures l in Elements(chain) <==> l == chain[0] || l in Elements(chain[1..])
    {
      if l in Elements(chain) {
        var k :| 0 <= k < |chain| && chain[k] == l;
        assert k > 0 ==> chain[1..][k - 1] == l;
      }
      if l in Elements(chain[1..]) {
        var k :| 0 <= k < |chain[1..]| && chain[1..][k] == l;
        assert chain[k + 1] == l;
      }
    }
  }

  lemma ChainCodeUnfolds(c: Context, chain: seq<MoveLocation>, later: seq<Instr>)
    requires |chain| > 0
    ensures ChainCode(c, chain) + later ==
      MoveCode(c, HeadMove(c, chain), c.temporary) + (ChainCode(c, chain[1..]) + later)
  {
  }

  lemma {:induction false} HotDrains(c: Context, moves: seq<Move>, chain: seq<MoveLocation>)
    requires Hot(c, moves, chain)
    ensures Sequence(c, moves) == ChainCode(c, chain) + Sequence(c, Without(moves, Elements(chain)))
    decreases |chain|
  {
    var tail := chain[1..];
    var rest := Without(moves, {chain[0]});
    HotUnfolds(c, moves, chain);
    ElementsUnfold(chain);
    ChainCodeUnfolds(c, chain, Sequence(c, Without(moves, Elements(chain))));
    if |chain| == 1 {
      assert Elements(chain) == {chain[0]};
      assert ChainCode(c, tail) + Sequence(c, rest) == Sequence(c, rest);
    } else {
      HotStep(c, moves, chain);
      HotDrains(c, rest, tail);
      WithoutTwice(moves, {chain[0]}, Elements(tail));
    }
  }

  ghost predicate ClearChain(c: Context, chain: seq<MoveLocation>) {
    |chain| > 0 && DistinctLocations(chain) && forall k :: 0 <= k < |chain| ==> !IsTemporary(c, chain[k])
  }

  lemma HeadEffect(c: Context, chain: seq<MoveLocation>, d: Data)
    requires ClearChain(c, chain)
    ensures var mid := Exec(MoveCode(c, HeadMove(c, chain), c.temporary), d);
      Val(c, mid, chain[0]) == (if |chain| == 1 then Get(d, Gp(c.temporary)) else Val(c, d, chain[1])) &&
      Get(mid, Gp(c.temporary)) ==
        (if |chain| > 1 && chain[1].OnStack? then Val(c, d, chain[1]) else Get(d, Gp(c.temporary))) &&
      forall l :: l != chain[0] && !IsTemporary(c, l) ==> Val(c, mid, l) == Val(c, d, l)
  {
    MoveEffect(c, HeadMove(c, chain), c.temporary, d);
  }

  lemma {:induction false} ChainEffect(c: Context, chain: seq<MoveLocation>, d: Data)
    requires ClearChain(c, chain)
    ensures var e := Exec(ChainCode(c, chain), d);
      (forall k :: 0 <= k < |chain| - 1 ==> Val(c, e, chain[k]) == Val(c, d, chain[k + 1])) &&
      Val(c, e, chain[|chain| - 1]) == Residue(c, d, chain, Get(d, Gp(c.temporary))) &&
      (forall l :: l !in chain && !IsTemporary(c, l) ==> Val(c, e, l) == Val(c, d, l))
    decreases |chain|
  {
    var tail := chain[1..];
    var mid := Exec(MoveCode(c, HeadMove(c, chain), c.temporary), d);
    HeadEffect(c, chain, d);
    ExecConcat(MoveCode(c, HeadMove(c, chain), c.temporary), ChainCode(c, tail), d);
    if |chain| > 1 {
      ChainEffect(c, tail, mid);
      ResidueSame(c, d, mid, tail, Get(mid, Gp(c.temporary)));
      assert chain[0] !in tail;
      forall k | 0 < k < |chain| - 1
        ensures Val(c, Exec(ChainCode(c, tail), mid), chain[k]) == Val(c, d, chain[k + 1])
      {
        assert chain[k] == tail[k - 1] && chain[k + 1] == tail[k];
      }
    }
  }

  lemma ChainIsClear(c: Context, moves: seq<Move>, chain: seq<MoveLocation>)
    requires Hot(c, moves, chain)
    ensures ClearChain(c, chain)
  {
    forall k | 0 <= k < |chain|
      ensures !IsTemporary(c, chain[k])
    {
      if k < |chain| - 1 {
        assert Move(chain[k], chain[k + 1]) in moves;
      }
    }
  }

  // ---------- with nothing ready, the moves are a permutation ----------

  predicate NothingReady(moves: seq<Move>) {
    moves != [] && DstsFrom(moves, 0) <= Srcs(moves)
  }

  function Dsts(moves: seq<Move>): set<MoveLocation> {
    DstsFrom(moves, 0)
  }

  lemma {:induction false} CountLocations(moves: seq<Move>)
    ensures |Srcs(moves)| <= |moves| && |Dsts(moves)| <= |moves|
    ensures DistinctDsts(moves) ==> |Dsts(moves)| == |moves|
    decreases moves
  {
    if moves != [] {
      var front, last := moves[..|moves| - 1], moves[|moves| - 1];
      CountLocations(front);
      assert moves == front + [last];
      assert Srcs(moves) == Srcs(front) + {last.src};
      assert Dsts(moves) == Dsts(front) + {last.dst};
    }
  }

  lemma RepeatedSourceIsFewer(moves: seq<Move>, i: nat, j: nat)
    requires i < |moves| && j < |moves| && i != j && moves[i].src == moves[j].src
    ensures |Srcs(moves)| < |moves|
  {
    var rest := Remove(moves, i);
    CountLocations(rest);
    forall l
      ensures l in Srcs(rest) <==> l in Srcs(moves)
    {
      if l in Srcs(moves) {
        var k :| 0 <= k < |moves| && moves[k].src == l;
        var n := if k == i then j else k;
        assert rest[if n < i then n else n - 1] == moves[n];
      }
      if l in Srcs(rest) {
        var k :| 0 <= k < |rest| && rest[k].src == l;
        assert rest[k] == moves[if k < i then k else k + 1];
      }
    }
    assert Srcs(rest) == Srcs(moves);
  }

  lemma SourceIsDst(moves: seq<Move>, m: Move)
    requires DistinctDsts(moves) && NothingReady(moves) && m in moves
    ensures IsDst(moves, m.src)
  {
    DstsAreSrcs(moves);
    var i := MemberIndex(moves, m);
    assert m.src in Srcs(moves);
  }

  lemma DstsAreSrcs(moves: seq<Move>)
    requires DistinctDsts(moves) && NothingReady(moves)
    ensures Dsts(moves) == Srcs(moves) && |Srcs(moves)| == |moves|
  {
    CountLocations(moves);
    assert Dsts(moves) <= Srcs(moves);
    Cfg.SubsetSizes(Dsts(moves), Srcs(moves));
  }

  lemma SourceIsUnique(moves: seq<Move>, m: Move, n: Move)
    requires DistinctDsts(moves) && NothingReady(moves) && m in moves && n in moves && m.src == n.src
    ensures m == n
  {
    DstsAreSrcs(moves);
    var i := MemberIndex(moves, m);
    var j := MemberIndex(moves, n);
    if i != j {
      RepeatedSourceIsFewer(moves, i, j);
    }
  }

  // moves[k] leads from trail[k] to trail[k + 1].
  ghost predicate IsTrail(moves: seq<Move>, trail: seq<MoveLocation>) {
    && |trail| > 0
    && DistinctLocations(trail)
    && (forall k :: 0 <= k < |trail| ==> IsDst(moves, trail[k]))
    && (forall k :: 0 <= k < |trail| - 1 ==> Move(trail[k], trail[k + 1]) in moves)
  }

  lemma TrailReturnsToStart(moves: seq<Move>, trail: seq<MoveLocation>, m: Move, k: nat)
    requires DistinctDsts(moves) && NothingReady(moves) && IsTrail(moves, trail)
    requires m in moves && m.dst == trail[|trail| - 1] && k < |trail| && m.src == trail[k]
    ensures k == 0
  {
    if k > 0 {
      var earlier := Move(trail[k - 1], trail[k - 1 + 1]);
      assert earlier in moves;
      SourceIsUnique(moves, m, earlier);
    }
  }

  lemma TrailGrows(moves: seq<Move>, trail: seq<MoveLocation>, m: Move)
    requires IsTrail(moves, trail) && m in moves
    requires m.dst == trail[|trail| - 1] && m.src !in trail && IsDst(moves, m.src)
    ensures IsTrail(moves, trail + [m.src])
  {
    var longer := trail + [m.src];
    forall k | 0 <= k < |longer| - 1
      ensures Move(longer[k], longer[k + 1]) in moves
    {
      if k < |trail| - 1 {
        assert Move(trail[k], trail[k + 1]) in moves;
      } else {
        assert Move(longer[k], longer[k + 1]) == m;
      }
    }
  }

  // Follows sources from trail[0] until they come back to it.
  lemma {:induction false} FindCycle(moves: seq<Move>, trail: seq<MoveLocation>) returns (cycle: seq<MoveLocation>)
    requires DistinctDsts(moves) && NothingReady(moves) && IsTrail(moves, trail)
    ensures IsCycle(moves, cycle) && cycle[0] == trail[0]
    decreases |moves| - |trail|
  {
    var i :| 0 <= i < |moves| && moves[i].dst == trail[|trail| - 1];
    var m := moves[i];
    assert m in moves;
    SourceIsDst(moves, m);
    if m.src in trail {
      var k :| 0 <= k < |trail| && trail[k] == m.src;
      TrailReturnsToStart(moves, trail, m, k);
      assert m == Move(trail[|trail| - 1], trail[0]);
      cycle := trail;
    } else {
      TrailGrows(moves, trail, m);
      TrailIsShort(moves, trail + [m.src]);
      cycle := FindCycle(moves, trail + [m.src]);
    }
  }

  lemma TrailIsShort(moves: seq<Move>, trail: seq<MoveLocation>)
    requires DistinctLocations(trail) && forall k :: 0 <= k < |trail| ==> IsDst(moves, trail[k])
    ensures |trail| <= |moves|
  {
    CountLocations(moves);
    CountTrail(trail);
    assert Elements(trail) <= Dsts(moves);
    Cfg.SubsetSizes(Elements(trail), Dsts(moves));
  }

  lemma {:induction false} CountTrail(trail: seq<MoveLocation>)
    requires DistinctLocations(trail)
    ensures |Elements(trail)| == |trail|
    decreases trail
  {
    if trail != [] {
      var front := trail[..|trail| - 1];
      CountTrail(front);
      assert Elements(trail) == Elements(front) + {trail[|trail| - 1]};
    }
  }

  // ---------- breaking a cycle ----------

  // Nothing is ready, and the cycle through the first move.
  ghost predicate Broken(c: Context, moves: seq<Move>, cycle: seq<MoveLocation>) {
    Sequenceable(c, moves) && NothingReady(moves) && IsCycle(moves, cycle) && cycle[0] == moves[0].dst
  }

  function AfterBreak(c: Context, moves: seq<Move>): seq<Move>
    requires moves != []
  {
    Redirect(moves[1..], moves[0].dst, InReg(c.temporary))
  }

  lemma FirstMove(c: Context, moves: seq<Move>, cycle: seq<MoveLocation>)
    requires Broken(c, moves, cycle)
    ensures |cycle| >= 2 && moves[0] == Move(cycle[0], cycle[1])
  {
    assert moves[0] in moves;
    if |cycle| > 1 {
      assert Move(cycle[0], cycle[0 + 1]) in moves;
      SameDstSameMove(moves, moves[0], Move(cycle[0], cycle[1]));
    }
  }

  lemma AfterBreakHas(c: Context, moves: seq<Move>, m: Move)
    requires Sequenceable(c, moves) && m in moves && m.dst != moves[0].dst
    ensures (if m.src == moves[0].dst then Move(m.dst, InReg(c.temporary)) else m) in AfterBreak(c, moves)
  {
    var i := MemberIndex(moves, m);
    assert AfterBreak(c, moves)[i - 1] == if m.src == moves[0].dst then Move(m.dst, InReg(c.temporary)) else m;
  }

  lemma AfterBreakFrom(c: Context, moves: seq<Move>, m: Move) returns (n: Move)
    requires Sequenceable(c, moves) && moves != [] && m in AfterBreak(c, moves)
    ensures n in moves && n.dst != moves[0].dst
    ensures m == if n.src == moves[0].dst then Move(n.dst, InReg(c.temporary)) else n
  {
    var i := MemberIndex(AfterBreak(c, moves), m);
    n := moves[i + 1];
    assert n in moves;
  }

  lemma BreakLinks(c: Context, moves: seq<Move>, cycle: seq<MoveLocation>)
    requires Broken(c, moves, cycle)
    ensures |cycle| >= 2
    ensures forall k :: 0 <= k < |cycle[1..]| - 1 ==> Move(cycle[1..][k], cycle[1..][k + 1]) in AfterBreak(c, moves)
    ensures Move(cycle[1..][|cycle[1..]| - 1], InReg(c.temporary)) in AfterBreak(c, moves)
  {
    FirstMove(c, moves, cycle);
    forall k | 0 <= k < |cycle[1..]| - 1
      ensures Move(cycle[1..][k], cycle[1..][k + 1]) in AfterBreak(c, moves)
    {
      assert Move(cycle[k + 1], cycle[k + 1 + 1]) in moves;
      AfterBreakHas(c, moves, Move(cycle[k + 1], cycle[k + 1 + 1]));
    }
    AfterBreakHas(c, moves, Move(cycle[|cycle| - 1], cycle[0]));
  }

  lemma BreakHeadIsFree(c: Context, moves: seq<Move>, cycle: seq<MoveLocation>)
    requires Broken(c, moves, cycle) && |cycle| >= 2
    ensures cycle[1] !in Srcs(AfterBreak(c, moves))
  {
    FirstMove(c, moves, cycle);
    var after := AfterBreak(c, moves);
    assert moves[0] in moves;
    forall i | 0 <= i < |after|
      ensures after[i].src != cycle[1]
    {
      assert after[i] in after;
      var n := AfterBreakFrom(c, moves, after[i]);
      if n.src == cycle[1] {
        SourceIsUnique(moves, n, moves[0]);
      }
    }
  }

  lemma BreakSourceStays(c: Context, moves: seq<Move>, cycle: seq<MoveLocation>, l: MoveLocation)
    requires Broken(c, moves, cycle) && |cycle| >= 2 && l in DstsFrom(AfterBreak(c, moves), 0) && l != cycle[1]
    ensures l in Srcs(AfterBreak(c, moves))
  {
    FirstMove(c, moves, cycle);
    var after := AfterBreak(c, moves);
    var k :| 0 <= k < |after| && after[k].dst == l;
    assert moves[k + 1].dst == l && l in DstsFrom(moves, 0);
    var i :| 0 <= i < |moves| && moves[i].src == l;
    assert moves[i] in moves && moves[0] in moves && moves[0].dst != moves[k + 1].dst;
    if moves[i].dst == moves[0].dst {
      SameDstSameMove(moves, moves[i], moves[0]);
    }
    AfterBreakHas(c, moves, moves[i]);
    var j := MemberIndex(after, moves[i]);
  }

  lemma BreakUnique(c: Context, moves: seq<Move>, cycle: seq<MoveLocation>)
    requires Broken(c, moves, cycle) && |cycle| >= 2
    ensures forall m, n :: m in AfterBreak(c, moves) && n in AfterBreak(c, moves) && m.src == n.src ==> m == n
    ensures forall m :: m in AfterBreak(c, moves) && m.src == InReg(c.temporary) ==> m.dst == cycle[|cycle| - 1]
    ensures forall m :: m in AfterBreak(c, moves) ==> !IsTemporary(c, m.dst) && m.src != InReg(c.temporary2)
  {
    var after := AfterBreak(c, moves);
    forall m, n | m in after && n in after && m.src == n.src
      ensures m == n
    {
      var m0 := AfterBreakFrom(c, moves, m);
      var n0 := AfterBreakFrom(c, moves, n);
      SourceIsUnique(moves, m0, n0);
    }
    forall m | m in after
      ensures m.src == InReg(c.temporary) ==> m.dst == cycle[|cycle| - 1]
      ensures !IsTemporary(c, m.dst) && m.src != InReg(c.temporary2)
    {
      var m0 := AfterBreakFrom(c, moves, m);
      if m.src == InReg(c.temporary) {
        SourceIsUnique(moves, m0, Move(cycle[|cycle| - 1], cycle[0]));
      }
    }
  }

  // A cycle is broken only with the pending moves a permutation that does not read the temporary,
  // and what is left is a chain waiting for it.
  lemma BreakIsHot(c: Context, moves: seq<Move>, cycle: seq<MoveLocation>)
    requires Broken(c, moves, cycle)
    ensures |cycle| >= 2 && Hot(c, AfterBreak(c, moves), cycle[1..])
  {
    BreakLinks(c, moves, cycle);
    BreakHeadIsFree(c, moves, cycle);
    BreakUnique(c, moves, cycle);
    var after := AfterBreak(c, moves);
    forall l | l in DstsFrom(after, 0) && l != cycle[1]
      ensures l in Srcs(after)
    {
      BreakSourceStays(c, moves, cycle, l);
    }
    forall i, j | 0 <= i < j < |after|
      ensures after[i].dst != after[j].dst
    {
      assert moves[i + 1].dst != moves[j + 1].dst;
    }
  }

  lemma {:induction false} WithoutRedirected(
      moves: seq<Move>, from: MoveLocation, to: MoveLocation, gone: set<MoveLocation>)
    requires forall m :: m in moves && m.src == from ==> m.dst in gone
    ensures Without(Redirect(moves, from, to), gone) == Without(moves, gone)
    decreases moves
  {
    if moves != [] {
      var front, last := moves[..|moves| - 1], moves[|moves| - 1];
      assert moves == front + [last];
      WithoutRedirected(front, from, to, gone);
      assert Redirect(moves, from, to)[..|moves| - 1] == Redirect(front, from, to);
      assert last in moves;
    }
  }

  lemma CycleIsGone(c: Context, moves: seq<Move>, cycle: seq<MoveLocation>)
    requires Broken(c, moves, cycle) && |cycle| >= 2
    ensures Without(AfterBreak(c, moves), Elements(cycle[1..])) == Without(moves, Elements(cycle))
  {
    var gone := Elements(cycle[1..]);
    ElementsUnfold(cycle);
    forall m | m in moves[1..] && m.src == moves[0].dst
      ensures m.dst in gone
    {
      SourceIsUnique(moves, m, Move(cycle[|cycle| - 1], cycle[0]));
      assert cycle[1..][|cycle| - 2] == m.dst;
    }
    WithoutRedirected(moves[1..], moves[0].dst, InReg(c.temporary), gone);
    RemoveIsWithout(moves, 0);
    assert Remove(moves, 0) == moves[1..];
    WithoutTwice(moves, {moves[0].dst}, gone);
  }

  lemma BreakUnfolds(c: Context, moves: seq<Move>, cycle: seq<MoveLocation>)
    requires Broken(c, moves, cycle)
    ensures |cycle| >= 2
    ensures Sequence(c, moves) ==
      BreakCode(c, moves[0]) + (ChainCode(c, cycle[1..]) + Sequence(c, Without(moves, Elements(cycle))))
  {
    BreakIsHot(c, moves, cycle);
    CycleIsGone(c, moves, cycle);
    HotDrains(c, AfterBreak(c, moves), cycle[1..]);
    NothingIsReady(moves);
  }

  lemma NothingIsReady(moves: seq<Move>)
    requires NothingReady(moves)
    ensures FirstReady(moves, 0).None?
  {
    forall i | 0 <= i < |moves|
      ensures moves[i].dst in Srcs(moves)
    {
      assert moves[i].dst in DstsFrom(moves, 0);
    }
  }
}
