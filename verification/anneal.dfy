// Simulated annealing over register choices, and the repair that makes any outcome safe.
module Anneal {
  import opened Wrappers
  import opened Ir
  import opened Intervals
  import opened Sorting
  import opened Alloc
  import opened LinearScan
  import SpillMinimality

  // A choice below regCount names a register; regCount itself means a stack slot.
  datatype Problem = Problem(intervals: seq<LiveInterval>, overlaps: seq<seq<nat>>, regCount: nat)

  predicate Neighbors(p: Problem, i: nat, j: nat) {
    i < |p.overlaps| && j in p.overlaps[i]
  }

  // The neighbour lists hold exactly the overlapping pairs, each once.
  ghost predicate WellPosed(p: Problem) {
    && |p.overlaps| == |p.intervals|
    && (forall i :: 0 <= i < |p.overlaps| ==> Distinct(p.overlaps[i]))
    && forall i: nat, j: nat :: Neighbors(p, i, j) <==>
         i < |p.intervals| && j < |p.intervals| && i != j && p.intervals[i].Overlaps(p.intervals[j])
  }

  predicate IsState(p: Problem, state: seq<nat>) {
    |state| == |p.intervals|
  }

  ghost predicate NoConflict(p: Problem, state: seq<nat>) {
    IsState(p, state) && forall i: nat, j: nat :: Neighbors(p, i, j) && i < |state| && j < |state| ==>
      state[i] >= p.regCount || state[i] != state[j]
  }

  // ---------- building the problem ----------

  ghost predicate OverlapsUpTo(data: seq<LiveInterval>, overlaps: seq<seq<nat>>, left: nat, right: nat) {
    && |overlaps| == |data|
    && (forall i :: 0 <= i < |overlaps| ==> Distinct(overlaps[i]))
    && forall i: nat, j: nat :: i < |data| ==> ListedSoFar(data, overlaps, left, right, i, j)
  }

  predicate ListedSoFar(data: seq<LiveInterval>, overlaps: seq<seq<nat>>, left: nat, right: nat, i: nat, j: nat)
    requires i < |data| == |overlaps|
  {
    j in overlaps[i] <==> j < |data| && i != j && data[i].Overlaps(data[j]) && Seen(left, right, i, j)
  }

  // The pair {i, j} has been visited when the loops stand at (left, right).
  predicate Seen(left: nat, right: nat, i: nat, j: nat) {
    var lo, hi := if i < j then i else j, if i < j then j else i;
    lo < left || (lo == left && hi < right)
  }

  function AddOverlap(overlaps: seq<seq<nat>>, left: nat, right: nat): seq<seq<nat>>
    requires left < |overlaps| && right < |overlaps| && left != right
  {
    overlaps[left := overlaps[left] + [right]][right := overlaps[right] + [left]]
  }

  lemma OverlapAdded(data: seq<LiveInterval>, overlaps: seq<seq<nat>>, left: nat, right: nat)
    requires left < right < |data| && OverlapsUpTo(data, overlaps, left, right)
    ensures data[left].Overlaps(data[right]) ==> OverlapsUpTo(data, AddOverlap(overlaps, left, right), left, right + 1)
    ensures !data[left].Overlaps(data[right]) ==> OverlapsUpTo(data, overlaps, left, right + 1)
  {
    var after := if data[left].Overlaps(data[right]) then AddOverlap(overlaps, left, right) else overlaps;
    assert ListedSoFar(data, overlaps, left, right, left, right);
    assert ListedSoFar(data, overlaps, left, right, right, left);
    var next := right + 1;
    forall i: nat, j: nat | i < |data|
      ensures ListedSoFar(data, after, left, next, i, j)
    {
      assert ListedSoFar(data, overlaps, left, right, i, j);
      assert Seen(left, next, i, j) <==>
        Seen(left, right, i, j) || (i == left && j == right) || (i == right && j == left);
    }
  }

  method NewProblem(data: seq<LiveInterval>, regCount: nat) returns (p: Problem)
    ensures WellPosed(p) && p.intervals == data && p.regCount == regCount
  {
    var overlaps: seq<seq<nat>> := seq(|data|, _ => []);
    for left := 0 to |data|
      invariant OverlapsUpTo(data, overlaps, left, left + 1)
    {
      for right := left + 1 to |data|
        invariant OverlapsUpTo(data, overlaps, left, right)
      {
        OverlapAdded(data, overlaps, left, right);
        if data[left].Overlaps(data[right]) {
          overlaps := AddOverlap(overlaps, left, right);
        }
      }
      RowFinished(data, overlaps, left);
    }
    ProblemIsWellPosed(data, overlaps, regCount);
    p := Problem(data, overlaps, regCount);
  }

  lemma ProblemIsWellPosed(data: seq<LiveInterval>, overlaps: seq<seq<nat>>, regCount: nat)
    requires OverlapsUpTo(data, overlaps, |data|, |data| + 1)
    ensures WellPosed(Problem(data, overlaps, regCount))
  {
    var p := Problem(data, overlaps, regCount);
    forall i: nat, j: nat
      ensures Neighbors(p, i, j) <==> i < |data| && j < |data| && i != j && data[i].Overlaps(data[j])
    {
      if i < |data| {
        assert ListedSoFar(data, overlaps, |data|, |data| + 1, i, j);
      }
    }
  }

  lemma RowFinished(data: seq<LiveInterval>, overlaps: seq<seq<nat>>, left: nat)
    requires left < |data| && OverlapsUpTo(data, overlaps, left, |data|)
    ensures OverlapsUpTo(data, overlaps, left + 1, left + 2)
  {
    var row, next := left + 1, left + 2;
    forall i: nat, j: nat | i < |data|
      ensures ListedSoFar(data, overlaps, row, next, i, j)
    {
      assert ListedSoFar(data, overlaps, left, |data|, i, j);
      assert j < |data| && i != j ==> (Seen(left, |data|, i, j) <==> Seen(row, next, i, j));
    }
  }

  // ---------- cost ----------

  const CONFLICT_COST: nat := 1_000_000

  function ChoiceCost(p: Problem, state: seq<nat>, n: nat): nat
    requires IsState(p, state) && n <= |state|
  {
    if n == 0 then 0
    else
      var iv := p.intervals[n - 1];
      ChoiceCost(p, state, n - 1) +
      (if state[n - 1] == p.regCount then 100 + (if iv.end >= iv.start then iv.end - iv.start + 1 else 0)
       else state[n - 1])
  }

  predicate Conflicting(p: Problem, state: seq<nat>, left: nat, right: nat) {
    left < right < |state| && state[left] < p.regCount && state[left] == state[right]
  }

  function RowConflicts(p: Problem, state: seq<nat>, left: nat, n: nat): nat
    requires left < |p.overlaps| && n <= |p.overlaps[left]|
  {
    if n == 0 then 0
    else RowConflicts(p, state, left, n - 1) + (if Conflicting(p, state, left, p.overlaps[left][n - 1]) then 1 else 0)
  }

  function Conflicts(p: Problem, state: seq<nat>, n: nat): nat
    requires n <= |p.overlaps|
  {
    if n == 0 then 0 else Conflicts(p, state, n - 1) + RowConflicts(p, state, n - 1, |p.overlaps[n - 1]|)
  }

  function CostOf(p: Problem, state: seq<nat>): nat
    requires IsState(p, state) && |p.overlaps| == |p.intervals|
  {
    ChoiceCost(p, state, |state|) + CONFLICT_COST * Conflicts(p, state, |p.overlaps|)
  }

  method Cost(p: Problem, state: seq<nat>) returns (cost: nat)
    requires IsState(p, state) && WellPosed(p)
    requires forall iv :: iv in p.intervals ==> iv.start <= iv.end
    ensures cost == CostOf(p, state)
  {
    cost := 0;
    for index := 0 to |state|
      invariant cost == ChoiceCost(p, state, index)
    {
      if state[index] == p.regCount {
        var interval := p.intervals[index];
        assert interval in p.intervals;
        cost := cost + 100 + (interval.end - interval.start + 1);
      } else {
        cost := cost + state[index];
      }
    }
    ghost var choices := cost;
    for left := 0 to |state|
      invariant cost == choices + CONFLICT_COST * Conflicts(p, state, left)
    {
      ghost var before := cost;
      for k := 0 to |p.overlaps[left]|
        invariant cost == before + CONFLICT_COST * RowConflicts(p, state, left, k)
      {
        var right := p.overlaps[left][k];
        assert Neighbors(p, left, right);
        if right > left && state[left] < p.regCount && state[left] == state[right] {
          cost := cost + CONFLICT_COST;
        }
      }
    }
  }

  lemma {:induction false} RowConflictCounted(p: Problem, state: seq<nat>, left: nat, k: nat, n: nat)
    requires left < |p.overlaps| && k < n <= |p.overlaps[left]| && Conflicting(p, state, left, p.overlaps[left][k])
    ensures RowConflicts(p, state, left, n) >= 1
    decreases n
  {
    if k < n - 1 {
      RowConflictCounted(p, state, left, k, n - 1);
    }
  }

  lemma {:induction false} ConflictCounted(p: Problem, state: seq<nat>, left: nat, k: nat, n: nat)
    requires left < n <= |p.overlaps| && k < |p.overlaps[left]| && Conflicting(p, state, left, p.overlaps[left][k])
    ensures Conflicts(p, state, n) >= 1
    decreases n
  {
    if left < n - 1 {
      ConflictCounted(p, state, left, k, n - 1);
    } else {
      RowConflictCounted(p, state, left, k, |p.overlaps[left]|);
    }
  }

  // A state cheaper than one conflict has none.
  lemma CheapStateHasNoConflict(p: Problem, state: seq<nat>)
    requires WellPosed(p) && IsState(p, state) && CostOf(p, state) < CONFLICT_COST
    ensures NoConflict(p, state)
  {
    forall i: nat, j: nat | Neighbors(p, i, j) && i < |state| && j < |state|
      ensures state[i] >= p.regCount || state[i] != state[j]
    {
      if state[i] < p.regCount && state[i] == state[j] {
        var lo: nat, hi: nat := if i < j then i else j, if i < j then j else i;
        assert Neighbors(p, lo, hi);
        var k :| 0 <= k < |p.overlaps[lo]| && p.overlaps[lo][k] == hi;
        ConflictCounted(p, state, lo, k, |p.overlaps|);
        assert false;
      }
    }
  }

  // ---------- what the cost is worth ----------

  // A register costs its index, a stack slot 100 and the interval's length.
  function Price(p: Problem, i: nat, choice: nat): int
    requires i < |p.intervals|
  {
    if choice < p.regCount then choice else 100 + p.intervals[i].end - p.intervals[i].start + 1
  }

  lemma {:induction false} ChoiceCostChanges(p: Problem, state: seq<nat>, i: nat, choice: nat, n: nat)
    requires IsState(p, state) && n <= |state| && i < |state|
    requires p.intervals[i].start <= p.intervals[i].end && choice <= p.regCount && state[i] <= p.regCount
    ensures ChoiceCost(p, state[i := choice], n) ==
      ChoiceCost(p, state, n) + if i < n then Price(p, i, choice) - Price(p, i, state[i]) else 0
    decreases n
  {
    if n > 0 {
      ChoiceCostChanges(p, state, i, choice, n - 1);
    }
  }

  lemma {:induction false} FirstRegisterIsFree(p: Problem, state: seq<nat>, n: nat)
    requires IsState(p, state) && n <= |state| && p.regCount > 0 && forall i :: 0 <= i < |state| ==> state[i] == 0
    ensures ChoiceCost(p, state, n) == 0
    decreases n
  {
    if n > 0 {
      FirstRegisterIsFree(p, state, n - 1);
    }
  }

  // The overlapping pairs that share a register.
  function ConflictPairs(p: Problem, state: seq<nat>, n: nat): set<(nat, nat)>
    requires n <= |p.overlaps|
  {
    set i: nat, j: nat | i < n && j in p.overlaps[i] && Conflicting(p, state, i, j) :: (i, j)
  }

  function RowPairs(p: Problem, state: seq<nat>, left: nat, n: nat): set<(nat, nat)>
    requires left < |p.overlaps| && n <= |p.overlaps[left]|
  {
    set k: nat | k < n && Conflicting(p, state, left, p.overlaps[left][k]) :: (left, p.overlaps[left][k])
  }

  lemma {:induction false} RowConflictsCount(p: Problem, state: seq<nat>, left: nat, n: nat)
    requires left < |p.overlaps| && n <= |p.overlaps[left]| && Distinct(p.overlaps[left])
    ensures RowConflicts(p, state, left, n) == |RowPairs(p, state, left, n)|
    decreases n
  {
    var row := p.overlaps[left];
    if n > 0 {
      RowConflictsCount(p, state, left, n - 1);
      var front, all := RowPairs(p, state, left, n - 1), RowPairs(p, state, left, n);
      if Conflicting(p, state, left, row[n - 1]) {
        assert (left, row[n - 1]) !in front;
        assert all == front + {(left, row[n - 1])};
      } else {
        assert all == front;
      }
    }
  }

  lemma {:induction false} ConflictsCount(p: Problem, state: seq<nat>, n: nat)
    requires n <= |p.overlaps| && forall i :: 0 <= i < |p.overlaps| ==> Distinct(p.overlaps[i])
    ensures Conflicts(p, state, n) == |ConflictPairs(p, state, n)|
    decreases n
  {
    if n > 0 {
      ConflictsCount(p, state, n - 1);
      var last := RowPairs(p, state, n - 1, |p.overlaps[n - 1]|);
      RowConflictsCount(p, state, n - 1, |p.overlaps[n - 1]|);
      assert ConflictPairs(p, state, n) == ConflictPairs(p, state, n - 1) + last;
      assert ConflictPairs(p, state, n - 1) !! last;
    }
  }

  // A state with every value in the first register costs its conflicts alone. Changing one choice
  // without changing the number of conflicts changes the cost by the difference in price: from
  // register c to the stack by 100 and the length less c, from c to register c' by c' - c.
  lemma CostIsPriced(p: Problem, state: seq<nat>, i: nat, choice: nat)
    requires WellPosed(p) && IsState(p, state) && i < |state| && choice <= p.regCount && state[i] <= p.regCount
    requires p.intervals[i].start <= p.intervals[i].end
    ensures (p.regCount > 0 && forall k :: 0 <= k < |state| ==> state[k] == 0) ==>
      CostOf(p, state) == 1_000_000 * |ConflictPairs(p, state, |state|)|
    ensures |ConflictPairs(p, state[i := choice], |state|)| == |ConflictPairs(p, state, |state|)| ==>
      && (choice < p.regCount && state[i] < p.regCount ==>
           CostOf(p, state[i := choice]) - CostOf(p, state) == choice - state[i])
      && (choice == p.regCount && state[i] < p.regCount ==>
           CostOf(p, state[i := choice]) - CostOf(p, state) ==
           100 + (p.intervals[i].end - p.intervals[i].start + 1) - state[i])
  {
    ConflictsCount(p, state, |state|);
    ConflictsCount(p, state[i := choice], |state|);
    ChoiceCostChanges(p, state, i, choice, |state|);
    if p.regCount > 0 && forall k :: 0 <= k < |state| ==> state[k] == 0 {
      FirstRegisterIsFree(p, state, |state|);
    }
  }

  // Each overlapping pair in one register costs a million beside the prices.
  lemma ConflictsAreCharged(p: Problem, state: seq<nat>)
    requires WellPosed(p) && IsState(p, state)
    ensures CostOf(p, state) == ChoiceCost(p, state, |state|) + 1_000_000 * |ConflictPairs(p, state, |state|)|
  {
    ConflictsCount(p, state, |state|);
  }

  // ---------- greedy choice and repair ----------

  // Registers of the neighbours that come earlier.
  function UsedBefore(p: Problem, earlier: seq<nat>, i: nat): set<nat>
    requires i < |p.overlaps| && |earlier| == i
  {
    set j: nat | j in p.overlaps[i] && j < i && earlier[j] < p.regCount :: earlier[j]
  }

  function LeastFree(used: set<nat>, from: nat, regCount: nat): (r: nat)
    requires from <= regCount
    ensures from <= r <= regCount
    ensures r < regCount ==> r !in used
    ensures forall q :: from <= q < r ==> q in used
    decreases regCount - from
  {
    if from == regCount || from !in used then from else LeastFree(used, from + 1, regCount)
  }

  // The preferred register when it is free, else the least free one, else the stack.
  function Choose(p: Problem, preferred: nat, earlier: seq<nat>, i: nat): nat
    requires i < |p.overlaps| && |earlier| == i
  {
    var used := UsedBefore(p, earlier, i);
    if preferred < p.regCount && preferred !in used then preferred else LeastFree(used, 0, p.regCount)
  }

  function Repaired(p: Problem, preferred: seq<nat>, n: nat): (state: seq<nat>)
    requires |preferred| == |p.overlaps| && n <= |preferred|
    ensures |state| == n
  {
    if n == 0 then []
    else
      var earlier := Repaired(p, preferred, n - 1);
      earlier + [Choose(p, preferred[n - 1], earlier, n - 1)]
  }

  method MarkUsed(p: Problem, state: seq<nat>, i: nat) returns (used: seq<bool>)
    requires WellPosed(p) && IsState(p, state) && i < |state|
    ensures |used| == p.regCount
    ensures forall r: nat :: r < p.regCount ==> (used[r] <==> r in UsedBefore(p, state[..i], i))
  {
    used := seq(p.regCount, _ => false);
    for k := 0 to |p.overlaps[i]|
      invariant |used| == p.regCount
      invariant forall r: nat :: r < p.regCount ==>
        (used[r] <==> exists l :: 0 <= l < k && p.overlaps[i][l] < i && state[p.overlaps[i][l]] == r)
    {
      var neighbor := p.overlaps[i][k];
      if neighbor >= i {
        continue;
      }
      var choice := state[neighbor];
      if choice < p.regCount {
        used := used[choice := true];
      }
    }
    forall r: nat | r < p.regCount
      ensures used[r] <==> r in UsedBefore(p, state[..i], i)
    {
      if used[r] {
        var l :| 0 <= l < |p.overlaps[i]| && p.overlaps[i][l] < i && state[p.overlaps[i][l]] == r;
        assert p.overlaps[i][l] in p.overlaps[i] && state[..i][p.overlaps[i][l]] == r;
      }
    }
  }

  method FirstFree(used: seq<bool>) returns (r: nat)
    ensures r <= |used| && (r < |used| ==> !used[r])
    ensures forall q :: 0 <= q < r ==> used[q]
  {
    r := 0;
    while r < |used| && used[r]
      invariant r <= |used| && forall q :: 0 <= q < r ==> used[q]
    {
      r := r + 1;
    }
  }

  method ChooseFor(p: Problem, preferred: nat, state: seq<nat>, i: nat) returns (choice: nat)
    requires WellPosed(p) && IsState(p, state) && i < |state|
    ensures choice == Choose(p, preferred, state[..i], i)
  {
    var used := MarkUsed(p, state, i);
    if preferred < p.regCount && !used[preferred] {
      return preferred;
    }
    choice := FirstFree(used);
    ghost var least := LeastFree(UsedBefore(p, state[..i], i), 0, p.regCount);
    assert choice < p.regCount ==> choice !in UsedBefore(p, state[..i], i);
  }

  method GreedyState(p: Problem) returns (state: seq<nat>)
    requires WellPosed(p)
    ensures state == Repaired(p, seq(|p.intervals|, _ => p.regCount), |p.intervals|)
    ensures IsRepair(p, seq(|p.intervals|, _ => p.regCount), state)
  {
    ghost var spillAll := seq(|p.intervals|, _ => p.regCount);
    state := seq(|p.intervals|, _ => p.regCount);
    for index := 0 to |p.intervals|
      invariant |state| == |p.intervals|
      invariant state[..index] == Repaired(p, spillAll, index)
    {
      var choice := ChooseFor(p, p.regCount, state, index);
      state := state[index := choice];
      assert state[..index + 1] == state[..index] + [choice];
    }
    assert state[..|state|] == state;
    RepairedIsRepair(p, spillAll);
  }

  method Repair(p: Problem, preferred: seq<nat>) returns (state: seq<nat>)
    requires WellPosed(p) && IsState(p, preferred)
    ensures state == Repaired(p, preferred, |p.intervals|) && IsRepair(p, preferred, state)
  {
    state := seq(|p.intervals|, _ => p.regCount);
    for index := 0 to |p.intervals|
      invariant |state| == |p.intervals|
      invariant state[..index] == Repaired(p, preferred, index)
    {
      var choice := ChooseFor(p, preferred[index], state, index);
      state := state[index := choice];
      assert state[..index + 1] == state[..index] + [choice];
    }
    assert state[..|state|] == state;
    RepairedIsRepair(p, preferred);
  }

  lemma ChooseAvoids(p: Problem, preferred: nat, earlier: seq<nat>, i: nat, j: nat)
    requires i < |p.overlaps| && |earlier| == i && j < i && j in p.overlaps[i]
    ensures Choose(p, preferred, earlier, i) <= p.regCount
    ensures Choose(p, preferred, earlier, i) == p.regCount || Choose(p, preferred, earlier, i) != earlier[j]
  {
    assert earlier[j] < p.regCount ==> earlier[j] in UsedBefore(p, earlier, i);
  }

  lemma {:induction false} RepairedAt(p: Problem, preferred: seq<nat>, n: nat, i: nat)
    requires |preferred| == |p.overlaps| && i < n <= |preferred|
    ensures Repaired(p, preferred, n)[..i] == Repaired(p, preferred, i)
    ensures Repaired(p, preferred, n)[i] == Choose(p, preferred[i], Repaired(p, preferred, i), i)
    decreases n
  {
    if i < n - 1 {
      RepairedAt(p, preferred, n - 1, i);
    }
  }

  // Some earlier overlapping interval has register r.
  predicate HeldEarlier(p: Problem, state: seq<nat>, i: nat, r: nat) {
    exists j: nat :: j < i && j < |state| && Neighbors(p, i, j) && state[j] == r
  }

  // What one choice of a repair must be: a register that no earlier neighbour has, or the stack when
  // they have all of them; the preferred register if it is free, and else the least free one.
  ghost predicate WellChosen(p: Problem, preferred: nat, state: seq<nat>, i: nat)
    requires i < |state|
  {
    && state[i] <= p.regCount
    && (state[i] < p.regCount ==> !HeldEarlier(p, state, i, state[i]))
    && (state[i] == p.regCount ==> forall r: nat :: r < p.regCount ==> HeldEarlier(p, state, i, r))
    && (preferred < p.regCount && state[i] != preferred ==> HeldEarlier(p, state, i, preferred))
    && (state[i] != preferred ==> forall r: nat :: r < state[i] ==> HeldEarlier(p, state, i, r))
  }

  ghost predicate IsRepair(p: Problem, preferred: seq<nat>, state: seq<nat>) {
    |state| == |preferred| == |p.intervals| && forall i: nat :: i < |state| ==> WellChosen(p, preferred[i], state, i)
  }

  lemma UsedIsHeld(p: Problem, state: seq<nat>, i: nat, r: nat)
    requires i < |state| <= |p.overlaps| && r < p.regCount
    ensures r in UsedBefore(p, state[..i], i) <==> HeldEarlier(p, state, i, r)
  {
    if HeldEarlier(p, state, i, r) {
      var j: nat :| j < i && j < |state| && Neighbors(p, i, j) && state[j] == r;
      assert state[..i][j] == r;
    }
    if r in UsedBefore(p, state[..i], i) {
      var j: nat :| j in p.overlaps[i] && j < i && state[..i][j] == r;
      assert Neighbors(p, i, j) && state[j] == r;
    }
  }

  lemma ChosenWell(p: Problem, preferred: nat, state: seq<nat>, i: nat)
    requires i < |state| <= |p.overlaps| && state[i] == Choose(p, preferred, state[..i], i)
    ensures WellChosen(p, preferred, state, i)
  {
    forall r: nat | r < p.regCount
      ensures r in UsedBefore(p, state[..i], i) <==> HeldEarlier(p, state, i, r)
    {
      UsedIsHeld(p, state, i, r);
    }
  }

  // The repaired state is a repair, and the only one.
  lemma RepairedIsRepair(p: Problem, preferred: seq<nat>)
    requires WellPosed(p) && IsState(p, preferred)
    ensures IsRepair(p, preferred, Repaired(p, preferred, |p.intervals|))
  {
    var state := Repaired(p, preferred, |p.intervals|);
    forall i: nat | i < |state|
      ensures WellChosen(p, preferred[i], state, i)
    {
      RepairedAt(p, preferred, |p.intervals|, i);
      ChosenWell(p, preferred[i], state, i);
    }
  }

  lemma {:induction false} RepairIsUnique(p: Problem, preferred: seq<nat>, s: seq<nat>, t: seq<nat>, n: nat)
    requires IsRepair(p, preferred, s) && IsRepair(p, preferred, t) && n <= |s|
    ensures s[..n] == t[..n]
    decreases n
  {
    if n > 0 {
      RepairIsUnique(p, preferred, s, t, n - 1);
      var i := n - 1;
      forall r: nat
        ensures HeldEarlier(p, s, i, r) <==> HeldEarlier(p, t, i, r)
      {
        assert forall j :: 0 <= j < i ==> s[j] == s[..i][j] == t[..i][j] == t[j];
      }
      assert WellChosen(p, preferred[i], s, i) && WellChosen(p, preferred[i], t, i);
      assert s[i] == t[i];
      assert s[..n] == s[..i] + [s[i]] && t[..n] == t[..i] + [t[i]];
    }
  }

  // Whatever was preferred, overlapping values end in different registers.
  lemma RepairedHasNoConflict(p: Problem, preferred: seq<nat>)
    requires WellPosed(p) && IsState(p, preferred)
    ensures NoConflict(p, Repaired(p, preferred, |p.intervals|))
    ensures forall i :: 0 <= i < |p.intervals| ==> Repaired(p, preferred, |p.intervals|)[i] <= p.regCount
  {
    var n := |p.intervals|;
    var state := Repaired(p, preferred, n);
    forall i: nat | i < n
      ensures state[i] <= p.regCount
    {
      RepairedAt(p, preferred, n, i);
    }
    forall i: nat, j: nat | Neighbors(p, i, j) && i < n && j < n
      ensures state[i] >= p.regCount || state[i] != state[j]
    {
      var lo: nat, hi: nat := if i < j then i else j, if i < j then j else i;
      assert Neighbors(p, hi, lo);
      RepairedAt(p, preferred, n, hi);
      ChooseAvoids(p, preferred[hi], Repaired(p, preferred, hi), hi, lo);
      assert state[..hi][lo] == state[lo];
    }
  }

  // ---------- the annealing loop ----------

  // One draw of the generator: where to change, to what, and whether to accept a worse state.
  datatype Draw = Draw(index: nat, choice: nat, acceptWorse: bool)

  ghost predicate DrawsFor(p: Problem, draws: seq<Draw>) {
    |p.intervals| > 0 ==> forall d :: d in draws ==> d.index < |p.intervals| && d.choice <= p.regCount
  }

  // The drawn choice, or the next one round when it is the choice already made.
  function NewChoice(p: Problem, draw: Draw, oldChoice: nat): nat {
    if draw.choice == oldChoice then (draw.choice + 1) % (p.regCount + 1) else draw.choice
  }

  // The state after one proposal: the change is kept when it costs no more, or when a worse state
  // is accepted.
  function Proposed(p: Problem, draw: Draw, before: seq<nat>): (after: seq<nat>)
    requires IsState(p, before) && |p.overlaps| == |p.intervals| && draw.index < |p.intervals|
    ensures IsState(p, after)
  {
    var changed := before[draw.index := NewChoice(p, draw, before[draw.index])];
    if CostOf(p, changed) <= CostOf(p, before) || draw.acceptWorse then changed else before
  }

  // A proposal never repeats the choice in place: it is the drawn one, or the next after it, the
  // first register following the stack.
  lemma ChoiceIsNew(p: Problem, draw: Draw, oldChoice: nat)
    requires p.regCount > 0 && draw.choice <= p.regCount && oldChoice <= p.regCount
    ensures NewChoice(p, draw, oldChoice) <= p.regCount && NewChoice(p, draw, oldChoice) != oldChoice
    ensures draw.choice != oldChoice ==> NewChoice(p, draw, oldChoice) == draw.choice
    ensures draw.choice == oldChoice ==>
      NewChoice(p, draw, oldChoice) == if oldChoice == p.regCount then 0 else oldChoice + 1
  {
    if draw.choice == oldChoice == p.regCount {
      assert (p.regCount + 1) % (p.regCount + 1) == 0;
    }
  }

  // Only the drawn place changes, a dearer state is kept only when the draw accepts it, and a change
  // that is refused would have been dearer.
  lemma ProposalIsKept(p: Problem, draw: Draw, before: seq<nat>)
    requires IsState(p, before) && |p.overlaps| == |p.intervals| && draw.index < |p.intervals|
    requires p.regCount > 0 && draw.choice <= p.regCount && before[draw.index] <= p.regCount
    ensures var after := Proposed(p, draw, before); var i := draw.index;
      var choice := if draw.choice != before[i] then draw.choice
        else if before[i] == p.regCount then 0 else before[i] + 1;
      && (forall k :: 0 <= k < |before| && k != i ==> after[k] == before[k])
      && (after[i] == before[i] || after[i] == choice)
      && (CostOf(p, after) > CostOf(p, before) ==> draw.acceptWorse)
      && (after[i] == before[i] ==> !draw.acceptWorse && CostOf(p, before[i := choice]) > CostOf(p, before))
  {
    ChoiceIsNew(p, draw, before[draw.index]);
  }

  // The current state after n draws.
  function Walk(p: Problem, draws: seq<Draw>, n: nat): (state: seq<nat>)
    requires |p.overlaps| == |p.intervals| && n <= |draws| && forall d :: d in draws ==> d.index < |p.intervals|
    ensures IsState(p, state)
  {
    if n == 0 then GreedyOf(p) else Proposed(p, draws[n - 1], Walk(p, draws, n - 1))
  }

  // Among the states walked through, the earliest of the cheapest.
  ghost predicate CheapestVisited(p: Problem, draws: seq<Draw>, n: nat, best: seq<nat>)
    requires |p.overlaps| == |p.intervals| && n <= |draws| && forall d :: d in draws ==> d.index < |p.intervals|
  {
    IsState(p, best) && exists k :: 0 <= k <= n && FirstCheapest(p, draws, n, k, best)
  }

  ghost predicate FirstCheapest(p: Problem, draws: seq<Draw>, n: nat, k: nat, best: seq<nat>)
    requires |p.overlaps| == |p.intervals| && n <= |draws| && forall d :: d in draws ==> d.index < |p.intervals|
    requires IsState(p, best) && k <= n
  {
    && best == Walk(p, draws, k)
    && (forall i :: 0 <= i < k ==> CostOf(p, best) < CostOf(p, Walk(p, draws, i)))
    && (forall i :: k <= i <= n ==> CostOf(p, best) <= CostOf(p, Walk(p, draws, i)))
  }

  lemma VisitOneMore(p: Problem, draws: seq<Draw>, n: nat, best: seq<nat>)
    requires |p.overlaps| == |p.intervals| && n < |draws| && forall d :: d in draws ==> d.index < |p.intervals|
    requires CheapestVisited(p, draws, n, best)
    ensures var current := Walk(p, draws, n + 1);
      CheapestVisited(p, draws, n + 1, if CostOf(p, current) < CostOf(p, best) then current else best)
  {
    var k: nat :| k <= n && FirstCheapest(p, draws, n, k, best);
    var current := Walk(p, draws, n + 1);
    if CostOf(p, current) < CostOf(p, best) {
      assert FirstCheapest(p, draws, n + 1, n + 1, current);
    } else {
      assert FirstCheapest(p, draws, n + 1, k, best);
    }
  }

  lemma CheapestBeatsGreedy(p: Problem, draws: seq<Draw>, n: nat, best: seq<nat>)
    requires |p.overlaps| == |p.intervals| && n <= |draws| && forall d :: d in draws ==> d.index < |p.intervals|
    requires CheapestVisited(p, draws, n, best)
    ensures CostOf(p, best) <= CostOf(p, GreedyOf(p))
  {
    var k: nat :| k <= n && FirstCheapest(p, draws, n, k, best);
    assert Walk(p, draws, 0) == GreedyOf(p);
    assert CostOf(p, best) <= CostOf(p, Walk(p, draws, 0));
  }

  // One proposal: change a choice, then keep it or put the old choice back.
  method Propose(p: Problem, draw: Draw, before: seq<nat>, costBefore: nat)
    returns (current: seq<nat>, currentCost: nat)
    requires WellPosed(p) && IsState(p, before) && forall iv :: iv in p.intervals ==> iv.start <= iv.end
    requires draw.index < |p.intervals| && draw.choice <= p.regCount && costBefore == CostOf(p, before)
    ensures current == Proposed(p, draw, before) && currentCost == CostOf(p, current)
  {
    var choices := p.regCount + 1;
    var oldChoice := before[draw.index];
    var newChoice := draw.choice;
    if newChoice == oldChoice {
      newChoice := (newChoice + 1) % choices;
    }
    current := before[draw.index := newChoice];
    currentCost := Cost(p, current);
    if currentCost > costBefore && !draw.acceptWorse {
      current := current[draw.index := oldChoice];
      currentCost := costBefore;
      assert current == before;
    }
  }

  // Returns the repaired state and, beside it, the best state found before repair.
  method RunAnneal(p: Problem, draws: seq<Draw>) returns (state: seq<nat>, best: seq<nat>)
    requires WellPosed(p) && DrawsFor(p, draws) && forall iv :: iv in p.intervals ==> iv.start <= iv.end
    ensures |p.intervals| == 0 || p.regCount == 0 || draws == [] ==> state == best == GreedyOf(p)
    ensures |p.intervals| > 0 && p.regCount > 0 && draws != [] ==> CheapestVisited(p, draws, |draws|, best)
    ensures |p.intervals| > 0 && p.regCount > 0 && draws != [] ==> state == Repaired(p, best, |p.intervals|)
    ensures IsState(p, best) && CostOf(p, best) <= CostOf(p, GreedyOf(p))
    ensures NoConflict(p, state) && IsAnnealed(p, draws, state)
    ensures CostOf(p, GreedyOf(p)) < CONFLICT_COST ==> NoConflict(p, best)
  {
    var current := GreedyState(p);
    RepairedHasNoConflict(p, seq(|p.intervals|, _ => p.regCount));
    best := current;
    if |current| == 0 || p.regCount == 0 || draws == [] {
      return current, current;
    }
    var currentCost := Cost(p, current);
    var bestCost := currentCost;
    assert FirstCheapest(p, draws, 0, 0, best);
    for step := 0 to |draws|
      invariant current == Walk(p, draws, step) && CheapestVisited(p, draws, step, best)
      invariant currentCost == CostOf(p, current) && bestCost == CostOf(p, best)
    {
      assert draws[step] in draws;
      VisitOneMore(p, draws, step, best);
      current, currentCost := Propose(p, draws[step], current, currentCost);
      if currentCost < bestCost {
        best := current;
        bestCost := currentCost;
      }
    }
    CheapestBeatsGreedy(p, draws, |draws|, best);
    state := Repair(p, best);
    RepairedHasNoConflict(p, best);
    if CostOf(p, GreedyOf(p)) < CONFLICT_COST {
      CheapStateHasNoConflict(p, best);
    }
  }

  function GreedyOf(p: Problem): (state: seq<nat>)
    requires |p.overlaps| == |p.intervals|
    ensures IsState(p, state)
  {
    Repaired(p, seq(|p.intervals|, _ => p.regCount), |p.intervals|)
  }

  // What annealing returns for these draws: the greedy state when there is nothing to anneal, and
  // otherwise the repair of the earliest cheapest state visited.
  ghost predicate IsAnnealed(p: Problem, draws: seq<Draw>, state: seq<nat>)
    requires WellPosed(p) && (|p.intervals| > 0 ==> forall d :: d in draws ==> d.index < |p.intervals|)
  {
    if |p.intervals| == 0 || p.regCount == 0 || draws == [] then
      IsRepair(p, seq(|p.intervals|, _ => p.regCount), state)
    else
      exists best :: CheapestVisited(p, draws, |draws|, best) && IsRepair(p, best, state)
  }

  // ---------- the allocator ----------

  // Registers for choices within the pool, a fresh stack slot for the rest.
  function Assigned(ivs: seq<LiveInterval>, choices: seq<nat>, pool: seq<PhysReg>, n: nat): (map<VReg, Location>, nat)
    requires n <= |ivs| == |choices|
  {
    if n == 0 then (map[], 0)
    else
      var (locs, slots) := Assigned(ivs, choices, pool, n - 1);
      if choices[n - 1] < |pool| then (locs[ivs[n - 1].v := Reg(pool[choices[n - 1]])], slots)
      else (locs[ivs[n - 1].v := FreshSlot(slots)], slots + 1)
  }

  ghost predicate Follows(
      ivs: seq<LiveInterval>, choices: seq<nat>, pool: seq<PhysReg>, n: nat, locs: map<VReg, Location>)
    requires n <= |ivs| == |choices|
  {
    && (forall i :: 0 <= i < n ==> ivs[i].v in locs)
    && (forall i :: 0 <= i < n && choices[i] < |pool| ==> locs[ivs[i].v] == Reg(pool[choices[i]]))
    && (forall i :: 0 <= i < n && choices[i] >= |pool| ==> locs[ivs[i].v].Stack?)
  }

  // Choice c below the limit is the c-th listed register, the limit itself the stack; spilled values
  // take their slots in order.
  ghost predicate FollowsState(
      ivs: seq<LiveInterval>, state: seq<nat>, regs: PhysRegSet, limit: nat, locs: map<VReg, Location>)
  {
    && |state| == |ivs|
    && (forall i :: 0 <= i < |ivs| ==> ivs[i].v in locs && PlacedBy(state[i], regs, limit, locs[ivs[i].v]))
    && (forall i, j :: 0 <= i < j < |ivs| && state[i] >= limit && state[j] >= limit ==>
         InSlotOrder(locs, ivs[i].v, ivs[j].v))
  }

  predicate PlacedBy(choice: nat, regs: PhysRegSet, limit: nat, location: Location) {
    if choice < limit then choice < |regs.regs| && location == Reg(regs.regs[choice]) else location.Stack?
  }

  predicate InSlotOrder(locs: map<VReg, Location>, v: VReg, w: VReg) {
    v in locs && w in locs && locs[v].Stack? && locs[w].Stack? && locs[v].slot.index < locs[w].slot.index
  }

  // An assignment that annealing with these draws leads to.
  ghost predicate AnnealedFrom(
      ivs: seq<LiveInterval>, regs: PhysRegSet, maxRegs: nat, draws: seq<Draw>, a: Assignment)
    requires |ivs| > 0 ==> forall d :: d in draws ==> d.index < |ivs|
  {
    exists p, state :: AnnealedBy(ivs, regs, maxRegs, draws, a, p, state)
  }

  ghost predicate AnnealedBy(
      ivs: seq<LiveInterval>, regs: PhysRegSet, maxRegs: nat, draws: seq<Draw>, a: Assignment,
      p: Problem, state: seq<nat>)
    requires |ivs| > 0 ==> forall d :: d in draws ==> d.index < |ivs|
  {
    && WellPosed(p) && p.intervals == ivs
    && p.regCount <= maxRegs && p.regCount <= |regs.regs| && (p.regCount == maxRegs || p.regCount == |regs.regs|)
    && IsAnnealed(p, draws, state)
    && FollowsState(ivs, state, regs, p.regCount, a.locs)
  }

  lemma NewestIsNew(ivs: seq<LiveInterval>, n: nat)
    requires 0 < n <= |ivs| && DistinctBy(ivs, (x: LiveInterval) => x.v)
    ensures Values(ivs[..n]) == Values(ivs[..n - 1]) + {ivs[n - 1].v}
    ensures ivs[n - 1].v !in Values(ivs[..n - 1])
  {
    assert ivs[..n] == ivs[..n - 1] + [ivs[n - 1]];
    ValuesGrow(ivs[..n - 1], ivs[n - 1]);
  }

  lemma {:induction false} AssignedSlots(ivs: seq<LiveInterval>, choices: seq<nat>, pool: seq<PhysReg>, n: nat)
    requires n <= |ivs| == |choices| && |ivs| <= MAX_U32 && DistinctBy(ivs, (x: LiveInterval) => x.v)
    ensures Assigned(ivs, choices, pool, n).0.Keys == Values(ivs[..n])
    ensures SlotsFresh(Assigned(ivs, choices, pool, n).0, Assigned(ivs, choices, pool, n).1)
    decreases n
  {
    if n == 0 {
      assert StackValues(map[]) == {};
    } else {
      AssignedSlots(ivs, choices, pool, n - 1);
      var (locs, slots) := Assigned(ivs, choices, pool, n - 1);
      NewestIsNew(ivs, n);
      SlotsBounded(locs, ivs[..n - 1], slots);
      if choices[n - 1] < |pool| {
        RegisterLeavesSlots(locs, slots, ivs[n - 1].v, pool[choices[n - 1]]);
      } else {
        SpillAddsSlot(locs, slots, ivs[n - 1].v);
      }
    }
  }

  lemma {:induction false} AssignedFollows(ivs: seq<LiveInterval>, choices: seq<nat>, pool: seq<PhysReg>, n: nat)
    requires n <= |ivs| == |choices| && DistinctBy(ivs, (x: LiveInterval) => x.v)
    ensures Follows(ivs, choices, pool, n, Assigned(ivs, choices, pool, n).0)
    decreases n
  {
    if n > 0 {
      AssignedFollows(ivs, choices, pool, n - 1);
      forall i | 0 <= i < n - 1
        ensures ivs[i].v != ivs[n - 1].v
      {
      }
    }
  }

  ghost predicate InOrderUpTo(
      ivs: seq<LiveInterval>, choices: seq<nat>, limit: nat, n: nat, locs: map<VReg, Location>)
    requires n <= |ivs| == |choices|
  {
    forall i, j :: 0 <= i < j < n && choices[i] >= limit && choices[j] >= limit ==>
      InSlotOrder(locs, ivs[i].v, ivs[j].v)
  }

  lemma OrderGrows(
      ivs: seq<LiveInterval>, choices: seq<nat>, pool: seq<PhysReg>, n: nat, locs: map<VReg, Location>, slots: nat,
      location: Location)
    requires n < |ivs| == |choices| && slots < MAX_U32 && DistinctBy(ivs, (x: LiveInterval) => x.v)
    requires InOrderUpTo(ivs, choices, |pool|, n, locs) && Follows(ivs, choices, pool, n, locs)
    requires SlotsFresh(locs, slots) && (choices[n] >= |pool| ==> location == Stack(StackSlot(slots)))
    ensures InOrderUpTo(ivs, choices, |pool|, n + 1, locs[ivs[n].v := location])
  {
    forall i, j | 0 <= i < j < n + 1 && choices[i] >= |pool| && choices[j] >= |pool|
      ensures InSlotOrder(locs[ivs[n].v := location], ivs[i].v, ivs[j].v)
    {
      assert ivs[i].v != ivs[n].v;
      if j < n {
        assert InSlotOrder(locs, ivs[i].v, ivs[j].v) && ivs[j].v != ivs[n].v;
      } else {
        assert locs[ivs[i].v].Stack? && locs[ivs[i].v].slot.index < slots;
      }
    }
  }

  lemma AssignedUnfolds(ivs: seq<LiveInterval>, choices: seq<nat>, pool: seq<PhysReg>, n: nat)
    returns (locs: map<VReg, Location>, slots: nat, location: Location)
    requires n < |ivs| == |choices| && |ivs| <= MAX_U32 && DistinctBy(ivs, (x: LiveInterval) => x.v)
    ensures (locs, slots) == Assigned(ivs, choices, pool, n)
    ensures Assigned(ivs, choices, pool, n + 1).0 == locs[ivs[n].v := location]
    ensures SlotsFresh(locs, slots) && slots <= n && (choices[n] >= |pool| ==> location == Stack(StackSlot(slots)))
  {
    var before := Assigned(ivs, choices, pool, n);
    locs, slots := before.0, before.1;
    AssignedSlots(ivs, choices, pool, n);
    SlotsBounded(locs, ivs[..n], slots);
    location := if choices[n] < |pool| then Reg(pool[choices[n]]) else FreshSlot(slots);
  }

  lemma OrderStep(ivs: seq<LiveInterval>, choices: seq<nat>, pool: seq<PhysReg>, n: nat)
    requires n < |ivs| == |choices| && |ivs| <= MAX_U32 && DistinctBy(ivs, (x: LiveInterval) => x.v)
    requires InOrderUpTo(ivs, choices, |pool|, n, Assigned(ivs, choices, pool, n).0)
    ensures InOrderUpTo(ivs, choices, |pool|, n + 1, Assigned(ivs, choices, pool, n + 1).0)
  {
    AssignedFollows(ivs, choices, pool, n);
    var locs, slots, location := AssignedUnfolds(ivs, choices, pool, n);
    OrderGrows(ivs, choices, pool, n, locs, slots, location);
  }

  lemma {:induction false} AssignedInSlotOrder(ivs: seq<LiveInterval>, choices: seq<nat>, pool: seq<PhysReg>, n: nat)
    requires n <= |ivs| == |choices| && |ivs| <= MAX_U32 && DistinctBy(ivs, (x: LiveInterval) => x.v)
    ensures InOrderUpTo(ivs, choices, |pool|, n, Assigned(ivs, choices, pool, n).0)
    decreases n
  {
    if n > 0 {
      AssignedInSlotOrder(ivs, choices, pool, n - 1);
      OrderStep(ivs, choices, pool, n - 1);
    }
  }

  lemma AssignedFollowsState(ivs: seq<LiveInterval>, choices: seq<nat>, regs: PhysRegSet, maxRegs: nat)
    requires |ivs| == |choices| && |ivs| <= MAX_U32 && DistinctBy(ivs, (x: LiveInterval) => x.v)
    ensures var pool := Allowed(regs, maxRegs);
      FollowsState(ivs, choices, regs, |pool|, Assigned(ivs, choices, pool, |ivs|).0)
  {
    AssignedFollows(ivs, choices, Allowed(regs, maxRegs), |ivs|);
    AssignedInSlotOrder(ivs, choices, Allowed(regs, maxRegs), |ivs|);
  }

  // A conflict-free state becomes an assignment the verifier accepts.
  lemma ChoicesAreValid(
      p: Problem, choices: seq<nat>, regs: PhysRegSet, maxRegs: nat, locs: map<VReg, Location>, slots: nat)
    requires GoodInput(p.intervals, regs, maxRegs) && |p.intervals| <= MAX_U32
    requires WellPosed(p) && p.regCount == |Allowed(regs, maxRegs)| && NoConflict(p, choices)
    requires (locs, slots) == Assigned(p.intervals, choices, Allowed(regs, maxRegs), |p.intervals|)
    ensures SlotsFresh(locs, slots) && ValidAssignment(p.intervals, regs, maxRegs, Assignment(locs, slots, slots))
  {
    var ivs, pool := p.intervals, Allowed(regs, maxRegs);
    PoolIsGood(regs, maxRegs);
    AssignedSlots(ivs, choices, pool, |ivs|);
    AssignedFollows(ivs, choices, pool, |ivs|);
    assert ivs[..|ivs|] == ivs;
    SlotsAreExact(locs, slots);
    FollowedRegisters(ivs, choices, pool, locs);
    FollowedOverlaps(p, choices, pool, locs, slots);
  }

  lemma FollowedRegisters(ivs: seq<LiveInterval>, choices: seq<nat>, pool: seq<PhysReg>, locs: map<VReg, Location>)
    requires |choices| == |ivs| && Follows(ivs, choices, pool, |ivs|, locs) && locs.Keys == Values(ivs)
    ensures forall v :: v in locs && locs[v].Reg? ==> locs[v].reg in pool
  {
    forall v | v in locs && locs[v].Reg?
      ensures locs[v].reg in pool
    {
      assert v in Values(ivs);
      var i :| 0 <= i < |ivs| && ivs[i].v == v;
    }
  }

  lemma FollowedOverlaps(p: Problem, choices: seq<nat>, pool: seq<PhysReg>, locs: map<VReg, Location>, slots: nat)
    requires WellPosed(p) && p.regCount == |pool| && Distinct(pool) && NoConflict(p, choices)
    requires |choices| == |p.intervals|
    requires Follows(p.intervals, choices, pool, |p.intervals|, locs) && SlotsFresh(locs, slots)
    requires DistinctBy(p.intervals, (x: LiveInterval) => x.v)
    ensures OverlapsApart(p.intervals, locs)
  {
    var ivs := p.intervals;
    forall i, j | 0 <= i < j < |ivs| && ivs[i].Overlaps(ivs[j])
      ensures !Share(locs, ivs[i], ivs[j])
    {
      assert Neighbors(p, i, j);
      assert ivs[i].v != ivs[j].v;
    }
  }

  method AssignChoices(ivs: seq<LiveInterval>, choices: seq<nat>, pool: seq<PhysReg>)
    returns (locs: map<VReg, Location>, slots: nat)
    requires |choices| == |ivs|
    ensures (locs, slots) == Assigned(ivs, choices, pool, |ivs|) && slots <= |ivs|
  {
    locs := map[];
    slots := 0;
    for index := 0 to |ivs|
      invariant (locs, slots) == Assigned(ivs, choices, pool, index) && slots <= index
    {
      if choices[index] < |pool| {
        locs := locs[ivs[index].v := Reg(pool[choices[index]])];
      } else {
        locs := locs[ivs[index].v := FreshSlot(slots)];
        slots := slots + 1;
      }
    }
  }

  method Allocate(ivs: seq<LiveInterval>, regs: PhysRegSet, maxRegs: nat, draws: seq<Draw>)
    returns (r: Result<Assignment, AssignmentError>)
    requires |ivs| <= MAX_U32 && forall iv :: iv in ivs ==> iv.start <= iv.end
    requires |ivs| > 0 ==>
      forall d :: d in draws ==> d.index < |ivs| && d.choice <= maxRegs && d.choice <= |regs.regs|
    ensures r.Success? ==> ValidAssignment(ivs, regs, maxRegs, r.value) && RegistersAllowed(regs, maxRegs, r.value.locs)
    ensures GoodInput(ivs, regs, maxRegs) ==> r.Success?
    ensures TotalPreorder(KeyLess)
    ensures r.Success? && GoodInput(ivs, regs, maxRegs) ==> ScanResult(ivs, regs, maxRegs).slots <= r.value.spills
    ensures r.Success? && GoodInput(ivs, regs, maxRegs) ==> AnnealedFrom(ivs, regs, maxRegs, draws, r.value)
  {
    KeyIsOrdered();
    var pool := Allowed(regs, maxRegs);
    var problem := NewProblem(ivs, |pool|);
    var choices, _ := RunAnneal(problem, draws);
    var locs, slots := AssignChoices(ivs, choices, pool);
    var assignment := Assignment(locs, slots, slots);
    if GoodInput(ivs, regs, maxRegs) {
      ChoicesAreValid(problem, choices, regs, maxRegs, locs, slots);
      SpillMinimality.ScanSpillsLeast(ivs, regs, maxRegs, assignment);
      AssignedFollowsState(ivs, choices, regs, maxRegs);
      assert AnnealedBy(ivs, regs, maxRegs, draws, assignment, problem, choices);
    }
    var error := VerifyAssignment(ivs, regs, maxRegs, assignment);
    if error.Some? {
      return Failure(error.value);
    }
    r := Success(assignment);
  }
}
