// Instruction numbering and live intervals: for each value, the hull of the positions where it is
// defined, used, or live at a block boundary.
module Intervals {
  import opened Wrappers
  import opened Ir
  import opened Cfg
  import opened Liveness
  import opened SweepWalks
  import LivenessFixpoint
  import opened Sorting

  const MAX_U32: nat := 0xFFFF_FFFF

  datatype LiveInterval = LiveInterval(v: VReg, start: nat, end: nat) {
    predicate Overlaps(other: LiveInterval) {
      !(end < other.start || other.end < start)
    }
  }

  // ---------- numbering ----------

  function BlockStart(f: Function, i: nat): nat
    requires i <= |f.blocks|
  {
    if i == 0 then 0 else BlockStart(f, i - 1) + |f.blocks[i - 1].insts| + 1
  }

  // The position of index k of block b; the terminator has the index past the last instruction.
  function PosOf(f: Function, b: BlockId, k: nat): nat
    requires HasBlock(f, b)
  {
    BlockStart(f, IndexOf(f, b)) + k
  }

  lemma {:induction false} StartsIncrease(f: Function, i: nat, j: nat)
    requires i < j <= |f.blocks|
    ensures BlockStart(f, i) + |f.blocks[i].insts| < BlockStart(f, j)
    decreases j
  {
    if i < j - 1 {
      StartsIncrease(f, i, j - 1);
    }
  }

  // Distinct program points have distinct positions.
  lemma PositionsAreDistinct(f: Function, b: BlockId, k: nat, c: BlockId, l: nat)
    requires HasBlock(f, b) && HasBlock(f, c)
    requires k <= |BlockAt(f, b).insts| && l <= |BlockAt(f, c).insts|
    requires PosOf(f, b, k) == PosOf(f, c, l)
    ensures b == c && k == l
  {
    var i, j := IndexOf(f, b), IndexOf(f, c);
    if i < j {
      StartsIncrease(f, i, j);
    } else if j < i {
      StartsIncrease(f, j, i);
    }
  }

  type Positions = map<(BlockId, nat), nat>

  ghost predicate ArePositions(f: Function, positions: Positions) {
    forall i: nat, k: nat :: i < |f.blocks| && k <= |f.blocks[i].insts| ==>
      (f.blocks[i].id, k) in positions && positions[(f.blocks[i].id, k)] == BlockStart(f, i) + k
  }

  datatype IntervalError =
    | LivenessFailed(error: LivenessError)
    | PositionOverflow
    | UnknownPhiPredecessor(pred: BlockId)

  ghost predicate PositionsOfBlock(block: Block, start: nat, n: nat, positions: Positions) {
    forall k: nat :: k < n ==> (block.id, k) in positions && positions[(block.id, k)] == start + k
  }

  // Numbers one block; `next` is the first position after its terminator.
  method NumberBlock(block: Block, start: nat, before: Positions)
    returns (r: Result<nat, IntervalError>, positions: Positions)
    requires start <= MAX_U32
    ensures r.Success? <==> start + |block.insts| + 1 <= MAX_U32
    ensures r.Success? ==> r.value == start + |block.insts| + 1
    ensures r.Success? ==> PositionsOfBlock(block, start, |block.insts| + 1, positions)
    ensures forall e :: e in before && (e.0 != block.id || e.1 > |block.insts|) ==>
      e in positions && positions[e] == before[e]
  {
    var position := start;
    positions := before;
    for k := 0 to |block.insts|
      invariant position == start + k <= MAX_U32
      invariant PositionsOfBlock(block, start, k, positions)
      invariant forall e :: e in before && (e.0 != block.id || e.1 > |block.insts|) ==>
        e in positions && positions[e] == before[e]
    {
      positions := positions[(block.id, k) := position];
      if position == MAX_U32 {
        return Failure(PositionOverflow), positions;
      }
      position := position + 1;
    }
    positions := positions[(block.id, |block.insts|) := position];
    if position == MAX_U32 {
      return Failure(PositionOverflow), positions;
    }
    r := Success(position + 1);
  }

  // Of the first n blocks, the i-th gives index k of its id a position that no later one replaces.
  ghost predicate Numbers(f: Function, n: nat, i: nat, k: nat) {
    && i < n <= |f.blocks| && k <= |f.blocks[i].insts|
    && forall j :: i < j < n && f.blocks[j].id == f.blocks[i].id ==> |f.blocks[j].insts| < k
  }

  ghost predicate NumberedUpTo(f: Function, n: nat, positions: Positions) {
    forall i: nat, k: nat :: Numbers(f, n, i, k) ==> HasPosition(positions, f.blocks[i].id, k, BlockStart(f, i) + k)
  }

  predicate HasPosition(positions: Positions, b: BlockId, k: nat, pos: nat) {
    (b, k) in positions && positions[(b, k)] == pos
  }

  lemma NumberingExtends(f: Function, n: nat, before: Positions, after: Positions)
    requires n < |f.blocks| && NumberedUpTo(f, n, before)
    requires PositionsOfBlock(f.blocks[n], BlockStart(f, n), |f.blocks[n].insts| + 1, after)
    requires forall e :: e in before && (e.0 != f.blocks[n].id || e.1 > |f.blocks[n].insts|) ==>
      e in after && after[e] == before[e]
    ensures NumberedUpTo(f, n + 1, after)
  {
    var m := n + 1;
    forall i: nat, k: nat | Numbers(f, m, i, k)
      ensures HasPosition(after, f.blocks[i].id, k, BlockStart(f, i) + k)
    {
      if i < n {
        assert f.blocks[n].id == f.blocks[i].id ==> |f.blocks[n].insts| < k;
        assert Numbers(f, n, i, k);
        assert HasPosition(before, f.blocks[i].id, k, BlockStart(f, i) + k);
      }
    }
  }

  lemma NumberedIsPositions(f: Function, positions: Positions)
    requires UniqueIds(f) && NumberedUpTo(f, |f.blocks|, positions)
    ensures ArePositions(f, positions)
  {
    forall i: nat, k: nat | i < |f.blocks| && k <= |f.blocks[i].insts|
      ensures (f.blocks[i].id, k) in positions && positions[(f.blocks[i].id, k)] == BlockStart(f, i) + k
    {
      assert Numbers(f, |f.blocks|, i, k);
      assert HasPosition(positions, f.blocks[i].id, k, BlockStart(f, i) + k);
    }
  }

  // First and last position of the last block of each id.
  type Bounds = map<BlockId, (nat, nat)>

  ghost predicate BoundsUpTo(f: Function, n: nat, bounds: Bounds) {
    forall i :: LastOfItsId(f, n, i) ==> HasBounds(bounds, f.blocks[i], BlockStart(f, i))
  }

  predicate HasBounds(bounds: Bounds, block: Block, start: nat) {
    block.id in bounds && bounds[block.id] == (start, start + |block.insts|)
  }

  lemma BoundsExtend(f: Function, n: nat, before: Bounds, after: Bounds)
    requires n < |f.blocks| && BoundsUpTo(f, n, before) && HasBounds(after, f.blocks[n], BlockStart(f, n))
    requires forall b :: b in before && b != f.blocks[n].id ==> b in after && after[b] == before[b]
    ensures BoundsUpTo(f, n + 1, after)
  {
    var m := n + 1;
    forall i | LastOfItsId(f, m, i)
      ensures HasBounds(after, f.blocks[i], BlockStart(f, i))
    {
      if i < n {
        assert LastOfItsId(f, n, i);
        assert HasBounds(before, f.blocks[i], BlockStart(f, i));
        assert f.blocks[n].id != f.blocks[i].id;
      }
    }
  }

  // Of blocks with one id, later numbers replace earlier ones.
  method NumberCode(f: Function) returns (r: Result<(Positions, Bounds), IntervalError>)
    ensures r.Success? <==> BlockStart(f, |f.blocks|) <= 0xFFFF_FFFF
    ensures r.Success? ==> NumberedUpTo(f, |f.blocks|, r.value.0) && BoundsUpTo(f, |f.blocks|, r.value.1)
    ensures r.Success? && UniqueIds(f) ==> ArePositions(f, r.value.0)
  {
    var position := 0;
    var positions: Positions := map[];
    var bounds: Bounds := map[];
    for i := 0 to |f.blocks|
      invariant position == BlockStart(f, i) <= MAX_U32
      invariant NumberedUpTo(f, i, positions) && BoundsUpTo(f, i, bounds)
    {
      var next;
      ghost var before := positions;
      next, positions := NumberBlock(f.blocks[i], position, positions);
      StartsAreMonotone(f, i + 1, |f.blocks|);
      if next.Failure? {
        return Failure(next.error);
      }
      ghost var earlier := bounds;
      bounds := bounds[f.blocks[i].id := (position, next.value - 1)];
      NumberingExtends(f, i, before, positions);
      BoundsExtend(f, i, earlier, bounds);
      position := next.value;
    }
    if UniqueIds(f) {
      NumberedIsPositions(f, positions);
    }
    r := Success((positions, bounds));
  }

  lemma {:induction false} StartsAreMonotone(f: Function, i: nat, j: nat)
    requires i <= j <= |f.blocks|
    ensures BlockStart(f, i) <= BlockStart(f, j)
    decreases j
  {
    if i < j {
      StartsAreMonotone(f, i, j - 1);
    }
  }

  // ---------- what an interval must cover ----------

  ghost predicate UsedOnSomeEdge(f: Function, b: BlockId, v: VReg) {
    exists s :: HasBlock(f, s) && PhiUse(BlockAt(f, s), b, v)
  }

  ghost predicate TouchedAt(f: Function, b: BlockId, k: int, v: VReg) {
    HasBlock(f, b) && 0 <= k <= |BlockAt(f, b).insts| &&
    ((k < |BlockAt(f, b).insts| && BlockAt(f, b).insts[k].dst == v) ||
     UsedAt(BlockAt(f, b), k, v) ||
     (k == |BlockAt(f, b).insts| && (UsedOnSomeEdge(f, b, v) || LiveOut(f, b, v))) ||
     (k == 0 && LiveIn(f, b, v)))
  }

  ghost predicate Touched(f: Function, v: VReg, pos: nat) {
    exists b, k: nat :: TouchedAt(f, b, k, v) && pos == PosOf(f, b, k)
  }

  predicate KeyLess(x: LiveInterval, y: LiveInterval) {
    x.start < y.start || (x.start == y.start && (x.end < y.end || (x.end == y.end && x.v.id <= y.v.id)))
  }

  ghost predicate DistinctValues(ivs: seq<LiveInterval>) {
    forall i, j :: 0 <= i < j < |ivs| ==> ivs[i].v != ivs[j].v
  }

  // Pairs of a value and a position.
  type Touches = iset<(VReg, nat)>

  ghost function AllTouches(f: Function): Touches {
    iset v, pos: nat | Touched(f, v, pos) :: (v, pos)
  }

  // One interval for every touched value, from its first touched position to its last.
  ghost predicate SpanTouches(touches: Touches, ivs: seq<LiveInterval>) {
    DistinctValues(ivs) && Sorted(ivs, KeyLess) && CoverAll(touches, ivs) && EndsTouched(touches, ivs)
  }

  // v has an interval that contains pos.
  ghost predicate CoversPoint(ivs: seq<LiveInterval>, v: VReg, pos: nat) {
    exists i :: 0 <= i < |ivs| && ivs[i].v == v && ivs[i].start <= pos <= ivs[i].end
  }

  ghost predicate CoverAll(touches: Touches, ivs: seq<LiveInterval>) {
    forall v, pos: nat :: (v, pos) in touches ==> CoversPoint(ivs, v, pos)
  }

  ghost predicate EndsTouched(touches: Touches, ivs: seq<LiveInterval>) {
    forall i :: 0 <= i < |ivs| ==> (ivs[i].v, ivs[i].start) in touches && (ivs[i].v, ivs[i].end) in touches
  }

  // By start, then end, then value; no value twice.
  lemma SpansInOrder(touches: Touches, ivs: seq<LiveInterval>, i: nat, j: nat)
    requires SpanTouches(touches, ivs) && i < j < |ivs|
    ensures ivs[i].v != ivs[j].v && ivs[i].start <= ivs[j].start
    ensures ivs[i].start == ivs[j].start ==> ivs[i].end <= ivs[j].end
    ensures ivs[i].start == ivs[j].start && ivs[i].end == ivs[j].end ==> ivs[i].v.id < ivs[j].v.id
  {
    assert KeyLess(ivs[i], ivs[j]);
  }

  predicate LiesIn(iv: LiveInterval, pos: nat) {
    iv.start <= pos <= iv.end
  }

  // Two intervals overlap when some position lies in both.
  lemma OverlapIsCommonPosition(x: LiveInterval, y: LiveInterval)
    requires x.start <= x.end && y.start <= y.end
    ensures x.Overlaps(y) <==> exists pos :: LiesIn(x, pos) && LiesIn(y, pos)
  {
    if x.Overlaps(y) {
      var pos := if x.start < y.start then y.start else x.start;
      assert LiesIn(x, pos) && LiesIn(y, pos);
    }
  }

  ghost predicate AreIntervals(f: Function, ivs: seq<LiveInterval>) {
    SpanTouches(AllTouches(f), ivs)
  }

  // ---------- the same for any function, repeated ids included ----------

  // The position that index k of an id ends up with.
  ghost predicate IsPosition(f: Function, b: BlockId, k: nat, pos: nat) {
    exists i: nat :: Numbers(f, |f.blocks|, i, k) && f.blocks[i].id == b && pos == BlockStart(f, i) + k
  }

  predicate TouchesIndex(block: Block, k: nat, v: VReg) {
    (k < |block.insts| && block.insts[k].dst == v) || UsedAt(block, k, v)
  }

  ghost predicate CodeMark(f: Function, i: nat, k: nat, v: VReg, pos: nat) {
    i < |f.blocks| && k <= |f.blocks[i].insts| && TouchesIndex(f.blocks[i], k, v) &&
    IsPosition(f, f.blocks[i].id, k, pos)
  }

  // A phi input counts at the end of the first block of its predecessor's id.
  ghost predicate EdgeMark(f: Function, a: BlockId, s: BlockId, v: VReg, pos: nat) {
    IdPhiUse(f, a, s, v) && HasBlock(f, a) && IsPosition(f, a, |BlockAt(f, a).insts|, pos)
  }

  // What the sweeps find live at the boundaries counts at those of the last block of an id.
  ghost predicate BoundaryMark(f: Function, i: nat, v: VReg, pos: nat) {
    LastOfItsId(f, |f.blocks|, i) &&
    ((Enters(f, i, v) && pos == BlockStart(f, i)) ||
     (Leaves(f, i, v) && pos == BlockStart(f, i) + |f.blocks[i].insts|))
  }

  ghost predicate Marked(f: Function, v: VReg, pos: nat) {
    || (exists i: nat, k: nat :: CodeMark(f, i, k, v, pos))
    || (exists a, s :: EdgeMark(f, a, s, v, pos))
    || (exists i: nat :: BoundaryMark(f, i, v, pos))
  }

  ghost function AllMarks(f: Function): Touches {
    iset v, pos: nat | Marked(f, v, pos) :: (v, pos)
  }

  lemma {:induction false} LastNumbering(f: Function, n: nat, b: BlockId, k: nat) returns (i: nat)
    requires n <= |f.blocks| && exists j :: 0 <= j < n && f.blocks[j].id == b && k <= |f.blocks[j].insts|
    ensures Numbers(f, n, i, k) && f.blocks[i].id == b
    decreases n
  {
    if f.blocks[n - 1].id == b && k <= |f.blocks[n - 1].insts| {
      i := n - 1;
    } else {
      i := LastNumbering(f, n - 1, b, k);
    }
  }

  function PositionOf(positions: Positions, b: BlockId, k: nat): nat {
    if (b, k) in positions then positions[(b, k)] else 0
  }

  lemma PositionIsRecorded(f: Function, positions: Positions, b: BlockId, i: nat, k: nat, pos: nat)
    requires NumberedUpTo(f, |f.blocks|, positions)
    requires i < |f.blocks| && f.blocks[i].id == b && k <= |f.blocks[i].insts|
    ensures (b, k) in positions && (IsPosition(f, b, k, pos) <==> pos == PositionOf(positions, b, k))
  {
    var last := LastNumbering(f, |f.blocks|, b, k);
    assert HasPosition(positions, b, k, BlockStart(f, last) + k);
    if j: nat :| Numbers(f, |f.blocks|, j, k) && f.blocks[j].id == b && pos == BlockStart(f, j) + k {
      assert HasPosition(positions, b, k, BlockStart(f, j) + k);
    }
  }

  // ---------- unique ids: marks are touches ----------

  lemma UniquePosition(f: Function, i: nat, k: nat, pos: nat)
    requires UniqueIds(f) && i < |f.blocks| && k <= |f.blocks[i].insts|
    ensures IsPosition(f, f.blocks[i].id, k, pos) <==> pos == PosOf(f, f.blocks[i].id, k)
  {
    BlockAtIndex(f, i);
    if j: nat :| Numbers(f, |f.blocks|, j, k) && f.blocks[j].id == f.blocks[i].id && pos == BlockStart(f, j) + k {
      assert j == i;
    }
    assert Numbers(f, |f.blocks|, i, k);
  }

  lemma CodeMarkIsTouch(f: Function, i: nat, k: nat, v: VReg, pos: nat)
    requires UniqueIds(f) && CodeMark(f, i, k, v, pos)
    ensures Touched(f, v, pos)
  {
    UniquePosition(f, i, k, pos);
    BlockAtIndex(f, i);
    assert TouchedAt(f, f.blocks[i].id, k, v);
  }

  lemma EdgeMarkIsTouch(f: Function, a: BlockId, s: BlockId, v: VReg, pos: nat)
    requires UniqueIds(f) && EdgeMark(f, a, s, v, pos)
    ensures Touched(f, v, pos)
  {
    UniquePosition(f, IndexOf(f, a), |BlockAt(f, a).insts|, pos);
    EdgeUseIsUnique(f, a, s, v);
    assert UsedOnSomeEdge(f, a, v);
    assert TouchedAt(f, a, |BlockAt(f, a).insts|, v);
  }

  lemma BoundaryMarkIsTouch(f: Function, i: nat, v: VReg, pos: nat)
    requires UniqueIds(f) && BoundaryMark(f, i, v, pos)
    ensures Touched(f, v, pos)
  {
    var b := f.blocks[i].id;
    BlockAtIndex(f, i);
    LivenessFixpoint.WalksAreLive(f, i, v);
    if Enters(f, i, v) && pos == BlockStart(f, i) {
      assert TouchedAt(f, b, 0, v) && pos == PosOf(f, b, 0);
    } else {
      assert TouchedAt(f, b, |f.blocks[i].insts|, v) && pos == PosOf(f, b, |f.blocks[i].insts|);
    }
  }

  lemma MarkIsTouch(f: Function, v: VReg, pos: nat)
    requires UniqueIds(f) && Marked(f, v, pos)
    ensures Touched(f, v, pos)
  {
    if i: nat, k: nat :| CodeMark(f, i, k, v, pos) {
      CodeMarkIsTouch(f, i, k, v, pos);
    } else if a, s :| EdgeMark(f, a, s, v, pos) {
      EdgeMarkIsTouch(f, a, s, v, pos);
    } else {
      var i: nat :| BoundaryMark(f, i, v, pos);
      BoundaryMarkIsTouch(f, i, v, pos);
    }
  }

  lemma EdgeUseIsUnique(f: Function, a: BlockId, s: BlockId, v: VReg)
    requires UniqueIds(f)
    ensures IdPhiUse(f, a, s, v) <==> HasBlock(f, s) && PhiUse(BlockAt(f, s), a, v)
  {
    if HasBlock(f, s) {
      LivenessFixpoint.IdFactsAreUnique(f, IndexOf(f, s), v);
    }
  }

  lemma TouchIsMark(f: Function, b: BlockId, k: nat, v: VReg)
    requires UniqueIds(f) && TouchedAt(f, b, k, v)
    ensures Marked(f, v, PosOf(f, b, k))
  {
    var i := IndexOf(f, b);
    var pos := PosOf(f, b, k);
    UniquePosition(f, i, k, pos);
    LivenessFixpoint.WalksAreLive(f, i, v);
    assert LastOfItsId(f, |f.blocks|, i);
    if TouchesIndex(f.blocks[i], k, v) {
      assert CodeMark(f, i, k, v, pos);
    } else if k == |f.blocks[i].insts| && UsedOnSomeEdge(f, b, v) {
      var s :| HasBlock(f, s) && PhiUse(BlockAt(f, s), b, v);
      EdgeUseIsUnique(f, b, s, v);
      assert EdgeMark(f, b, s, v, pos);
    } else {
      assert BoundaryMark(f, i, v, pos);
    }
  }

  lemma MarksAreTouches(f: Function)
    requires UniqueIds(f)
    ensures AllMarks(f) == AllTouches(f)
  {
    forall v, pos: nat
      ensures Marked(f, v, pos) <==> Touched(f, v, pos)
    {
      if Marked(f, v, pos) {
        MarkIsTouch(f, v, pos);
      }
      if b, k: nat :| TouchedAt(f, b, k, v) && pos == PosOf(f, b, k) {
        TouchIsMark(f, b, k, v);
      }
    }
  }

  // ---------- hulls of touched positions ----------

  datatype Hulls = Hulls(first: map<VReg, nat>, last: map<VReg, nat>)

  predicate InHull(h: Hulls, v: VReg, pos: nat) {
    v in h.first && v in h.last && h.first[v] <= pos <= h.last[v]
  }

  // Every end of a hull is one of the touches.
  ghost predicate Sound(h: Hulls, touches: Touches) {
    h.first.Keys == h.last.Keys && forall v :: v in h.first ==> (v, h.first[v]) in touches && (v, h.last[v]) in touches
  }

  // h covers everything g covers.
  ghost predicate Extends(g: Hulls, h: Hulls) {
    forall v, pos: nat :: InHull(g, v, pos) ==> InHull(h, v, pos)
  }

  function Touch(h: Hulls, v: VReg, pos: nat): (r: Hulls)
    requires h.first.Keys == h.last.Keys
    ensures r.first.Keys == r.last.Keys == h.first.Keys + {v}
    ensures Extends(h, r) && InHull(r, v, pos)
    ensures forall w :: w in h.first && w != v ==> r.first[w] == h.first[w] && r.last[w] == h.last[w]
    ensures r.first[v] == pos || (v in h.first && r.first[v] == h.first[v])
    ensures r.last[v] == pos || (v in h.first && r.last[v] == h.last[v])
  {
    Hulls(h.first[v := if v in h.first && h.first[v] <= pos then h.first[v] else pos],
          h.last[v := if v in h.last && h.last[v] >= pos then h.last[v] else pos])
  }

  method TouchSeq(before: Hulls, values: seq<VReg>, pos: nat, ghost touches: Touches) returns (h: Hulls)
    requires Sound(before, touches) && forall v :: v in values ==> (v, pos) in touches
    ensures Sound(h, touches) && Extends(before, h)
    ensures forall v :: v in values ==> InHull(h, v, pos)
  {
    h := before;
    for k := 0 to |values|
      invariant Sound(h, touches) && Extends(before, h)
      invariant forall i :: 0 <= i < k ==> InHull(h, values[i], pos)
    {
      h := Touch(h, values[k], pos);
    }
  }

  method TouchSet(before: Hulls, values: set<VReg>, pos: nat, ghost touches: Touches) returns (h: Hulls)
    requires Sound(before, touches) && forall v :: v in values ==> (v, pos) in touches
    ensures Sound(h, touches) && Extends(before, h)
    ensures forall v :: v in values ==> InHull(h, v, pos)
  {
    h := before;
    var rest := values;
    while rest != {}
      invariant rest <= values
      invariant Sound(h, touches) && Extends(before, h)
      invariant forall v :: v in values && v !in rest ==> InHull(h, v, pos)
      decreases rest
    {
      var v :| v in rest;
      h := Touch(h, v, pos);
      rest := rest - {v};
    }
  }

  // ---------- the passes ----------

  ghost predicate HasPositions(block: Block, positions: Positions) {
    forall k: nat :: k <= |block.insts| ==> (block.id, k) in positions
  }

  ghost predicate IndexTouches(block: Block, positions: Positions, k: nat, touches: Touches) {
    forall v :: TouchesIndex(block, k, v) ==> (v, PositionOf(positions, block.id, k)) in touches
  }

  ghost predicate CodeTouches(block: Block, positions: Positions, touches: Touches) {
    HasPositions(block, positions) &&
    forall k: nat :: k <= |block.insts| ==> IndexTouches(block, positions, k, touches)
  }

  ghost predicate IndexCovered(block: Block, positions: Positions, k: nat, h: Hulls) {
    forall v :: TouchesIndex(block, k, v) ==> InHull(h, v, PositionOf(positions, block.id, k))
  }

  ghost predicate CodeCovered(block: Block, positions: Positions, n: nat, h: Hulls) {
    forall k: nat :: k < n ==> IndexCovered(block, positions, k, h)
  }

  lemma CoverageGrows(block: Block, positions: Positions, k: nat, g: Hulls, h: Hulls)
    requires CodeCovered(block, positions, k, g) && Extends(g, h) && IndexCovered(block, positions, k, h)
    ensures CodeCovered(block, positions, k + 1, h)
  {
    forall j: nat | j < k + 1
      ensures IndexCovered(block, positions, j, h)
    {
      if j < k {
        assert IndexCovered(block, positions, j, g);
      }
    }
  }

  method TouchInst(block: Block, k: nat, positions: Positions, before: Hulls, ghost touches: Touches)
    returns (h: Hulls)
    requires k < |block.insts| && Sound(before, touches) && CodeTouches(block, positions, touches)
    ensures Sound(h, touches) && Extends(before, h) && IndexCovered(block, positions, k, h)
  {
    var inst := block.insts[k];
    var pos := positions[(block.id, k)];
    assert IndexTouches(block, positions, k, touches);
    assert TouchesIndex(block, k, inst.dst);
    h := Touch(before, inst.dst, pos);
    if !inst.PhiI64? {
      assert forall v :: v in Uses(inst) ==> TouchesIndex(block, k, v);
      h := TouchSeq(h, Uses(inst), pos, touches);
    }
  }

  method TouchBlock(block: Block, positions: Positions, before: Hulls, ghost touches: Touches) returns (h: Hulls)
    requires Sound(before, touches) && CodeTouches(block, positions, touches)
    ensures Sound(h, touches) && Extends(before, h)
    ensures CodeCovered(block, positions, |block.insts| + 1, h)
  {
    h := before;
    for k := 0 to |block.insts|
      invariant Sound(h, touches) && Extends(before, h)
      invariant CodeCovered(block, positions, k, h)
    {
      ghost var g := h;
      h := TouchInst(block, k, positions, h, touches);
      CoverageGrows(block, positions, k, g, h);
    }
    ghost var g := h;
    assert IndexTouches(block, positions, |block.insts|, touches);
    assert forall v :: v in TermUses(block.term) ==> TouchesIndex(block, |block.insts|, v);
    h := TouchSeq(h, TermUses(block.term), positions[(block.id, |block.insts|)], touches);
    CoverageGrows(block, positions, |block.insts|, g, h);
  }

  ghost predicate AllCodeCovered(f: Function, positions: Positions, n: nat, h: Hulls)
    requires n <= |f.blocks|
  {
    forall i: nat :: i < n ==> CodeCovered(f.blocks[i], positions, |f.blocks[i].insts| + 1, h)
  }

  lemma BlockStaysCovered(block: Block, positions: Positions, n: nat, g: Hulls, h: Hulls)
    requires Extends(g, h) && CodeCovered(block, positions, n, g)
    ensures CodeCovered(block, positions, n, h)
  {
    forall k: nat | k < n
      ensures IndexCovered(block, positions, k, h)
    {
      assert IndexCovered(block, positions, k, g);
    }
  }

  lemma CoverageExtends(f: Function, positions: Positions, n: nat, g: Hulls, h: Hulls)
    requires n <= |f.blocks| && Extends(g, h) && AllCodeCovered(f, positions, n, g)
    ensures AllCodeCovered(f, positions, n, h)
  {
    forall i: nat | i < n
      ensures CodeCovered(f.blocks[i], positions, |f.blocks[i].insts| + 1, h)
    {
      BlockStaysCovered(f.blocks[i], positions, |f.blocks[i].insts| + 1, g, h);
    }
  }

  method TouchCode(f: Function, positions: Positions, ghost touches: Touches) returns (h: Hulls)
    requires forall i: nat :: i < |f.blocks| ==> CodeTouches(f.blocks[i], positions, touches)
    ensures Sound(h, touches) && AllCodeCovered(f, positions, |f.blocks|, h)
  {
    h := Hulls(map[], map[]);
    for i := 0 to |f.blocks|
      invariant Sound(h, touches) && AllCodeCovered(f, positions, i, h)
    {
      ghost var g := h;
      h := TouchBlock(f.blocks[i], positions, h, touches);
      CoverageExtends(f, positions, i, g, h);
    }
  }

  // Every phi input comes from some listed block.
  ghost predicate PhiPredecessorsKnown(f: Function) {
    forall a, s, v :: IdPhiUse(f, a, s, v) ==> HasBlock(f, a)
  }

  function EdgePosition(f: Function, positions: Positions, a: BlockId): nat
    requires HasBlock(f, a)
  {
    PositionOf(positions, a, |BlockAt(f, a).insts|)
  }

  ghost predicate EdgeTouches(
      f: Function, l: Liveness, positions: Positions, edge: (BlockId, BlockId), touches: Touches)
  {
    edge in l.phiUses && HasBlock(f, edge.0) ==>
      && (edge.0, |BlockAt(f, edge.0).insts|) in positions
      && forall v :: v in l.phiUses[edge] ==> (v, EdgePosition(f, positions, edge.0)) in touches
  }

  ghost predicate EdgeCovered(f: Function, l: Liveness, positions: Positions, edge: (BlockId, BlockId), h: Hulls) {
    edge in l.phiUses ==>
      HasBlock(f, edge.0) && forall v :: v in l.phiUses[edge] ==> InHull(h, v, EdgePosition(f, positions, edge.0))
  }

  lemma UnknownPredecessorFound(f: Function, l: Liveness, edge: (BlockId, BlockId))
    requires FactsAt(f, l, edge.1) && edge in l.phiUses && !HasBlock(f, edge.0)
    ensures !PhiPredecessorsKnown(f)
  {
    var v :| v in l.phiUses[edge];
    assert HasPhiUse(l.phiUses, edge.0, edge.1, v);
    assert IdPhiUse(f, edge.0, edge.1, v);
  }

  lemma AllPredecessorsKnown(f: Function, l: Liveness)
    requires HoldsWalks(f, l) && forall e :: e in l.phiUses ==> HasBlock(f, e.0)
    ensures PhiPredecessorsKnown(f)
  {
    forall a, s, v | IdPhiUse(f, a, s, v)
      ensures HasBlock(f, a)
    {
      assert FactsAt(f, l, s);
      assert HasPhiUse(l.phiUses, a, s, v);
      assert (a, s) in l.phiUses;
    }
  }

  method TouchEdges(f: Function, l: Liveness, positions: Positions, before: Hulls, ghost touches: Touches)
    returns (r: Result<Hulls, IntervalError>)
    requires HoldsWalks(f, l) && Sound(before, touches)
    requires forall e :: EdgeTouches(f, l, positions, e, touches)
    ensures r.Success? <==> PhiPredecessorsKnown(f)
    ensures r.Success? ==> Sound(r.value, touches) && Extends(before, r.value)
    ensures r.Success? ==> forall e :: EdgeCovered(f, l, positions, e, r.value)
  {
    var h := before;
    var rest := l.phiUses.Keys;
    while rest != {}
      invariant rest <= l.phiUses.Keys
      invariant Sound(h, touches) && Extends(before, h)
      invariant forall e :: e !in rest ==> EdgeCovered(f, l, positions, e, h)
      decreases rest
    {
      var edge :| edge in rest;
      var pred := TryBlock(f, edge.0);
      if pred.None? {
        assert FactsAt(f, l, edge.1);
        UnknownPredecessorFound(f, l, edge);
        return Failure(UnknownPhiPredecessor(edge.0));
      }
      ghost var g := h;
      assert EdgeTouches(f, l, positions, edge, touches);
      h := TouchSet(h, l.phiUses[edge], positions[(edge.0, |pred.value.insts|)], touches);
      forall e | e !in rest
        ensures EdgeCovered(f, l, positions, e, h)
      {
        assert EdgeCovered(f, l, positions, e, g);
      }
      rest := rest - {edge};
    }
    forall e | e in l.phiUses
      ensures HasBlock(f, e.0)
    {
      assert EdgeCovered(f, l, positions, e, h);
    }
    AllPredecessorsKnown(f, l);
    r := Success(h);
  }

  ghost predicate BoundaryTouches(l: Liveness, bounds: Bounds, b: BlockId, touches: Touches) {
    b in l.perBlock ==>
      && b in bounds
      && (forall v :: v in l.perBlock[b].liveIn ==> (v, bounds[b].0) in touches)
      && (forall v :: v in l.perBlock[b].liveOut ==> (v, bounds[b].1) in touches)
  }

  ghost predicate BoundaryCovered(l: Liveness, bounds: Bounds, b: BlockId, h: Hulls) {
    b in l.perBlock ==>
      && b in bounds
      && (forall v :: v in l.perBlock[b].liveIn ==> InHull(h, v, bounds[b].0))
      && (forall v :: v in l.perBlock[b].liveOut ==> InHull(h, v, bounds[b].1))
  }

  method TouchBoundaries(l: Liveness, bounds: Bounds, before: Hulls, ghost touches: Touches) returns (h: Hulls)
    requires Sound(before, touches) && forall b :: BoundaryTouches(l, bounds, b, touches)
    ensures Sound(h, touches) && Extends(before, h)
    ensures forall b :: BoundaryCovered(l, bounds, b, h)
  {
    h := before;
    var rest := l.perBlock.Keys;
    while rest != {}
      invariant rest <= l.perBlock.Keys
      invariant Sound(h, touches) && Extends(before, h)
      invariant forall b :: b !in rest ==> BoundaryCovered(l, bounds, b, h)
      decreases rest
    {
      var b :| b in rest;
      assert BoundaryTouches(l, bounds, b, touches);
      ghost var g := h;
      h := TouchSet(h, l.perBlock[b].liveIn, bounds[b].0, touches);
      h := TouchSet(h, l.perBlock[b].liveOut, bounds[b].1, touches);
      forall c | c !in rest
        ensures BoundaryCovered(l, bounds, c, h)
      {
        assert BoundaryCovered(l, bounds, c, g);
      }
      rest := rest - {b};
    }
  }

  // ---------- the passes touch exactly the marks ----------

  ghost predicate IsNumbering(f: Function, positions: Positions, bounds: Bounds) {
    NumberedUpTo(f, |f.blocks|, positions) && BoundsUpTo(f, |f.blocks|, bounds)
  }

  lemma CodeIsMarked(f: Function, positions: Positions, i: nat)
    requires NumberedUpTo(f, |f.blocks|, positions) && i < |f.blocks|
    ensures CodeTouches(f.blocks[i], positions, AllMarks(f))
  {
    var block := f.blocks[i];
    forall k: nat | k <= |block.insts|
      ensures (block.id, k) in positions && IndexTouches(block, positions, k, AllMarks(f))
    {
      var pos := PositionOf(positions, block.id, k);
      PositionIsRecorded(f, positions, block.id, i, k, pos);
      forall v | TouchesIndex(block, k, v)
        ensures (v, pos) in AllMarks(f)
      {
        assert CodeMark(f, i, k, v, pos);
      }
    }
  }

  lemma EdgeIsMarked(f: Function, l: Liveness, positions: Positions, edge: (BlockId, BlockId))
    requires NumberedUpTo(f, |f.blocks|, positions) && HoldsWalks(f, l)
    ensures EdgeTouches(f, l, positions, edge, AllMarks(f))
  {
    if edge in l.phiUses && HasBlock(f, edge.0) {
      var n := |BlockAt(f, edge.0).insts|;
      var pos := EdgePosition(f, positions, edge.0);
      PositionIsRecorded(f, positions, edge.0, IndexOf(f, edge.0), n, pos);
      forall v | v in l.phiUses[edge]
        ensures (v, pos) in AllMarks(f)
      {
        assert FactsAt(f, l, edge.1) && HasPhiUse(l.phiUses, edge.0, edge.1, v);
        assert EdgeMark(f, edge.0, edge.1, v, pos);
      }
    }
  }

  lemma BoundaryIsMarked(f: Function, l: Liveness, bounds: Bounds, b: BlockId)
    requires BoundsUpTo(f, |f.blocks|, bounds) && HoldsWalks(f, l)
    ensures BoundaryTouches(l, bounds, b, AllMarks(f))
  {
    if b in l.perBlock {
      assert FactsAt(f, l, b);
      var i := LastExists(f, b, |f.blocks|);
      assert HasBounds(bounds, f.blocks[i], BlockStart(f, i)) && HoldsAt(f, l, i);
      forall v
        ensures v in l.perBlock[b].liveIn ==> (v, bounds[b].0) in AllMarks(f)
        ensures v in l.perBlock[b].liveOut ==> (v, bounds[b].1) in AllMarks(f)
      {
        assert v in l.perBlock[b].liveIn ==> BoundaryMark(f, i, v, bounds[b].0);
        assert v in l.perBlock[b].liveOut ==> BoundaryMark(f, i, v, bounds[b].1);
      }
    }
  }

  lemma MarkIsCovered(f: Function, l: Liveness, positions: Positions, bounds: Bounds, h: Hulls, v: VReg, pos: nat)
    requires IsNumbering(f, positions, bounds) && HoldsWalks(f, l)
    requires AllCodeCovered(f, positions, |f.blocks|, h)
    requires forall e :: EdgeCovered(f, l, positions, e, h)
    requires forall b :: BoundaryCovered(l, bounds, b, h)
    requires Marked(f, v, pos)
    ensures InHull(h, v, pos)
  {
    if i: nat, k: nat :| CodeMark(f, i, k, v, pos) {
      PositionIsRecorded(f, positions, f.blocks[i].id, i, k, pos);
      assert CodeCovered(f.blocks[i], positions, |f.blocks[i].insts| + 1, h);
      assert IndexCovered(f.blocks[i], positions, k, h);
    } else if a, s :| EdgeMark(f, a, s, v, pos) {
      PositionIsRecorded(f, positions, a, IndexOf(f, a), |BlockAt(f, a).insts|, pos);
      assert FactsAt(f, l, s) && HasPhiUse(l.phiUses, a, s, v);
      assert EdgeCovered(f, l, positions, (a, s), h);
    } else {
      var i: nat :| BoundaryMark(f, i, v, pos);
      assert HasBounds(bounds, f.blocks[i], BlockStart(f, i)) && HoldsAt(f, l, i);
      assert BoundaryCovered(l, bounds, f.blocks[i].id, h);
    }
  }

  // ---------- the intervals ----------

  lemma KeyIsOrdered()
    ensures TotalPreorder(KeyLess)
  {
  }

  ghost predicate IntervalsOf(h: Hulls, ivs: seq<LiveInterval>) {
    && (forall i :: 0 <= i < |ivs| ==>
         && ivs[i].v in h.first && ivs[i].v in h.last
         && ivs[i].start == h.first[ivs[i].v] && ivs[i].end == h.last[ivs[i].v])
    && (forall v :: v in h.first ==> exists i :: 0 <= i < |ivs| && ivs[i].v == v)
  }

  method ListIntervals(h: Hulls) returns (ivs: seq<LiveInterval>)
    requires h.first.Keys == h.last.Keys
    ensures IntervalsOf(h, ivs) && DistinctValues(ivs)
  {
    ivs := [];
    var rest := h.first.Keys;
    while rest != {}
      invariant rest <= h.first.Keys
      invariant DistinctValues(ivs)
      invariant forall i :: 0 <= i < |ivs| ==>
        && ivs[i].v in h.first && ivs[i].v !in rest
        && ivs[i] == LiveInterval(ivs[i].v, h.first[ivs[i].v], h.last[ivs[i].v])
      invariant forall v :: v in h.first && v !in rest ==> exists i :: 0 <= i < |ivs| && ivs[i].v == v
      decreases rest
    {
      var v :| v in rest;
      ghost var before := ivs;
      ivs := ivs + [LiveInterval(v, h.first[v], h.last[v])];
      assert ivs[|ivs| - 1].v == v;
      forall w | w in h.first && w !in rest
        ensures exists i :: 0 <= i < |ivs| && ivs[i].v == w
      {
        var i :| 0 <= i < |before| && before[i].v == w;
        assert ivs[i].v == w;
      }
      rest := rest - {v};
    }
  }

  // Any function is taken for which liveness ends.
  method ComputeLiveIntervals(f: Function) returns (r: Result<(seq<LiveInterval>, Positions), IntervalError>)
    requires KnownSuccessors(f) ==> TwinsAlike(f)
    ensures r.Success? <==> KnownSuccessors(f) && BlockStart(f, |f.blocks|) <= 0xFFFF_FFFF && PhiPredecessorsKnown(f)
    ensures r.Success? ==> SpanTouches(AllMarks(f), r.value.0) && NumberedUpTo(f, |f.blocks|, r.value.1)
    ensures r.Success? && UniqueIds(f) ==> AreIntervals(f, r.value.0) && ArePositions(f, r.value.1)
  {
    var liveness := LivenessFixpoint.ComputeLiveness(f);
    if liveness.Failure? {
      return Failure(LivenessFailed(liveness.error));
    }
    var numbered := NumberCode(f);
    if numbered.Failure? {
      return Failure(numbered.error);
    }
    var h := CoverTouches(f, liveness.value, numbered.value.0, numbered.value.1);
    if h.Failure? {
      return Failure(h.error);
    }
    var ivs := BuildIntervals(h.value, AllMarks(f));
    if UniqueIds(f) {
      MarksAreTouches(f);
    }
    r := Success((ivs, numbered.value.0));
  }

  ghost predicate Covers(touches: Touches, h: Hulls) {
    Sound(h, touches) && forall v, pos: nat :: (v, pos) in touches ==> InHull(h, v, pos)
  }

  // The three passes over code, phi edges and block boundaries.
  method CoverTouches(f: Function, l: Liveness, positions: Positions, bounds: Bounds)
    returns (r: Result<Hulls, IntervalError>)
    requires IsNumbering(f, positions, bounds) && HoldsWalks(f, l)
    ensures r.Success? <==> PhiPredecessorsKnown(f)
    ensures r.Success? ==> Covers(AllMarks(f), r.value)
  {
    ghost var touches := AllMarks(f);
    forall i: nat | i < |f.blocks|
      ensures CodeTouches(f.blocks[i], positions, touches)
    {
      CodeIsMarked(f, positions, i);
    }
    forall e
      ensures EdgeTouches(f, l, positions, e, touches)
    {
      EdgeIsMarked(f, l, positions, e);
    }
    forall b
      ensures BoundaryTouches(l, bounds, b, touches)
    {
      BoundaryIsMarked(f, l, bounds, b);
    }
    var code := TouchCode(f, positions, touches);
    var edges := TouchEdges(f, l, positions, code, touches);
    if edges.Failure? {
      return Failure(edges.error);
    }
    var h := TouchBoundaries(l, bounds, edges.value, touches);
    AllCovered(f, l, positions, bounds, code, edges.value, h);
    r := Success(h);
  }

  lemma AllCovered(
      f: Function, l: Liveness, positions: Positions, bounds: Bounds, code: Hulls, edges: Hulls, h: Hulls)
    requires IsNumbering(f, positions, bounds) && HoldsWalks(f, l)
    requires AllCodeCovered(f, positions, |f.blocks|, code) && Extends(code, edges) && Extends(edges, h)
    requires forall e :: EdgeCovered(f, l, positions, e, edges)
    requires forall b :: BoundaryCovered(l, bounds, b, h)
    ensures forall v, pos: nat :: (v, pos) in AllMarks(f) ==> InHull(h, v, pos)
  {
    CoverageExtends(f, positions, |f.blocks|, code, edges);
    CoverageExtends(f, positions, |f.blocks|, edges, h);
    forall e
      ensures EdgeCovered(f, l, positions, e, h)
    {
      assert EdgeCovered(f, l, positions, e, edges);
    }
    forall v, pos: nat | (v, pos) in AllMarks(f)
      ensures InHull(h, v, pos)
    {
      MarkIsCovered(f, l, positions, bounds, h, v, pos);
    }
  }

  lemma SortKeepsHulls(h: Hulls, listed: seq<LiveInterval>, ivs: seq<LiveInterval>)
    requires IntervalsOf(h, listed) && DistinctValues(listed) && ivs == SortBy(listed, KeyLess)
    ensures IntervalsOf(h, ivs) && DistinctValues(ivs) && Sorted(ivs, KeyLess)
  {
    KeyIsOrdered();
    SortByIsSorted(listed, KeyLess);
    SortByKeepsElements(listed, KeyLess);
    SameElements(listed, ivs);
    DistinctByPermutation(listed, ivs, (iv: LiveInterval) => iv.v);
    forall i | 0 <= i < |ivs|
      ensures ivs[i] in listed
    {
      assert ivs[i] in ivs;
    }
    forall v | v in h.first
      ensures exists i :: 0 <= i < |ivs| && ivs[i].v == v
    {
      var j :| 0 <= j < |listed| && listed[j].v == v;
      assert listed[j] in ivs;
    }
  }

  lemma HullsSpan(touches: Touches, h: Hulls, ivs: seq<LiveInterval>)
    requires Covers(touches, h) && IntervalsOf(h, ivs)
    ensures CoverAll(touches, ivs) && EndsTouched(touches, ivs)
  {
    forall v, pos: nat | (v, pos) in touches
      ensures CoversPoint(ivs, v, pos)
    {
      assert InHull(h, v, pos);
      var i :| 0 <= i < |ivs| && ivs[i].v == v;
      assert ivs[i].start <= pos <= ivs[i].end;
    }
  }

  method BuildIntervals(h: Hulls, ghost touches: Touches) returns (ivs: seq<LiveInterval>)
    requires Covers(touches, h)
    ensures SpanTouches(touches, ivs)
  {
    var listed := ListIntervals(h);
    KeyIsOrdered();
    ivs := SortBy(listed, KeyLess);
    SortKeepsHulls(h, listed, ivs);
    HullsSpan(touches, h, ivs);
  }
}
