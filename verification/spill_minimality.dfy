// Furthest-end eviction spills as little as any assignment the verifier accepts.
module SpillMinimality {
  import opened Ir
  import opened Intervals
  import opened Sorting
  import opened Alloc
  import opened LinearScan
  import Cfg

  predicate InRegister(locs: map<VReg, Location>, iv: LiveInterval) {
    iv.v in locs && locs[iv.v].Reg?
  }

  function Kept(done: seq<LiveInterval>, locs: map<VReg, Location>): set<LiveInterval> {
    set iv | iv in done && InRegister(locs, iv)
  }

  // The intervals kept in registers that end before t, and those that do not.
  function Early(done: seq<LiveInterval>, locs: map<VReg, Location>, t: nat): set<LiveInterval> {
    set iv | iv in done && InRegister(locs, iv) && iv.end < t
  }

  function Late(done: seq<LiveInterval>, locs: map<VReg, Location>, t: nat): set<LiveInterval> {
    set iv | iv in done && InRegister(locs, iv) && iv.end >= t
  }

  // The scan stays ahead: at every threshold it keeps at least as many intervals ending before it.
  ghost predicate Ahead(done: seq<LiveInterval>, ours: map<VReg, Location>, theirs: map<VReg, Location>) {
    forall t: nat :: |Early(done, theirs, t)| <= |Early(done, ours, t)|
  }

  // Registers come from the pool, and overlapping values kept in registers differ in them.
  ghost predicate Fits(done: seq<LiveInterval>, theirs: map<VReg, Location>, pool: seq<PhysReg>) {
    && (forall x :: x in done && InRegister(theirs, x) ==> theirs[x.v].reg in pool)
    && (forall x, y ::
         x in done && y in done && x != y && x.Overlaps(y) && InRegister(theirs, x) && InRegister(theirs, y) ==>
         theirs[x.v].reg != theirs[y.v].reg)
  }

  // ---------- counting ----------

  lemma {:induction false} InjectiveImage<T, U>(s: set<T>, f: T -> U, image: set<U>)
    requires forall x, y :: x in s && y in s && x != y ==> f(x) != f(y)
    requires image == set x | x in s :: f(x)
    ensures |image| == |s|
    decreases s
  {
    if s != {} {
      var x :| x in s;
      var rest := set y | y in s - {x} :: f(y);
      InjectiveImage(s - {x}, f, rest);
      assert image == rest + {f(x)};
      assert f(x) !in rest;
    }
  }

  lemma {:induction false} ElementsAtMost<T>(s: seq<T>, n: nat)
    requires n <= |s|
    ensures |set i | 0 <= i < n :: s[i]| <= n
    decreases n
  {
    if n > 0 {
      ElementsAtMost(s, n - 1);
      assert (set i | 0 <= i < n :: s[i]) == (set i | 0 <= i < n - 1 :: s[i]) + {s[n - 1]};
    }
  }

  // Intervals that all contain x need distinct registers.
  lemma LateFitsPool(done: seq<LiveInterval>, theirs: map<VReg, Location>, pool: seq<PhysReg>, x: nat)
    requires Fits(done, theirs, pool) && forall iv :: iv in done ==> iv.start <= x
    ensures |Late(done, theirs, x)| <= |pool|
  {
    var late := Late(done, theirs, x);
    var f := (iv: LiveInterval) => if InRegister(theirs, iv) then theirs[iv.v].reg else Rax;
    var image := set iv | iv in late :: f(iv);
    forall a, b | a in late && b in late && a != b
      ensures f(a) != f(b)
    {
      assert a.Overlaps(b);
    }
    InjectiveImage(late, f, image);
    var available := set i | 0 <= i < |pool| :: pool[i];
    ElementsAtMost(pool, |pool|);
    assert image <= available;
    Cfg.SubsetSizes(image, available);
  }

  lemma EarlyAndLate(done: seq<LiveInterval>, locs: map<VReg, Location>, x: nat, t: nat)
    ensures |Early(done, locs, t)| <= |Early(done, locs, x)| + |Late(done, locs, x)|
  {
    var both := Early(done, locs, x) + Late(done, locs, x);
    assert Early(done, locs, t) <= both;
    Cfg.SubsetSizes(Early(done, locs, t), both);
  }

  lemma EarlyGrows(done: seq<LiveInterval>, locs: map<VReg, Location>, iv: LiveInterval, t: nat)
    requires iv !in done
    ensures |Early(done + [iv], locs, t)| ==
      |Early(done, locs, t)| + (if InRegister(locs, iv) && iv.end < t then 1 else 0)
  {
    if InRegister(locs, iv) && iv.end < t {
      assert Early(done + [iv], locs, t) == Early(done, locs, t) + {iv};
    } else {
      assert Early(done + [iv], locs, t) == Early(done, locs, t);
    }
  }

  lemma EarlyIgnoresOthers(done: seq<LiveInterval>, locs: map<VReg, Location>, v: VReg, l: Location, t: nat)
    requires forall x :: x in done ==> x.v != v
    ensures Early(done, locs[v := l], t) == Early(done, locs, t)
  {
  }

  function ActiveSet(active: seq<Held>): set<LiveInterval> {
    set h | h in active :: h.interval
  }

  lemma ActiveGrows(front: seq<Held>, last: Held)
    ensures ActiveSet(front + [last]) == ActiveSet(front) + {last.interval}
  {
  }

  lemma LastIsNew(active: seq<Held>)
    requires DistinctBy(active, (h: Held) => h.interval) && active != []
    ensures active[|active| - 1].interval !in ActiveSet(active[..|active| - 1])
  {
    var front := active[..|active| - 1];
    forall h | h in front
      ensures h.interval != active[|active| - 1].interval
    {
      var i :| 0 <= i < |front| && front[i] == h;
      assert active[i].interval != active[|active| - 1].interval;
    }
  }

  lemma {:induction false} ActiveCount(active: seq<Held>)
    requires DistinctBy(active, (h: Held) => h.interval)
    ensures |ActiveSet(active)| == |active|
    decreases active
  {
    if active != [] {
      var front, last := active[..|active| - 1], active[|active| - 1];
      ActiveCount(front);
      assert active == front + [last];
      LastIsNew(active);
      ActiveGrows(front, last);
    }
  }

  // Active intervals are kept, reach x, and are as many as the active entries.
  lemma ActiveAreLate(s: Scan, done: seq<LiveInterval>, pool: seq<PhysReg>, x: nat)
    requires Inv(s, done, pool, x) && forall h :: h in s.active ==> h.interval.end >= x
    ensures |ActiveSet(s.active)| == |s.active|
    ensures forall iv :: iv in ActiveSet(s.active) ==> iv in done && InRegister(s.locs, iv) && iv.end >= x
  {
    forall i, j | 0 <= i < j < |s.active|
      ensures s.active[i].interval != s.active[j].interval
    {
      assert s.active[i] in s.active && s.active[j] in s.active;
      assert s.active[i].reg != s.active[j].reg;
    }
    ActiveCount(s.active);
  }

  // ---------- staying ahead, step by step ----------

  // With every register in use at iv.start, nothing can keep more than the early ones and a pool.
  lemma TheirsIsBounded(
      done: seq<LiveInterval>, ours: map<VReg, Location>, theirs: map<VReg, Location>, pool: seq<PhysReg>,
      iv: LiveInterval, t: nat)
    requires Ahead(done, ours, theirs) && Next(done, iv) && Fits(done + [iv], theirs, pool)
    ensures |Early(done + [iv], theirs, t)| <= |Early(done, ours, iv.start)| + |pool|
  {
    var all := done + [iv];
    EarlyAndLate(all, theirs, iv.start, t);
    LateFitsPool(all, theirs, pool, iv.start);
    EarlyGrows(done, theirs, iv, iv.start);
  }

  lemma TheirsGrowsByOne(
      done: seq<LiveInterval>, ours: map<VReg, Location>, theirs: map<VReg, Location>, iv: LiveInterval,
      t: nat)
    requires Ahead(done, ours, theirs) && Next(done, iv)
    ensures |Early(done + [iv], theirs, t)| <= |Early(done, ours, t)| + (if iv.end < t then 1 else 0)
  {
    EarlyGrows(done, theirs, iv, t);
  }

  lemma TakeStaysAhead(s: Scan, done: seq<LiveInterval>, theirs: map<VReg, Location>, iv: LiveInterval)
    requires s.free != [] && Next(done, iv) && Ahead(done, s.locs, theirs)
    ensures Ahead(done + [iv], Take(s, iv).locs, theirs)
  {
    var after := Take(s, iv).locs;
    forall t: nat
      ensures |Early(done + [iv], theirs, t)| <= |Early(done + [iv], after, t)|
    {
      TheirsGrowsByOne(done, s.locs, theirs, iv, t);
      EarlyGrows(done, after, iv, t);
      EarlyIgnoresOthers(done, s.locs, iv.v, after[iv.v], t);
    }
  }

  // The scan after expiring: all registers busy with intervals that reach iv.start.
  ghost predicate Full(s: Scan, done: seq<LiveInterval>, pool: seq<PhysReg>, iv: LiveInterval) {
    Inv(s, done, pool, iv.start) && s.free == [] && Next(done, iv) && forall h :: h in s.active ==>
      h.interval.end >= iv.start
  }

  lemma SpillStaysAhead(
      s: Scan, done: seq<LiveInterval>, pool: seq<PhysReg>, theirs: map<VReg, Location>, iv: LiveInterval)
    requires Full(s, done, pool, iv) && Ahead(done, s.locs, theirs) && Fits(done + [iv], theirs, pool)
    requires forall h :: h in s.active ==> h.interval.end <= iv.end
    ensures Ahead(done + [iv], Spill(s, iv).locs, theirs)
  {
    var after := Spill(s, iv).locs;
    forall t: nat
      ensures |Early(done + [iv], theirs, t)| <= |Early(done + [iv], after, t)|
    {
      EarlyGrows(done, after, iv, t);
      EarlyIgnoresOthers(done, s.locs, iv.v, after[iv.v], t);
      if t <= iv.end {
        TheirsGrowsByOne(done, s.locs, theirs, iv, t);
      } else {
        TheirsIsBounded(done, s.locs, theirs, pool, iv, t);
        ActiveAreLate(s, done, pool, iv.start);
        KeptAfterSpill(done, s.locs, ActiveSet(s.active), iv.start, t);
      }
    }
  }

  lemma KeptAfterSpill(done: seq<LiveInterval>, locs: map<VReg, Location>, active: set<LiveInterval>, x: nat, t: nat)
    requires forall iv :: iv in active ==> iv in done && InRegister(locs, iv) && x <= iv.end < t
    requires x <= t
    ensures |Early(done, locs, x)| + |active| <= |Early(done, locs, t)|
  {
    var kept := Early(done, locs, x) + active;
    assert kept <= Early(done, locs, t);
    Cfg.SubsetSizes(kept, Early(done, locs, t));
  }

  lemma EvictStaysAhead(
      s: Scan, done: seq<LiveInterval>, pool: seq<PhysReg>, theirs: map<VReg, Location>, iv: LiveInterval)
    requires Full(s, done, pool, iv) && Ahead(done, s.locs, theirs) && Fits(done + [iv], theirs, pool)
    requires DistinctBy(done, (x: LiveInterval) => x.v)
    requires s.active != [] && s.active[|s.active| - 1].interval.end > iv.end
    requires forall h :: h in s.active ==> h.interval.end <= s.active[|s.active| - 1].interval.end
    ensures Ahead(done + [iv], Evict(s, iv).locs, theirs)
  {
    var last := s.active[|s.active| - 1].interval;
    var mid := s.locs[last.v := FreshSlot(s.slots)];
    var after := Evict(s, iv).locs;
    assert s.active[|s.active| - 1] in s.active;
    forall t: nat
      ensures |Early(done + [iv], theirs, t)| <= |Early(done + [iv], after, t)|
    {
      EarlyGrows(done, after, iv, t);
      EarlyIgnoresOthers(done, mid, iv.v, after[iv.v], t);
      if t <= last.end {
        TheirsGrowsByOne(done, s.locs, theirs, iv, t);
        EvictedWasNotEarly(done, s.locs, last, FreshSlot(s.slots), t);
      } else {
        TheirsIsBounded(done, s.locs, theirs, pool, iv, t);
        EvictKeepsEnough(s, done, pool, iv, t);
      }
    }
  }

  lemma EvictedWasNotEarly(done: seq<LiveInterval>, locs: map<VReg, Location>, last: LiveInterval, l: Location, t: nat)
    requires DistinctBy(done, (x: LiveInterval) => x.v) && last in done && t <= last.end && l.Stack?
    ensures Early(done, locs[last.v := l], t) == Early(done, locs, t)
  {
    forall x | x in done && x.v == last.v
      ensures x == last
    {
    }
  }

  lemma KeptAfterEviction(
      done: seq<LiveInterval>, locs: map<VReg, Location>, active: set<LiveInterval>, last: LiveInterval,
      l: Location, x: nat, t: nat)
    requires DistinctBy(done, (iv: LiveInterval) => iv.v) && last in active && l.Stack?
    requires forall iv :: iv in active ==> iv in done && InRegister(locs, iv) && x <= iv.end < t
    ensures |Early(done, locs, x)| + |active| <= |Early(done, locs[last.v := l], t)| + 1
  {
    var kept := Early(done, locs, x) + (active - {last});
    forall iv | iv in kept
      ensures iv in Early(done, locs[last.v := l], t)
    {
    }
    Cfg.SubsetSizes(kept, Early(done, locs[last.v := l], t));
  }

  lemma EvictKeepsEnough(s: Scan, done: seq<LiveInterval>, pool: seq<PhysReg>, iv: LiveInterval, t: nat)
    requires Full(s, done, pool, iv) && DistinctBy(done, (x: LiveInterval) => x.v) && s.active != []
    requires forall h :: h in s.active ==> h.interval.end < t
    ensures var last := s.active[|s.active| - 1].interval;
      |Early(done, s.locs, iv.start)| + |pool| <= |Early(done, s.locs[last.v := FreshSlot(s.slots)], t)| + 1
  {
    var last := s.active[|s.active| - 1];
    assert last in s.active;
    ActiveAreLate(s, done, pool, iv.start);
    KeptAfterEviction(done, s.locs, ActiveSet(s.active), last.interval, FreshSlot(s.slots), iv.start, t);
  }

  lemma PlaceStaysAhead(
      s: Scan, done: seq<LiveInterval>, pool: seq<PhysReg>, theirs: map<VReg, Location>, iv: LiveInterval)
    requires Inv(s, done, pool, iv.start) && Next(done, iv)
    requires (forall h :: h in s.active ==> h.interval.end >= iv.start)
    requires Ahead(done, s.locs, theirs) && Fits(done + [iv], theirs, pool)
    requires DistinctBy(done, (x: LiveInterval) => x.v)
    ensures Ahead(done + [iv], Place(s, iv).locs, theirs)
  {
    if s.free != [] {
      TakeStaysAhead(s, done, theirs, iv);
    } else if s.active == [] {
      SpillStaysAhead(s, done, pool, theirs, iv);
    } else {
      SortKeepsSplit(s, done, pool, iv.start);
      SortByKeepsElements(s.active, EndLess);
      SameElements(s.active, SortBy(s.active, EndLess));
      var t := SortActive(s);
      LastIsFurthest(t.active);
      if t.active[|t.active| - 1].interval.end > iv.end {
        EvictStaysAhead(t, done, pool, theirs, iv);
      } else {
        SpillStaysAhead(t, done, pool, theirs, iv);
      }
    }
  }

  lemma LastIsFurthest(active: seq<Held>)
    requires active != [] && Sorted(active, EndLess)
    ensures forall h :: h in active ==> h.interval.end <= active[|active| - 1].interval.end
  {
    forall h | h in active
      ensures h.interval.end <= active[|active| - 1].interval.end
    {
      var i :| 0 <= i < |active| && active[i] == h;
      assert i == |active| - 1 || EndLess(active[i], active[|active| - 1]);
    }
  }

  lemma {:induction false} ScanStaysAhead(ordered: seq<LiveInterval>, pool: seq<PhysReg>, theirs: map<VReg, Location>)
    requires Scannable(ordered, pool) && Fits(ordered, theirs, pool)
    ensures Ahead(ordered, ScanAll(ordered, pool).locs, theirs)
    decreases ordered
  {
    if ordered != [] {
      var front, last := ordered[..|ordered| - 1], ordered[|ordered| - 1];
      assert front + [last] == ordered;
      ScannablePrefix(ordered, pool);
      ScanStaysAhead(front, pool, theirs);
      ScanKeepsInv(front, pool);
      ExpireKeepsInv(ScanAll(front, pool), front, pool, LastStart(front), last.start);
      PlaceStaysAhead(Expire(ScanAll(front, pool), last.start), front, pool, theirs, last);
    }
  }

  // ---------- the result ----------

  lemma ValidAssignmentFits(
      ivs: seq<LiveInterval>, regs: PhysRegSet, maxRegs: nat, b: Assignment, ordered: seq<LiveInterval>)
    requires ValidAssignment(ivs, regs, maxRegs, b) && multiset(ivs) == multiset(ordered)
    ensures Fits(ordered, b.locs, Allowed(regs, maxRegs))
  {
    SameElements(ivs, ordered);
    forall x, y |
      x in ordered && y in ordered && x != y && x.Overlaps(y) && InRegister(b.locs, x) && InRegister(b.locs, y)
      ensures b.locs[x.v].reg != b.locs[y.v].reg
    {
      var i :| 0 <= i < |ivs| && ivs[i] == x;
      var j :| 0 <= j < |ivs| && ivs[j] == y;
      if i < j {
        assert !Share(b.locs, ivs[i], ivs[j]);
      } else {
        assert ivs[j].Overlaps(ivs[i]) && !Share(b.locs, ivs[j], ivs[i]);
      }
    }
  }

  lemma {:induction false} EndsBelow(ordered: seq<LiveInterval>) returns (t: nat)
    ensures forall iv :: iv in ordered ==> iv.end < t
    decreases ordered
  {
    t := 0;
    if ordered != [] {
      var front, last := ordered[..|ordered| - 1], ordered[|ordered| - 1];
      assert ordered == front + [last];
      t := EndsBelow(front);
      t := if last.end < t then t else last.end + 1;
    }
  }

  // Spilled and kept values together are all values.
  lemma SpillsAndKept(ordered: seq<LiveInterval>, locs: map<VReg, Location>)
    requires locs.Keys == Values(ordered) && DistinctBy(ordered, (x: LiveInterval) => x.v)
    ensures |StackValues(locs)| + |Kept(ordered, locs)| == |Values(ordered)|
  {
    var kept := Kept(ordered, locs);
    var image := set iv | iv in kept :: iv.v;
    forall x, y | x in kept && y in kept && x != y
      ensures x.v != y.v
    {
    }
    InjectiveImage(kept, (iv: LiveInterval) => iv.v, image);
    assert Values(ordered) == StackValues(locs) + image by {
      forall v | v in Values(ordered)
        ensures v in StackValues(locs) + image
      {
        var i :| 0 <= i < |ordered| && ordered[i].v == v;
        assert ordered[i] in ordered;
      }
      forall v | v in image
        ensures v in Values(ordered)
      {
        var iv :| iv in kept && iv.v == v;
        InValues(ordered, iv);
      }
    }
  }

  lemma AheadSpillsLess(ordered: seq<LiveInterval>, ours: map<VReg, Location>, theirs: map<VReg, Location>)
    requires Ahead(ordered, ours, theirs) && DistinctBy(ordered, (x: LiveInterval) => x.v)
    requires ours.Keys == theirs.Keys == Values(ordered)
    ensures |StackValues(ours)| <= |StackValues(theirs)|
  {
    SpillsAndKept(ordered, ours);
    SpillsAndKept(ordered, theirs);
    var t := EndsBelow(ordered);
    assert Early(ordered, ours, t) == Kept(ordered, ours);
    assert Early(ordered, theirs, t) == Kept(ordered, theirs);
  }

  // No assignment the verifier accepts for the same input has fewer spills than the scan.
  lemma ScanSpillsLeast(ivs: seq<LiveInterval>, regs: PhysRegSet, maxRegs: nat, b: Assignment)
    requires GoodInput(ivs, regs, maxRegs) && |ivs| <= MAX_U32 && ValidAssignment(ivs, regs, maxRegs, b)
    ensures TotalPreorder(KeyLess)
    ensures ScanResult(ivs, regs, maxRegs).slots <= b.spills
  {
    OrderedIsScannable(ivs, regs, maxRegs);
    var ordered, pool := SortBy(ivs, KeyLess), Allowed(regs, maxRegs);
    var s := ScanAll(ordered, pool);
    ScanKeepsInv(ordered, pool);
    ValidAssignmentFits(ivs, regs, maxRegs, b, ordered);
    ScanStaysAhead(ordered, pool, b.locs);
    SameValues(ivs, ordered);
    AheadSpillsLess(ordered, s.locs, b.locs);
  }
}
