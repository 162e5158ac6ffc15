// Linear scan with furthest-end eviction: the allocator, and why the verifier always accepts it.
module LinearScan {
  import opened Wrappers
  import opened Ir
  import Cfg
  import opened Intervals
  import opened Sorting
  import opened Alloc

  // An interval that currently occupies a register.
  datatype Held = Held(interval: LiveInterval, reg: PhysReg)

  datatype Scan = Scan(active: seq<Held>, free: seq<PhysReg>, locs: map<VReg, Location>, slots: nat)

  predicate EndLess(x: Held, y: Held) {
    x.interval.end <= y.interval.end
  }

  lemma EndIsOrdered()
    ensures TotalPreorder(EndLess)
  {
  }

  // ---------- one step, as a function ----------

  function Survivors(active: seq<Held>, start: nat): seq<Held> {
    if active == [] then []
    else
      var last := active[|active| - 1];
      Survivors(active[..|active| - 1], start) + (if last.interval.end < start then [] else [last])
  }

  function Released(active: seq<Held>, start: nat): seq<PhysReg> {
    if active == [] then []
    else
      var last := active[|active| - 1];
      Released(active[..|active| - 1], start) + (if last.interval.end < start then [last.reg] else [])
  }

  function Expire(s: Scan, start: nat): Scan {
    var sorted := SortBy(s.active, EndLess);
    s.(active := Survivors(sorted, start), free := s.free + Released(sorted, start))
  }

  // A fresh stack slot; callers keep the count within 32 bits.
  function FreshSlot(slots: nat): Location {
    Stack(StackSlot(if slots <= MAX_U32 then slots else MAX_U32))
  }

  function Take(s: Scan, iv: LiveInterval): Scan
    requires s.free != []
  {
    var reg := s.free[|s.free| - 1];
    s.(active := s.active + [Held(iv, reg)], free := s.free[..|s.free| - 1], locs := s.locs[iv.v := Reg(reg)])
  }

  function Spill(s: Scan, iv: LiveInterval): Scan {
    s.(locs := s.locs[iv.v := FreshSlot(s.slots)], slots := s.slots + 1)
  }

  // Gives the register of the last active interval to iv and a stack slot to that interval.
  function Evict(s: Scan, iv: LiveInterval): Scan
    requires s.active != []
  {
    var last := s.active[|s.active| - 1];
    Scan(s.active[..|s.active| - 1] + [Held(iv, last.reg)], s.free,
         s.locs[last.interval.v := FreshSlot(s.slots)][iv.v := Reg(last.reg)], s.slots + 1)
  }

  function SortActive(s: Scan): Scan {
    s.(active := SortBy(s.active, EndLess))
  }

  function Place(s: Scan, iv: LiveInterval): Scan {
    if s.free != [] then Take(s, iv)
    else if s.active == [] then Spill(s, iv)
    else
      var t := SortActive(s);
      if t.active != [] && t.active[|t.active| - 1].interval.end > iv.end then Evict(t, iv) else Spill(t, iv)
  }

  function ScanAll(ordered: seq<LiveInterval>, pool: seq<PhysReg>): Scan {
    if ordered == [] then Scan([], pool, map[], 0)
    else
      var last := ordered[|ordered| - 1];
      Place(Expire(ScanAll(ordered[..|ordered| - 1], pool), last.start), last)
  }

  // ---------- the allocator ----------

  lemma SurvivorsGrow(sorted: seq<Held>, k: nat, start: nat)
    requires k < |sorted|
    ensures Survivors(sorted[..k + 1], start) ==
      Survivors(sorted[..k], start) + (if sorted[k].interval.end < start then [] else [sorted[k]])
    ensures Released(sorted[..k + 1], start) ==
      Released(sorted[..k], start) + (if sorted[k].interval.end < start then [sorted[k].reg] else [])
  {
    assert sorted[..k + 1][..k] == sorted[..k];
  }

  // The first k sorted intervals have been looked at; those that ended are gone from `active`.
  ghost predicate Dropped(
      sorted: seq<Held>, k: nat, start: nat, active: seq<Held>, index: nat, before: seq<PhysReg>, free: seq<PhysReg>)
  {
    && k <= |sorted|
    && active == Survivors(sorted[..k], start) + sorted[k..]
    && index == |Survivors(sorted[..k], start)|
    && free == before + Released(sorted[..k], start)
  }

  lemma DropOne(kept: seq<Held>, rest: seq<Held>)
    requires rest != []
    ensures (kept + rest)[|kept|] == rest[0]
    ensures (kept + rest)[..|kept|] + (kept + rest)[|kept| + 1..] == kept + rest[1..]
    ensures kept + rest == (kept + [rest[0]]) + rest[1..]
  {
  }

  lemma DropsNext(
      sorted: seq<Held>, k: nat, start: nat, active: seq<Held>, index: nat, before: seq<PhysReg>, free: seq<PhysReg>)
    requires Dropped(sorted, k, start, active, index, before, free) && index < |active|
    ensures k < |sorted|
    ensures active[index].interval.end < start ==>
      Dropped(sorted, k + 1, start, active[..index] + active[index + 1..], index, before, free + [active[index].reg])
    ensures active[index].interval.end >= start ==>
      Dropped(sorted, k + 1, start, active, index + 1, before, free)
  {
    var kept := Survivors(sorted[..k], start);
    SurvivorsGrow(sorted, k, start);
    DropOne(kept, sorted[k..]);
    assert sorted[k..][1..] == sorted[k + 1..];
    if sorted[k].interval.end < start {
      assert before + Released(sorted[..k], start) + [sorted[k].reg] == before + Released(sorted[..k + 1], start);
    }
  }

  lemma AllDropped(
      sorted: seq<Held>, k: nat, start: nat, active: seq<Held>, index: nat, before: seq<PhysReg>, free: seq<PhysReg>)
    requires Dropped(sorted, k, start, active, index, before, free) && index >= |active|
    ensures active == Survivors(sorted, start) && free == before + Released(sorted, start)
  {
    assert sorted[k..] == [] && sorted[..k] == sorted;
  }

  method ExpireOld(s: Scan, start: nat) returns (t: Scan)
    ensures t == Expire(s, start)
  {
    EndIsOrdered();
    var sorted := SortBy(s.active, EndLess);
    var active, free := sorted, s.free;
    var index := 0;
    ghost var k := 0;
    while index < |active|
      invariant Dropped(sorted, k, start, active, index, s.free, free)
      decreases |sorted| - k
    {
      DropsNext(sorted, k, start, active, index, s.free, free);
      if active[index].interval.end < start {
        free := free + [active[index].reg];
        active := active[..index] + active[index + 1..];
      } else {
        index := index + 1;
      }
      k := k + 1;
    }
    AllDropped(sorted, k, start, active, index, s.free, free);
    t := s.(active := active, free := free);
  }

  // ---------- the invariant ----------

  ghost predicate DistinctRegs(active: seq<Held>) {
    DistinctBy(active, (h: Held) => h.reg)
  }

  // Free and active registers together are exactly the pool.
  ghost predicate RegistersSplit(active: seq<Held>, free: seq<PhysReg>, pool: seq<PhysReg>) {
    && DistinctRegs(active)
    && Distinct(free)
    && (forall h, r :: h in active && r in free ==> h.reg != r)
    && (forall h :: h in active ==> h.reg in pool)
    && (forall r :: r in free ==> r in pool)
    && |active| + |free| == |pool|
  }

  // Every active entry is recorded; every recorded register belongs to the pool and is active
  // or held by an interval that ended before cur.
  ghost predicate RegistersRecorded(
      active: seq<Held>, locs: map<VReg, Location>, done: seq<LiveInterval>, pool: seq<PhysReg>, cur: nat)
  {
    && (forall h :: h in active ==> h.interval in done && h.interval.v in locs && locs[h.interval.v] == Reg(h.reg))
    && (forall iv :: iv in done && iv.v in locs && locs[iv.v].Reg? ==>
         locs[iv.v].reg in pool && (Held(iv, locs[iv.v].reg) in active || iv.end < cur))
  }

  ghost predicate SlotsFresh(locs: map<VReg, Location>, slots: nat) {
    && slots <= MAX_U32
    && (forall v :: v in locs && locs[v].Stack? ==> locs[v].slot.index < slots)
    && (forall v, w :: v in locs && w in locs && v != w && locs[v].Stack? ==> locs[v] != locs[w])
    && |StackValues(locs)| == slots
    && (slots > 0 ==> exists v :: v in locs && locs[v] == Stack(StackSlot(slots - 1)))
  }

  ghost predicate Apart(done: seq<LiveInterval>, locs: map<VReg, Location>) {
    forall x, y :: x in done && y in done && x.v != y.v && x.Overlaps(y) ==> !Share(locs, x, y)
  }

  ghost predicate Inv(s: Scan, done: seq<LiveInterval>, pool: seq<PhysReg>, cur: nat) {
    && RegistersSplit(s.active, s.free, pool)
    && RegistersRecorded(s.active, s.locs, done, pool, cur)
    && SlotsFresh(s.locs, s.slots)
    && Apart(done, s.locs)
    && s.locs.Keys == Values(done)
  }

  // ---------- sorting and expiring keep it ----------

  lemma SortKeepsSplit(s: Scan, done: seq<LiveInterval>, pool: seq<PhysReg>, cur: nat)
    requires Inv(s, done, pool, cur)
    ensures Inv(SortActive(s), done, pool, cur) && Sorted(SortActive(s).active, EndLess)
  {
    EndIsOrdered();
    SortByIsSorted(s.active, EndLess);
    SortByKeepsElements(s.active, EndLess);
    SameElements(s.active, SortBy(s.active, EndLess));
    DistinctByPermutation(s.active, SortBy(s.active, EndLess), (h: Held) => h.reg);
  }

  lemma {:induction false} SurvivorsAre(active: seq<Held>, start: nat)
    ensures forall h :: h in Survivors(active, start) <==> h in active && h.interval.end >= start
    ensures forall r :: r in Released(active, start) ==> exists h :: h in active && h.reg == r && h.interval.end < start
    ensures |Survivors(active, start)| + |Released(active, start)| == |active|
  {
    if active != [] {
      var front, last := active[..|active| - 1], active[|active| - 1];
      SurvivorsAre(front, start);
      assert active == front + [last];
      forall r | r in Released(active, start)
        ensures exists h :: h in active && h.reg == r && h.interval.end < start
      {
        if r in Released(front, start) {
          var h :| h in front && h.reg == r && h.interval.end < start;
          assert h in active;
        } else {
          assert last in active;
        }
      }
    }
  }

  lemma ReleasedFrom(active: seq<Held>, start: nat, r: PhysReg) returns (h: Held)
    requires r in Released(active, start)
    ensures h in active && h.reg == r && h.interval.end < start
  {
    SurvivorsAre(active, start);
    h :| h in active && h.reg == r && h.interval.end < start;
  }

  lemma SameRegSameEntry(active: seq<Held>, g: Held, h: Held)
    requires DistinctRegs(active) && g in active && h in active && g.reg == h.reg
    ensures g == h
  {
  }

  lemma {:induction false} SplitStaysDistinct(active: seq<Held>, start: nat)
    requires DistinctRegs(active)
    ensures DistinctRegs(Survivors(active, start)) && Distinct(Released(active, start))
    decreases active
  {
    if active != [] {
      var front, last := active[..|active| - 1], active[|active| - 1];
      SplitStaysDistinct(front, start);
      SurvivorsAre(front, start);
      forall h | h in front
        ensures h.reg != last.reg
      {
        var i :| 0 <= i < |front| && front[i] == h;
        assert active[i].reg != active[|active| - 1].reg;
      }
      forall r | r in Released(front, start)
        ensures r != last.reg
      {
        var h := ReleasedFrom(front, start, r);
      }
      DistinctByAppend(Survivors(front, start), last, (h: Held) => h.reg);
      DistinctConcat(Released(front, start), [last.reg]);
    }
  }

  lemma SplitIsApart(active: seq<Held>, free: seq<PhysReg>, pool: seq<PhysReg>, start: nat, r: PhysReg)
    requires RegistersSplit(active, free, pool) && r in Released(active, start)
    ensures r in pool && r !in free
    ensures forall h :: h in Survivors(active, start) ==> h.reg != r
  {
    SurvivorsAre(active, start);
    var g := ReleasedFrom(active, start, r);
    forall h | h in Survivors(active, start)
      ensures h.reg != r
    {
      if h.reg == r {
        SameRegSameEntry(active, g, h);
      }
    }
  }

  lemma ExpireKeepsSplit(active: seq<Held>, free: seq<PhysReg>, pool: seq<PhysReg>, start: nat)
    requires RegistersSplit(active, free, pool)
    ensures RegistersSplit(Survivors(active, start), free + Released(active, start), pool)
  {
    SurvivorsAre(active, start);
    SplitStaysDistinct(active, start);
    forall r | r in Released(active, start)
      ensures r in pool && r !in free
      ensures forall h :: h in Survivors(active, start) ==> h.reg != r
    {
      SplitIsApart(active, free, pool, start, r);
    }
    DistinctConcat(free, Released(active, start));
  }

  lemma ExpireKeepsInv(s: Scan, done: seq<LiveInterval>, pool: seq<PhysReg>, cur: nat, start: nat)
    requires Inv(s, done, pool, cur) && cur <= start
    ensures Inv(Expire(s, start), done, pool, start)
    ensures forall h :: h in Expire(s, start).active ==> h.interval.end >= start
  {
    SortKeepsSplit(s, done, pool, cur);
    ExpireKeepsSplit(SortBy(s.active, EndLess), s.free, pool, start);
    SurvivorsAre(SortBy(s.active, EndLess), start);
  }

  // ---------- placing an interval keeps it ----------

  // iv is new and starts no earlier than anything placed so far.
  ghost predicate Next(done: seq<LiveInterval>, iv: LiveInterval) {
    iv.start <= iv.end && forall x :: x in done ==> x.v != iv.v && x.start <= iv.start
  }

  lemma ValuesGrow(done: seq<LiveInterval>, iv: LiveInterval)
    ensures Values(done + [iv]) == Values(done) + {iv.v}
  {
    forall v
      ensures v in Values(done + [iv]) <==> v in Values(done) + {iv.v}
    {
      if v in Values(done) {
        var i :| 0 <= i < |done| && done[i].v == v;
        assert (done + [iv])[i].v == v;
      }
      assert (done + [iv])[|done|].v == iv.v;
    }
  }

  lemma InValues(done: seq<LiveInterval>, x: LiveInterval)
    requires x in done
    ensures x.v in Values(done)
  {
  }

  lemma NewValue(done: seq<LiveInterval>, iv: LiveInterval)
    requires Next(done, iv)
    ensures iv.v !in Values(done)
  {
  }

  lemma RegisterLeavesSlots(locs: map<VReg, Location>, slots: nat, v: VReg, r: PhysReg)
    requires SlotsFresh(locs, slots) && v !in locs
    ensures SlotsFresh(locs[v := Reg(r)], slots)
  {
    var after := locs[v := Reg(r)];
    assert StackValues(after) == StackValues(locs);
    if slots > 0 {
      var w :| w in locs && locs[w] == Stack(StackSlot(slots - 1));
      assert w in after && after[w] == Stack(StackSlot(slots - 1));
    }
  }

  lemma SpillAddsSlot(locs: map<VReg, Location>, slots: nat, v: VReg)
    requires SlotsFresh(locs, slots) && slots < MAX_U32 && (v in locs ==> locs[v].Reg?)
    ensures SlotsFresh(locs[v := FreshSlot(slots)], slots + 1)
  {
    var after := locs[v := FreshSlot(slots)];
    assert StackValues(after) == StackValues(locs) + {v};
    assert after[v] == Stack(StackSlot(slots + 1 - 1));
  }

  // The register last held by nothing live at iv.start can hold iv.
  lemma FreshRegisterApart(s: Scan, done: seq<LiveInterval>, pool: seq<PhysReg>, iv: LiveInterval, r: PhysReg)
    requires Inv(s, done, pool, iv.start) && Next(done, iv)
    requires forall h :: h in s.active ==> h.reg != r
    ensures Apart(done + [iv], s.locs[iv.v := Reg(r)])
  {
    NewValue(done, iv);
    var locs := s.locs[iv.v := Reg(r)];
    forall x, y | x in done + [iv] && y in done + [iv] && x.v != y.v && x.Overlaps(y)
      ensures !Share(locs, x, y)
    {
      if x == iv || y == iv {
        var z := if x == iv then y else x;
        assert z in done && z.v != iv.v;
      } else {
        assert x in done && y in done;
      }
    }
  }

  lemma TakeIsRecorded(s: Scan, done: seq<LiveInterval>, pool: seq<PhysReg>, iv: LiveInterval)
    requires RegistersSplit(s.active, s.free, pool) && s.free != [] && Next(done, iv)
    requires RegistersRecorded(s.active, s.locs, done, pool, iv.start)
    ensures RegistersRecorded(Take(s, iv).active, Take(s, iv).locs, done + [iv], pool, iv.start)
  {
    var reg := s.free[|s.free| - 1];
    assert reg in s.free;
    forall h | h in Take(s, iv).active
      ensures h in s.active || h == Held(iv, reg)
    {
    }
  }

  lemma TakeKeepsInv(s: Scan, done: seq<LiveInterval>, pool: seq<PhysReg>, iv: LiveInterval)
    requires Inv(s, done, pool, iv.start) && Next(done, iv) && s.free != []
    ensures Inv(Take(s, iv), done + [iv], pool, iv.start)
  {
    var reg := s.free[|s.free| - 1];
    NewValue(done, iv);
    ValuesGrow(done, iv);
    RegisterLeavesSlots(s.locs, s.slots, iv.v, reg);
    assert reg in s.free;
    FreshRegisterApart(s, done, pool, iv, reg);
    TakeIsRecorded(s, done, pool, iv);
    TakeKeepsSplit(s, pool, iv);
  }

  lemma TakeKeepsSplit(s: Scan, pool: seq<PhysReg>, iv: LiveInterval)
    requires RegistersSplit(s.active, s.free, pool) && s.free != []
    ensures RegistersSplit(Take(s, iv).active, Take(s, iv).free, pool)
  {
    var reg := s.free[|s.free| - 1];
    DistinctSplitLast(s.free);
    assert reg in s.free;
    DistinctByAppend(s.active, Held(iv, reg), (h: Held) => h.reg);
    forall h, r | h in Take(s, iv).active && r in Take(s, iv).free
      ensures h.reg != r
    {
      assert r in s.free && r != reg;
      if h !in s.active {
        assert h == Held(iv, reg);
      }
    }
  }

  lemma SlotApart(done: seq<LiveInterval>, locs: map<VReg, Location>, slots: nat, v: VReg)
    requires Apart(done, locs) && SlotsFresh(locs, slots) && slots < MAX_U32
    ensures Apart(done, locs[v := FreshSlot(slots)])
  {
    var after := locs[v := FreshSlot(slots)];
    forall x, y | x in done && y in done && x.v != y.v && x.Overlaps(y)
      ensures !Share(after, x, y)
    {
    }
  }

  lemma SpillKeepsInv(s: Scan, done: seq<LiveInterval>, pool: seq<PhysReg>, iv: LiveInterval)
    requires Inv(s, done, pool, iv.start) && Next(done, iv) && s.slots < MAX_U32
    ensures Inv(Spill(s, iv), done + [iv], pool, iv.start)
  {
    NewValue(done, iv);
    ValuesGrow(done, iv);
    SpillAddsSlot(s.locs, s.slots, iv.v);
    ApartWithoutNew(done, s.locs, iv);
    SlotApart(done + [iv], s.locs, s.slots, iv.v);
  }

  lemma ApartWithoutNew(done: seq<LiveInterval>, locs: map<VReg, Location>, iv: LiveInterval)
    requires Apart(done, locs) && iv.v !in locs
    ensures Apart(done + [iv], locs)
  {
  }

  // Moving the last active interval to the stack frees its register.
  function Unhold(s: Scan): Scan
    requires s.active != []
  {
    var last := s.active[|s.active| - 1];
    Scan(s.active[..|s.active| - 1], s.free + [last.reg], s.locs[last.interval.v := FreshSlot(s.slots)], s.slots + 1)
  }

  lemma EvictIsUnholdTake(s: Scan, iv: LiveInterval)
    requires s.active != []
    ensures Evict(s, iv) == Take(Unhold(s), iv)
  {
    var last := s.active[|s.active| - 1];
    assert (s.free + [last.reg])[..|s.free|] == s.free;
  }

  lemma UnholdKeepsInv(s: Scan, done: seq<LiveInterval>, pool: seq<PhysReg>, cur: nat)
    requires Inv(s, done, pool, cur) && s.active != []
    requires s.slots < MAX_U32 && DistinctBy(done, (x: LiveInterval) => x.v)
    ensures Inv(Unhold(s), done, pool, cur)
  {
    var last := s.active[|s.active| - 1];
    assert last in s.active;
    InValues(done, last.interval);
    SpillAddsSlot(s.locs, s.slots, last.interval.v);
    SlotApart(done, s.locs, s.slots, last.interval.v);
    UnholdKeepsSplit(s, pool);
    UnholdKeepsRecorded(s, done, pool, cur);
  }

  lemma UnholdKeepsRecorded(s: Scan, done: seq<LiveInterval>, pool: seq<PhysReg>, cur: nat)
    requires Inv(s, done, pool, cur) && s.active != [] && DistinctBy(done, (x: LiveInterval) => x.v)
    ensures RegistersRecorded(Unhold(s).active, Unhold(s).locs, done, pool, cur)
  {
    var last := s.active[|s.active| - 1];
    var front := s.active[..|s.active| - 1];
    assert s.active == front + [last] && last in s.active;
    forall h | h in front
      ensures h.interval.v != last.interval.v
    {
      assert h in s.active && h.reg != last.reg;
    }
    forall x | x in done && x.v == last.interval.v
      ensures x == last.interval
    {
    }
  }

  lemma UnholdKeepsSplit(s: Scan, pool: seq<PhysReg>)
    requires RegistersSplit(s.active, s.free, pool) && s.active != []
    ensures RegistersSplit(Unhold(s).active, Unhold(s).free, pool)
  {
    var last := s.active[|s.active| - 1];
    var front := s.active[..|s.active| - 1];
    assert s.active == front + [last] && last in s.active;
    forall h | h in front
      ensures h.reg != last.reg && h in s.active
    {
      var i :| 0 <= i < |front| && front[i] == h;
      assert s.active[i] == h;
    }
    DistinctConcat(s.free, [last.reg]);
  }

  lemma PlaceKeepsInv(s: Scan, done: seq<LiveInterval>, pool: seq<PhysReg>, iv: LiveInterval)
    requires Inv(s, done, pool, iv.start) && Next(done, iv) && s.slots < MAX_U32
    requires DistinctBy(done, (x: LiveInterval) => x.v)
    ensures Inv(Place(s, iv), done + [iv], pool, iv.start)
  {
    if s.free != [] {
      TakeKeepsInv(s, done, pool, iv);
    } else if s.active == [] {
      SpillKeepsInv(s, done, pool, iv);
    } else {
      SortKeepsSplit(s, done, pool, iv.start);
      var t := SortActive(s);
      if t.active != [] && t.active[|t.active| - 1].interval.end > iv.end {
        UnholdKeepsInv(t, done, pool, iv.start);
        TakeKeepsInv(Unhold(t), done, pool, iv);
        EvictIsUnholdTake(t, iv);
      } else {
        SpillKeepsInv(t, done, pool, iv);
      }
    }
  }

  // ---------- the whole run ----------

  // What the allocator needs of its input for the scan to succeed.
  ghost predicate GoodInput(ivs: seq<LiveInterval>, regs: PhysRegSet, maxRegs: nat) {
    && DistinctBy(ivs, (x: LiveInterval) => x.v)
    && (forall iv :: iv in ivs ==> iv.start <= iv.end)
    && GoodRegisters(regs, maxRegs)
  }

  // The first maxRegs listed registers differ from one another and from the scratch registers.
  ghost predicate GoodRegisters(regs: PhysRegSet, maxRegs: nat) {
    && (forall i, j :: 0 <= i < j < maxRegs && j < |regs.regs| ==> regs.regs[i] != regs.regs[j])
    && (forall i :: 0 <= i < maxRegs && i < |regs.regs| ==> regs.regs[i] !in regs.scratch)
  }

  lemma PoolIsGood(regs: PhysRegSet, maxRegs: nat)
    requires GoodRegisters(regs, maxRegs)
    ensures Distinct(Allowed(regs, maxRegs))
    ensures forall r :: r in Allowed(regs, maxRegs) ==> RegisterAllowed(regs, maxRegs, r)
  {
    forall r | r in Allowed(regs, maxRegs)
      ensures RegisterAllowed(regs, maxRegs, r)
    {
      AllowedAreFirst(regs, maxRegs, r);
    }
  }

  ghost predicate Scannable(ordered: seq<LiveInterval>, pool: seq<PhysReg>) {
    && DistinctBy(ordered, (x: LiveInterval) => x.v)
    && (forall iv :: iv in ordered ==> iv.start <= iv.end)
    && (forall i, j :: 0 <= i < j < |ordered| ==> ordered[i].start <= ordered[j].start)
    && Distinct(pool)
    && |ordered| <= MAX_U32
  }

  lemma ScannablePrefix(ordered: seq<LiveInterval>, pool: seq<PhysReg>)
    requires Scannable(ordered, pool) && ordered != []
    ensures Scannable(ordered[..|ordered| - 1], pool)
    ensures Next(ordered[..|ordered| - 1], ordered[|ordered| - 1])
  {
  }

  function LastStart(ordered: seq<LiveInterval>): nat {
    if ordered == [] then 0 else ordered[|ordered| - 1].start
  }

  lemma {:induction false} ScanKeepsInv(ordered: seq<LiveInterval>, pool: seq<PhysReg>)
    requires Scannable(ordered, pool)
    ensures Inv(ScanAll(ordered, pool), ordered, pool, LastStart(ordered))
    decreases ordered
  {
    if ordered == [] {
      assert StackValues(map[]) == {};
    } else {
      var front, last := ordered[..|ordered| - 1], ordered[|ordered| - 1];
      ScannablePrefix(ordered, pool);
      ScanKeepsInv(front, pool);
      var s := ScanAll(front, pool);
      ExpireKeepsInv(s, front, pool, LastStart(front), last.start);
      SlotsBounded(Expire(s, last.start).locs, front, s.slots);
      PlaceKeepsInv(Expire(s, last.start), front, pool, last);
      assert front + [last] == ordered;
    }
  }

  lemma SlotsBounded(locs: map<VReg, Location>, done: seq<LiveInterval>, slots: nat)
    requires locs.Keys == Values(done) && SlotsFresh(locs, slots)
    ensures slots <= |done|
  {
    ValuesAtMost(done, |done|);
    assert StackValues(locs) <= Values(done);
    Cfg.SubsetSizes(StackValues(locs), Values(done));
    assert done[..|done|] == done;
  }

  lemma {:induction false} ValuesAtMost(done: seq<LiveInterval>, n: nat)
    requires n <= |done|
    ensures |Values(done[..n])| <= n
    decreases n
  {
    if n > 0 {
      ValuesAtMost(done, n - 1);
      ValuesGrow(done[..n - 1], done[n - 1]);
      assert done[..n] == done[..n - 1] + [done[n - 1]];
    }
  }

  lemma SameValues(ivs: seq<LiveInterval>, ordered: seq<LiveInterval>)
    requires multiset(ivs) == multiset(ordered)
    ensures Values(ivs) == Values(ordered)
  {
    SameElements(ivs, ordered);
    forall v
      ensures v in Values(ivs) <==> v in Values(ordered)
    {
      if v in Values(ivs) {
        var i :| 0 <= i < |ivs| && ivs[i].v == v;
        assert ivs[i] in ordered;
      }
      if v in Values(ordered) {
        var i :| 0 <= i < |ordered| && ordered[i].v == v;
        assert ordered[i] in ivs;
      }
    }
  }

  // The scan's result is what the verifier accepts.
  lemma InvIsValid(
      s: Scan, ivs: seq<LiveInterval>, ordered: seq<LiveInterval>, regs: PhysRegSet, maxRegs: nat, cur: nat)
    requires Inv(s, ordered, Allowed(regs, maxRegs), cur)
    requires multiset(ivs) == multiset(ordered) && GoodInput(ivs, regs, maxRegs)
    ensures ValidAssignment(ivs, regs, maxRegs, Assignment(s.locs, s.slots, s.slots))
  {
    SameElements(ivs, ordered);
    SameValues(ivs, ordered);
    forall i, j | 0 <= i < j < |ivs| && ivs[i].Overlaps(ivs[j])
      ensures !Share(s.locs, ivs[i], ivs[j])
    {
      assert ivs[i] in ordered && ivs[j] in ordered;
    }
    RegistersAreAllowed(s, ordered, regs, maxRegs, cur);
    SlotsAreExact(s.locs, s.slots);
  }

  lemma RegistersAreAllowed(s: Scan, ordered: seq<LiveInterval>, regs: PhysRegSet, maxRegs: nat, cur: nat)
    requires Inv(s, ordered, Allowed(regs, maxRegs), cur)
    requires forall r :: r in Allowed(regs, maxRegs) ==> r !in regs.scratch
    ensures RegistersAllowed(regs, maxRegs, s.locs)
  {
    forall v | v in s.locs && s.locs[v].Reg?
      ensures s.locs[v].reg in Allowed(regs, maxRegs)
    {
      assert v in Values(ordered);
      var i :| 0 <= i < |ordered| && ordered[i].v == v;
      assert ordered[i] in ordered;
    }
  }

  lemma SlotsAreExact(locs: map<VReg, Location>, slots: nat)
    requires SlotsFresh(locs, slots)
    ensures SlotCountExact(locs, slots)
  {
    if slots > 0 {
      var v :| v in locs && locs[v] == Stack(StackSlot(slots - 1));
      assert SaturatingNext(locs[v].slot.index) == slots;
    }
  }

  lemma OrderedIsScannable(ivs: seq<LiveInterval>, regs: PhysRegSet, maxRegs: nat)
    requires GoodInput(ivs, regs, maxRegs) && |ivs| <= MAX_U32
    ensures TotalPreorder(KeyLess)
    ensures multiset(SortBy(ivs, KeyLess)) == multiset(ivs)
    ensures Scannable(SortBy(ivs, KeyLess), Allowed(regs, maxRegs))
  {
    KeyIsOrdered();
    SortByIsSorted(ivs, KeyLess);
    SortByKeepsElements(ivs, KeyLess);
    SameElements(ivs, SortBy(ivs, KeyLess));
    DistinctByPermutation(ivs, SortBy(ivs, KeyLess), (x: LiveInterval) => x.v);
  }

  method PlaceInterval(s: Scan, iv: LiveInterval) returns (t: Scan)
    ensures t == Place(s, iv)
  {
    var active, free, locs := s.active, s.free, s.locs;
    if free != [] {
      var register := free[|free| - 1];
      free := free[..|free| - 1];
      active := active + [Held(iv, register)];
      locs := locs[iv.v := Reg(register)];
      return Scan(active, free, locs, s.slots);
    }
    if active == [] {
      locs := locs[iv.v := FreshSlot(s.slots)];
      return Scan(active, free, locs, s.slots + 1);
    }
    SortByLength(active, EndLess);
    active := SortBy(active, EndLess);
    var spillIndex := |active| - 1;
    if active[spillIndex].interval.end > iv.end {
      var spilled := active[spillIndex];
      active := active[..spillIndex];
      locs := locs[spilled.interval.v := FreshSlot(s.slots)];
      active := active + [Held(iv, spilled.reg)];
      locs := locs[iv.v := Reg(spilled.reg)];
    } else {
      locs := locs[iv.v := FreshSlot(s.slots)];
    }
    t := Scan(active, free, locs, s.slots + 1);
  }

  // The assignment the scan produces.
  function ScanResult(ivs: seq<LiveInterval>, regs: PhysRegSet, maxRegs: nat): Scan
    requires TotalPreorder(KeyLess)
  {
    ScanAll(SortBy(ivs, KeyLess), Allowed(regs, maxRegs))
  }

  // The slot counter never exceeds the number of intervals placed.
  lemma {:induction false} SlotsAtMost(ordered: seq<LiveInterval>, pool: seq<PhysReg>)
    ensures ScanAll(ordered, pool).slots <= |ordered|
    decreases ordered
  {
    if ordered != [] {
      SlotsAtMost(ordered[..|ordered| - 1], pool);
    }
  }

  // On good input the scan's result passes the verifier.
  lemma ScanIsValid(ivs: seq<LiveInterval>, regs: PhysRegSet, maxRegs: nat)
    requires TotalPreorder(KeyLess) && |ivs| <= MAX_U32 && GoodInput(ivs, regs, maxRegs)
    ensures ScanResult(ivs, regs, maxRegs).slots <= |ivs|
    ensures ValidAssignment(ivs, regs, maxRegs, ScanAssignment(ivs, regs, maxRegs))
  {
    var pool := Allowed(regs, maxRegs);
    var ordered := SortBy(ivs, KeyLess);
    ScanLength(ivs, regs, maxRegs);
    OrderedIsScannable(ivs, regs, maxRegs);
    ScanKeepsInv(ordered, pool);
    InvIsValid(ScanAll(ordered, pool), ivs, ordered, regs, maxRegs, LastStart(ordered));
  }

  lemma ScanLength(ivs: seq<LiveInterval>, regs: PhysRegSet, maxRegs: nat)
    requires TotalPreorder(KeyLess)
    ensures |SortBy(ivs, KeyLess)| == |ivs| && ScanResult(ivs, regs, maxRegs).slots <= |ivs|
  {
    SortByKeepsElements(ivs, KeyLess);
    SameElements(ivs, SortBy(ivs, KeyLess));
    SlotsAtMost(SortBy(ivs, KeyLess), Allowed(regs, maxRegs));
  }

  function ScanAssignment(ivs: seq<LiveInterval>, regs: PhysRegSet, maxRegs: nat): Assignment
    requires TotalPreorder(KeyLess) && ScanResult(ivs, regs, maxRegs).slots <= MAX_U32
  {
    var s := ScanResult(ivs, regs, maxRegs);
    Assignment(s.locs, s.slots, s.slots)
  }

  ghost predicate IsScan(ivs: seq<LiveInterval>, regs: PhysRegSet, maxRegs: nat, a: Assignment) {
    TotalPreorder(KeyLess) && ScanResult(ivs, regs, maxRegs).slots <= MAX_U32 && a == ScanAssignment(ivs, regs, maxRegs)
  }

  method RunScan(ordered: seq<LiveInterval>, pool: seq<PhysReg>) returns (s: Scan)
    ensures s == ScanAll(ordered, pool)
  {
    s := Scan([], pool, map[], 0);
    for k := 0 to |ordered|
      invariant s == ScanAll(ordered[..k], pool)
    {
      assert ordered[..k + 1][..k] == ordered[..k];
      s := ExpireOld(s, ordered[k].start);
      s := PlaceInterval(s, ordered[k]);
    }
    assert ordered[..|ordered|] == ordered;
  }

  method Allocate(ivs: seq<LiveInterval>, regs: PhysRegSet, maxRegs: nat)
    returns (r: Result<Assignment, AssignmentError>)
    requires |ivs| <= MAX_U32
    ensures TotalPreorder(KeyLess) && ScanResult(ivs, regs, maxRegs).slots <= MAX_U32
    ensures r.Success? <==> ValidAssignment(ivs, regs, maxRegs, ScanAssignment(ivs, regs, maxRegs))
    ensures GoodInput(ivs, regs, maxRegs) ==> r.Success?
    ensures r.Success? ==> IsScan(ivs, regs, maxRegs, r.value) && RegistersAllowed(regs, maxRegs, r.value.locs)
  {
    KeyIsOrdered();
    ScanLength(ivs, regs, maxRegs);
    var s := RunScan(SortBy(ivs, KeyLess), Allowed(regs, maxRegs));
    var assignment := Assignment(s.locs, s.slots, s.slots);
    if GoodInput(ivs, regs, maxRegs) {
      ScanIsValid(ivs, regs, maxRegs);
    }
    var error := VerifyAssignment(ivs, regs, maxRegs, assignment);
    if error.Some? {
      return Failure(error.value);
    }
    r := Success(assignment);
  }
}
