// What one step of linear scan does, said of the registers and intervals themselves.
module ScanSteps {
  import opened Intervals
  import opened Sorting
  import opened Alloc
  import opened LinearScan

  ghost predicate ByEnd(gone: seq<Held>) {
    forall i, j :: 0 <= i < j < |gone| ==> gone[i].interval.end <= gone[j].interval.end
  }

  // The intervals in `gone` end before the start and no other active one does; their registers
  // become free in order of end, and those that end together in the order they became active.
  ghost predicate Expires(s: Scan, start: nat, gone: seq<Held>, t: Scan) {
    && multiset(gone) + multiset(t.active) == multiset(s.active)
    && (forall h :: h in gone ==> h.interval.end < start)
    && (forall h :: h in t.active ==> start <= h.interval.end)
    && ByEnd(gone)
    && (forall h :: h in gone ==> Rank(gone, h, EndLess) == Rank(s.active, h, EndLess))
    && |t.free| == |s.free| + |gone| && t.free[..|s.free|] == s.free
    && (forall i :: 0 <= i < |gone| ==> t.free[|s.free| + i] == gone[i].reg)
    && t.locs == s.locs && t.slots == s.slots
  }

  // The register freed last is taken first.
  ghost predicate TakesFree(s: Scan, iv: LiveInterval, t: Scan) {
    && s.free != [] && t.free == s.free[..|s.free| - 1] && t.slots == s.slots
    && multiset(t.active) == multiset(s.active) + multiset{Held(iv, s.free[|s.free| - 1])}
    && t.locs == s.locs[iv.v := Reg(s.free[|s.free| - 1])]
  }

  // With no register free and no active interval that ends later, the new one goes to the next slot.
  ghost predicate TakesSlot(s: Scan, iv: LiveInterval, t: Scan) {
    && s.slots <= MAX_U32 && s.free == [] && (forall h :: h in s.active ==> h.interval.end <= iv.end)
    && t.free == [] && t.slots == s.slots + 1 && multiset(t.active) == multiset(s.active)
    && t.locs == s.locs[iv.v := Stack(StackSlot(s.slots))]
  }

  // Otherwise the active interval that ends last goes to the next slot and the new one to its register.
  ghost predicate TakesOver(s: Scan, iv: LiveInterval, out: Held, t: Scan) {
    && s.slots <= MAX_U32 && s.free == [] && out in s.active && iv.end < out.interval.end
    && (forall h :: h in s.active ==> h.interval.end <= out.interval.end)
    && t.free == [] && t.slots == s.slots + 1
    && multiset(t.active) == multiset(s.active) - multiset{out} + multiset{Held(iv, out.reg)}
    && t.locs == s.locs[out.interval.v := Stack(StackSlot(s.slots))][iv.v := Reg(out.reg)]
  }

  ghost predicate Places(s: Scan, iv: LiveInterval, t: Scan) {
    TakesFree(s, iv, t) || TakesSlot(s, iv, t) || exists out :: TakesOver(s, iv, out, t)
  }

  function Gone(active: seq<Held>, start: nat): seq<Held> {
    if active == [] then []
    else
      var last := active[|active| - 1];
      Gone(active[..|active| - 1], start) + (if last.interval.end < start then [last] else [])
  }

  lemma {:induction false} GoneAndSurvivors(active: seq<Held>, start: nat)
    ensures multiset(Gone(active, start)) + multiset(Survivors(active, start)) == multiset(active)
    decreases active
  {
    if active != [] {
      var front, last := active[..|active| - 1], active[|active| - 1];
      GoneAndSurvivors(front, start);
      assert active == front + [last];
      if last.interval.end < start {
        assert Survivors(active, start) == Survivors(front, start) + [];
      } else {
        assert Gone(active, start) == Gone(front, start) + [];
      }
    }
  }

  lemma {:induction false} GoneAreReleased(active: seq<Held>, start: nat)
    ensures forall h :: h in Gone(active, start) ==> h.interval.end < start
    ensures |Released(active, start)| == |Gone(active, start)|
    ensures forall i :: 0 <= i < |Gone(active, start)| ==> Released(active, start)[i] == Gone(active, start)[i].reg
    decreases active
  {
    if active != [] {
      GoneAreReleased(active[..|active| - 1], start);
    }
  }

  lemma {:induction false} GoneByEnd(active: seq<Held>, start: nat)
    requires Sorted(active, EndLess)
    ensures ByEnd(Gone(active, start))
    ensures forall h :: h in Gone(active, start) ==> h in active
    decreases active
  {
    if active != [] {
      var front, last := active[..|active| - 1], active[|active| - 1];
      GoneByEnd(front, start);
      forall h | h in Gone(front, start)
        ensures h.interval.end <= last.interval.end
      {
        var i :| 0 <= i < |front| && front[i] == h;
        assert EndLess(active[i], active[|active| - 1]);
      }
    }
  }

  lemma {:induction false} GoneKeepsRank(active: seq<Held>, start: nat, h: Held)
    requires h.interval.end < start
    ensures Rank(Gone(active, start), h, EndLess) == Rank(active, h, EndLess)
    decreases active
  {
    if active != [] {
      var front, last := active[..|active| - 1], active[|active| - 1];
      GoneKeepsRank(front, start, h);
      if last.interval.end < start {
        assert (Gone(front, start) + [last])[..|Gone(front, start)|] == Gone(front, start);
      } else {
        assert Gone(active, start) == Gone(front, start) + [] == Gone(front, start);
        assert Rank(active, h, EndLess) == Rank(front, h, EndLess) + [];
      }
    }
  }

  lemma ExpireExpires(s: Scan, start: nat) returns (gone: seq<Held>)
    ensures Expires(s, start, gone, Expire(s, start))
  {
    var sorted := SortBy(s.active, EndLess);
    gone := Gone(sorted, start);
    EndIsOrdered();
    SortByIsSorted(s.active, EndLess);
    SortByKeepsElements(s.active, EndLess);
    SurvivorsAre(sorted, start);
    GoneAndSurvivors(sorted, start);
    GoneAreReleased(sorted, start);
    GoneByEnd(sorted, start);
    forall h | h in gone
      ensures Rank(gone, h, EndLess) == Rank(s.active, h, EndLess)
    {
      GoneKeepsRank(sorted, start, h);
      SortIsStable(s.active, h, EndLess);
    }
  }

  lemma LastEndsLast(active: seq<Held>) returns (sorted: seq<Held>, last: Held)
    requires active != []
    ensures sorted == SortBy(active, EndLess) && sorted != [] && last == sorted[|sorted| - 1]
    ensures multiset(sorted) == multiset(active)
    ensures multiset(sorted[..|sorted| - 1]) == multiset(active) - multiset{last}
    ensures last in active && forall h :: h in active ==> h.interval.end <= last.interval.end
  {
    EndIsOrdered();
    sorted := SortBy(active, EndLess);
    SortByIsSorted(active, EndLess);
    SortByKeepsElements(active, EndLess);
    SameElements(active, sorted);
    last := sorted[|sorted| - 1];
    assert sorted == sorted[..|sorted| - 1] + [last];
    assert last in sorted;
    forall h | h in active
      ensures h.interval.end <= last.interval.end
    {
      var i :| 0 <= i < |sorted| && sorted[i] == h;
      assert i < |sorted| - 1 ==> EndLess(sorted[i], sorted[|sorted| - 1]);
    }
  }

  lemma EvictTakesOver(s: Scan, iv: LiveInterval, sorted: seq<Held>, last: Held)
    requires s.slots <= MAX_U32 && s.free == [] && s.active != [] && last in s.active && iv.end < last.interval.end
    requires sorted == SortBy(s.active, EndLess) && sorted != [] && last == sorted[|sorted| - 1]
    requires multiset(sorted[..|sorted| - 1]) == multiset(s.active) - multiset{last}
    requires forall h :: h in s.active ==> h.interval.end <= last.interval.end
    ensures TakesOver(s, iv, last, Evict(SortActive(s), iv))
  {
    var t := Evict(SortActive(s), iv);
    assert t.active == sorted[..|sorted| - 1] + [Held(iv, last.reg)];
    assert t.locs == s.locs[last.interval.v := Stack(StackSlot(s.slots))][iv.v := Reg(last.reg)];
  }

  lemma PlacePlaces(s: Scan, iv: LiveInterval)
    requires s.slots <= MAX_U32
    ensures Places(s, iv, Place(s, iv))
  {
    if s.free != [] {
      FreeIsTaken(s, iv);
    } else if s.active == [] {
      assert TakesSlot(s, iv, Spill(s, iv));
    } else {
      PlaceAmongActive(s, iv);
    }
  }

  lemma FreeIsTaken(s: Scan, iv: LiveInterval)
    requires s.free != []
    ensures TakesFree(s, iv, Take(s, iv))
  {
  }

  lemma PlaceAmongActive(s: Scan, iv: LiveInterval)
    requires s.slots <= MAX_U32 && s.free == [] && s.active != []
    ensures Places(s, iv, Place(s, iv))
  {
    var sorted, last := LastEndsLast(s.active);
    if last.interval.end > iv.end {
      EvictTakesOver(s, iv, sorted, last);
    } else {
      assert TakesSlot(s, iv, Spill(SortActive(s), iv));
    }
  }

  // Before the first interval every register is free, in the order listed.
  lemma ScanStarts(regs: PhysRegSet, limit: nat)
    ensures var s := ScanAll([], Allowed(regs, limit));
      && s.active == [] && s.locs == map[] && s.slots == 0
      && |s.free| == (if limit < |regs.regs| then limit else |regs.regs|)
      && forall i :: 0 <= i < |s.free| ==> s.free[i] == regs.regs[i]
  {
  }

  // Each further interval first lets registers expire and is then placed.
  lemma ScanAdvances(ordered: seq<LiveInterval>, pool: seq<PhysReg>, k: nat)
    returns (gone: seq<Held>, mid: Scan)
    requires k < |ordered| <= MAX_U32
    ensures Expires(ScanAll(ordered[..k], pool), ordered[k].start, gone, mid)
    ensures Places(mid, ordered[k], ScanAll(ordered[..k + 1], pool))
  {
    assert ordered[..k + 1][..k] == ordered[..k];
    var s := ScanAll(ordered[..k], pool);
    SlotsAtMost(ordered[..k], pool);
    gone := ExpireExpires(s, ordered[k].start);
    mid := Expire(s, ordered[k].start);
    PlacePlaces(mid, ordered[k]);
  }

  // The scan visits the intervals by start, then end, then value.
  lemma ScanOrder(ivs: seq<LiveInterval>)
    ensures TotalPreorder(KeyLess) && multiset(SortBy(ivs, KeyLess)) == multiset(ivs)
    ensures var ordered := SortBy(ivs, KeyLess);
      forall i, j :: 0 <= i < j < |ordered| ==>
        && ordered[i].start <= ordered[j].start
        && (ordered[i].start == ordered[j].start ==> ordered[i].end <= ordered[j].end)
        && (ordered[i].start == ordered[j].start && ordered[i].end == ordered[j].end ==>
             ordered[i].v.id <= ordered[j].v.id)
  {
    KeyIsOrdered();
    SortByIsSorted(ivs, KeyLess);
    SortByKeepsElements(ivs, KeyLess);
    var ordered := SortBy(ivs, KeyLess);
    forall i, j | 0 <= i < j < |ordered|
      ensures KeyLess(ordered[i], ordered[j])
    {
    }
  }
}
