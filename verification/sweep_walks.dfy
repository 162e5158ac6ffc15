// What the liveness sweeps compute for any function, repeated block ids included, and exactly when
// they come to rest: as walks over the listed blocks.
module SweepWalks {
  import opened Wrappers
  import opened Ir
  import opened Cfg
  import opened Liveness
  import opened LivenessSweeps

  // ---------- what blocks of one id share ----------

  // The last block of an id gives its sets.
  ghost predicate IdExposes(f: Function, b: BlockId, v: VReg) {
    exists i :: LastOfItsId(f, |f.blocks|, i) && f.blocks[i].id == b && Exposed(f.blocks[i], 0, v)
  }

  ghost predicate IdDefines(f: Function, b: BlockId, v: VReg) {
    exists i :: LastOfItsId(f, |f.blocks|, i) && f.blocks[i].id == b && Defines(f.blocks[i], v)
  }

  // The phis of all blocks of an id count together.
  ghost predicate IdPhiDef(f: Function, b: BlockId, v: VReg) {
    exists i :: 0 <= i < |f.blocks| && f.blocks[i].id == b && PhiDef(f.blocks[i], v)
  }

  ghost predicate IdPhiUse(f: Function, a: BlockId, b: BlockId, v: VReg) {
    exists i :: 0 <= i < |f.blocks| && f.blocks[i].id == b && PhiUse(f.blocks[i], a, v)
  }

  // The parts of a map that no update changes.
  ghost predicate FactsAt(f: Function, l: Liveness, b: BlockId) {
    && (b in l.perBlock <==> HasBlock(f, b))
    && (b in l.perBlock ==> forall v :: v in l.perBlock[b].useSet <==> IdExposes(f, b, v))
    && (b in l.perBlock ==> forall v :: v in l.perBlock[b].defSet <==> IdDefines(f, b, v))
    && (forall v :: HasPhiDef(l.phiDefs, b, v) <==> IdPhiDef(f, b, v))
    && (forall a, v :: HasPhiUse(l.phiUses, a, b, v) <==> IdPhiUse(f, a, b, v))
  }

  lemma {:induction false} LastExists(f: Function, b: BlockId, n: nat) returns (i: nat)
    requires n <= |f.blocks| && exists j :: 0 <= j < n && f.blocks[j].id == b
    ensures LastOfItsId(f, n, i) && f.blocks[i].id == b
    decreases n
  {
    if f.blocks[n - 1].id == b {
      i := n - 1;
    } else {
      i := LastExists(f, b, n - 1);
    }
  }

  lemma StartHasFacts(f: Function, l: Liveness, b: BlockId)
    requires Starting(f, l)
    ensures FactsAt(f, l, b)
  {
    if b in l.perBlock {
      var i := LastExists(f, b, |f.blocks|);
      assert SetsOf(f.blocks[i], l.perBlock);
      forall j | LastOfItsId(f, |f.blocks|, j) && f.blocks[j].id == b
        ensures j == i
      {
      }
    }
  }

  // ---------- walks ----------

  // The block whose sets stand under s when the blocks from the k-th on have been updated: the first
  // of those with that id, or else, from the sweep before, the first of all.
  function Feeder(f: Function, k: nat, s: BlockId): (j: nat)
    requires k <= |f.blocks| && HasBlock(f, s)
    ensures j < |f.blocks| && f.blocks[j].id == s
  {
    match FindIndex(f.blocks, s, k)
    case Some(j) => j
    case None => IndexOf(f, s)
  }

  predicate LeadsTo(f: Function, i: nat, s: BlockId) {
    i < |f.blocks| && s in Successors(f.blocks[i].term) && HasBlock(f, s)
  }

  // From a block a step leads to the block that feeds it for one of its successors. The walk w ends
  // at a use of v, exposed in its last block or by a phi on an edge from it, and no definition of v
  // lies between.
  ghost predicate LeavesAlong(f: Function, v: VReg, w: seq<nat>)
    decreases |w|, 1
  {
    |w| > 0 && exists s :: LeadsTo(f, w[0], s) && LeavesThrough(f, v, w, s)
  }

  ghost predicate LeavesThrough(f: Function, v: VReg, w: seq<nat>, s: BlockId)
    requires |w| > 0 && LeadsTo(f, w[0], s)
    decreases |w|, 0
  {
    if |w| == 1 then IdPhiUse(f, f.blocks[w[0]].id, s, v)
    else w[1] == Feeder(f, w[0] + 1, s) && !IdPhiDef(f, s, v) && EntersAlong(f, v, w[1..])
  }

  ghost predicate EntersAlong(f: Function, v: VReg, w: seq<nat>)
    decreases |w|, 2
  {
    |w| > 0 && w[0] < |f.blocks| &&
    ((|w| == 1 && IdExposes(f, f.blocks[w[0]].id, v)) ||
     (!IdDefines(f, f.blocks[w[0]].id, v) && LeavesAlong(f, v, w)))
  }

  // v is live at the end, or at the start, of the i-th listed block as the sweeps see it.
  ghost predicate Leaves(f: Function, i: nat, v: VReg) {
    exists w :: LeavesAlong(f, v, w) && w[0] == i
  }

  ghost predicate Enters(f: Function, i: nat, v: VReg) {
    exists w :: EntersAlong(f, v, w) && w[0] == i
  }

  // Blocks of one id have the same values live at their ends.
  ghost predicate TwinsAlike(f: Function) {
    forall i: nat, j: nat, v :: i < |f.blocks| && j < |f.blocks| && f.blocks[i].id == f.blocks[j].id ==>
      (Leaves(f, i, v) <==> Leaves(f, j, v))
  }

  lemma LeavesByPhi(f: Function, i: nat, v: VReg, s: BlockId)
    requires LeadsTo(f, i, s) && IdPhiUse(f, f.blocks[i].id, s, v)
    ensures Leaves(f, i, v)
  {
    assert LeavesThrough(f, v, [i], s);
    assert LeavesAlong(f, v, [i]);
  }

  lemma LeavesThroughFeeder(f: Function, i: nat, v: VReg, s: BlockId)
    requires LeadsTo(f, i, s) && !IdPhiDef(f, s, v) && Enters(f, Feeder(f, i + 1, s), v)
    ensures Leaves(f, i, v)
  {
    var w :| EntersAlong(f, v, w) && w[0] == Feeder(f, i + 1, s);
    WalkLengthens(f, i, v, s, w);
  }

  lemma WalkLengthens(f: Function, i: nat, v: VReg, s: BlockId, w: seq<nat>)
    requires LeadsTo(f, i, s) && !IdPhiDef(f, s, v) && EntersAlong(f, v, w) && w[0] == Feeder(f, i + 1, s)
    ensures LeavesAlong(f, v, [i] + w) && ([i] + w)[0] == i
  {
    var longer := [i] + w;
    assert |longer| > 1 && longer[0] == i && longer[1] == w[0] && longer[1..] == w;
    assert LeavesThrough(f, v, longer, s);
  }

  lemma EntersUnfolds(f: Function, i: nat, v: VReg)
    requires i < |f.blocks|
    requires IdExposes(f, f.blocks[i].id, v) || (!IdDefines(f, f.blocks[i].id, v) && Leaves(f, i, v))
    ensures Enters(f, i, v)
  {
    if IdExposes(f, f.blocks[i].id, v) {
      assert EntersAlong(f, v, [i]);
    } else {
      var w :| LeavesAlong(f, v, w) && w[0] == i;
      assert EntersAlong(f, v, w);
    }
  }

  lemma FeederSteps(f: Function, i: nat, s: BlockId)
    requires i < |f.blocks| && HasBlock(f, s)
    ensures Feeder(f, i, s) == if f.blocks[i].id == s then i else Feeder(f, i + 1, s)
  {
  }

  lemma FeederWraps(f: Function, s: BlockId)
    requires HasBlock(f, s)
    ensures Feeder(f, |f.blocks|, s) == Feeder(f, 0, s)
  {
  }

  // ---------- the sets hold nothing else ----------

  // Every entry holds only what is live at the block that last wrote it.
  ghost predicate Sound(f: Function, l: Liveness, i: nat)
    requires i <= |f.blocks|
  {
    forall s :: SoundAt(f, l, i, s)
  }

  ghost predicate SoundAt(f: Function, l: Liveness, i: nat, s: BlockId)
    requires i <= |f.blocks|
  {
    FactsAt(f, l, s) && (HasBlock(f, s) ==> OnlyLiveAt(f, l.perBlock[s], Feeder(f, i, s)))
  }

  ghost predicate OnlyLiveAt(f: Function, e: BlockLiveness, j: nat) {
    (forall v :: v in e.liveIn ==> Enters(f, j, v)) && (forall v :: v in e.liveOut ==> Leaves(f, j, v))
  }

  lemma FlowIsSound(f: Function, l: Liveness, i: nat, v: VReg)
    requires i < |f.blocks| && Sound(f, l, i + 1) && v in LiveOutOf(l, f.blocks[i])
    ensures Leaves(f, i, v)
  {
    var block := f.blocks[i];
    FlowsOverSome(l, block.id, Successors(block.term), v);
    var s :| s in Successors(block.term) && v in FlowsBack(l, block.id, s);
    assert SoundAt(f, l, i + 1, s);
    if HasPhiUse(l.phiUses, block.id, s, v) {
      var j :| 0 <= j < |f.blocks| && f.blocks[j].id == s && PhiUse(f.blocks[j], block.id, v);
      LeavesByPhi(f, i, v, s);
    } else {
      assert !HasPhiDef(l.phiDefs, s, v);
      LeavesThroughFeeder(f, i, v, s);
    }
  }

  lemma UpdatedEntryIsSound(f: Function, l: Liveness, i: nat)
    requires i < |f.blocks| && Sound(f, l, i + 1)
    ensures var b := f.blocks[i].id;
      FactsAt(f, Updated(l, f.blocks[i]), b) && OnlyLiveAt(f, Updated(l, f.blocks[i]).perBlock[b], i)
  {
    var block := f.blocks[i];
    assert SoundAt(f, l, i + 1, block.id);
    var e := Updated(l, block).perBlock[block.id];
    forall v | v in e.liveOut
      ensures Leaves(f, i, v)
    {
      FlowIsSound(f, l, i, v);
    }
    forall v | v in e.liveIn
      ensures Enters(f, i, v)
    {
      EntersUnfolds(f, i, v);
    }
  }

  lemma UpdateIsSound(f: Function, l: Liveness, i: nat)
    requires i < |f.blocks| && Sound(f, l, i + 1)
    ensures Sound(f, Updated(l, f.blocks[i]), i)
  {
    forall s
      ensures SoundAt(f, Updated(l, f.blocks[i]), i, s)
    {
      assert SoundAt(f, l, i + 1, s);
      if s == f.blocks[i].id {
        UpdatedEntryIsSound(f, l, i);
        FeederSteps(f, i, s);
      } else if HasBlock(f, s) {
        FeederSteps(f, i, s);
      }
    }
  }

  lemma {:induction false} SweepIsSound(f: Function, l: Liveness, i: nat)
    requires i <= |f.blocks| && Sound(f, l, |f.blocks|)
    ensures Sound(f, Swept(f, l, i), i)
    decreases |f.blocks| - i
  {
    if i < |f.blocks| {
      SweepIsSound(f, l, i + 1);
      UpdateIsSound(f, Swept(f, l, i + 1), i);
    }
  }

  lemma SoundWraps(f: Function, l: Liveness)
    requires Sound(f, l, 0)
    ensures Sound(f, l, |f.blocks|)
  {
    forall s
      ensures SoundAt(f, l, |f.blocks|, s)
    {
      assert SoundAt(f, l, 0, s);
      if HasBlock(f, s) {
        FeederWraps(f, s);
      }
    }
  }

  lemma StartIsSound(f: Function, l: Liveness)
    requires Starting(f, l)
    ensures Sound(f, l, |f.blocks|)
  {
    forall s
      ensures SoundAt(f, l, |f.blocks|, s)
    {
      StartHasFacts(f, l, s);
    }
  }

  lemma {:induction false} SweepsAreSound(f: Function, l: Liveness, n: nat)
    requires Sound(f, l, |f.blocks|)
    ensures Sound(f, After(f, l, n), |f.blocks|)
  {
    if n > 0 {
      SweepsAreSound(f, l, n - 1);
      SweepIsSound(f, After(f, l, n - 1), 0);
      SoundWraps(f, After(f, l, n));
    }
  }

  // ---------- at a stationary map nothing is missing ----------

  // The entry of an id during a sweep.
  ghost function EntryAt(f: Function, l: Liveness, i: nat, s: BlockId): BlockLiveness
    requires i <= |f.blocks| && s in l.perBlock
  {
    Swept(f, l, i).perBlock[s]
  }

  lemma {:induction false} EntryStays(f: Function, l: Liveness, i: nat, j: nat, s: BlockId)
    requires i <= j <= |f.blocks| && s in l.perBlock
    requires forall k :: i <= k < j ==> f.blocks[k].id != s
    ensures EntryAt(f, l, i, s) == EntryAt(f, l, j, s)
    decreases j - i
  {
    if i < j {
      EntryStays(f, l, i + 1, j, s);
    }
  }

  lemma {:induction false} EntryIsFed(f: Function, l: Liveness, i: nat, s: BlockId)
    requires i <= |f.blocks| && s in l.perBlock && HasBlock(f, s) && Stationary(f, l)
    ensures EntryAt(f, l, i, s) == EntryAt(f, l, Feeder(f, i, s), s)
    decreases |f.blocks| - i
  {
    if i == |f.blocks| {
      var j := Feeder(f, 0, s);
      FeederWraps(f, s);
      FirstIndexIsFound(f.blocks, s, 0);
      EntryStays(f, l, 0, j, s);
    } else {
      FeederSteps(f, i, s);
      if f.blocks[i].id != s {
        EntryIsFed(f, l, i + 1, s);
        EntryStays(f, l, i, i + 1, s);
      }
    }
  }

  lemma EntryUnfolds(f: Function, l: Liveness, i: nat)
    requires i < |f.blocks| && f.blocks[i].id in l.perBlock
    ensures var e := EntryAt(f, l, i, f.blocks[i].id);
      e.liveOut == LiveOutOf(Swept(f, l, i + 1), f.blocks[i]) && e.liveIn == e.useSet + (e.liveOut - e.defSet)
  {
  }

  ghost predicate Ready(f: Function, l: Liveness) {
    Sound(f, l, |f.blocks|) && Stationary(f, l)
  }

  lemma {:induction false} LeavesIsComplete(f: Function, l: Liveness, v: VReg, w: seq<nat>)
    requires Ready(f, l) && LeavesAlong(f, v, w)
    ensures f.blocks[w[0]].id in l.perBlock && v in EntryAt(f, l, w[0], f.blocks[w[0]].id).liveOut
    decreases |w|, 0
  {
    var i := w[0];
    var s :| LeadsTo(f, i, s) && LeavesThrough(f, v, w, s);
    if |w| > 1 {
      EntersIsComplete(f, l, v, w[1..]);
    }
    FlowIsComplete(f, l, v, i, s, |w| > 1);
  }

  // What a successor's entry holds, or a phi on the edge reads, reaches the block's own entry.
  lemma FlowIsComplete(f: Function, l: Liveness, v: VReg, i: nat, s: BlockId, entering: bool)
    requires Ready(f, l) && LeadsTo(f, i, s)
    requires !entering ==> IdPhiUse(f, f.blocks[i].id, s, v)
    requires entering ==> s in l.perBlock && !IdPhiDef(f, s, v) && v in EntryAt(f, l, Feeder(f, i + 1, s), s).liveIn
    ensures f.blocks[i].id in l.perBlock && v in EntryAt(f, l, i, f.blocks[i].id).liveOut
  {
    var b := f.blocks[i].id;
    var m := Swept(f, l, i + 1);
    SweepIsSound(f, l, i + 1);
    assert SoundAt(f, m, i + 1, s) && SoundAt(f, m, i + 1, b);
    if entering {
      EntryIsFed(f, l, i + 1, s);
      assert !HasPhiDef(m.phiDefs, s, v);
    } else {
      assert HasPhiUse(m.phiUses, b, s, v);
    }
    assert v in FlowsBack(m, b, s);
    FlowsOverSome(m, b, Successors(f.blocks[i].term), v);
    EntryUnfolds(f, l, i);
  }

  lemma {:induction false} EntersIsComplete(f: Function, l: Liveness, v: VReg, w: seq<nat>)
    requires Ready(f, l) && EntersAlong(f, v, w)
    ensures f.blocks[w[0]].id in l.perBlock && v in EntryAt(f, l, w[0], f.blocks[w[0]].id).liveIn
    decreases |w|, 1
  {
    var i := w[0];
    var b := f.blocks[i].id;
    SweepIsSound(f, l, i);
    assert SoundAt(f, Swept(f, l, i), i, b);
    EntryUnfolds(f, l, i);
    if LeavesAlong(f, v, w) {
      LeavesIsComplete(f, l, v, w);
    }
  }

  lemma EntryIsSound(f: Function, l: Liveness, i: nat)
    requires Ready(f, l) && i < |f.blocks|
    ensures f.blocks[i].id in l.perBlock && OnlyLiveAt(f, EntryAt(f, l, i, f.blocks[i].id), i)
  {
    var b := f.blocks[i].id;
    SweepIsSound(f, l, i);
    assert SoundAt(f, Swept(f, l, i), i, b);
    FeederSteps(f, i, b);
  }

  // In a sweep of a stationary map every update writes exactly what the walks say.
  lemma EntryIsExact(f: Function, l: Liveness, i: nat, v: VReg)
    requires Ready(f, l) && i < |f.blocks|
    ensures f.blocks[i].id in l.perBlock
    ensures v in EntryAt(f, l, i, f.blocks[i].id).liveOut <==> Leaves(f, i, v)
    ensures v in EntryAt(f, l, i, f.blocks[i].id).liveIn <==> Enters(f, i, v)
  {
    EntryIsSound(f, l, i);
    if Leaves(f, i, v) {
      var w :| LeavesAlong(f, v, w) && w[0] == i;
      LeavesIsComplete(f, l, v, w);
    }
    if Enters(f, i, v) {
      var w :| EntersAlong(f, v, w) && w[0] == i;
      EntersIsComplete(f, l, v, w);
    }
  }

  // ---------- when the sweeps come to rest ----------

  lemma AlikeUpdateRests(f: Function, l: Liveness, i: nat)
    requires Ready(f, l) && TwinsAlike(f) && i < |f.blocks|
    ensures Rests(Swept(f, l, i + 1), f.blocks[i])
  {
    var b := f.blocks[i].id;
    var j := Feeder(f, i + 1, b);
    EntryIsExact(f, l, i, VReg(0));
    EntryIsFed(f, l, i + 1, b);
    EntryUnfolds(f, l, i);
    EntryUnfolds(f, l, j);
    forall v
      ensures v in EntryAt(f, l, j, b).liveOut <==> v in EntryAt(f, l, i, b).liveOut
    {
      EntryIsExact(f, l, i, v);
      EntryIsExact(f, l, j, v);
    }
    assert EntryAt(f, l, j, b).liveOut == EntryAt(f, l, i, b).liveOut;
  }

  lemma {:induction false} AlikeIsQuiet(f: Function, l: Liveness, i: nat)
    requires Ready(f, l) && TwinsAlike(f) && i <= |f.blocks|
    ensures !Changes(f, l, i)
    decreases |f.blocks| - i
  {
    if i < |f.blocks| {
      AlikeIsQuiet(f, l, i + 1);
      AlikeUpdateRests(f, l, i);
    }
  }

  lemma {:induction false} SettledIsQuiet(f: Function, l: Liveness, i: nat)
    requires Settled(f, l) && i <= |f.blocks|
    ensures Swept(f, l, i) == l && !Changes(f, l, i)
    decreases |f.blocks| - i
  {
    if i < |f.blocks| {
      SettledIsQuiet(f, l, i + 1);
      assert Rests(l, f.blocks[i]);
      RestIsFixed(l, f.blocks[i]);
    }
  }

  lemma QuietIsReady(f: Function, l: Liveness)
    requires Sound(f, l, |f.blocks|) && !Changes(f, l, 0)
    ensures Ready(f, l) && forall j :: 0 <= j <= |f.blocks| ==> Swept(f, l, j) == l
  {
    forall i | 0 <= i < |f.blocks|
      ensures f.blocks[i].id in l.perBlock
    {
      assert SoundAt(f, l, |f.blocks|, f.blocks[i].id);
    }
    QuietIsSettled(f, l, 0);
    forall j | 0 <= j <= |f.blocks|
      ensures Swept(f, l, j) == l
    {
      SettledIsQuiet(f, l, j);
    }
  }

  // The sets of a quiet map, for every block of an id.
  lemma QuietIsExact(f: Function, l: Liveness, i: nat, v: VReg)
    requires Sound(f, l, |f.blocks|) && !Changes(f, l, 0) && i < |f.blocks|
    ensures f.blocks[i].id in l.perBlock
    ensures v in l.perBlock[f.blocks[i].id].liveOut <==> Leaves(f, i, v)
    ensures v in l.perBlock[f.blocks[i].id].liveIn <==> Enters(f, i, v)
  {
    QuietIsReady(f, l);
    EntryIsExact(f, l, i, v);
  }

  lemma QuietIsAlike(f: Function, l: Liveness)
    requires Sound(f, l, |f.blocks|) && !Changes(f, l, 0)
    ensures TwinsAlike(f)
  {
    forall i: nat, j: nat, v | i < |f.blocks| && j < |f.blocks| && f.blocks[i].id == f.blocks[j].id
      ensures Leaves(f, i, v) <==> Leaves(f, j, v)
    {
      QuietIsExact(f, l, i, v);
      QuietIsExact(f, l, j, v);
    }
  }

  // The sweeps come to rest exactly when blocks of one id have the same values live at their ends.
  lemma RestIsDecided(f: Function, l: Liveness)
    requires Starting(f, l)
    ensures ComesToRest(f, l) <==> TwinsAlike(f)
  {
    StartIsSound(f, l);
    if n: nat :| QuietAfter(f, l, n) {
      SweepsAreSound(f, l, n);
      QuietIsAlike(f, After(f, l, n));
    }
    if TwinsAlike(f) {
      var n := SweepsBecomeStationary(f, l);
      SweepsAreSound(f, l, n);
      AlikeIsQuiet(f, After(f, l, n), 0);
      assert QuietAfter(f, l, n);
    }
  }

  // ---------- the result ----------

  ghost predicate HoldsAt(f: Function, l: Liveness, i: int) {
    0 <= i < |f.blocks| && f.blocks[i].id in l.perBlock &&
    (forall v :: v in l.perBlock[f.blocks[i].id].liveIn <==> Enters(f, i, v)) &&
    (forall v :: v in l.perBlock[f.blocks[i].id].liveOut <==> Leaves(f, i, v))
  }

  // The phi data, the block sets, and for every listed block the values its walks find.
  ghost predicate HoldsWalks(f: Function, l: Liveness) {
    (forall b :: FactsAt(f, l, b)) &&
    (forall i {:trigger HoldsAt(f, l, i)} :: 0 <= i < |f.blocks| ==> HoldsAt(f, l, i))
  }

  lemma QuietHoldsWalks(f: Function, l: Liveness)
    requires Sound(f, l, |f.blocks|) && !Changes(f, l, 0)
    ensures HoldsWalks(f, l)
  {
    forall b
      ensures FactsAt(f, l, b)
    {
      assert SoundAt(f, l, |f.blocks|, b);
    }
    forall i | 0 <= i < |f.blocks|
      ensures HoldsAt(f, l, i)
    {
      QuietIsExact(f, l, i, VReg(0));
      forall v
        ensures v in l.perBlock[f.blocks[i].id].liveIn <==> Enters(f, i, v)
        ensures v in l.perBlock[f.blocks[i].id].liveOut <==> Leaves(f, i, v)
      {
        QuietIsExact(f, l, i, v);
      }
    }
  }

  // ---------- a simpler check ----------

  // Blocks of one id lead to the same successors.
  ghost predicate TwinsAgree(f: Function) {
    forall i, j :: 0 <= i < |f.blocks| && 0 <= j < |f.blocks| && f.blocks[i].id == f.blocks[j].id ==>
      SameSuccessors(f.blocks[i], f.blocks[j])
  }

  ghost predicate SameSuccessors(x: Block, y: Block) {
    forall s :: s in Successors(x.term) <==> s in Successors(y.term)
  }

  lemma {:induction false} LeavesLikeTwin(f: Function, v: VReg, w: seq<nat>, j: nat)
    requires TwinsAgree(f) && LeavesAlong(f, v, w) && j < |f.blocks| && f.blocks[j].id == f.blocks[w[0]].id
    ensures Leaves(f, j, v)
    decreases |w|, 0
  {
    var s :| LeadsTo(f, w[0], s) && LeavesThrough(f, v, w, s);
    assert SameSuccessors(f.blocks[w[0]], f.blocks[j]);
    if |w| == 1 {
      LeavesByPhi(f, j, v, s);
    } else {
      EntersLikeTwin(f, v, w[1..], Feeder(f, j + 1, s));
      LeavesThroughFeeder(f, j, v, s);
    }
  }

  lemma {:induction false} EntersLikeTwin(f: Function, v: VReg, w: seq<nat>, j: nat)
    requires TwinsAgree(f) && EntersAlong(f, v, w) && j < |f.blocks| && f.blocks[j].id == f.blocks[w[0]].id
    ensures Enters(f, j, v)
    decreases |w|, 1
  {
    if LeavesAlong(f, v, w) {
      LeavesLikeTwin(f, v, w, j);
    }
    EntersUnfolds(f, j, v);
  }

  lemma AgreeingTwinsAreAlike(f: Function)
    requires TwinsAgree(f)
    ensures TwinsAlike(f)
  {
    forall i: nat, j: nat, v | i < |f.blocks| && j < |f.blocks| && f.blocks[i].id == f.blocks[j].id && Leaves(f, i, v)
      ensures Leaves(f, j, v)
    {
      var w :| LeavesAlong(f, v, w) && w[0] == i;
      LeavesLikeTwin(f, v, w, j);
    }
  }
}
