// Repeated block ids: the liveness loop can run forever, and the order in which the blocks are listed
// decides whether it does.
module RepeatedIds {
  import opened Wrappers
  import opened Ir
  import opened Cfg
  import opened Liveness
  import opened LivenessSweeps
  import opened SweepWalks

  const V: VReg := VReg(0)

  function Returning(): Block {
    Block(BlockId(1), [], Ret(V))
  }

  // The two blocks that share an id: one leads to the return, one into a loop.
  function Leaving(): Block {
    Block(BlockId(0), [], Jmp(BlockId(1)))
  }

  function Staying(): Block {
    Block(BlockId(0), [], Jmp(BlockId(2)))
  }

  function Back(): Block {
    Block(BlockId(2), [], Jmp(BlockId(0)))
  }

  function Endless(): Function {
    Function(0, BlockId(0), [Back(), Staying(), Leaving(), Returning()])
  }

  // The same blocks in another order.
  function Ending(): Function {
    Function(0, BlockId(0), [Staying(), Back(), Leaving(), Returning()])
  }

  // ---------- what the blocks hold ----------

  lemma NoInstructions(block: Block)
    requires block.insts == []
    ensures forall v :: Exposed(block, 0, v) <==> v in TermUses(block.term)
    ensures forall v :: !Defines(block, v) && !PhiDef(block, v)
    ensures forall a: BlockId, v :: !PhiUse(block, a, v)
  {
    forall v
      ensures Exposed(block, 0, v) <==> v in TermUses(block.term)
    {
      if v in TermUses(block.term) {
        assert UsedAt(block, 0, v) && !DefinedIn(block, 0, 0, v);
      }
    }
  }

  // Blocks without instructions that use V alone, as in both orders.
  ghost predicate OnlyUses(f: Function) {
    forall i :: 0 <= i < |f.blocks| ==> UsesOnly(f.blocks[i])
  }

  predicate UsesOnly(block: Block) {
    block.insts == [] && forall v :: v in TermUses(block.term) ==> v == V
  }

  lemma OnlyUsesFacts(f: Function, b: BlockId, v: VReg)
    requires OnlyUses(f)
    ensures !IdDefines(f, b, v) && !IdPhiDef(f, b, v) && (IdExposes(f, b, v) ==> v == V)
    ensures forall a :: !IdPhiUse(f, a, b, v)
  {
    forall i | 0 <= i < |f.blocks|
      ensures !Defines(f.blocks[i], v) && !PhiDef(f.blocks[i], v) && (Exposed(f.blocks[i], 0, v) ==> v == V)
      ensures forall a :: !PhiUse(f.blocks[i], a, v)
    {
      NoInstructions(f.blocks[i]);
    }
  }

  lemma {:induction false} OnlyUsedLeaves(f: Function, v: VReg, w: seq<nat>)
    requires OnlyUses(f) && LeavesAlong(f, v, w)
    ensures v == V
    decreases |w|
  {
    var s :| LeadsTo(f, w[0], s) && LeavesThrough(f, v, w, s);
    OnlyUsesFacts(f, s, v);
    assert |w| > 1 && EntersAlong(f, v, w[1..]) && f.blocks[w[1..][0]].id == s;
    if LeavesAlong(f, v, w[1..]) {
      OnlyUsedLeaves(f, v, w[1..]);
    }
  }

  // A jump passes on what enters its target.
  lemma JumpPassesOn(f: Function, i: nat, s: BlockId, v: VReg)
    requires OnlyUses(f) && LeadsTo(f, i, s) && Enters(f, Feeder(f, i + 1, s), v)
    ensures Leaves(f, i, v) && Enters(f, i, v)
  {
    OnlyUsesFacts(f, s, v);
    OnlyUsesFacts(f, f.blocks[i].id, v);
    LeavesThroughFeeder(f, i, v, s);
    EntersUnfolds(f, i, v);
  }

  lemma ReturnUses(f: Function)
    requires |f.blocks| == 4 && f.blocks[3] == Returning()
    ensures Enters(f, 3, V)
  {
    NoInstructions(Returning());
    assert LastOfItsId(f, 4, 3);
    assert IdExposes(f, BlockId(1), V);
    EntersUnfolds(f, 3, V);
  }

  // ---------- the order that does not end ----------

  lemma EndlessFeeders()
    ensures HasBlock(Endless(), BlockId(0)) && HasBlock(Endless(), BlockId(1)) && HasBlock(Endless(), BlockId(2))
    ensures Feeder(Endless(), 1, BlockId(0)) == 1 && Feeder(Endless(), 2, BlockId(2)) == 0
    ensures Feeder(Endless(), 3, BlockId(1)) == 3
    ensures OnlyUses(Endless())
  {
    var f := Endless();
    assert f.blocks[0].id == BlockId(2) && f.blocks[1].id == BlockId(0);
    assert f.blocks[2].id == BlockId(0) && f.blocks[3].id == BlockId(1);
    assert FindIndex(f.blocks, BlockId(2), 4) == None;
    assert FindIndex(f.blocks, BlockId(2), 3) == None;
    assert FindIndex(f.blocks, BlockId(2), 2) == None;
  }

  lemma LoopExposesNothing(s: BlockId)
    requires s == BlockId(0) || s == BlockId(2)
    ensures !IdExposes(Endless(), s, V)
  {
    NoInstructions(Back());
    NoInstructions(Staying());
    NoInstructions(Leaving());
  }

  lemma LoopStaysInside(i: nat, s: BlockId)
    requires (i == 0 || i == 1) && LeadsTo(Endless(), i, s)
    ensures s == BlockId(if i == 0 then 0 else 2) && Feeder(Endless(), i + 1, s) == 1 - i
  {
    EndlessFeeders();
  }

  // Sweeping leads from one block of the loop to the other, and never out.
  lemma {:induction false} LoopHoldsNothing(f: Function, w: seq<nat>)
    requires f == Endless() && LeavesAlong(f, V, w) && (w[0] == 0 || w[0] == 1)
    ensures false
    decreases |w|
  {
    var s :| LeadsTo(f, w[0], s) && LeavesThrough(f, V, w, s);
    EndlessFeeders();
    OnlyUsesFacts(f, s, V);
    LoopStaysInside(w[0], s);
    LoopExposesNothing(s);
    assert |w| > 1 && EntersAlong(f, V, w[1..]) && w[1..][0] == 1 - w[0];
    LoopHoldsNothing(f, w[1..]);
  }

  lemma EndlessDiffers()
    ensures !TwinsAlike(Endless())
  {
    var f := Endless();
    EndlessFeeders();
    ReturnUses(f);
    JumpPassesOn(f, 2, BlockId(1), V);
    if w :| LeavesAlong(f, V, w) && w[0] == 1 {
      LoopHoldsNothing(f, w);
    }
    assert f.blocks[1].id == f.blocks[2].id;
    assert !Leaves(f, 1, V);
  }

  // ---------- the order that ends ----------

  lemma EndingFeeders()
    ensures HasBlock(Ending(), BlockId(0)) && HasBlock(Ending(), BlockId(1)) && HasBlock(Ending(), BlockId(2))
    ensures Feeder(Ending(), 1, BlockId(2)) == 1 && Feeder(Ending(), 2, BlockId(0)) == 2
    ensures Feeder(Ending(), 3, BlockId(1)) == 3
    ensures OnlyUses(Ending())
  {
    var f := Ending();
    assert f.blocks[0].id == BlockId(0) && f.blocks[1].id == BlockId(2);
    assert f.blocks[2].id == BlockId(0) && f.blocks[3].id == BlockId(1);
  }

  lemma EndingLeaves()
    ensures Leaves(Ending(), 0, V) && Leaves(Ending(), 1, V) && Leaves(Ending(), 2, V) && OnlyUses(Ending())
  {
    var f := Ending();
    EndingFeeders();
    ReturnUses(f);
    JumpPassesOn(f, 2, BlockId(1), V);
    JumpPassesOn(f, 1, BlockId(0), V);
    JumpPassesOn(f, 0, BlockId(2), V);
  }

  lemma EndingLeavesLikeTwin(i: nat, j: nat, v: VReg)
    requires i < 4 && j < 4 && Ending().blocks[i].id == Ending().blocks[j].id && Leaves(Ending(), i, v)
    ensures Leaves(Ending(), j, v)
  {
    EndingLeaves();
    var w :| LeavesAlong(Ending(), v, w) && w[0] == i;
    OnlyUsedLeaves(Ending(), v, w);
  }

  lemma EndingIsAlike()
    ensures TwinsAlike(Ending())
  {
    var blocks := Ending().blocks;
    forall i: nat, j: nat, v | i < 4 && j < 4 && blocks[i].id == blocks[j].id && Leaves(Ending(), i, v)
      ensures Leaves(Ending(), j, v)
    {
      EndingLeavesLikeTwin(i, j, v);
    }
  }

  // ---------- both ----------

  lemma SomeStart() returns (l: Liveness)
    ensures Starting(Endless(), l)
  {
    l := Liveness(map[
      BlockId(0) := BlockLiveness({}, {}, {}, {}),
      BlockId(1) := BlockLiveness({}, {}, {V}, {}),
      BlockId(2) := BlockLiveness({}, {}, {}, {})], map[], map[]);
    NoInstructions(Returning());
    NoInstructions(Leaving());
    NoInstructions(Staying());
    NoInstructions(Back());
    var f := Endless();
    assert f.blocks[0] == Back() && f.blocks[1] == Staying() && f.blocks[2] == Leaving() && f.blocks[3] == Returning();
  }

  lemma EndlessSuccessors()
    ensures KnownSuccessors(Endless())
  {
    EndlessFeeders();
    forall i | 0 <= i < 4
      ensures SuccessorsKnown(Endless(), Endless().blocks[i])
    {
    }
  }

  lemma EndingSuccessors()
    ensures KnownSuccessors(Ending())
  {
    EndingFeeders();
    forall i | 0 <= i < 4
      ensures SuccessorsKnown(Ending(), Ending().blocks[i])
    {
    }
  }

  // The same blocks, all successors known: in one order every sweep changes something, in the other
  // the sweeps come to rest.
  lemma OrderDecidesTermination()
    ensures multiset(Endless().blocks) == multiset(Ending().blocks)
    ensures KnownSuccessors(Endless()) && KnownSuccessors(Ending())
    ensures exists l :: Starting(Endless(), l)
    ensures forall l, n: nat :: Starting(Endless(), l) ==> !QuietAfter(Endless(), l, n)
    ensures forall l :: Starting(Ending(), l) ==> ComesToRest(Ending(), l)
  {
    var x, y, z, w := Back(), Staying(), Leaving(), Returning();
    assert Endless().blocks == [x, y, z, w] && Ending().blocks == [y, x, z, w];
    EndlessSuccessors();
    EndingSuccessors();
    var start := SomeStart();
    EndlessDiffers();
    EndingIsAlike();
    forall l, n: nat | Starting(Endless(), l)
      ensures !QuietAfter(Endless(), l, n)
    {
      RestIsDecided(Endless(), l);
    }
    forall l | Starting(Ending(), l)
      ensures ComesToRest(Ending(), l)
    {
      RestIsDecided(Ending(), l);
    }
  }
}
