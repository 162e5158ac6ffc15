// Register assignments and the allocator-independent verifier every allocator must pass.
module Alloc {
  import opened Wrappers
  import opened Ir
  import opened Intervals

  type U32 = x: nat | x <= MAX_U32

  datatype PhysReg = Rax | Rcx | Rdx | Rbx | Rsi | Rdi | R8 | R9 | R10 | R11

  datatype StackSlot = StackSlot(index: U32)

  datatype Location = Reg(reg: PhysReg) | Stack(slot: StackSlot)

  datatype Assignment = Assignment(locs: map<VReg, Location>, stackSlots: U32, spills: U32)

  datatype PhysRegSet = PhysRegSet(regs: seq<PhysReg>, scratch: seq<PhysReg>)

  predicate Distinct<T(==)>(s: seq<T>) {
    forall i, j :: 0 <= i < j < |s| ==> s[i] != s[j]
  }

  function Min(x: nat, y: nat): nat {
    if x < y then x else y
  }

  // The registers an allocation with the given limit may use.
  function Allowed(regs: PhysRegSet, maxRegs: nat): seq<PhysReg> {
    regs.regs[..Min(maxRegs, |regs.regs|)]
  }

  // r is among the first `limit` listed registers.
  predicate AmongFirst(regs: PhysRegSet, limit: nat, r: PhysReg) {
    exists i :: 0 <= i < limit && i < |regs.regs| && regs.regs[i] == r
  }

  lemma AllowedAreFirst(regs: PhysRegSet, limit: nat, r: PhysReg)
    ensures r in Allowed(regs, limit) <==> AmongFirst(regs, limit, r)
  {
    if AmongFirst(regs, limit, r) {
      var i :| 0 <= i < limit && i < |regs.regs| && regs.regs[i] == r;
      assert Allowed(regs, limit)[i] == r;
    }
  }

  function Values(ivs: seq<LiveInterval>): set<VReg> {
    set i | 0 <= i < |ivs| :: ivs[i].v
  }

  function StackValues(locs: map<VReg, Location>): set<VReg> {
    set v | v in locs && locs[v].Stack?
  }

  function SaturatingNext(slot: U32): U32 {
    if slot == MAX_U32 then slot else slot + 1
  }

  // ---------- what the verifier promises ----------

  predicate RegisterAllowed(regs: PhysRegSet, maxRegs: nat, r: PhysReg) {
    AmongFirst(regs, maxRegs, r) && r !in regs.scratch
  }

  ghost predicate RegistersAllowed(regs: PhysRegSet, maxRegs: nat, locs: map<VReg, Location>) {
    forall v :: v in locs && locs[v].Reg? ==> RegisterAllowed(regs, maxRegs, locs[v].reg)
  }

  // One more than the highest slot in use, saturating like the source's 32-bit counter.
  ghost predicate SlotCountExact(locs: map<VReg, Location>, n: nat) {
    && (forall v :: v in locs && locs[v].Stack? ==> SaturatingNext(locs[v].slot.index) <= n)
    && (n > 0 ==> exists v :: v in locs && locs[v].Stack? && SaturatingNext(locs[v].slot.index) == n)
  }

  predicate SameLocation(locs: map<VReg, Location>, v: VReg, w: VReg) {
    v in locs && w in locs && locs[v] == locs[w]
  }

  predicate Share(locs: map<VReg, Location>, x: LiveInterval, y: LiveInterval) {
    SameLocation(locs, x.v, y.v)
  }

  ghost predicate OverlapsApart(ivs: seq<LiveInterval>, locs: map<VReg, Location>) {
    forall i, j :: 0 <= i < j < |ivs| && ivs[i].Overlaps(ivs[j]) ==> !Share(locs, ivs[i], ivs[j])
  }

  ghost predicate ValidAssignment(ivs: seq<LiveInterval>, regs: PhysRegSet, maxRegs: nat, a: Assignment) {
    && a.locs.Keys == Values(ivs)
    && RegistersAllowed(regs, maxRegs, a.locs)
    && a.spills == |StackValues(a.locs)|
    && SlotCountExact(a.locs, a.stackSlots)
    && OverlapsApart(ivs, a.locs)
  }

  // ---------- the verifier ----------

  datatype AssignmentError =
    | WrongEntryCount
    | MissingValue(value: VReg)
    | UnknownValue(value: VReg)
    | UnavailableRegister(value: VReg, reg: PhysReg)
    | ReservedScratch(value: VReg, reg: PhysReg)
    | SpillCountOverflow
    | SpillCountMismatch(declared: U32, actual: U32)
    | StackSlotCountMismatch(declared: U32, expected: U32)
    | RegisterConflict(left: VReg, right: VReg, reg: PhysReg)
    | StackSlotConflict(left: VReg, right: VReg, slot: StackSlot)

  ghost predicate SharedBy(
      ivs: seq<LiveInterval>, locs: map<VReg, Location>, left: VReg, right: VReg, location: Location)
  {
    && left in locs && right in locs && locs[left] == locs[right] == location
    && exists i, j :: 0 <= i < j < |ivs| && ivs[i].v == left && ivs[j].v == right && ivs[i].Overlaps(ivs[j])
  }

  // Every error names something that is wrong with the assignment.
  ghost predicate Explains(
      ivs: seq<LiveInterval>, regs: PhysRegSet, maxRegs: nat, a: Assignment, error: AssignmentError)
  {
    match error
    case WrongEntryCount => |a.locs| != |Values(ivs)|
    case MissingValue(v) => v in Values(ivs) && v !in a.locs
    case UnknownValue(v) => v in a.locs && v !in Values(ivs)
    case UnavailableRegister(v, r) =>
      v in a.locs && a.locs[v] == Reg(r) && !AmongFirst(regs, maxRegs, r) && r !in regs.scratch
    case ReservedScratch(v, r) => v in a.locs && a.locs[v] == Reg(r) && r in regs.scratch
    case SpillCountOverflow => |StackValues(a.locs)| > MAX_U32
    case SpillCountMismatch(declared, actual) => declared == a.spills != actual == |StackValues(a.locs)|
    case StackSlotCountMismatch(declared, expected) =>
      declared == a.stackSlots != expected && SlotCountExact(a.locs, expected)
    case RegisterConflict(left, right, r) => SharedBy(ivs, a.locs, left, right, Reg(r))
    case StackSlotConflict(left, right, slot) => SharedBy(ivs, a.locs, left, right, Stack(slot))
  }

  method CheckDomain(ivs: seq<LiveInterval>, a: Assignment) returns (r: Option<AssignmentError>)
    ensures r.None? <==> a.locs.Keys == Values(ivs)
    ensures r.Some? ==> (r.value.WrongEntryCount? && |a.locs| != |Values(ivs)|) ||
                        (r.value.MissingValue? && r.value.value in Values(ivs) - a.locs.Keys) ||
                        (r.value.UnknownValue? && r.value.value in a.locs.Keys - Values(ivs))
  {
    var expected := Values(ivs);
    if |a.locs| != |expected| {
      return Some(WrongEntryCount);
    }
    var missing := expected - a.locs.Keys;
    if missing != {} {
      var v :| v in missing;
      return Some(MissingValue(v));
    }
    var unknown := a.locs.Keys - expected;
    if unknown != {} {
      var v :| v in unknown;
      return Some(UnknownValue(v));
    }
    r := None;
  }

  // What the scan has seen of the stack values in `done`.
  ghost predicate ScannedSlots(locs: map<VReg, Location>, done: set<VReg>, highest: Option<U32>) {
    && (highest.None? ==> forall v :: v in done ==> !(v in locs && locs[v].Stack?))
    && (highest.Some? ==>
        (forall v :: v in done && v in locs && locs[v].Stack? ==> locs[v].slot.index <= highest.value) &&
        (exists v :: v in done && v in locs && locs[v].Stack? && locs[v].slot.index == highest.value))
  }

  function StackWithin(locs: map<VReg, Location>, done: set<VReg>): set<VReg> {
    set v | v in done && v in locs && locs[v].Stack?
  }

  lemma StackWithinGrows(locs: map<VReg, Location>, done: set<VReg>, v: VReg)
    requires v in locs && v !in done
    ensures |StackWithin(locs, done + {v})| == |StackWithin(locs, done)| + (if locs[v].Stack? then 1 else 0)
  {
    if locs[v].Stack? {
      assert StackWithin(locs, done + {v}) == StackWithin(locs, done) + {v};
    } else {
      assert StackWithin(locs, done + {v}) == StackWithin(locs, done);
    }
  }

  lemma StackWithinIsSmaller(locs: map<VReg, Location>, done: set<VReg>)
    ensures |StackWithin(locs, done)| <= |StackValues(locs)|
  {
    var rest := StackValues(locs) - StackWithin(locs, done);
    assert StackValues(locs) == StackWithin(locs, done) + rest;
  }

  function RegisterError(regs: PhysRegSet, maxRegs: nat, v: VReg, location: Location): Option<AssignmentError> {
    match location
    case Stack(_) => None
    case Reg(register) =>
      if register in regs.scratch then Some(ReservedScratch(v, register))
      else if register !in Allowed(regs, maxRegs) then Some(UnavailableRegister(v, register))
      else None
  }

  lemma RegisterErrorExplains(
      ivs: seq<LiveInterval>, regs: PhysRegSet, maxRegs: nat, a: Assignment, error: AssignmentError)
    requires (exists v :: v in a.locs && RegisterError(regs, maxRegs, v, a.locs[v]) == Some(error)) ||
             (error == SpillCountOverflow && |StackValues(a.locs)| > MAX_U32)
    ensures Explains(ivs, regs, maxRegs, a, error)
  {
    if v :| v in a.locs && RegisterError(regs, maxRegs, v, a.locs[v]) == Some(error) {
      AllowedAreFirst(regs, maxRegs, a.locs[v].reg);
    }
  }

  ghost predicate NoRegisterErrors(regs: PhysRegSet, maxRegs: nat, locs: map<VReg, Location>, done: set<VReg>) {
    forall v :: v in done && v in locs ==> RegisterError(regs, maxRegs, v, locs[v]).None?
  }

  lemma NoRegisterErrorsMeaning(regs: PhysRegSet, maxRegs: nat, locs: map<VReg, Location>)
    ensures NoRegisterErrors(regs, maxRegs, locs, locs.Keys) <==> RegistersAllowed(regs, maxRegs, locs)
  {
    forall v | v in locs
      ensures RegisterError(regs, maxRegs, v, locs[v]).None? <==>
        (locs[v].Reg? ==> RegisterAllowed(regs, maxRegs, locs[v].reg))
    {
      if locs[v].Reg? {
        AllowedAreFirst(regs, maxRegs, locs[v].reg);
      }
    }
  }

  function Higher(highest: Option<U32>, slot: U32): U32 {
    if highest.Some? && highest.value > slot then highest.value else slot
  }

  lemma ScanStackSlot(locs: map<VReg, Location>, done: set<VReg>, highest: Option<U32>, v: VReg)
    requires ScannedSlots(locs, done, highest) && v in locs
    ensures locs[v].Stack? ==> ScannedSlots(locs, done + {v}, Some(Higher(highest, locs[v].slot.index)))
    ensures locs[v].Reg? ==> ScannedSlots(locs, done + {v}, highest)
  {
    if locs[v].Stack? && highest.Some? && highest.value > locs[v].slot.index {
      var w :| w in done && w in locs && locs[w].Stack? && locs[w].slot.index == highest.value;
      assert w in done + {v};
    } else if locs[v].Stack? {
      assert v in done + {v};
    } else if highest.Some? {
      var w :| w in done && w in locs && locs[w].Stack? && locs[w].slot.index == highest.value;
      assert w in done + {v};
    }
  }

  ghost predicate Scanned(
      regs: PhysRegSet, maxRegs: nat, locs: map<VReg, Location>, done: set<VReg>, spillCount: nat,
      highest: Option<U32>)
  {
    && spillCount == |StackWithin(locs, done)|
    && NoRegisterErrors(regs, maxRegs, locs, done)
    && ScannedSlots(locs, done, highest)
  }

  lemma ScanOne(
      regs: PhysRegSet, maxRegs: nat, locs: map<VReg, Location>, done: set<VReg>, spillCount: nat,
      highest: Option<U32>, v: VReg)
    requires Scanned(regs, maxRegs, locs, done, spillCount, highest)
    requires v in locs && v !in done && RegisterError(regs, maxRegs, v, locs[v]).None?
    ensures locs[v].Reg? ==> Scanned(regs, maxRegs, locs, done + {v}, spillCount, highest)
    ensures locs[v].Stack? ==> spillCount + 1 <= |StackValues(locs)|
    ensures locs[v].Stack? ==>
      Scanned(regs, maxRegs, locs, done + {v}, spillCount + 1, Some(Higher(highest, locs[v].slot.index)))
  {
    StackWithinGrows(locs, done, v);
    StackWithinIsSmaller(locs, done + {v});
    ScanStackSlot(locs, done, highest, v);
  }

  method ScanLocations(regs: PhysRegSet, maxRegs: nat, locs: map<VReg, Location>)
    returns (r: Result<U32, AssignmentError>, highest: Option<U32>)
    ensures r.Success? ==> NoRegisterErrors(regs, maxRegs, locs, locs.Keys) && r.value == |StackValues(locs)|
    ensures r.Failure? ==> !NoRegisterErrors(regs, maxRegs, locs, locs.Keys) || |StackValues(locs)| > MAX_U32
    ensures r.Failure? ==>
      (exists v :: v in locs && RegisterError(regs, maxRegs, v, locs[v]) == Some(r.error)) ||
      (r.error == SpillCountOverflow && |StackValues(locs)| > MAX_U32)
    ensures r.Success? ==> ScannedSlots(locs, locs.Keys, highest)
  {
    var spillCount: U32 := 0;
    highest := None;
    var rest := locs.Keys;
    ghost var done: set<VReg> := {};
    while rest != {}
      invariant rest == locs.Keys - done
      invariant done <= locs.Keys
      invariant Scanned(regs, maxRegs, locs, done, spillCount, highest)
      decreases rest
    {
      var v :| v in rest;
      var error := RegisterError(regs, maxRegs, v, locs[v]);
      if error.Some? {
        return Failure(error.value), highest;
      }
      ScanOne(regs, maxRegs, locs, done, spillCount, highest, v);
      if locs[v].Stack? {
        if spillCount == MAX_U32 {
          return Failure(SpillCountOverflow), highest;
        }
        spillCount := spillCount + 1;
        highest := Some(Higher(highest, locs[v].slot.index));
      }
      rest := rest - {v};
      done := done + {v};
    }
    assert done == locs.Keys;
    assert StackWithin(locs, done) == StackValues(locs);
    r := Success(spillCount);
  }

  lemma HighestDecidesSlotCount(locs: map<VReg, Location>, highest: Option<U32>, n: nat)
    requires ScannedSlots(locs, locs.Keys, highest)
    ensures SlotCountExact(locs, n) <==> n == (if highest.None? then 0 else SaturatingNext(highest.value))
  {
  }

  method CheckOverlaps(ivs: seq<LiveInterval>, locs: map<VReg, Location>) returns (r: Option<AssignmentError>)
    requires locs.Keys == Values(ivs)
    ensures r.None? <==> OverlapsApart(ivs, locs)
    ensures r.Some? ==>
      (r.value.RegisterConflict? && SharedBy(ivs, locs, r.value.left, r.value.right, Reg(r.value.reg))) ||
      (r.value.StackSlotConflict? && SharedBy(ivs, locs, r.value.left, r.value.right, Stack(r.value.slot)))
  {
    for i := 0 to |ivs|
      invariant forall k, j :: 0 <= k < i && k < j < |ivs| && ivs[k].Overlaps(ivs[j]) ==> !Share(locs, ivs[k], ivs[j])
    {
      var left := ivs[i];
      assert left.v in Values(ivs);
      for j := i + 1 to |ivs|
        invariant forall k :: i < k < j && left.Overlaps(ivs[k]) ==> !Share(locs, left, ivs[k])
      {
        var right := ivs[j];
        assert right.v in Values(ivs);
        if left.Overlaps(right) {
          match (locs[left.v], locs[right.v]) {
            case (Reg(leftRegister), Reg(rightRegister)) =>
              if leftRegister == rightRegister {
                return Some(RegisterConflict(left.v, right.v, leftRegister));
              }
            case (Stack(leftSlot), Stack(rightSlot)) =>
              if leftSlot == rightSlot {
                return Some(StackSlotConflict(left.v, right.v, leftSlot));
              }
            case _ =>
          }
        }
      }
    }
    r := None;
  }

  method VerifyAssignment(ivs: seq<LiveInterval>, regs: PhysRegSet, maxRegs: nat, a: Assignment)
    returns (r: Option<AssignmentError>)
    ensures r.None? <==> ValidAssignment(ivs, regs, maxRegs, a)
    ensures r.Some? ==> Explains(ivs, regs, maxRegs, a, r.value)
  {
    r := CheckDomain(ivs, a);
    if r.Some? {
      return;
    }
    var counted, highest := ScanLocations(regs, maxRegs, a.locs);
    NoRegisterErrorsMeaning(regs, maxRegs, a.locs);
    if counted.Failure? {
      RegisterErrorExplains(ivs, regs, maxRegs, a, counted.error);
      return Some(counted.error);
    }
    if a.spills != counted.value {
      return Some(SpillCountMismatch(a.spills, counted.value));
    }
    HighestDecidesSlotCount(a.locs, highest, a.stackSlots);
    var expectedSlots := if highest.None? then 0 else SaturatingNext(highest.value);
    if a.stackSlots != expectedSlots {
      return Some(StackSlotCountMismatch(a.stackSlots, expectedSlots));
    }
    r := CheckOverlaps(ivs, a.locs);
  }

  // ---------- register sets fit for code generation ----------

  datatype RegisterSetError =
    | DuplicateRegister(reg: PhysReg)
    | CalleeSavedRbx
    | TooFewScratch
    | ScratchOverlaps(reg: PhysReg)

  ghost predicate ReadyForCodegen(regs: PhysRegSet) {
    Distinct(regs.regs + regs.scratch) && Rbx !in regs.regs && Rbx !in regs.scratch && |regs.scratch| >= 2
  }

  // r is listed in `added` after it was listed before.
  predicate Repeats(before: seq<PhysReg>, added: seq<PhysReg>, r: PhysReg) {
    exists i :: 0 <= i < |added| && added[i] == r && r in before + added[..i]
  }

  ghost predicate RegisterSetErrorHolds(regs: PhysRegSet, error: RegisterSetError) {
    match error
    case DuplicateRegister(r) => Repeats([], regs.regs, r)
    case CalleeSavedRbx => Rbx in regs.regs + regs.scratch
    case TooFewScratch => |regs.scratch| < 2
    case ScratchOverlaps(r) => Repeats(regs.regs, regs.scratch, r)
  }

  // Adds registers to the set seen so far, rejecting a repetition and the callee-saved rbx.
  method AddRegisters(before: seq<PhysReg>, all: set<PhysReg>, added: seq<PhysReg>)
    returns (r: Result<set<PhysReg>, RegisterSetError>)
    requires Distinct(before) && forall x :: x in all <==> x in before
    ensures r.Success? <==> Distinct(before + added) && Rbx !in added
    ensures r.Success? ==> forall x :: x in r.value <==> x in before + added
    ensures r.Failure? ==> r.error == CalleeSavedRbx || r.error.DuplicateRegister?
    ensures r.Failure? && r.error == CalleeSavedRbx ==> Rbx in added
    ensures r.Failure? && r.error.DuplicateRegister? ==> Repeats(before, added, r.error.reg)
  {
    var seen := all;
    for i := 0 to |added|
      invariant forall x :: x in seen <==> x in before + added[..i]
      invariant Distinct(before + added[..i]) && Rbx !in added[..i]
    {
      var register := added[i];
      assert before + added[..i + 1] == before + added[..i] + [register];
      if register in seen {
        assert (before + added)[..|before| + i] == before + added[..i];
        ClashIsNotDistinct(before + added, |before| + i);
        return Failure(DuplicateRegister(register));
      }
      if register == Rbx {
        return Failure(CalleeSavedRbx);
      }
      seen := seen + {register};
    }
    assert added[..|added|] == added;
    r := Success(seen);
  }

  lemma ClashIsNotDistinct<T>(s: seq<T>, k: nat)
    requires k < |s| && s[k] in s[..k]
    ensures !Distinct(s)
  {
  }

  method ValidateForCodegen(regs: PhysRegSet) returns (r: Option<RegisterSetError>)
    ensures r.None? <==> ReadyForCodegen(regs)
    ensures r.Some? ==> RegisterSetErrorHolds(regs, r.value)
  {
    var all := AddRegisters([], {}, regs.regs);
    assert [] + regs.regs == regs.regs;
    if all.Failure? {
      PrefixIsDistinct(regs.regs, regs.scratch);
      return Some(all.error);
    }
    if |regs.scratch| < 2 {
      return Some(TooFewScratch);
    }
    var more := AddRegisters(regs.regs, all.value, regs.scratch);
    if more.Failure? {
      return Some(if more.error.DuplicateRegister? then ScratchOverlaps(more.error.reg) else more.error);
    }
    r := None;
  }

  lemma PrefixIsDistinct<T>(s: seq<T>, t: seq<T>)
    ensures Distinct(s + t) ==> Distinct(s)
  {
    if Distinct(s + t) {
      forall i, j | 0 <= i < j < |s|
        ensures s[i] != s[j]
      {
        assert (s + t)[i] == s[i] && (s + t)[j] == s[j];
      }
    }
  }

  lemma DistinctConcat<T>(s: seq<T>, t: seq<T>)
    requires Distinct(s) && Distinct(t) && forall x :: x in s && x in t ==> false
    ensures Distinct(s + t)
  {
    forall i, j | 0 <= i < j < |s + t|
      ensures (s + t)[i] != (s + t)[j]
    {
      assert i < |s| ==> (s + t)[i] in s;
      assert j >= |s| ==> (s + t)[j] in t;
    }
  }

  lemma DistinctSplitLast<T>(s: seq<T>)
    requires Distinct(s) && s != []
    ensures Distinct(s[..|s| - 1]) && s[|s| - 1] !in s[..|s| - 1]
    ensures forall x :: x in s <==> x in s[..|s| - 1] || x == s[|s| - 1]
  {
    assert s == s[..|s| - 1] + [s[|s| - 1]];
  }
}
