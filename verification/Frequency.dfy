/**
 CHECK_FREQ: every so many allocations and frees the allocator scans all no man's
 land, so damage is found after a bounded number of calls that never name the block.
 */
module Frequency {
  import opened Wrappers
  import opened Slots
  import opened Heap
  import opened Invariants
  import opened Placing
  import opened Allocation
  import opened Deallocation
  import opened Calls
  import opened Growth
  import opened Operations
  import opened Reallocation
  import opened Initialisation
  import opened Runs
  import opened Theorems
  import opened Detection

  /** How far the counter is from the next scan. */
  predicate Ticking(c: Config, s: State) {
    0 <= s.checkFreqCounter < c.checkFreq
  }

  /** If `w`, byte a of live block i's no man's land is damaged. */
  ghost predicate Damaged(c: Config, s: State, i: nat, a: nat, w: bool) {
    w ==> Corrupt(c, s, i, a) && LiveOpen(s, i)
  }

  /** The counter is still in range, and if `w`, at least one check more has passed
      since without a scan. */
  predicate Ticked(c: Config, s: State, s': State, w: bool) {
    Ticking(c, s') && (w ==> s.checkFreqCounter < s'.checkFreqCounter)
  }

  lemma DamagedKept(c: Config, s: State, s': State, i: nat, a: nat, w: bool, m: Mode)
    requires Sound(c, s) && Damaged(c, s, i, a, w) && CallOk(c, s, s', m, -1, -1)
    ensures Damaged(c, s', i, a, w)
  {
    if w {
      assert Kept(m.strict, s, s', i);
      CorruptKept(c, s, s', i, a, m.strict);
    }
  }

  lemma DamageFails(c: Config, s: State, i: nat, a: nat)
    requires Sound(c, s) && Damaged(c, s, i, a, true)
    ensures CheckAllSlacks(c, s, 0).Some?
  {
    CheckSlackVerdict(c, s, i);
    assert !SlackOk(c, s, i);
    AllSlacksFinds(c, s, 0, i);
  }

  /** A check that returns did not scan a damaged block. */
  lemma CheckTicks(c: Config, s: State, s': State, i: nat, a: nat, w: bool)
    requires Sound(c, s) && Ticking(c, s) && Damaged(c, s, i, a, w) && CheckFreq(c, s) == Done(s')
    ensures Ticked(c, s, s', w) && s' == s.(checkFreqCounter := s'.checkFreqCounter)
    ensures Damaged(c, s', i, a, w)
  {
    if w { DamageFails(c, s, i, a); }
  }

  // ---- growth ----

  lemma GrowTicks(c: Config, s: State, g: State, i: nat, a: nat, w: bool)
    requires c.Valid() && Struct(c, s) && Ticking(c, s) && Damaged(c, s, i, a, w) && Grow(c, s) == Done(g)
    ensures Ticked(c, s, g, w)
  {
    GrowSteps(c, s, NewTableSize(c, s), g, i, a, w);
  }

  lemma GrowSteps(c: Config, s: State, newSize: nat, g: State, i: nat, a: nat, w: bool)
    requires c.Valid() && Struct(c, s) && Ticking(c, s) && Damaged(c, s, i, a, w)
    requires newSize == s.allocListSize + c.pageSize && GrowTo(c, s, newSize) == Done(g)
    ensures Ticked(c, s, g, w)
  {
    var s0 := CheckFreq(c, s).value;
    CheckTicks(c, s, s0, i, a, w);
    var o := TableCore(c, s0, newSize).value;
    SwitchTicks(c, s, newSize, s0, o.0, o.1, g, i, a, w);
  }

  lemma SwitchTicks(c: Config, s: State, newSize: nat, s0: State, s1: State, b: nat, g: State, i: nat, a: nat, w: bool)
    requires c.Valid() && Struct(c, s) && Damaged(c, s, i, a, w) && newSize == s.allocListSize + c.pageSize
    requires s0 == s.(checkFreqCounter := s0.checkFreqCounter) && Ticked(c, s, s0, w)
    requires CoreGives(c, s0, newSize, s1, b) && GrowSwitch(c, s1, b, s.allocList, newSize) == Done(g)
    ensures Ticked(c, s, g, w)
  {
    var m := Mode(false, false);
    var k, taken := GrowCore(c, s, newSize, s0, s1, b, m);
    assert s1.checkFreqCounter == s0.checkFreqCounter;
    if b != 0 {
      var t := GrowAllocates(c, s, s0, s1, b, k, taken, m);
      MovedTicks(c, s, newSize, s1, b, t, k, taken, g, i, a, w);
    }
  }

  lemma MovedTicks(c: Config, s: State, newSize: nat, s1: State, b: nat, t: nat, k: nat, taken: nat, g: State, i: nat, a: nat, w: bool)
    requires c.Valid() && Sound(c, s) && Damaged(c, s, i, a, w) && newSize == s.allocListSize + c.pageSize
    requires HalfGrown(c, s, s1, b, t, k, taken, Mode(false, false)) && b != 0 && Ticked(c, s, s1, w)
    requires GrowSwitch(c, s1, b, s.allocList, newSize) == Done(g)
    ensures Ticked(c, s, g, w)
  {
    var m := Mode(false, false);
    var sw := SwitchTable(c, s1, b, newSize).value;
    SwitchKeeps(c, s, newSize, s1, b, t, k, taken, sw, m);
    DamagedKept(c, s, sw, i, a, w, m);
    OldTableTicks(c, s, s1, sw, t, g, i, a, w);
  }

  lemma OldTableTicks(c: Config, s: State, s1: State, sw: State, t: nat, g: State, i: nat, a: nat, w: bool)
    requires c.Valid() && Sound(c, sw) && IsTableSlot(s1, t) && s1.allocList == s.allocList
    requires |s1.slots| <= |sw.slots| && sw.slots[t] == s1.slots[t]
    requires DeallocateAny(c, sw, s.allocList, EFA_INT_DEALLOC, GROW_SITE) == Done(g)
    requires Ticked(c, s, sw, w) && Damaged(c, sw, i, a, w)
    ensures Ticked(c, s, g, w)
  {
    var m := Mode(false, false);
    FindsOldTable(c, sw, t);
    OldTableFreed(c, sw, t, m);
    var s2 := CheckFreq(c, sw).value;
    CheckTicks(c, sw, s2, i, a, w);
  }

  // ---- whole calls ----

  /** The core does not check. */
  lemma CoreTicks(c: Config, s: State, need: nat, A: pos, r: Request, s': State, p: nat)
    requires Struct(c, s) && WellPosed(c, A, r) && need == SlotBytes(c, A, r.size)
    requires Core(c, s, need, A, r) == Done((s', p))
    ensures s'.checkFreqCounter == s.checkFreqCounter
  {
    var k, taken := CoreKeeps(c, s, need, A, r, Mode(false, false));
  }

  lemma MaybeGrowTicks(c: Config, s: State, s2: State, r: Request, i: nat, a: nat, w: bool)
    requires Struct(c, s) && Ticking(c, s) && Damaged(c, s, i, a, w)
    requires NeedsGrowth(s, r) ==> Grow(c, s) == Done(s2)
    requires !NeedsGrowth(s, r) ==> s2 == s
    ensures Ticking(c, s2) && (w ==> s.checkFreqCounter <= s2.checkFreqCounter)
  {
    if NeedsGrowth(s, r) { GrowTicks(c, s, s2, i, a, w); }
  }

  lemma CheckedSteps(c: Config, s: State, A: pos, r: Request, s': State, p: nat) returns (s1: State, s2: State, need: nat)
    requires c.Valid() && AllocateOpen(c, s, A, r) == Done((s', p))
    ensures CheckFreq(c, s) == Done(s1)
    ensures NeedsGrowth(s1, r) ==> Grow(c, s1) == Done(s2)
    ensures !NeedsGrowth(s1, r) ==> s2 == s1
    ensures need == SlotBytes(c, A, r.size) && Core(c, s2, need, A, r) == Done((s', p))
  {
    s1 := CheckFreq(c, s).value;
    s2 := if NeedsGrowth(s1, r) then Grow(c, s1).value else s1;
    need := SlotBytes(c, A, r.size);
  }

  /** From the periodic check of an allocation on. */
  lemma AllocateOpenTicks(c: Config, s: State, A: pos, r: Request, s': State, p: nat, i: nat, a: nat, w: bool)
    requires Struct(c, s) && UserRequest(r) && WellPosed(c, A, r) && AllocateOpen(c, s, A, r) == Done((s', p))
    requires Ticking(c, s) && Damaged(c, s, i, a, w)
    ensures Ticked(c, s, s', w)
  {
    var s1, s2, need := CheckedSteps(c, s, A, r, s', p);
    AllocateFromTicks(c, s, s1, s2, need, A, r, s', p, i, a, w);
  }

  lemma AllocateFromTicks(c: Config, s: State, s1: State, s2: State, need: nat, A: pos, r: Request, s': State, p: nat, i: nat, a: nat, w: bool)
    requires Struct(c, s) && UserRequest(r) && WellPosed(c, A, r) && need == SlotBytes(c, A, r.size)
    requires CheckFreq(c, s) == Done(s1) && Core(c, s2, need, A, r) == Done((s', p))
    requires NeedsGrowth(s1, r) ==> Grow(c, s1) == Done(s2)
    requires !NeedsGrowth(s1, r) ==> s2 == s1
    requires Ticking(c, s) && Damaged(c, s, i, a, w)
    ensures Ticked(c, s, s', w)
  {
    CheckTicks(c, s, s1, i, a, w);
    CounterKeeps(c, s, s1.checkFreqCounter, Mode(false, false));
    MaybeGrowTicks(c, s1, s2, r, i, a, w);
    MaybeGrow(c, s, s1, s2, r, Mode(false, false));
    CoreTicks(c, s2, need, A, r, s', p);
  }

  lemma AllocateTicks(c: Config, s: State, t: Tls, r: Request, closed: bool, s': State, p: nat, i: nat, a: nat, w: bool)
    requires Struct(c, s) && UserRequest(r) && (r.size > 0 || ZeroStrategy(c, r.allocator) == 3)
    requires Allocate(c, s, t, r, closed) == Done((s', p)) && Ticking(c, s) && Damaged(c, s, i, a, w)
    ensures Ticked(c, s, s', w)
  {
    if r.size > 0 { AlignmentPow2(c, t, r); }
    AllocateWithTicks(c, s, ChosenAlignment(t, r), r, closed, s', p, i, a, w);
  }

  lemma OpenedSteps(c: Config, s: State, A: pos, r: Request, closed: bool, s': State, p: nat) returns (s1: State, s2: State)
    requires c.Valid() && AllocateWith(c, s, A, r, closed) == Done((s', p))
    ensures if closed then OpenTable(c, s) == Done(s1) else s1 == s
    ensures AllocateOpen(c, s1, A, r) == Done((s2, p)) && s'.checkFreqCounter == s2.checkFreqCounter
  {
    s1 := if closed then OpenTable(c, s).value else s;
    s2 := AllocateOpen(c, s1, A, r).value.0;
  }

  lemma AllocateWithTicks(c: Config, s: State, A: pos, r: Request, closed: bool, s': State, p: nat, i: nat, a: nat, w: bool)
    requires Struct(c, s) && UserRequest(r) && WellPosed(c, A, r)
    requires AllocateWith(c, s, A, r, closed) == Done((s', p)) && Ticking(c, s) && Damaged(c, s, i, a, w)
    ensures Ticked(c, s, s', w)
  {
    var s1, s2 := OpenedSteps(c, s, A, r, closed, s', p);
    if closed {
      OpenKeeps(c, s, Mode(false, false));
      DamagedKept(c, s, s1, i, a, w, Mode(false, false));
    }
    AllocateOpenTicks(c, s1, A, r, s2, p, i, a, w);
  }

  /** From the periodic check of a free on. */
  lemma FreeOpenTicks(c: Config, s: State, p: nat, allocator: Allocator, site: Site, s': State, i: nat, a: nat, w: bool)
    requires Struct(c, s) && p != 0 && TypeOf(allocator) != Internal
    requires DeallocateOpen(c, s, p, allocator, site) == Done(s') && Ticking(c, s) && Damaged(c, s, i, a, w)
    ensures Ticked(c, s, s', w)
  {
    var s1 := CheckFreq(c, s).value;
    CheckTicks(c, s, s1, i, a, w);
    var j := FreeTarget(s1, p, allocator).value;
    FreeFinds(c, s, s1, p, allocator, j);
    ReleaseKeeps(c, s1, j, site, Mode(false, false));
  }

  lemma FreeTicks(c: Config, s: State, p: nat, allocator: Allocator, site: Site, s': State, i: nat, a: nat, w: bool)
    requires Struct(c, s) && TypeOf(allocator) != Internal && p != 0 && p != NullAddr(c, s)
    requires Deallocate(c, s, p, allocator, site) == Done(s') && Ticking(c, s) && Damaged(c, s, i, a, w)
    ensures Ticked(c, s, s', w)
  {
    OpenKeeps(c, s, Mode(false, false));
    var s1 := OpenTable(c, s).value;
    DamagedKept(c, s, s1, i, a, w, Mode(false, false));
    FreeOpenTicks(c, s1, p, allocator, site, DeallocateOpen(c, s1, p, allocator, site).value, i, a, w);
  }

  // ---- realloc ----

  /** As Ticked, but perhaps without a check. */
  predicate NotBehind(c: Config, s: State, s': State, w: bool) {
    Ticking(c, s') && (w ==> s.checkFreqCounter <= s'.checkFreqCounter)
  }

  lemma FreeAnyTicks(c: Config, s: State, p: nat, site: Site, s': State, i: nat, a: nat, w: bool)
    requires Struct(c, s) && DeallocateAny(c, s, p, EFA_REALLOC, site) == Done(s')
    requires Ticking(c, s) && Damaged(c, s, i, a, w)
    ensures NotBehind(c, s, s', w)
  {
    if p != 0 && p != NullAddr(c, s) { FreeOpenTicks(c, s, p, EFA_REALLOC, site, s', i, a, w); }
  }

  lemma AllocateMayTick(c: Config, s: State, t: Tls, r: Request, s': State, p: nat, i: nat, a: nat, w: bool)
    requires Struct(c, s) && UserRequest(r) && Allocate(c, s, t, r, false) == Done((s', p))
    requires Ticking(c, s) && Damaged(c, s, i, a, w)
    ensures NotBehind(c, s, s', w)
  {
    if r.size > 0 || ZeroStrategy(c, r.allocator) == 3 { AllocateTicks(c, s, t, r, false, s', p, i, a, w); }
  }

  /** The block a realloc does not free stays damaged until then. */
  lemma DamagedByMove(c: Config, s: State, s1: State, s2: State, user: nat, k: nat, A: pos, r: Request, i: nat, a: nat, w: bool)
    requires Struct(c, s) && AllocOk(c, s, s1, user, k, A, r, Mode(false, false)) && user != 0
    requires Written(s1, s2, k) && Damaged(c, s, i, a, w)
    ensures Damaged(c, s2, i, a, w)
  {
    if w {
      assert Kept(false, s, s1, i) && i != k;
      CorruptKept(c, s, s1, i, a, false);
      WrittenOthers(c, s1, s2, k);
      CorruptKept(c, s1, s2, i, a, true);
    }
  }

  lemma MoveHalf(c: Config, s1: State, k: nat, size: nat, block: nat, prev: nat, site: Site, s': State) returns (s2: State)
    requires Struct(c, s1) && k < |s1.slots| && IsLive(s1.slots[k]) && s1.slots[k].userSize == size
    requires s1.slots[k].userAddress == block && prev != 0 && ReallocMove(c, s1, prev, block, size, site) == Done(s')
    ensures Struct(c, s2) && Written(s1, s2, k) && DeallocateOpen(c, s2, prev, EFA_REALLOC, site) == Done(s')
  {
    var j;
    j, s2 := ReallocSteps(c, s1, prev, block, size, site);
    MoveContentsMeans(c, s1, prev, s1.slots[j].userSize, k, size);
    WrittenKeeps(c, s1, s2, k, Mode(false, false));
  }

  /** The copy and the free at the end of a realloc. */
  lemma MoveTicks(c: Config, s: State, s1: State, k: nat, A: pos, r: Request, block: nat, prev: nat, site: Site, s': State, i: nat, a: nat, w: bool)
    requires Struct(c, s) && AllocOk(c, s, s1, block, k, A, r, Mode(false, false)) && block != 0 && UserRequest(r)
    requires prev != 0 && ReallocMove(c, s1, prev, block, r.size, site) == Done(s')
    requires Ticking(c, s1) && Damaged(c, s, i, a, w)
    ensures NotBehind(c, s1, s', w)
  {
    var s2 := MoveHalf(c, s1, k, r.size, block, prev, site, s');
    DamagedByMove(c, s, s1, s2, block, k, A, r, i, a, w);
    FreeOpenTicks(c, s2, prev, EFA_REALLOC, site, s', i, a, w);
  }

  lemma MovedTo(c: Config, s: State, t: Tls, r: Request, s1: State, block: nat, prev: nat, site: Site, s': State, i: nat, a: nat, w: bool)
    requires Struct(c, s) && UserRequest(r) && r.size > 0 && Allocate(c, s, t, r, false) == Done((s1, block)) && block != 0
    requires prev != 0 && ReallocMove(c, s1, prev, block, r.size, site) == Done(s')
    requires Ticking(c, s1) && Damaged(c, s, i, a, w)
    ensures NotBehind(c, s1, s', w)
  {
    var k := AllocateKeeps(c, s, t, r, false, Mode(false, false));
    MoveTicks(c, s, s1, k, ChosenAlignment(t, r), r, block, prev, site, s', i, a, w);
  }

  lemma ReallocOpenTicks(c: Config, s: State, t: Tls, prev: nat, size: nat, site: Site, s': State, p: nat, i: nat, a: nat, w: bool)
    requires Struct(c, s) && ReallocOpen(c, s, t, prev, size, site) == Done((s', p))
    requires Ticking(c, s) && Damaged(c, s, i, a, w)
    ensures NotBehind(c, s, s', w)
  {
    if prev == 0 {
      AllocateMayTick(c, s, t, ReallocRequest(t, size, t.fill, site), s', p, i, a, w);
    } else if size == 0 {
      FreeAnyTicks(c, s, prev, site, s', i, a, w);
    } else {
      var r := ReallocRequest(t, size, None, site);
      var o := Allocate(c, s, t, r, false).value;
      AllocateMayTick(c, s, t, r, o.0, o.1, i, a, w);
      if o.1 != 0 { MovedTo(c, s, t, r, o.0, o.1, prev, site, s', i, a, w); }
    }
  }

  lemma ReallocTicks(c: Config, s: State, t: Tls, prev: nat, size: nat, site: Site, s': State, p: nat, i: nat, a: nat, w: bool)
    requires Struct(c, s) && Realloc(c, s, t, prev, size, site) == Done((s', p))
    requires Ticking(c, s) && Damaged(c, s, i, a, w)
    ensures NotBehind(c, s, s', w)
  {
    OpenKeeps(c, s, Mode(false, false));
    var s1 := OpenTable(c, s).value;
    DamagedKept(c, s, s1, i, a, w, Mode(false, false));
    var o := ReallocOpen(c, s1, t, prev, size, site).value;
    ReallocOpenTicks(c, s1, t, prev, size, site, o.0, o.1, i, a, w);
  }

  // ---- runs ----

  /** The operation makes at least one periodic check: an allocation that reaches the
      slots, or a free of anything but 0 and null_addr. */
  predicate Checks(c: Config, zero: nat, op: Op) {
    match op
    case DoAllocate(t, r) => r.size > 0 || ZeroStrategy(c, r.allocator) == 3
    case DoFree(a, allocator, site) => a != 0 && a != zero
    case _ => false
  }

  /** How many operations do. */
  function ChecksIn(c: Config, zero: nat, ops: seq<Op>): nat {
    if ops == [] then 0 else (if Checks(c, zero, ops[0]) then 1 else 0) + ChecksIn(c, zero, ops[1..])
  }

  lemma StepTicks(c: Config, s: State, op: Op, s': State, p: nat, i: nat, a: nat, w: bool)
    requires Struct(c, s) && UserOp(op) && Step(c, s, op) == Done((s', p)) && Ticking(c, s) && Damaged(c, s, i, a, w)
    ensures NotBehind(c, s, s', w) && (Checks(c, NullAddr(c, s), op) ==> Ticked(c, s, s', w))
  {
    match op
    case DoAllocate(t, r) => if Checks(c, NullAddr(c, s), op) { AllocateTicks(c, s, t, r, true, s', p, i, a, w); }
    case DoFree(q, allocator, site) =>
      if Checks(c, NullAddr(c, s), op) { FreeTicks(c, s, q, allocator, site, s', i, a, w); }
    case DoRealloc(t, prev, size, site) => ReallocTicks(c, s, t, prev, size, site, s', p, i, a, w);
    case _ =>
  }

  /** The counter stays in range over every run. */
  lemma {:induction false} RunTicks(c: Config, s: State, ops: seq<Op>)
    requires Between(c, s) && UserOps(ops) && Ticking(c, s) && Run(c, s, ops).Done?
    ensures Ticking(c, Run(c, s, ops).value.0)
    decreases |ops|
  {
    if ops != [] {
      var (s1, p) := Step(c, s, ops[0]).value;
      StepRefines(c, s, ops[0]);
      StepTicks(c, s, ops[0], s1, p, 0, 0, false);
      RunTicks(c, s1, ops[1..]);
    }
  }

  lemma StepNearer(c: Config, s: State, op: Op, s': State, p: nat, i: nat, a: nat)
    requires Between(c, s) && UserOp(op) && !(op.Store? && op.a == a) && Corrupt(c, s, i, a) && Ticking(c, s)
    requires Step(c, s, op) == Done((s', p))
    ensures Between(c, s') && Corrupt(c, s', i, a) && Ticking(c, s') && NullAddr(c, s') == NullAddr(c, s)
    ensures s.checkFreqCounter + (if Checks(c, NullAddr(c, s), op) then 1 else 0) <= s'.checkFreqCounter
  {
    assert LiveOpen(s, i);
    StepRefines(c, s, op);
    StepCorrupt(c, s, op, i, a);
    StepTicks(c, s, op, s', p, i, a, true);
  }

  /** While a block is damaged, every check that returns brings the next scan nearer. */
  lemma {:induction false} RunNearer(c: Config, s: State, ops: seq<Op>, i: nat, a: nat, zero: nat)
    requires Between(c, s) && UserOps(ops) && NoStoreTo(ops, a) && Corrupt(c, s, i, a) && Ticking(c, s)
    requires zero == NullAddr(c, s) && Run(c, s, ops).Done?
    ensures s.checkFreqCounter + ChecksIn(c, zero, ops) < c.checkFreq
    decreases |ops|
  {
    if ops != [] {
      var o := Step(c, s, ops[0]).value;
      StepNearer(c, s, ops[0], o.0, o.1, i, a);
      RunNearer(c, o.0, ops[1..], i, a, zero);
    }
  }

  /** CHECK_FREQ = n > 0: a damaged block is found after at most n allocations and
      frees, of whatever blocks: the program does not get through that many. */
  lemma FoundInTime(c: Config, s: State, ops: seq<Op>, i: nat, a: nat)
    requires Between(c, s) && UserOps(ops) && NoStoreTo(ops, a) && Corrupt(c, s, i, a) && Ticking(c, s)
    requires ChecksIn(c, NullAddr(c, s), ops) >= c.checkFreq
    ensures Run(c, s, ops).Abort?
  {
    if Run(c, s, ops).Done? { RunNearer(c, s, ops, i, a, NullAddr(c, s)); }
  }

  // ---- the start ----

  lemma InitTicks(c: Config, answers: seq<nat>, s: State)
    requires c.Valid() && Init(c, answers) == Done(s) && c.checkFreq > 0
    ensures Ticking(c, s)
  {}

  lemma FirstTicks(c: Config, s: State, t: Tls, r: Request, s': State)
    requires Struct(c, s) && UserRequest(r) && r.size > 0 && Ticking(c, s) && FirstCalls(c, s, t, r) == Done(s')
    ensures Ticking(c, s')
  {
    var s1, p := CallsReturn(c, s, t, r, s');
    AllocateTicks(c, s, t, r, true, s1, p, 0, 0, false);
    var k := AllocateKeeps(c, s, t, r, true, Mode(false, false));
    if p != 0 && p != NullAddr(c, s1) { FreeTicks(c, s1, p, EFA_FREE, UNKNOWN_SITE, s', 0, 0, false); }
  }

  /** The program starts with the counter in range. */
  lemma BootTicks(c: Config, t: Tls, answers: seq<nat>, s: State)
    requires c.Valid() && c.checkFreq > 0 && Boot(c, t, answers) == Done(s)
    ensures Ticking(c, s)
  {
    BootBoots(c, t, answers);
    var s0, r :| BootStep(c, t, answers, s0, r, s);
    InitKeeps(c, answers);
    InitTicks(c, answers, s0);
    FirstTicks(c, s0, t, r, s);
  }
}
