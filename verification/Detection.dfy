/**
 What the checks of the no man's land find: every stray write, and nothing else.
 */
module Detection {
  import opened Wrappers
  import opened Pages
  import opened Slots
  import opened Tiling
  import opened Heap
  import opened Invariants
  import opened Placing
  import opened Calls
  import opened Growth
  import opened Operations
  import opened Reallocation
  import opened Runs
  import opened Theorems

  predicate AllAre(p: Pages, lo: nat, hi: int, fill: Byte) {
    forall b: nat {:trigger b in p.mem} :: lo <= b < hi ==> b in p.mem && p.mem[b] == fill
  }

  predicate Readable(p: Pages, lo: nat, hi: int) {
    forall b: nat {:trigger b in p.mem} {:trigger b in p.open} :: lo <= b < hi ==> b in p.mem && b in p.open
  }

  lemma AllAreFirst(p: Pages, lo: nat, hi: int, fill: Byte)
    requires lo < hi && lo in p.mem
    ensures AllAre(p, lo, hi, fill) <==> p.mem[lo] == fill && AllAre(p, lo + 1, hi, fill)
  {}

  /** Scanning accessible bytes reports the fault exactly when some byte differs. */
  lemma {:induction false} ScanMeans(p: Pages, lo: nat, hi: int, fill: Byte, bad: Reason)
    requires Readable(p, lo, hi)
    ensures Scan(p, lo, hi, fill, bad) == (if AllAre(p, lo, hi, fill) then None else Some(bad))
    decreases hi - lo
  {
    if lo < hi {
      assert lo in p.mem && lo in p.open;
      AllAreFirst(p, lo, hi, fill);
      if p.mem[lo] == fill { ScanMeans(p, lo + 1, hi, fill, bad); }
    }
  }

  ghost predicate SlackIntact(c: Config, s: State) {
    forall i :: 0 <= i < |s.slots| && IsLive(s.slots[i]) ==> SlackOk(c, s, i)
  }

  /** The check of a live block reads accessible bytes only, and aborts exactly when
      a no man's land byte was overwritten, below or above the block. */
  lemma CheckSlackVerdict(c: Config, s: State, i: nat)
    requires Sound(c, s) && i < |s.slots| && IsLive(s.slots[i]) && LiveOpen(s, i)
    ensures CheckSlack(c, s.pages, s.slots[i]).None? <==> SlackOk(c, s, i)
    ensures CheckSlack(c, s.pages, s.slots[i]) in {None, Some(SlackBelow), Some(SlackAbove)}
  {
    var sl := s.slots[i];
    var p := s.pages;
    if sl.userSize > 0 {
      SlackReadable(c, s, i);
      ScanMeans(p, AccBegin(sl), sl.userAddress, c.slackFill, SlackBelow);
      ScanMeans(p, sl.userAddress + sl.userSize, AccEnd(sl), c.slackFill, SlackAbove);
      if AllAre(p, AccBegin(sl), sl.userAddress, c.slackFill)
         && AllAre(p, sl.userAddress + sl.userSize, AccEnd(sl), c.slackFill)
      {
        forall b: nat | InSlack(sl, b) ensures b in p.mem && p.mem[b] == c.slackFill {}
      }
      if SlackOk(c, s, i) {
        forall b: nat | AccBegin(sl) <= b < sl.userAddress ensures b in p.mem && p.mem[b] == c.slackFill {
          assert InSlack(sl, b);
        }
        forall b: nat | sl.userAddress + sl.userSize <= b < AccEnd(sl) ensures b in p.mem && p.mem[b] == c.slackFill {
          assert InSlack(sl, b);
        }
      }
    }
  }

  lemma SlackReadable(c: Config, s: State, i: nat)
    requires Sound(c, s) && i < |s.slots| && IsLive(s.slots[i]) && LiveOpen(s, i) && s.slots[i].userSize > 0
    ensures Readable(s.pages, AccBegin(s.slots[i]), s.slots[i].userAddress)
    ensures Readable(s.pages, s.slots[i].userAddress + s.slots[i].userSize, AccEnd(s.slots[i]))
  {
    assert SlotOk(c, s.slots[i]);
    LivePartCovered(c, s.slots[i]);
    SlotMapped(c, s, i);
  }

  /** Every byte of a block's slot is exactly one of: a byte of the block, a no man's
      land byte that is accessible and checked, or a dead byte. */
  lemma SlotPartition(c: Config, s: State, i: nat, b: nat)
    requires Between(c, s) && AllDead(c, s) && i < |s.slots| && IsLive(s.slots[i]) && s.slots[i].userSize > 0
    requires Covers(s.slots[i], b)
    ensures InUserBytes(s.slots[i], b) ==> b in s.pages.open && !InSlack(s.slots[i], b)
    ensures InSlack(s.slots[i], b) ==> b in s.pages.open
    ensures b !in s.pages.open <==> !InUserBytes(s.slots[i], b) && !InSlack(s.slots[i], b)
  {
    var sl := s.slots[i];
    assert LiveOpen(s, i) && SlotOk(c, sl);
    if !(AccBegin(sl) <= b < AccEnd(sl)) { assert MustBeDead(sl, b); }
  }

  // ---- corruption is caught ----

  /** An overwritten no man's land makes every later free, check and checkAll stop. */
  lemma CorruptionCaught(c: Config, s: State, i: nat, allocator: Allocator, site: Site)
    requires Between(c, s) && i < |s.slots| && IsLive(s.slots[i]) && !SlackOk(c, s, i)
    requires TypeOf(allocator) != Internal
    ensures Deallocate(c, s, s.slots[i].userAddress, allocator, site).Abort?
    ensures Check(c, s, s.slots[i].userAddress).Abort?
    ensures CheckAll(c, s).Abort?
  {
    OpenKeeps(c, s, Mode(false, false));
    var s1 := OpenTable(c, s).value;
    CorruptionStays(c, s, s1, i);
    CaughtOpen(c, s1, i, allocator, site);
    LiveUserNonzero(c, s, i);
    NotNullAddr(c, s, i);
  }

  lemma CorruptionStays(c: Config, s: State, s1: State, i: nat)
    requires Between(c, s) && CallOk(c, s, s1, Mode(false, false), -1, -1)
    requires s1 == s.(pages := s.pages.(open := s1.pages.open))
    requires i < |s.slots| && IsLive(s.slots[i]) && !SlackOk(c, s, i)
    ensures LiveOpen(s1, i) && !SlackOk(c, s1, i)
  {
    assert LiveOpen(s, i) && SlotOk(c, s.slots[i]);
    assert Kept(false, s, s1, i);
    LivePartCovered(c, s.slots[i]);
  }

  lemma CaughtOpen(c: Config, s: State, i: nat, allocator: Allocator, site: Site)
    requires Struct(c, s) && i < |s.slots| && IsLive(s.slots[i]) && LiveOpen(s, i) && !SlackOk(c, s, i)
    requires TypeOf(allocator) != Internal
    ensures DeallocateOpen(c, s, s.slots[i].userAddress, allocator, site).Abort?
    ensures CheckOpen(c, s, s.slots[i].userAddress).Abort?
    ensures CheckAllSlacks(c, s, 0).Some?
  {
    CheckSlackVerdict(c, s, i);
    LiveUserNonzero(c, s, i);
    LookupFinds(c, s, i);
    AllSlacksFinds(c, s, 0, i);
    if DeallocateOpen(c, s, s.slots[i].userAddress, allocator, site).Done? {
      var j := DeallocateOpenKeeps(c, s, s.slots[i].userAddress, allocator, site, Mode(false, false));
      UserAddressesDiffer(c, s, i, j);
    }
  }

  lemma {:induction false} AllSlacksFinds(c: Config, s: State, from: nat, i: nat)
    requires from <= i < |s.slots| && s.slots[i].state == IN_USE && CheckSlack(c, s.pages, s.slots[i]).Some?
    ensures CheckAllSlacks(c, s, from).Some?
    decreases i - from
  {
    if from < i { AllSlacksFinds(c, s, from + 1, i); }
  }

  // ---- corruption stays until it is caught ----

  /** Byte a of live block i's no man's land no longer holds the fill byte. */
  ghost predicate Corrupt(c: Config, s: State, i: nat, a: nat) {
    && i < |s.slots| && IsLive(s.slots[i]) && InSlack(s.slots[i], a)
    && a in s.pages.mem && s.pages.mem[a] != c.slackFill
  }

  lemma CorruptKept(c: Config, s: State, s': State, i: nat, a: nat, strict: bool)
    requires Sound(c, s) && Corrupt(c, s, i, a) && Kept(strict, s, s', i) && LiveOpen(s, i)
    ensures Corrupt(c, s', i, a) && !SlackOk(c, s', i) && s'.pages.mem[a] == s.pages.mem[a] && LiveOpen(s', i)
  {
    assert SlotOk(c, s.slots[i]);
    LivePartCovered(c, s.slots[i]);
    assert Covers(s.slots[i], a);
  }

  /** A realloc of the block gets no memory, or stops. */
  lemma CorruptRealloc(c: Config, s: State, t: Tls, prev: nat, size: nat, site: Site, i: nat, a: nat)
    requires Between(c, s) && Corrupt(c, s, i, a) && LiveKey(s, prev, EFA_REALLOC, i)
    requires Realloc(c, s, t, prev, size, site).Done?
    ensures size > 0 && Realloc(c, s, t, prev, size, site).value.1 == 0
  {
    OpenKeeps(c, s, Mode(false, false));
    var s1 := OpenTable(c, s).value;
    assert LiveOpen(s, i);
    CorruptKept(c, s, s1, i, a, false);
    LiveUserNonzero(c, s1, i);
    NotNullAddr(c, s1, i);
    CaughtOpen(c, s1, i, EFA_REALLOC, site);
    CorruptReallocOpen(c, s1, t, prev, size, site, i, a);
  }

  lemma CorruptReallocOpen(c: Config, s: State, t: Tls, prev: nat, size: nat, site: Site, i: nat, a: nat)
    requires Struct(c, s) && Corrupt(c, s, i, a) && LiveOpen(s, i) && LiveKey(s, prev, EFA_REALLOC, i)
    requires prev != 0 && prev != NullAddr(c, s) && DeallocateOpen(c, s, prev, EFA_REALLOC, site).Abort?
    requires ReallocOpen(c, s, t, prev, size, site).Done?
    ensures size > 0 && ReallocOpen(c, s, t, prev, size, site).value.1 == 0
  {
    if size > 0 {
      var r, m := ReallocRequest(t, size, None, site), Mode(false, false);
      var (s1, user) := Allocate(c, s, t, r, false).value;
      if user != 0 {
        var k := AllocateKeeps(c, s, t, r, false, m);
        CorruptMove(c, s, s1, user, prev, site, i, a, k, ChosenAlignment(t, r), r, m);
      }
    }
  }

  /** The free at the end of a realloc finds the damage. */
  lemma CorruptMove(c: Config, s: State, s1: State, user: nat, prev: nat, site: Site, i: nat, a: nat, k: nat, A: pos, r: Request, m: Mode)
    requires Struct(c, s) && Corrupt(c, s, i, a) && LiveOpen(s, i) && LiveKey(s, prev, EFA_REALLOC, i)
    requires AllocOk(c, s, s1, user, k, A, r, m) && user != 0 && UserRequest(r) && prev != 0
    ensures ReallocMove(c, s1, prev, user, r.size, site).Abort?
  {
    assert Kept(m.strict, s, s1, i);
    CorruptKept(c, s, s1, i, a, m.strict);
    if ReallocMove(c, s1, prev, user, r.size, site).Done? {
      var j, s2 := ReallocSteps(c, s1, prev, user, r.size, site);
      MoveContentsMeans(c, s1, prev, s1.slots[j].userSize, k, r.size);
      WrittenKeeps(c, s1, s2, k, m);
      CorruptKept(c, s1, s2, i, a, true);
      CaughtOpen(c, s2, i, EFA_REALLOC, site);
    }
  }

  /** An operation that returns, and does not write the damaged byte, leaves the block
      and the damage as they are. */
  lemma StepCorrupt(c: Config, s: State, op: Op, i: nat, a: nat)
    requires Between(c, s) && Corrupt(c, s, i, a) && UserOp(op) && !(op.Store? && op.a == a)
    requires Step(c, s, op).Done?
    ensures
      var s' := Step(c, s, op).value.0;
      Corrupt(c, s', i, a) && s'.slots[i] == s.slots[i] && s'.pages.mem[a] == s.pages.mem[a]
  {
    var m, s' := Mode(false, false), Step(c, s, op).value.0;
    assert LiveOpen(s, i);
    assert SlotOk(c, s.slots[i]);
    assert !SlackOk(c, s, i);
    if op.Store? {
      StepStore(c, s, op.a, op.v);
    } else {
      var drop := CorruptDrop(c, s, op, i, a);
      CorruptKept(c, s, s', i, a, false);
    }
  }

  /** The block is not the one that is freed. */
  lemma CorruptDrop(c: Config, s: State, op: Op, i: nat, a: nat) returns (drop: int)
    requires Between(c, s) && Corrupt(c, s, i, a) && UserOp(op) && !op.Store?
    requires Step(c, s, op).Done?
    ensures drop != i && Kept(false, s, Step(c, s, op).value.0, i)
  {
    var m, s' := Mode(false, false), Step(c, s, op).value.0;
    drop := -1;
    match op
    case DoAllocate(t, r) => var add := StepAllocate(c, s, t, r, m);
    case DoFree(p, allocator, site) =>
      drop := StepFree(c, s, p, allocator, site, m);
      if drop == i { CorruptionCaught(c, s, i, allocator, site); }
    case DoRealloc(t, prev, size, site) =>
      var add;
      drop, add := StepRealloc(c, s, t, prev, size, site, m);
      if drop == i { CorruptRealloc(c, s, t, prev, size, site, i, a); }
    case DoCheck(p) => StepCheck(c, s, p, m);
    case DoCheckAll => OpenClose(c, s, m);
  }

  predicate NoStoreTo(ops: seq<Op>, a: nat) {
    forall j :: 0 <= j < |ops| ==> !(ops[j].Store? && ops[j].a == a)
  }

  /** Over every run that does not write the damaged byte again: the block stays live
      with the same record, and the damage stays. */
  lemma {:induction false} RunCorrupt(c: Config, s: State, ops: seq<Op>, i: nat, a: nat)
    requires Between(c, s) && Corrupt(c, s, i, a) && UserOps(ops) && NoStoreTo(ops, a) && Run(c, s, ops).Done?
    ensures
      var s' := Run(c, s, ops).value.0;
      && Between(c, s') && Corrupt(c, s', i, a)
      && s'.slots[i] == s.slots[i] && s'.pages.mem[a] == s.pages.mem[a]
    decreases |ops|
  {
    if ops != [] {
      var s1 := Step(c, s, ops[0]).value.0;
      StepRefines(c, s, ops[0]);
      StepCorrupt(c, s, ops[0], i, a);
      RunCorrupt(c, s1, ops[1..], i, a);
    }
  }

  /** So whenever a later free or check of the block, or a check of everything, is
      reached, it stops the program. */
  lemma CaughtForever(c: Config, s: State, ops: seq<Op>, i: nat, a: nat, allocator: Allocator, site: Site)
    requires Between(c, s) && Corrupt(c, s, i, a) && UserOps(ops) && NoStoreTo(ops, a) && Run(c, s, ops).Done?
    requires TypeOf(allocator) != Internal
    ensures
      var s', p := Run(c, s, ops).value.0, s.slots[i].userAddress;
      && Step(c, s', DoFree(p, allocator, site)).Abort?
      && Step(c, s', DoCheck(p)).Abort?
      && Step(c, s', DoCheckAll).Abort?
  {
    RunCorrupt(c, s, ops, i, a);
    var s' := Run(c, s, ops).value.0;
    assert !SlackOk(c, s', i);
    CorruptionCaught(c, s', i, allocator, site);
  }

  /** A program that writes outside a block but inside its slot, anything but the fill
      byte, is stopped: at once by the hardware, or at the first free or check of that
      block or of everything, however much later, unless it writes that byte again. */
  lemma StrayWriteCaught(c: Config, s: State, i: nat, a: nat, v: Byte, ops: seq<Op>, allocator: Allocator, site: Site)
    requires Between(c, s) && i < |s.slots| && IsLive(s.slots[i]) && s.slots[i].userSize > 0
    requires Covers(s.slots[i], a) && !InUserBytes(s.slots[i], a) && AllDead(c, s) && v != c.slackFill
    requires TypeOf(allocator) != Internal && UserOps(ops) && NoStoreTo(ops, a)
    ensures
      var o := StoreByte(s, a, v);
      || o == Abort(SegFault)
      || (o.Done?
          && (Run(c, o.value, ops).Done? ==>
                var s', p := Run(c, o.value, ops).value.0, s.slots[i].userAddress;
                && Step(c, s', DoFree(p, allocator, site)).Abort?
                && Step(c, s', DoCheck(p)).Abort?
                && Step(c, s', DoCheckAll).Abort?))
  {
    SlotPartition(c, s, i, a);
    var o := StoreByte(s, a, v);
    if o.Done? {
      StepStore(c, s, a, v);
      assert Corrupt(c, o.value, i, a);
      if Run(c, o.value, ops).Done? { CaughtForever(c, o.value, ops, i, a, allocator, site); }
    }
  }
}
