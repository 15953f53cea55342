/**
 The guarantees over whole runs.
 */
module Theorems {
  import opened Bits
  import opened Placement
  import opened Wrappers
  import opened Pages
  import opened Slots
  import opened Tiling
  import opened Heap
  import opened Invariants
  import opened Placing
  import opened Calls
  import opened Operations
  import opened Initialisation
  import opened Runs

  predicate UserOps(ops: seq<Op>) {
    forall i :: 0 <= i < |ops| ==> UserOp(ops[i])
  }

  predicate ModestOps(c: Config, ops: seq<Op>) {
    forall i :: 0 <= i < |ops| ==> ModestOp(c, ops[i])
  }

  // ---- every reachable state ----

  /** Every completed run keeps the invariant between calls, and never loses slots as
      long as no mmap call fails. */
  lemma {:induction false} RunKeeps(c: Config, s: State, ops: seq<Op>)
    requires Between(c, s) && UserOps(ops) && Run(c, s, ops).Done?
    ensures
      var (s', ps) := Run(c, s, ops).value;
      Between(c, s') && StepOk(c, s, s') && |ps| == |ops|
    decreases |ops|
  {
    if ops != [] {
      StepRefines(c, s, ops[0]);
      var (s1, p) := Step(c, s, ops[0]).value;
      RunKeeps(c, s1, ops[1..]);
    }
  }

  /** A run of abstract operations with the pointers ps. */
  ghost predicate AbstractRun(zero: nat, m: map<nat, Block>, ops: seq<Op>, ps: seq<nat>, m': map<nat, Block>)
    decreases |ops|
  {
    if ops == [] then m' == m
    else
      |ps| == |ops| &&
      exists m1 :: AbstractStep(zero, m, ops[0], ps[0], m1) && AbstractRun(zero, m1, ops[1..], ps[1..], m')
  }

  /** s' and the pointers ps are what the abstract program does from s. */
  ghost predicate RefinedBy(c: Config, s: State, ops: seq<Op>, s': State, ps: seq<nat>) {
    AbstractRun(NullAddr(c, s), LiveMap(s), ops, ps, LiveMap(s'))
  }

  lemma RefinedCons(c: Config, s: State, ops: seq<Op>, s1: State, p: nat, s': State, ps: seq<nat>)
    requires ops != [] && |ps| == |ops| - 1 && s1.nullBlock == s.nullBlock
    requires AbstractStep(NullAddr(c, s), LiveMap(s), ops[0], p, LiveMap(s1))
    requires RefinedBy(c, s1, ops[1..], s', ps)
    ensures RefinedBy(c, s, ops, s', [p] + ps)
  {
    AbstractCons(NullAddr(c, s), LiveMap(s), ops, p, LiveMap(s1), ps, LiveMap(s'));
  }

  lemma AbstractCons(zero: nat, m: map<nat, Block>, ops: seq<Op>, p: nat, m1: map<nat, Block>, ps: seq<nat>, m': map<nat, Block>)
    requires ops != [] && |ps| == |ops| - 1
    requires AbstractStep(zero, m, ops[0], p, m1) && AbstractRun(zero, m1, ops[1..], ps, m')
    ensures AbstractRun(zero, m, ops, [p] + ps, m')
  {
    var all := [p] + ps;
    assert all[0] == p && all[1..] == ps;
  }

  /** The slot table refines a plain map from live pointers to (size, family) over
      every run. */
  lemma {:induction false} RunRefines(c: Config, s: State, ops: seq<Op>)
    requires Between(c, s) && UserOps(ops) && Run(c, s, ops).Done?
    ensures RefinedBy(c, s, ops, Run(c, s, ops).value.0, Run(c, s, ops).value.1)
    decreases |ops|
  {
    if ops != [] {
      var (s1, p) := Step(c, s, ops[0]).value;
      var (s', ps) := Run(c, s1, ops[1..]).value;
      StepRefines(c, s, ops[0]);
      RunKeeps(c, s1, ops[1..]);
      RunRefines(c, s1, ops[1..]);
      RefinedCons(c, s, ops, s1, p, s', ps);
    }
  }

  /** An mmap that gives page 1 and then page 4 makes initialisation succeed. */
  lemma InitSucceeds(c: Config, rest: seq<nat>)
    requires c.Valid() && c.pageSize <= SIZE_MAX / 16
    ensures Init(c, [c.pageSize, 4 * c.pageSize] + rest).Done?
  {
    var P := c.pageSize;
    var answers := [P, 4 * P] + rest;
    var p0 := Pages(map[], {}, answers, 0);
    assert answers[0] == P && answers[1..][0] == 4 * P;
    DivModUnique(P, P, 1, 0);
    DivModUnique(2 * P, P, 2, 0);
    DivModUnique(4 * P, P, 4, 0);
    InitSizeMeans(c);
    AlignUpMeans(if MEMORY_CREATION_SIZE < P then P else MEMORY_CREATION_SIZE, P);
    WholePages(P, P, 2 * P);
    AlignUpFixed(2 * P, P);
    var p1 := Create(p0, P, 2 * P).0;
    NullBlockPages(c, p0, p1, P);
    var p2 := Deny(p1, P, P, 2 * P).value;
    WholePages(P, 4 * P, InitSize(c));
    AlignUpFixed(InitSize(c), P);
    FirstChunkPages(c, p2, P, Create(p2, P, InitSize(c)).0, 4 * P);
  }

  /** The invariants are not empty: every configuration has a state between calls that
      satisfies them all. */
  lemma StatesExist(c: Config) returns (s: State)
    requires c.Valid() && c.pageSize <= SIZE_MAX / 16
    ensures Between(c, s) && AllDead(c, s) && (c.SlotsPerPage() >= 7 ==> Supplied(c, s))
  {
    var answers := [c.pageSize, 4 * c.pageSize] + [];
    InitSucceeds(c, []);
    InitKeeps(c, answers);
    s := AfterInit(c, Init(c, answers).value);
  }

  lemma AfterInit(c: Config, s0: State) returns (s: State)
    requires Struct(c, s0) && AllDead(c, s0) && (c.SlotsPerPage() >= 7 ==> Supplied(c, s0))
    requires forall i :: 0 <= i < |s0.slots| ==> NoUser(s0.slots[i])
    ensures Between(c, s) && AllDead(c, s) && (c.SlotsPerPage() >= 7 ==> Supplied(c, s))
    ensures s == s0.(pages := s0.pages.(open := s.pages.open))
  {
    CloseKeeps(c, s0, Mode(true, false));
    s := CloseTable(c, s0).value;
    forall i | 0 <= i < |s.slots| ensures LiveOpen(s, i) { assert NoUser(s0.slots[i]); }
  }

  /** The program starts in a state that satisfies everything. */
  lemma BootKeeps(c: Config, t: Tls, answers: seq<nat>)
    requires c.Valid() && Boot(c, t, answers).Done?
    ensures
      var s := Boot(c, t, answers).value;
      && Between(c, s)
      && (StrictRequest(c, t, FirstRequest(t)) ==> AllDead(c, s))
      && (c.SlotsPerPage() >= 7 && s.pages.failed == 0 ==> Supplied(c, s))
  {
    BootBoots(c, t, answers);
    BootsKeep(c, t, answers, Boot(c, t, answers).value);
  }

  lemma BootsKeep(c: Config, t: Tls, answers: seq<nat>, s: State)
    requires c.Valid() && Boots(c, t, answers, s)
    ensures Between(c, s)
    ensures StrictRequest(c, t, FirstRequest(t)) ==> AllDead(c, s)
    ensures c.SlotsPerPage() >= 7 && s.pages.failed == 0 ==> Supplied(c, s)
  {
    var s0, r :| BootStep(c, t, answers, s0, r, s);
    InitKeeps(c, answers);
    BootCalls(c, s0, t, r, s);
  }

  lemma BootCalls(c: Config, s0: State, t: Tls, r: Request, s2: State)
    requires c.Valid() && Struct(c, s0) && AllLiveOpen(s0) && AllDead(c, s0) && s0.pages.failed == 0
    requires c.SlotsPerPage() >= 7 ==> Supplied(c, s0)
    requires UserRequest(r) && r.size > 0 && FirstCalls(c, s0, t, r) == Done(s2)
    ensures Between(c, s2)
    ensures StrictRequest(c, t, r) ==> AllDead(c, s2)
    ensures c.SlotsPerPage() >= 7 && s2.pages.failed == 0 ==> Supplied(c, s2)
  {
    var s1, p := CallsReturn(c, s0, t, r, s2);
    FirstMalloc(c, s0, s1, p, t, r);
    FirstFree(c, s1, s2, p);
  }

  lemma FirstMalloc(c: Config, s0: State, s1: State, p: nat, t: Tls, r: Request)
    requires c.Valid() && Struct(c, s0) && AllLiveOpen(s0) && AllDead(c, s0) && s0.pages.failed == 0
    requires c.SlotsPerPage() >= 7 ==> Supplied(c, s0)
    requires UserRequest(r) && r.size > 0 && Allocate(c, s0, t, r, true) == Done((s1, p))
    ensures Between(c, s1) && (StrictRequest(c, t, r) ==> AllDead(c, s1))
    ensures c.SlotsPerPage() >= 7 && s1.pages.failed == 0 ==> Supplied(c, s1)
  {
    var m := Mode(StrictRequest(c, t, r), false);
    var k := AllocateKeeps(c, s0, t, r, true, m);
    BootMalloc(c, s0, s1, p, k, t, r, m);
  }

  lemma FirstFree(c: Config, s1: State, s2: State, p: nat)
    requires c.Valid() && Between(c, s1) && Deallocate(c, s1, p, EFA_FREE, UNKNOWN_SITE) == Done(s2)
    ensures Between(c, s2) && (AllDead(c, s1) ==> AllDead(c, s2))
    ensures s1.pages.failed == s2.pages.failed && (Supplied(c, s1) ==> Supplied(c, s2))
  {
    var i := DeallocateKeeps(c, s1, p, EFA_FREE, UNKNOWN_SITE, Mode(true, false));
    BootFree(c, s1, s2, p, i, Mode(true, false));
  }

  lemma BootMalloc(c: Config, s0: State, s1: State, p: nat, k: nat, t: Tls, r: Request, m: Mode)
    requires Struct(c, s0) && AllLiveOpen(s0) && AllDead(c, s0) && s0.pages.failed == 0
    requires AllocOk(c, s0, s1, p, k, ChosenAlignment(t, r), r, m) && UserRequest(r) && TableClosed(s1)
    requires c.SlotsPerPage() >= 7 ==> Supplied(c, s0)
    ensures Between(c, s1) && (m.strict ==> AllDead(c, s1))
    ensures c.SlotsPerPage() >= 7 && s1.pages.failed == 0 ==> Supplied(c, s1)
  {
    if p != 0 { NewBlockOpen(c, s1, k, ChosenAlignment(t, r), r); }
    CallLiveOpen(c, s0, s1, m, -1, if p == 0 then -1 else k);
  }

  lemma BootFree(c: Config, s1: State, s2: State, p: nat, i: nat, m: Mode)
    requires Between(c, s1) && TableClosed(s2)
    requires if p == 0 || p == NullAddr(c, s1) then s2 == s1
             else i < |s1.slots| && IsLive(s1.slots[i]) && FreeOk(c, s1, s2, i, m)
    ensures Between(c, s2) && (m.strict && AllDead(c, s1) ==> AllDead(c, s2))
    ensures s1.pages.failed == s2.pages.failed && (Supplied(c, s1) ==> Supplied(c, s2))
  {
    if p != 0 && p != NullAddr(c, s1) { CallLiveOpen(c, s1, s2, m, i, -1); }
  }

  // ---- the red zone ----

  /** Block i of positive size: its bytes are accessible, and a whole page next to it
      is mapped and dead: from protAddress, less than a page behind the block, or
      ending exactly at the block. */
  ghost predicate RedZone(c: Config, s: State, i: nat) {
    && i < |s.slots|
    && var sl := s.slots[i];
    && (forall b: nat :: InUserBytes(sl, b) ==> b in s.pages.open && b in s.pages.mem)
    && (if sl.protAddress < sl.userAddress then
          forall b: nat :: sl.userAddress - c.pageSize <= b < sl.userAddress ==>
            b in s.pages.mem && b !in s.pages.open
        else
          && sl.protAddress - (sl.userAddress + sl.userSize) < c.pageSize
          && forall b: nat :: sl.protAddress <= b < sl.protAddress + c.pageSize ==>
               b in s.pages.mem && b !in s.pages.open)
  }

  lemma RedZoneHolds(c: Config, s: State, i: nat)
    requires Between(c, s) && AllDead(c, s) && i < |s.slots| && IsLive(s.slots[i]) && s.slots[i].userSize > 0
    ensures RedZone(c, s, i)
  {
    var sl := s.slots[i];
    assert LiveOpen(s, i) && SlotOk(c, sl);
    UserBytesInside(c, sl);
    SlotMapped(c, s, i);
    forall b: nat | Covers(sl, b) && !(AccBegin(sl) <= b < AccEnd(sl)) ensures b !in s.pages.open {
      assert MustBeDead(sl, b);
    }
    if sl.protAddress < sl.userAddress {
      forall b: nat | sl.userAddress - c.pageSize <= b < sl.userAddress
        ensures b in s.pages.mem && b !in s.pages.open
      {
        assert Covers(sl, b);
      }
    } else {
      forall b: nat | sl.protAddress <= b < sl.protAddress + c.pageSize
        ensures b in s.pages.mem && b !in s.pages.open
      {
        assert Covers(sl, b);
      }
    }
  }

  lemma StepDead(c: Config, s: State, op: Op)
    requires Between(c, s) && AllDead(c, s) && UserOp(op) && ModestOp(c, op) && Step(c, s, op).Done?
    ensures AllDead(c, Step(c, s, op).value.0)
  {
    match op
    case Store(a, v) => StepStore(c, s, a, v);
    case _ => var drop, add := StepCall(c, s, op, Mode(true, false));
  }

  /** The red zone of every live block, the dead pages of all protected memory and
      the null block survive every run of modest operations. */
  lemma {:induction false} RunRedZone(c: Config, s: State, ops: seq<Op>)
    requires Between(c, s) && AllDead(c, s) && UserOps(ops) && ModestOps(c, ops) && Run(c, s, ops).Done?
    ensures
      var (s', ps) := Run(c, s, ops).value;
      && Between(c, s') && AllDead(c, s')
      && forall i :: 0 <= i < |s'.slots| && IsLive(s'.slots[i]) && s'.slots[i].userSize > 0 ==> RedZone(c, s', i)
    decreases |ops|
  {
    if ops == [] {
      forall i | 0 <= i < |s.slots| && IsLive(s.slots[i]) && s.slots[i].userSize > 0 ensures RedZone(c, s, i) {
        RedZoneHolds(c, s, i);
      }
    } else {
      StepRefines(c, s, ops[0]);
      StepDead(c, s, ops[0]);
      RunRedZone(c, Step(c, s, ops[0]).value.0, ops[1..]);
    }
  }

  // ---- freed memory stays dead, pointers are never reused ----

  /** PROTECT_FREE < 0, no MAX_ALLOC limit, and no mmap call fails in the run. */
  predicate KeepsEverything(c: Config) {
    c.protectFree < 0 && c.maxAlloc <= 0
  }

  /** Slot i is protected and no byte of it is accessible. */
  ghost predicate DeadSlot(s: State, i: nat) {
    && i < |s.slots| && IsProtected(s.slots[i])
    && forall b: nat :: Covers(s.slots[i], b) ==> b in s.pages.mem && b !in s.pages.open
  }

  /** Pointer a belongs to a live block or to protected memory. */
  ghost predicate Taken(s: State, a: nat) {
    exists i :: 0 <= i < |s.slots| && Owned(Mode(true, true), s.slots[i]) && s.slots[i].userAddress == a
  }

  lemma ProtectedIsDead(c: Config, s: State, i: nat)
    requires Between(c, s) && AllDead(c, s) && i < |s.slots| && IsProtected(s.slots[i])
    ensures DeadSlot(s, i)
  {
    SlotMapped(c, s, i);
    forall b: nat | Covers(s.slots[i], b) ensures b !in s.pages.open { assert MustBeDead(s.slots[i], b); }
  }

  /** One step keeps every protected slot, keeps every pointer taken, and returns a
      pointer that was not taken. */
  lemma StepForever(c: Config, s: State, op: Op)
    requires Between(c, s) && AllDead(c, s) && UserOp(op) && ModestOp(c, op) && Step(c, s, op).Done?
    requires KeepsEverything(c) && Step(c, s, op).value.0.pages.failed == s.pages.failed
    ensures
      var (s', p) := Step(c, s, op).value;
      && (forall i :: 0 <= i < |s.slots| && IsProtected(s.slots[i]) ==> i < |s'.slots| && s'.slots[i] == s.slots[i])
      && (forall a :: Taken(s, a) ==> Taken(s', a))
      && (p != 0 && p != NullAddr(c, s) ==> !Taken(s, p) && Taken(s', p))
  {
    var m := Mode(true, true);
    var (s', p) := Step(c, s, op).value;
    if op.Store? {
      StepStore(c, s, op.a, op.v);
      assert s'.slots == s.slots;
      forall a | Taken(s, a) ensures Taken(s', a) {
        var i :| 0 <= i < |s.slots| && Owned(m, s.slots[i]) && s.slots[i].userAddress == a;
        assert Owned(m, s'.slots[i]);
      }
    } else {
      var drop, add := StepCall(c, s, op, m);
      ChangedForever(c, s, s', p, m, drop, add);
    }
  }

  lemma ChangedForever(c: Config, s: State, s': State, p: nat, m: Mode, drop: int, add: int)
    requires Changed(c, s, s', p, m, drop, add) && KeepsEverything(c) && m == Mode(true, true)
    ensures forall i :: 0 <= i < |s.slots| && IsProtected(s.slots[i]) ==> i < |s'.slots| && s'.slots[i] == s.slots[i]
    ensures forall a :: Taken(s, a) ==> Taken(s', a)
    ensures p != 0 && p != NullAddr(c, s) ==> !Taken(s, p) && Taken(s', p)
  {
    forall i | 0 <= i < |s.slots| && IsProtected(s.slots[i]) ensures i < |s'.slots| && s'.slots[i] == s.slots[i] {
      assert i != drop;
      assert Kept(m.strict, s, s', i);
    }
    forall a | Taken(s, a) ensures Taken(s', a) {
      var i :| 0 <= i < |s.slots| && Owned(m, s.slots[i]) && s.slots[i].userAddress == a;
      if i != drop { assert Kept(m.strict, s, s', i); }
      assert Owned(m, s'.slots[i]) && s'.slots[i].userAddress == a;
    }
    if p != 0 && p != NullAddr(c, s) {
      assert add != -1;
      assert Owned(m, s'.slots[add]) && s'.slots[add].userAddress == p;
    }
  }

  /** What a run from s to s' with the pointers ps keeps. */
  ghost predicate KeptForever(c: Config, s: State, s': State, ps: seq<nat>) {
    && s'.nullBlock == s.nullBlock
    && (forall i :: 0 <= i < |s.slots| && IsProtected(s.slots[i]) ==> i < |s'.slots| && s'.slots[i] == s.slots[i])
    && (forall a :: Taken(s, a) ==> Taken(s', a))
    && (forall j :: 0 <= j < |ps| && ps[j] != 0 && ps[j] != NullAddr(c, s) ==> !Taken(s, ps[j]) && Taken(s', ps[j]))
  }

  lemma ForeverTrans(c: Config, s: State, s1: State, s': State, p: nat, ps: seq<nat>)
    requires KeptForever(c, s, s1, [p]) && KeptForever(c, s1, s', ps)
    ensures KeptForever(c, s, s', [p] + ps)
  {
    assert [p][0] == p;
    forall j | 0 <= j < |[p] + ps| && ([p] + ps)[j] != 0 && ([p] + ps)[j] != NullAddr(c, s)
      ensures !Taken(s, ([p] + ps)[j]) && Taken(s', ([p] + ps)[j])
    {
      if j > 0 { assert ([p] + ps)[j] == ps[j - 1]; }
    }
  }

  lemma {:induction false} RunForever(c: Config, s: State, ops: seq<Op>)
    requires Between(c, s) && AllDead(c, s) && UserOps(ops) && ModestOps(c, ops) && Run(c, s, ops).Done?
    requires KeepsEverything(c) && Run(c, s, ops).value.0.pages.failed == s.pages.failed
    ensures
      var (s', ps) := Run(c, s, ops).value;
      Between(c, s') && AllDead(c, s') && |ps| == |ops| && KeptForever(c, s, s', ps)
    decreases |ops|
  {
    if ops != [] {
      var (s1, p) := Step(c, s, ops[0]).value;
      var (s', ps) := Run(c, s1, ops[1..]).value;
      StepRefines(c, s, ops[0]);
      StepDead(c, s, ops[0]);
      RunKeeps(c, s1, ops[1..]);
      StepForever(c, s, ops[0]);
      RunForever(c, s1, ops[1..]);
      ForeverTrans(c, s, s1, s', p, ps);
    }
  }

  /** With unlimited protection, every slot that is protected at some time is the same
      slot, protected and dead, at every later time. */
  lemma FreedStaysDead(c: Config, s: State, ops: seq<Op>, i: nat)
    requires Between(c, s) && AllDead(c, s) && UserOps(ops) && ModestOps(c, ops) && Run(c, s, ops).Done?
    requires KeepsEverything(c) && Run(c, s, ops).value.0.pages.failed == s.pages.failed
    requires i < |s.slots| && IsProtected(s.slots[i])
    ensures
      var s' := Run(c, s, ops).value.0;
      DeadSlot(s', i) && s'.slots[i] == s.slots[i]
  {
    RunForever(c, s, ops);
    ProtectedIsDead(c, Run(c, s, ops).value.0, i);
  }

  /** Pointers other than 0 and `zero` occur only once. */
  ghost predicate Distinct(ps: seq<nat>, zero: nat) {
    forall j, k :: 0 <= j < k < |ps| && ps[j] != 0 && ps[j] != zero ==> ps[j] != ps[k]
  }

  lemma PrependDistinct(p: nat, ps: seq<nat>, zero: nat)
    requires Distinct(ps, zero)
    requires p != 0 && p != zero ==> forall k :: 0 <= k < |ps| ==> ps[k] != p
    ensures Distinct([p] + ps, zero)
  {
    var all := [p] + ps;
    forall j, k | 0 <= j < k < |all| && all[j] != 0 && all[j] != zero ensures all[j] != all[k] {
      assert all[k] == ps[k - 1];
      if j > 0 { assert all[j] == ps[j - 1]; }
    }
  }

  /** ... and no pointer backed by a slot is handed out twice in a run. */
  lemma {:induction false} NeverReissued(c: Config, s: State, ops: seq<Op>)
    requires Between(c, s) && AllDead(c, s) && UserOps(ops) && ModestOps(c, ops) && Run(c, s, ops).Done?
    requires KeepsEverything(c) && Run(c, s, ops).value.0.pages.failed == s.pages.failed
    ensures Distinct(Run(c, s, ops).value.1, NullAddr(c, s))
    decreases |ops|
  {
    if ops != [] {
      var (s1, p) := Step(c, s, ops[0]).value;
      var (s', ps) := Run(c, s1, ops[1..]).value;
      StepRefines(c, s, ops[0]);
      StepDead(c, s, ops[0]);
      RunKeeps(c, s1, ops[1..]);
      StepForever(c, s, ops[0]);
      RunForever(c, s1, ops[1..]);
      NeverReissued(c, s1, ops[1..]);
      PrependDistinct(p, ps, NullAddr(c, s));
    }
  }

  // ---- the books ----

  /** Conservation: the memory all slots hold is what the books say plus the first
      chunk, and the protected part is what the books say. */
  ghost predicate Exact(c: Config, s: State)
    requires c.Valid()
  {
    && Sum(s.slots, HeldKB) == s.sumAllocatedMem + KB(InitSize(c))
    && Sum(s.slots, ProtectedKB) == s.sumProtectedMem
  }

  /** What the books say about the real memory: both sums exceed it by exactly what
      failed reductions released so far, and PROTECT_FREE bounds what is protected. */
  ghost predicate Accounted(c: Config, s: State)
    requires c.Valid()
  {
    && Sum(s.slots, ProtectedKB) + s.lost == s.sumProtectedMem
    && Sum(s.slots, HeldKB) + s.lost == s.sumAllocatedMem + KB(InitSize(c))
    && (c.protectFree > 0 ==> Sum(s.slots, ProtectedKB) <= s.sumProtectedMem <= c.protectFree)
  }

  lemma StepLost(c: Config, s: State, op: Op)
    requires Between(c, s) && UserOp(op) && Step(c, s, op).Done?
    ensures s.lost <= Step(c, s, op).value.0.lost
  {
    if op.Store? {
      StepStore(c, s, op.a, op.v);
    } else {
      var drop, add := StepCall(c, s, op, Mode(false, false));
    }
  }

  /** After every run the books are accounted for; what was lost is never found again;
      and the books are exact exactly if nothing was ever lost. */
  lemma {:induction false} RunAccounts(c: Config, s: State, ops: seq<Op>)
    requires Between(c, s) && UserOps(ops) && Run(c, s, ops).Done?
    ensures
      var s' := Run(c, s, ops).value.0;
      && Accounted(c, s') && s.lost <= s'.lost
      && (Exact(c, s') <==> s'.lost == 0)
    decreases |ops|
  {
    if ops != [] {
      var s1 := Step(c, s, ops[0]).value.0;
      StepRefines(c, s, ops[0]);
      StepLost(c, s, ops[0]);
      RunAccounts(c, s1, ops[1..]);
    }
  }

  /** ... in particular after every run from the start. */
  lemma BootAccounts(c: Config, t: Tls, answers: seq<nat>, ops: seq<Op>)
    requires c.Valid() && Boot(c, t, answers).Done? && UserOps(ops)
    requires Run(c, Boot(c, t, answers).value, ops).Done?
    ensures
      var s' := Run(c, Boot(c, t, answers).value, ops).value.0;
      Accounted(c, s') && (Exact(c, s') <==> s'.lost == 0)
  {
    BootKeeps(c, t, answers);
    RunAccounts(c, Boot(c, t, answers).value, ops);
  }

  lemma StepExact(c: Config, s: State, op: Op)
    requires Between(c, s) && Exact(c, s) && UserOp(op) && Step(c, s, op).Done?
    requires c.maxAlloc <= 0 && Step(c, s, op).value.0.pages.failed == s.pages.failed
    ensures Exact(c, Step(c, s, op).value.0)
  {
    StepRefines(c, s, op);
    if op.Store? {
      StepStore(c, s, op.a, op.v);
    } else {
      var drop, add := StepCall(c, s, op, Mode(false, false));
    }
  }

  /** With any PROTECT_FREE but no MAX_ALLOC limit, and while mmap never fails, the
      books stay exact over every run: what was created is held or was given back, to
      the last kB. */
  lemma {:induction false} RunConserves(c: Config, s: State, ops: seq<Op>)
    requires Between(c, s) && Exact(c, s) && UserOps(ops) && Run(c, s, ops).Done?
    requires c.maxAlloc <= 0 && Run(c, s, ops).value.0.pages.failed == s.pages.failed
    ensures Exact(c, Run(c, s, ops).value.0)
    decreases |ops|
  {
    if ops != [] {
      var s1 := Step(c, s, ops[0]).value.0;
      StepRefines(c, s, ops[0]);
      RunKeeps(c, s1, ops[1..]);
      StepExact(c, s, ops[0]);
      RunConserves(c, s1, ops[1..]);
    }
  }

  /** The books are exact from the start. */
  lemma BootExact(c: Config, t: Tls, answers: seq<nat>)
    requires c.Valid() && Boot(c, t, answers).Done? && c.maxAlloc <= 0
    requires Boot(c, t, answers).value.pages.failed == 0
    ensures Exact(c, Boot(c, t, answers).value)
  {
    BootBoots(c, t, answers);
    BootKeeps(c, t, answers);
    BootsExactly(c, t, answers, Boot(c, t, answers).value);
  }

  lemma BootsExactly(c: Config, t: Tls, answers: seq<nat>, s: State)
    requires c.Valid() && Boots(c, t, answers, s) && c.maxAlloc <= 0 && s.pages.failed == 0
    ensures Drift(s) == 0
  {
    var s0, r :| BootStep(c, t, answers, s0, r, s);
    InitKeeps(c, answers);
    BootDrift(c, s0, t, r, s);
  }

  lemma BootDrift(c: Config, s0: State, t: Tls, r: Request, s2: State)
    requires c.Valid() && Struct(c, s0) && c.maxAlloc <= 0 && Drift(s0) == 0 && UserRequest(r)
    requires FirstCalls(c, s0, t, r) == Done(s2)
    requires s2.pages.failed == s0.pages.failed
    ensures Drift(s2) == 0
  {
    var s1, p := CallsReturn(c, s0, t, r, s2);
    MallocDrift(c, s0, s1, p, t, r);
    FreeDrift(c, s1, s2, p);
  }

  lemma MallocDrift(c: Config, s: State, s': State, p: nat, t: Tls, r: Request)
    requires c.Valid() && Struct(c, s) && UserRequest(r) && Allocate(c, s, t, r, true) == Done((s', p))
    ensures Struct(c, s') && s.pages.failed <= s'.pages.failed
    ensures Unlimited(c, s, s') && Drift(s) == 0 ==> Drift(s') == 0
  {
    var k := AllocateKeeps(c, s, t, r, true, Mode(false, false));
  }

  lemma FreeDrift(c: Config, s: State, s': State, p: nat)
    requires c.Valid() && Struct(c, s) && Deallocate(c, s, p, EFA_FREE, UNKNOWN_SITE) == Done(s')
    ensures s'.pages.failed == s.pages.failed
    ensures c.maxAlloc <= 0 && Drift(s) == 0 ==> Drift(s') == 0
  {
    var i := DeallocateKeeps(c, s, p, EFA_FREE, UNKNOWN_SITE, Mode(false, false));
  }
}
