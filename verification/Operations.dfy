/**
 Whole calls of the allocator: malloc and friends, and free.
 */
module Operations {
  import opened Bits
  import opened Placement
  import opened Wrappers
  import opened Pages
  import opened Slots
  import opened Tiling
  import opened Heap
  import opened Invariants
  import opened Placing
  import opened Allocation
  import opened Deallocation
  import opened Calls
  import opened Growth

  /** No protected memory is ever reduced in a call from s to s'. */
  predicate Calm(c: Config, s: State, s': State) {
    c.maxAlloc <= 0 && c.protectFree <= 0 && s'.pages.failed == s.pages.failed
  }

  // ---- the supply of slots ----

  /** Between calls at least five records are really EMPTY and known to be. */
  ghost predicate Supplied(c: Config, s: State) {
    c.slotSize > 0 && c.SlotsPerPage() >= 7 && Counted(s) && s.unUsedSlots >= 5
  }

  lemma {:induction false} EmptyAtMostAll(a: seq<Slot>, n: nat)
    requires n <= |a|
    ensures SumTo(a, n, EmptyOne) <= n
  {
    if n > 0 { EmptyAtMostAll(a, n - 1); }
  }

  /** The table fits into the address space, so counting its records does not wrap. */
  lemma FewSlots(c: Config, s: State)
    requires Struct(c, s)
    ensures |s.slots| + c.pageSize <= SIZE_MAX && Sum(s.slots, EmptyOne) <= |s.slots|
  {
    EmptyAtMostAll(s.slots, |s.slots|);
    var t := TableIndex(c, s);
    SlotMapped(c, s, t);
    var last := s.allocList + s.allocListSize - 1;
    assert Covers(s.slots[t], last);
    AtLeastOne(|s.slots|, c.slotSize);
    DivModUnique(0, c.pageSize, 0, 0);
    MultipleGap(0, s.allocList, c.pageSize);
  }

  /** The supply counter is a size_t that is decremented without a test. Serving a
      request keeps it below the true number of EMPTY records exactly when it was at
      least the number of records the request takes; otherwise it wraps around to a
      huge value, and the next request does not grow the table. */
  lemma SupplyCounterExact(c: Config, s: State, need: nat, A: pos, r: Request)
    requires Struct(c, s) && Counted(s) && TypeOf(r.allocator) != Internal
    requires WellPosed(c, A, r) && need == SlotBytes(c, A, r.size) && Core(c, s, need, A, r).Done?
    requires Core(c, s, need, A, r).value.1 != 0
    ensures
      var s' := Core(c, s, need, A, r).value.0;
      && (Counted(s') <==> RecordsTaken(c, s.slots, need) <= s.unUsedSlots)
      && (!Counted(s') ==> s'.unUsedSlots >= SIZE_MAX - 1 && !NeedsGrowth(s', r))
  {
    var k, taken := CoreServes(c, s, need, A, r, Mode(false, false));
    ServedCount(c, s, Core(c, s, need, A, r).value.0, r, taken);
  }

  lemma ServedCount(c: Config, s: State, s': State, r: Request, taken: nat)
    requires Counted(s) && Struct(c, s') && CountsKept(c, s, s', taken) && taken <= 2
    requires Sum(s'.slots, EmptyOne) >= Sum(s.slots, EmptyOne) - taken
    ensures Counted(s') <==> taken <= s.unUsedSlots
    ensures !Counted(s') ==> s'.unUsedSlots >= SIZE_MAX - 1 && !NeedsGrowth(s', r)
  {
    FewSlots(c, s');
  }

  lemma AtLeastOne(n: nat, m: nat)
    requires m > 0
    ensures n <= n * m
  {
    assert n * m == n + n * (m - 1);
  }

  /** Growth refills the supply whenever mmap gives it memory. */
  lemma GrowSupplies(c: Config, s: State, s': State, m: Mode)
    requires Supplied(c, s) && GrowOk(c, s, s', m) && s'.pages.failed == s.pages.failed && s.unUsedSlots < 7
    ensures Supplied(c, s') && s'.unUsedSlots >= 7
  {
    var t, k, taken :| Grown(c, s, s', t, k, taken);
    SlotsPerPageSmall(c);
    var left := s.unUsedSlots - taken;
    GiveFits(left, c.SlotsPerPage());
    GiveFits(left + c.SlotsPerPage(), 1);
  }

  lemma GiveFits(x: nat, n: nat)
    requires x + n <= SIZE_MAX
    ensures Give(x, n) == x + n
  {}

  lemma SlotsPerPageSmall(c: Config)
    requires c.Valid()
    ensures c.SlotsPerPage() <= c.pageSize < SIZE_MAX / 2
  {
    TwoSlots(c);
    AtLeastOne(c.SlotsPerPage(), c.slotSize);
  }

  // ---- serving a request with the table open ----

  /** The outcome of an allocation: block k is new, or nothing was handed out. */
  ghost predicate AllocOk(c: Config, s: State, s': State, user: nat, k: nat, A: pos, r: Request, m: Mode) {
    && Struct(c, s')
    && CallOk(c, s, s', m, -1, if user == 0 then -1 else k)
    && (user == 0 ==> s.pages.failed < s'.pages.failed)
    && (user != 0 ==> NewBlock(c, s', k, A, r) && user == s'.slots[k].userAddress
                      && (k < |s.slots| ==> !Owned(m, s.slots[k])))
    && (Supplied(c, s) && s'.pages.failed == s.pages.failed ==> Supplied(c, s'))
  }

  lemma ServedAlloc(c: Config, s: State, s2: State, s': State, user: nat, k: nat, A: pos, r: Request, m: Mode, taken: nat)
    requires Struct(c, s2) && CallOk(c, s, s2, m, -1, -1)
    requires ServedOk(c, s2, s', user, k, A, r, m, taken)
    requires Supplied(c, s) && s'.pages.failed == s.pages.failed ==> Supplied(c, s2) && s2.unUsedSlots >= 7
    ensures AllocOk(c, s, s', user, k, A, r, m)
  {
    CallTrans(c, s, s2, s', m, -1, -1, -1, if user == 0 then -1 else k);
  }

  lemma AllocateSteps(c: Config, s: State, A: pos, r: Request) returns (s1: State, s2: State, need: nat)
    requires c.Valid() && AllocateOpen(c, s, A, r).Done?
    ensures s1 == s.(checkFreqCounter := s1.checkFreqCounter)
    ensures NeedsGrowth(s1, r) ==> Grow(c, s1) == Done(s2)
    ensures !NeedsGrowth(s1, r) ==> s2 == s1
    ensures need == SlotBytes(c, A, r.size) && Core(c, s2, need, A, r) == AllocateOpen(c, s, A, r)
  {
    s1 := CheckFreq(c, s).value;
    s2 := if NeedsGrowth(s1, r) then Grow(c, s1).value else s1;
    need := SlotBytes(c, A, r.size);
  }

  /** Growing if needed. */
  lemma MaybeGrow(c: Config, s: State, s1: State, s2: State, r: Request, m: Mode)
    requires Struct(c, s) && s1 == s.(checkFreqCounter := s1.checkFreqCounter)
    requires NeedsGrowth(s1, r) ==> Grow(c, s1) == Done(s2)
    requires !NeedsGrowth(s1, r) ==> s2 == s1
    requires TypeOf(r.allocator) != Internal
    requires m.prot ==> c.maxAlloc <= 0 && c.protectFree <= 0 && s2.pages.failed == s.pages.failed
    ensures Struct(c, s2) && CallOk(c, s, s2, m, -1, -1)
    ensures TableOpen(s) ==> TableOpen(s2)
    ensures Supplied(c, s) && s2.pages.failed == s.pages.failed ==> Supplied(c, s2) && s2.unUsedSlots >= 7
  {
    CounterKeeps(c, s, s1.checkFreqCounter, m);
    if NeedsGrowth(s1, r) {
      GrowGrows(c, s1, s2);
      GrowKeeps(c, s1, s2, m);
      CallTrans(c, s, s1, s2, m, -1, -1, -1, -1);
      if |s2.slots| != |s1.slots| { var t, k, taken :| Grown(c, s1, s2, t, k, taken); }
      if Supplied(c, s) && s2.pages.failed == s.pages.failed { GrowSupplies(c, s1, s2, m); }
    }
  }

  lemma AllocateOpenKeeps(c: Config, s: State, A: pos, r: Request, m: Mode) returns (k: nat)
    requires Struct(c, s) && TypeOf(r.allocator) != Internal
    requires WellPosed(c, A, r) && (m.strict ==> Modest(c, A, r))
    requires AllocateOpen(c, s, A, r).Done?
    requires m.prot ==> Calm(c, s, AllocateOpen(c, s, A, r).value.0)
    ensures
      var (s', user) := AllocateOpen(c, s, A, r).value;
      AllocOk(c, s, s', user, k, A, r, m) && (TableOpen(s) ==> TableOpen(s'))
  {
    var s1, s2, need := AllocateSteps(c, s, A, r);
    k := AllocateFrom(c, s, s1, s2, need, A, r, m);
  }

  lemma AllocateFrom(c: Config, s: State, s1: State, s2: State, need: nat, A: pos, r: Request, m: Mode) returns (k: nat)
    requires Struct(c, s) && TypeOf(r.allocator) != Internal
    requires WellPosed(c, A, r) && (m.strict ==> Modest(c, A, r))
    requires s1 == s.(checkFreqCounter := s1.checkFreqCounter)
    requires NeedsGrowth(s1, r) ==> Grow(c, s1) == Done(s2)
    requires !NeedsGrowth(s1, r) ==> s2 == s1
    requires need == SlotBytes(c, A, r.size) && Core(c, s2, need, A, r).Done?
    requires m.prot ==> Calm(c, s, Core(c, s2, need, A, r).value.0)
    ensures
      var (s', user) := Core(c, s2, need, A, r).value;
      AllocOk(c, s, s', user, k, A, r, m) && (TableOpen(s) ==> TableOpen(s'))
  {
    var m0 := Mode(m.strict, false);
    var (s', user) := Core(c, s2, need, A, r).value;
    MaybeGrow(c, s, s1, s2, r, m0);
    var taken;
    k, taken := CoreServes(c, s2, need, A, r, m0);
    assert s.pages.failed <= s2.pages.failed <= s'.pages.failed;
    MaybeGrow(c, s, s1, s2, r, m);
    k, taken := CoreServes(c, s2, need, A, r, m);
    ServedAlloc(c, s, s2, s', user, k, A, r, m, taken);
  }

  // ---- writing into a block ----

  /** Only user bytes of slot k were overwritten. */
  ghost predicate Written(s: State, s': State, k: nat) {
    && k < |s.slots| && IsLive(s.slots[k])
    && s' == s.(pages := s.pages.(mem := s'.pages.mem))
    && s'.pages.mem.Keys == s.pages.mem.Keys
    && (forall b: nat :: b in s.pages.mem && !InUserBytes(s.slots[k], b) ==> s'.pages.mem[b] == s.pages.mem[b])
  }

  lemma UserBytesInside(c: Config, sl: Slot)
    requires c.Valid() && SlotOk(c, sl) && IsLive(sl)
    ensures forall b: nat :: InUserBytes(sl, b) ==>
              Covers(sl, b) && AccBegin(sl) <= b < AccEnd(sl) && !InSlack(sl, b)
  {}

  lemma WrittenKeeps(c: Config, s: State, s': State, k: nat, m: Mode)
    requires Struct(c, s) && Written(s, s', k)
    ensures Struct(c, s')
    ensures forall i :: 0 <= i < |s.slots| && i != k ==> Kept(true, s, s', i)
    ensures AllDead(c, s) ==> AllDead(c, s')
    ensures CallOk(c, s, s', m, k, k)
  {
    assert Arena(c, s', 0, 0) == Arena(c, s, 0, 0);
    SameTableSlots(c, s, s');
    WrittenOthers(c, s, s', k);
    WrittenDead(c, s, s', k);
    WrittenTail(c, s, s', k);
  }

  lemma WrittenOthers(c: Config, s: State, s': State, k: nat)
    requires Sound(c, s) && Written(s, s', k)
    ensures forall i :: 0 <= i < |s.slots| && i != k ==> Kept(true, s, s', i)
  {
    UserBytesInside(c, s.slots[k]);
    forall i | 0 <= i < |s.slots| && i != k ensures Kept(true, s, s', i) {
      forall b: nat | Covers(s.slots[i], b) ensures !InUserBytes(s.slots[k], b) {
        CoverApart(s.slots, i, k, b);
      }
      SlotMapped(c, s, i);
    }
  }

  lemma WrittenTail(c: Config, s: State, s': State, k: nat)
    requires Struct(c, s) && Written(s, s', k)
    ensures Supply(c, s')
  {
    var t := TableIndex(c, s);
    WrittenOthers(c, s, s', k);
    TailStays(c, s, s', t, Mode(true, false));
  }

  lemma WrittenDead(c: Config, s: State, s': State, k: nat)
    requires Written(s, s', k)
    ensures AllDead(c, s) ==> AllDead(c, s')
  {
    if AllDead(c, s) {
      forall i, b: nat | 0 <= i < |s'.slots| && MustBeDead(s'.slots[i], b) ensures b !in s'.pages.open {
        assert MustBeDead(s.slots[i], b);
      }
    }
  }

  /** The block stays as placed when its own bytes are written. */
  lemma WrittenBlock(c: Config, s: State, s': State, k: nat, A: pos, r: Request)
    requires Struct(c, s) && Written(s, s', k) && NewBlock(c, s, k, A, r)
    ensures NewBlock(c, s', k, A, r)
  {
    UserBytesInside(c, s.slots[k]);
  }

  lemma WrittenAlloc(c: Config, s: State, s1: State, s2: State, user: nat, k: nat, A: pos, r: Request, m: Mode)
    requires AllocOk(c, s, s1, user, k, A, r, m) && user != 0 && Written(s1, s2, k)
    requires TypeOf(r.allocator) != Internal
    ensures AllocOk(c, s, s2, user, k, A, r, m)
  {
    WrittenKeeps(c, s1, s2, k, m);
    WrittenBlock(c, s1, s2, k, A, r);
    forall i | 0 <= i < |s.slots| && Owned(m, s.slots[i]) ensures Kept(m.strict, s, s2, i) {
      assert Kept(m.strict, s, s1, i) && Kept(true, s1, s2, i);
    }
  }

  // ---- `_duma_allocate` ----

  /** What the block holds: the fill byte, if the caller asked for one. */
  ghost predicate Filled(s: State, user: nat, r: Request) {
    r.fill.Some? ==> forall b: nat :: user <= b < user + r.size ==> b in s.pages.mem && s.pages.mem[b] == r.fill.value
  }

  /** Requests of the public entry points: their fill byte and family. */
  predicate UserRequest(r: Request) {
    TypeOf(r.allocator) != Internal
  }

  predicate StrictRequest(c: Config, t: Tls, r: Request) {
    Modest(c, ChosenAlignment(t, r), r)
  }

  /** The whole call: with strategies 0, 1 and 2 a zero size never reaches the slots. */
  ghost predicate AllocateResult(c: Config, s: State, s': State, user: nat, k: nat, t: Tls, r: Request, m: Mode) {
    if r.size == 0 && ZeroStrategy(c, r.allocator) != 3 then
      s' == s && (user == 0 || user == NullAddr(c, s))
    else
      AllocOk(c, s, s', user, k, ChosenAlignment(t, r), r, m) && (user != 0 ==> Filled(s', user, r))
  }

  /** A new block can be written. */
  lemma NewBlockBytes(c: Config, s: State, k: nat, A: pos, r: Request)
    requires Sound(c, s) && NewBlock(c, s, k, A, r) && UserRequest(r) && r.size > 0
    ensures AllOpen(s.pages, s.slots[k].userAddress, s.slots[k].userAddress + r.size)
  {
    var x := s.slots[k];
    UserBytesInside(c, x);
    SlotMapped(c, s, k);
    forall b: nat | x.userAddress <= b < x.userAddress + r.size ensures b in s.pages.open && b in s.pages.mem {
      assert InUserBytes(x, b);
    }
  }

  lemma FillKeeps(c: Config, s: State, s1: State, user: nat, k: nat, A: pos, r: Request, m: Mode)
    requires AllocOk(c, s, s1, user, k, A, r, m) && UserRequest(r)
    ensures FillBlock(s1, user, r).Done?
    ensures AllocOk(c, s, FillBlock(s1, user, r).value, user, k, A, r, m)
    ensures user != 0 ==> Filled(FillBlock(s1, user, r).value, user, r)
    ensures FillBlock(s1, user, r).value.pages.open == s1.pages.open
  {
    if user != 0 && r.size > 0 && r.fill.Some? {
      UserBytesInside(c, s1.slots[k]);
      SlotMapped(c, s1, k);
      NewBlockBytes(c, s1, k, A, r);
      WrittenAlloc(c, s, s1, FillBlock(s1, user, r).value, user, k, A, r, m);
    }
  }

  lemma CloseAlloc(c: Config, s: State, s1: State, user: nat, k: nat, A: pos, r: Request, m: Mode)
    requires AllocOk(c, s, s1, user, k, A, r, m) && UserRequest(r)
    ensures CloseTable(c, s1).Done? && AllocOk(c, s, CloseTable(c, s1).value, user, k, A, r, m)
    ensures TableClosed(CloseTable(c, s1).value)
  {
    CloseKeeps(c, s1, m);
    CloseKeeps(c, s1, Mode(true, m.prot));
    var s2 := CloseTable(c, s1).value;
    CallTrans(c, s, s1, s2, m, -1, if user == 0 then -1 else k, -1, -1);
    if user != 0 { assert Kept(true, s1, s2, k); }
  }

  lemma AlignmentPow2(c: Config, t: Tls, r: Request)
    requires c.Valid() && r.size > 0 && ChosenAlignment(t, r) == LowestBit(ChosenAlignment(t, r))
    ensures IsPow2(ChosenAlignment(t, r))
  {
    LowestBitTest(ChosenAlignment(t, r));
  }

  /** With a power of two as default alignment, the alignment chosen for a block always
      passes the power-of-two test; in above mode the bytes behind the block that no
      dead page guards are fewer than that alignment, and fewer than the block's own
      bytes if the default was too large for it. */
  lemma DefaultAlignment(c: Config, t: Tls, r: Request, start: nat)
    requires c.Valid() && IsPow2(t.alignment) && r.alignment == 0 && r.size > 0 && !r.protectBelow
    requires start % c.pageSize == 0
    ensures
      var A := ChosenAlignment(t, r);
      && IsPow2(A) && A == LowestBit(A) && A <= t.alignment
      && var spot := Place(c, start, InternalSize(c.pageSize, A, r.size), A, r);
         var tail := spot.prot - (spot.user + r.size);
         0 <= tail < A && (r.size < t.alignment ==> tail < r.size)
  {
    var A := ChosenAlignment(t, r);
    LowestBitTest(A);
    if A <= c.pageSize {
      AboveTail(c.pageSize, A, start, r.size);
    } else {
      AbovePlacement(c.pageSize, A, start, r.size);
    }
  }

  lemma OpenAlloc(c: Config, s: State, s1: State, s2: State, user: nat, k: nat, A: pos, r: Request, m: Mode)
    requires CallOk(c, s, s1, m, -1, -1) && AllocOk(c, s1, s2, user, k, A, r, m)
    requires s1 == s.(pages := s.pages.(open := s1.pages.open))
    ensures AllocOk(c, s, s2, user, k, A, r, m)
  {
    CallTrans(c, s, s1, s2, m, -1, -1, -1, if user == 0 then -1 else k);
  }

  lemma AllocateKeeps(c: Config, s: State, t: Tls, r: Request, closed: bool, m: Mode) returns (k: nat)
    requires Struct(c, s) && UserRequest(r) && (m.strict ==> StrictRequest(c, t, r))
    requires Allocate(c, s, t, r, closed).Done?
    requires m.prot ==> Calm(c, s, Allocate(c, s, t, r, closed).value.0)
    ensures
      var (s', user) := Allocate(c, s, t, r, closed).value;
      && AllocateResult(c, s, s', user, k, t, r, m)
      && (closed && !(r.size == 0 && ZeroStrategy(c, r.allocator) != 3) ==> TableClosed(s'))
      && (!closed && TableOpen(s) ==> TableOpen(s'))
  {
    k := 0;
    if !(r.size == 0 && ZeroStrategy(c, r.allocator) != 3) {
      var A := ChosenAlignment(t, r);
      if r.size > 0 { AlignmentPow2(c, t, r); }
      if closed {
        k := AllocateClosed(c, s, A, r, m);
      } else {
        k := AllocateUnclosed(c, s, A, r, m);
      }
    }
  }

  lemma AllocateUnclosed(c: Config, s: State, A: pos, r: Request, m: Mode) returns (k: nat)
    requires Struct(c, s) && UserRequest(r) && WellPosed(c, A, r) && (m.strict ==> Modest(c, A, r))
    requires AllocateOpen(c, s, A, r).Done?
    requires m.prot ==> Calm(c, s, AllocateOpen(c, s, A, r).value.0)
    ensures
      var (s1, user) := AllocateOpen(c, s, A, r).value;
      && FillBlock(s1, user, r).Done?
      && var s2 := FillBlock(s1, user, r).value;
      && AllocOk(c, s, s2, user, k, A, r, m) && (user != 0 ==> Filled(s2, user, r))
      && s2.pages.failed == s1.pages.failed
      && (TableOpen(s) ==> TableOpen(s2))
  {
    k := AllocateOpenKeeps(c, s, A, r, m);
    var (s1, user) := AllocateOpen(c, s, A, r).value;
    FillKeeps(c, s, s1, user, k, A, r, m);
  }

  lemma AllocateClosed(c: Config, s: State, A: pos, r: Request, m: Mode) returns (k: nat)
    requires Struct(c, s) && UserRequest(r) && WellPosed(c, A, r) && (m.strict ==> Modest(c, A, r))
    requires OpenTable(c, s).Done? && AllocateOpen(c, OpenTable(c, s).value, A, r).Done?
    requires
      var (s2, user) := AllocateOpen(c, OpenTable(c, s).value, A, r).value;
      CloseTable(c, s2).Done? && FillBlock(CloseTable(c, s2).value, user, r).Done?
    requires m.prot ==> Calm(c, s, AllocateOpen(c, OpenTable(c, s).value, A, r).value.0)
    ensures
      var (s2, user) := AllocateOpen(c, OpenTable(c, s).value, A, r).value;
      var s3 := FillBlock(CloseTable(c, s2).value, user, r).value;
      && AllocOk(c, s, s3, user, k, A, r, m) && TableClosed(s3)
      && (user != 0 ==> Filled(s3, user, r))
  {
    OpenKeeps(c, s, m);
    var s1 := OpenTable(c, s).value;
    k := AllocateOpenKeeps(c, s1, A, r, m);
    var (s2, user) := AllocateOpen(c, s1, A, r).value;
    assert AllocOk(c, s, s2, user, k, A, r, m) by { OpenAlloc(c, s, s1, s2, user, k, A, r, m); }
    CloseAndFill(c, s, s2, user, k, A, r, m);
  }

  lemma CloseAndFill(c: Config, s: State, s2: State, user: nat, k: nat, A: pos, r: Request, m: Mode)
    requires AllocOk(c, s, s2, user, k, A, r, m) && UserRequest(r)
    ensures CloseTable(c, s2).Done? && FillBlock(CloseTable(c, s2).value, user, r).Done?
    ensures
      var s3 := FillBlock(CloseTable(c, s2).value, user, r).value;
      && AllocOk(c, s, s3, user, k, A, r, m) && TableClosed(s3)
      && (user != 0 ==> Filled(s3, user, r))
  {
    CloseAlloc(c, s, s2, user, k, A, r, m);
    FillKeeps(c, s, CloseTable(c, s2).value, user, k, A, r, m);
  }

  // ---- `_duma_deallocate` ----

  /** Block i of the address's family is live. */
  predicate LiveKey(s: State, a: nat, allocator: Allocator, i: nat) {
    && i < |s.slots|
    && IsLive(s.slots[i])
    && s.slots[i].userAddress == a
    && TypeOf(s.slots[i].allocator) == TypeOf(allocator)
  }

  /** The pointer checks of a user free pass exactly for the live pointers of the
      same family, and otherwise abort. */
  lemma FreeVerdict(c: Config, s: State, a: nat, allocator: Allocator)
    requires Sound(c, s) && a != 0 && TypeOf(allocator) != Internal
    ensures forall i: nat :: FreeTarget(s, a, allocator) == Done(i) <==> LiveKey(s, a, allocator, i)
  {
    var r := SlotForUser(s.slots, a);
    forall i: nat | LiveKey(s, a, allocator, i) ensures FreeTarget(s, a, allocator) == Done(i) {
      LookupFinds(c, s, i);
    }
    if FreeTarget(s, a, allocator).Done? {
      var i := FreeTarget(s, a, allocator).value;
      assert SlotOk(c, s.slots[i]);
      assert LiveKey(s, a, allocator, i);
    }
  }

  ghost predicate FreeOk(c: Config, s: State, s': State, i: nat, m: Mode) {
    && Struct(c, s') && i < |s.slots| <= |s'.slots|
    && CallOk(c, s, s', m, i, -1)
    && Freed(s.slots[i], s'.slots[i])
    && (c.protectFree < 0 ==> s'.slots[i].state == ALL_PROTECTED)
    && (s'.slots[i].state == EMPTY ==> forall b: nat :: Covers(s.slots[i], b) ==> b !in s'.pages.mem)
    && (AllDead(c, s) ==> AllDead(c, s'))
    && s'.pages.failed == s.pages.failed
    && (Supplied(c, s) ==> Supplied(c, s'))
  }

  /** Releasing a block keeps the table and the supply. */
  lemma ReleaseUser(c: Config, s: State, s': State, i: nat, m: Mode)
    requires Struct(c, s) && i < |s.slots| && IsLive(s.slots[i]) && ReleaseOk(c, s, s', i, m)
    ensures FreeOk(c, s, s', i, m) && (TableOpen(s) ==> TableOpen(s'))
  {
    ReleaseCall(c, s, s', i, m);
    ReleaseTable(c, s, s', i, m);
    FewSlots(c, s);
    if Supplied(c, s) { GiveFits(s.unUsedSlots, 1); }
  }

  lemma ReleaseTable(c: Config, s: State, s': State, i: nat, m: Mode)
    requires Struct(c, s) && i < |s.slots| && IsLive(s.slots[i]) && ReleaseOk(c, s, s', i, m)
    ensures Struct(c, s') && (TableOpen(s) ==> TableOpen(s'))
  {
    var t := TableIndex(c, s);
    assert Kept(m.strict, s, s', t) && IsTableSlot(s', t);
    forall j | 0 <= j < |s'.slots| && IsTable(s'.slots[j]) ensures IsTableSlot(s', j) {
      if j != i { assert NoOther(s.slots[j], s'.slots[j]) && IsTableSlot(s, j); }
    }
    if TableOpen(s) { TableStaysOpen(c, s, s', t, m); }
    TailStays(c, s, s', t, m);
  }

  /** A free with the table open: it found live block i with its slack intact. */
  lemma DeallocateOpenKeeps(c: Config, s: State, a: nat, allocator: Allocator, site: Site, m: Mode)
    returns (i: nat)
    requires Struct(c, s) && a != 0 && TypeOf(allocator) != Internal
    requires m.prot ==> c.protectFree <= 0
    requires DeallocateOpen(c, s, a, allocator, site).Done?
    ensures
      var s' := DeallocateOpen(c, s, a, allocator, site).value;
      && LiveKey(s, a, allocator, i) && CheckSlack(c, s.pages, s.slots[i]).None?
      && FreeOk(c, s, s', i, m) && (TableOpen(s) ==> TableOpen(s'))
  {
    var s1 := CheckFreq(c, s).value;
    i := FreeTarget(s1, a, allocator).value;
    FreeFinds(c, s, s1, a, allocator, i);
    ReleaseKeeps(c, s1, i, site, m);
    FreeRest(c, s, s1, Release(c, s1, i, site).value, i, m);
  }

  lemma FreeFinds(c: Config, s: State, s1: State, a: nat, allocator: Allocator, i: nat)
    requires Struct(c, s) && s1 == s.(checkFreqCounter := s1.checkFreqCounter)
    requires a != 0 && TypeOf(allocator) != Internal && FreeTarget(s1, a, allocator) == Done(i)
    ensures Struct(c, s1) && LiveKey(s, a, allocator, i)
  {
    CounterKeeps(c, s, s1.checkFreqCounter, Mode(true, true));
    FreeVerdict(c, s1, a, allocator);
  }

  lemma FreeRest(c: Config, s: State, s1: State, s': State, i: nat, m: Mode)
    requires Struct(c, s1) && s1 == s.(checkFreqCounter := s1.checkFreqCounter)
    requires i < |s1.slots| && IsLive(s1.slots[i]) && ReleaseOk(c, s1, s', i, m)
    ensures FreeOk(c, s, s', i, m) && (TableOpen(s) ==> TableOpen(s'))
  {
    ReleaseUser(c, s1, s', i, m);
    forall j | 0 <= j < |s.slots| && j != i && Owned(m, s.slots[j]) ensures Kept(m.strict, s, s', j) {
      assert Kept(m.strict, s1, s', j);
    }
  }

  /** Closing the table afterwards. */
  lemma CloseFree(c: Config, s: State, s1: State, i: nat, m: Mode)
    requires FreeOk(c, s, s1, i, m)
    ensures CloseTable(c, s1).Done? && FreeOk(c, s, CloseTable(c, s1).value, i, m)
    ensures TableClosed(CloseTable(c, s1).value)
  {
    CloseKeeps(c, s1, m);
    CloseKeeps(c, s1, Mode(true, m.prot));
    CallTrans(c, s, s1, CloseTable(c, s1).value, m, i, -1, -1, -1);
  }

  lemma OpenFree(c: Config, s: State, s1: State, s2: State, i: nat, m: Mode)
    requires CallOk(c, s, s1, m, -1, -1) && CallOk(c, s, s1, Mode(true, m.prot), -1, -1) && FreeOk(c, s1, s2, i, m)
    requires s1 == s.(pages := s.pages.(open := s1.pages.open))
    ensures FreeOk(c, s, s2, i, m)
  {
    CallTrans(c, s, s1, s2, m, -1, -1, i, -1);
  }

  /** `_duma_deallocate(a, 1, ...)`: if it returns, a was 0 or null_addr and nothing
      happened, or a was a live pointer of that family, which is now freed. */
  lemma DeallocateKeeps(c: Config, s: State, a: nat, allocator: Allocator, site: Site, m: Mode) returns (i: nat)
    requires Struct(c, s) && TypeOf(allocator) != Internal
    requires m.prot ==> c.protectFree <= 0
    requires Deallocate(c, s, a, allocator, site).Done?
    ensures
      var s' := Deallocate(c, s, a, allocator, site).value;
      if a == 0 || a == NullAddr(c, s) then s' == s
      else LiveKey(s, a, allocator, i) && FreeOk(c, s, s', i, m) && TableClosed(s')
  {
    i := 0;
    if a != 0 && a != NullAddr(c, s) {
      OpenKeeps(c, s, m);
      OpenKeeps(c, s, Mode(true, m.prot));
      var s1 := OpenTable(c, s).value;
      i := DeallocateOpenKeeps(c, s1, a, allocator, site, m);
      var s2 := DeallocateOpen(c, s1, a, allocator, site).value;
      OpenFree(c, s, s1, s2, i, m);
      CloseFree(c, s, s2, i, m);
    }
  }
}
