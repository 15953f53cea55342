/**
 A program that frees what it owns and writes only into its own blocks is never
 stopped: DUMA has no false alarms.
 */
module NoFalseAlarm {
  import opened Bits
  import opened Placement
  import opened Wrappers
  import opened Pages
  import opened Slots
  import opened Heap
  import opened Invariants
  import opened Chunks
  import opened Placing
  import opened Allocation
  import opened Deallocation
  import opened Calls
  import opened Growth
  import opened Operations
  import opened Reallocation
  import opened Initialisation
  import opened Runs
  import opened Theorems
  import opened Detection

  /** Nothing for a check to find, in any state inside or between calls. */
  ghost predicate Quiet(c: Config, s: State) {
    Sound(c, s) && AllLiveOpen(s) && SlackIntact(c, s)
  }

  /** Returned, or gave up because mmap failed and the user asked to exit then. */
  predicate Fine<T>(o: Outcome<T>) {
    o.Done? || o == Abort(MmapFailed)
  }

  // ---- the checks ----

  lemma {:induction false} CheckAllQuiet(c: Config, s: State, i: nat)
    requires Quiet(c, s)
    ensures CheckAllSlacks(c, s, i).None?
    decreases |s.slots| - i
  {
    if i < |s.slots| {
      CheckSlotQuiet(c, s, i);
      CheckAllQuiet(c, s, i + 1);
    }
  }

  lemma CheckSlotQuiet(c: Config, s: State, i: nat)
    requires Quiet(c, s) && i < |s.slots|
    ensures s.slots[i].state == IN_USE ==> CheckSlack(c, s.pages, s.slots[i]).None?
  {
    if IsLive(s.slots[i]) {
      assert LiveOpen(s, i) && SlackOk(c, s, i);
      CheckSlackVerdict(c, s, i);
    } else if IsTable(s.slots[i]) {
      assert SlotOk(c, s.slots[i]);
      TableHasNoSlack(c, s.pages, s.slots[i]);
    }
  }

  lemma CheckFreqQuiet(c: Config, s: State)
    requires Quiet(c, s)
    ensures CheckFreq(c, s).Done? && Quiet(c, CheckFreq(c, s).value)
  {
    CheckAllQuiet(c, s, 0);
    CounterSound(c, s, CheckFreq(c, s).value.checkFreqCounter);
    QuietSame(c, s, CheckFreq(c, s).value);
  }

  lemma QuietSame(c: Config, s: State, s': State)
    requires Quiet(c, s) && Sound(c, s') && s'.slots == s.slots && s'.pages == s.pages
    ensures Quiet(c, s')
  {
    forall i | 0 <= i < |s'.slots| ensures LiveOpen(s', i) && (IsLive(s'.slots[i]) ==> SlackOk(c, s', i)) {
      assert LiveOpen(s, i);
    }
  }

  /** A call keeps the quiet if the block it hands out is as placed. */
  lemma CallQuiet(c: Config, s: State, s': State, m: Mode, drop: int, add: int)
    requires Quiet(c, s) && Sound(c, s') && CallOk(c, s, s', m, drop, add)
    requires 0 <= add < |s'.slots| && IsLive(s'.slots[add]) ==> LiveOpen(s', add) && SlackOk(c, s', add)
    requires 0 <= drop < |s'.slots| && drop != add ==> !IsLive(s'.slots[drop])
    ensures Quiet(c, s')
  {
    forall i | 0 <= i < |s'.slots| && IsLive(s'.slots[i]) ensures LiveOpen(s', i) && SlackOk(c, s', i) {
      if i != add {
        assert i < |s.slots| && SameUser(s.slots[i], s'.slots[i]) && LiveOpen(s, i) && SlackOk(c, s, i);
        assert Kept(m.strict, s, s', i) && SlotOk(c, s.slots[i]);
        LivePartCovered(c, s.slots[i]);
      }
    }
    forall i | 0 <= i < |s'.slots| ensures LiveOpen(s', i) {}
  }

  // ---- the core ----

  lemma {:induction false} NoEmptyBefore(a: seq<Slot>, n: nat)
    requires n <= |a| && forall i :: 0 <= i < n ==> a[i].state != EMPTY
    ensures SumTo(a, n, EmptyOne) == 0
  {
    if n > 0 { NoEmptyBefore(a, n - 1); }
  }

  /** Two empty records are found. */
  lemma TwoEmpty(slots: seq<Slot>)
    requires Sum(slots, EmptyOne) >= 2
    ensures FirstEmpty(slots, 0).Some?
    ensures FirstEmpty(slots, FirstEmpty(slots, 0).value + 1).Some?
  {
    EmptyExists(slots, 0, |slots|);
    var e0 := FirstEmpty(slots, 0).value;
    NoEmptyBefore(slots, e0);
    EmptyExists(slots, e0 + 1, |slots|);
  }

  lemma PlaceQuiet(c: Config, s: State, k: nat, need: nat, A: pos, r: Request)
    requires Sound(c, s) && k < |s.slots| && s.slots[k].state == FREE
    requires WellPosed(c, A, r) && Modest(c, A, r)
    requires need == SlotBytes(c, A, r.size) == s.slots[k].internalSize
    ensures PlaceSlot(c, s, k, need, A, r).Done?
  {
    SlotMapped(c, s, k);
    if r.size > 0 && r.protectBelow { SmallAlignmentConfined(c, A, r, s.slots[k].internalAddress); }
    ProtectSucceeds(c, s.pages, s.slots[k], need, A, r);
    ProtectMeans(c, s.pages, s.slots[k], need, A, r);
    PlaceMeans(c, s.slots[k], need, A, r);
  }

  lemma CarveQuiet(c: Config, s: State, k: nat, e: nat, need: nat, A: pos, r: Request)
    requires Sound(c, s) && k < |s.slots| && Fits(s.slots[k], need)
    requires e < |s.slots| && s.slots[e].state == EMPTY
    requires WellPosed(c, A, r) && Modest(c, A, r) && need == SlotBytes(c, A, r.size)
    ensures Carve(c, s, k, Some(e), need, A, r).Done?
  {
    SlotBytesAligned(c, A, r);
    SplitKeeps(c, s, k, Some(e), need);
    PlaceQuiet(c, SplitSlot(s, k, Some(e), need).value, k, need, A, r);
  }

  lemma ObtainFine(c: Config, s: State, chunk: nat, n: nat, failEnv: bool)
    requires c.Valid()
    ensures Fine(Obtain(c, s, chunk, n, failEnv))
    ensures !failEnv ==> Obtain(c, s, chunk, n, failEnv).Done?
  {}

  lemma ChunkQuiet(c: Config, s: State, e0: nat, e1: nat, need: nat, A: pos, r: Request)
    requires Sound(c, s) && e0 < |s.slots| && e1 < |s.slots| && e0 != e1
    requires s.slots[e0].state == EMPTY && s.slots[e1].state == EMPTY
    requires WellPosed(c, A, r) && Modest(c, A, r) && need == SlotBytes(c, A, r.size)
    ensures Fine(CarveChunk(c, s, e0, e1, need, A, r))
    ensures !r.failEnv ==> CarveChunk(c, s, e0, e1, need, A, r).Done?
  {
    var chunk := ChunkSize(c, need);
    ChunkPositive(c, need);
    NumChunksIsOne(c, A, r, chunk);
    assert TotalSize(chunk, 1) == chunk;
    ObtainFine(c, s, chunk, chunk, r.failEnv);
    var o := Obtain(c, s, chunk, chunk, r.failEnv);
    if o.Done? && o.value.1 != 0 {
      var (s1, a) := o.value;
      ObtainKeeps(c, s, chunk, chunk, r.failEnv);
      var s2 := AddChunk(s1, e0, a, chunk, chunk, 1);
      ChunkMoves(c, s, s1, e0, a, chunk, s2, c.maxAlloc <= 0 && s1.pages.failed == s.pages.failed, Mode(true, false));
      CarveQuiet(c, s2, e0, e1, need, A, r);
    }
  }

  /** With two empty records the core never aborts, except by an mmap that the caller
      wants to be fatal. */
  lemma CoreQuiet(c: Config, s: State, need: nat, A: pos, r: Request)
    requires Sound(c, s) && Sum(s.slots, EmptyOne) >= 2
    requires WellPosed(c, A, r) && Modest(c, A, r) && need == SlotBytes(c, A, r.size)
    ensures Fine(Core(c, s, need, A, r))
    ensures !r.failEnv ==> Core(c, s, need, A, r).Done?
  {
    TwoEmpty(s.slots);
    var full := BestFit(s.slots, need);
    var e0 := FirstEmpty(s.slots, 0).value;
    if full.Some? {
      CarveQuiet(c, s, full.value, e0, need, A, r);
    } else {
      ChunkQuiet(c, s, e0, FirstEmpty(s.slots, e0 + 1).value, need, A, r);
    }
  }

  // ---- growth ----

  lemma TableQuiet(c: Config, s: State, newSize: nat)
    requires Sound(c, s) && Sum(s.slots, EmptyOne) >= 2 && newSize > 0
    requires WellPosed(c, 1, GrowRequest(newSize)) && Modest(c, 1, GrowRequest(newSize))
    ensures TableCore(c, s, newSize).Done?
  {
    InternalSizePositive(c.pageSize, 1, newSize);
    CoreQuiet(c, s, InternalSize(c.pageSize, 1, newSize), 1, GrowRequest(newSize));
  }

  lemma GrowCoreQuiet(c: Config, s: State, newSize: nat, s0: State)
    requires c.Valid() && Struct(c, s) && Quiet(c, s) && Sum(s.slots, EmptyOne) >= 2 && TableOpen(s)
    requires newSize == s.allocListSize + c.pageSize && s0 == s.(checkFreqCounter := s0.checkFreqCounter)
    ensures CanGrow(c, s0, s.allocList, newSize)
  {
    CounterSound(c, s, s0.checkFreqCounter);
    GrowWellPosed(c, s, newSize);
    TableQuiet(c, s0, newSize);
    var r := TableCore(c, s0, newSize).value;
    if r.1 != 0 { SwitchQuiet(c, s, newSize, s0, r.0, r.1); }
    assert Continues(c, s0, s.allocList, newSize, r.0, r.1);
  }

  /** Growing never aborts. */
  lemma GrowQuiet(c: Config, s: State)
    requires c.Valid() && Struct(c, s) && Quiet(c, s) && Sum(s.slots, EmptyOne) >= 2 && TableOpen(s)
    ensures Grow(c, s).Done?
  {
    GrowToQuiet(c, s, NewTableSize(c, s));
  }

  lemma GrowToQuiet(c: Config, s: State, newSize: nat)
    requires c.Valid() && Struct(c, s) && Quiet(c, s) && Sum(s.slots, EmptyOne) >= 2 && TableOpen(s)
    requires newSize == s.allocListSize + c.pageSize
    ensures GrowTo(c, s, newSize).Done?
  {
    CheckFreqQuiet(c, s);
    var s0 := CheckFreq(c, s).value;
    GrowCoreQuiet(c, s, newSize, s0);
    GrowParts(c, s, newSize, s0);
  }

  /** Both tables can be accessed while the contents move. */
  lemma SwitchReturns(c: Config, s: State, newSize: nat, s1: State, a: nat, t: nat, k: nat, taken: nat, m: Mode)
    requires c.Valid() && newSize == s.allocListSize + c.pageSize
    requires HalfGrown(c, s, s1, a, t, k, taken, m) && a != 0 && TableOpen(s)
    ensures SwitchTable(c, s1, a, newSize).Done?
  {
    forall b: nat | s1.allocList <= b < s1.allocList + s1.allocListSize || a <= b < a + s1.allocListSize + c.pageSize
      ensures b in s1.pages.open && b in s1.pages.mem
    {
      assert b in s1.pages.open;
    }
  }

  lemma SwitchQuiet(c: Config, s: State, newSize: nat, s0: State, s1: State, a: nat)
    requires c.Valid() && Struct(c, s) && Quiet(c, s) && newSize == s.allocListSize + c.pageSize
    requires s0 == s.(checkFreqCounter := s0.checkFreqCounter)
    requires CoreGives(c, s0, newSize, s1, a) && a != 0 && TableOpen(s)
    ensures GrowSwitch(c, s1, a, s.allocList, newSize).Done?
  {
    var m := Mode(true, false);
    var k, taken := GrowCore(c, s, newSize, s0, s1, a, m);
    var t := GrowAllocates(c, s, s0, s1, a, k, taken, m);
    HalfQuiet(c, s, newSize, s1, a, t, k, taken, m);
  }

  lemma HalfQuiet(c: Config, s: State, newSize: nat, s1: State, a: nat, t: nat, k: nat, taken: nat, m: Mode)
    requires c.Valid() && Quiet(c, s) && TableOpen(s) && newSize == s.allocListSize + c.pageSize && !m.prot
    requires HalfGrown(c, s, s1, a, t, k, taken, m) && a != 0
    ensures GrowSwitch(c, s1, a, s.allocList, newSize).Done?
  {
    SwitchReturns(c, s, newSize, s1, a, t, k, taken, m);
    var sw := SwitchTable(c, s1, a, newSize).value;
    SwitchKeeps(c, s, newSize, s1, a, t, k, taken, sw, m);
    OldTableQuiet(c, s, sw, t, s.allocList, m);
  }

  lemma OldTableQuiet(c: Config, s: State, sw: State, t: nat, prev: nat, m: Mode)
    requires c.Valid() && Quiet(c, s) && Sound(c, sw) && CallOk(c, s, sw, m, -1, -1) && !m.prot
    requires t < |sw.slots| && IsTable(sw.slots[t]) && sw.slots[t].userAddress == prev
    ensures DeallocateAny(c, sw, prev, EFA_INT_DEALLOC, GROW_SITE).Done?
  {
    CallQuiet(c, s, sw, m, -1, -1);
    CheckFreqQuiet(c, sw);
    OldTableFreed(c, sw, t, m);
  }

  // ---- whole calls ----

  /** Between calls: structure, quiet, and a supply of slots. */
  ghost predicate Healthy(c: Config, s: State) {
    Struct(c, s) && Quiet(c, s) && Supplied(c, s)
  }

  lemma HealthyCounter(c: Config, s: State, s1: State)
    requires Healthy(c, s) && s1 == s.(checkFreqCounter := s1.checkFreqCounter)
    ensures Healthy(c, s1)
  {
    CounterKeeps(c, s, s1.checkFreqCounter, Mode(true, false));
    QuietSame(c, s, s1);
  }

  lemma HealthyOpen(c: Config, s: State)
    requires Healthy(c, s)
    ensures OpenTable(c, s).Done? && Healthy(c, OpenTable(c, s).value)
    ensures CallOk(c, s, OpenTable(c, s).value, Mode(true, false), -1, -1)
    ensures TableOpen(OpenTable(c, s).value)
  {
    OpenKeeps(c, s, Mode(true, false));
    CallQuiet(c, s, OpenTable(c, s).value, Mode(true, false), -1, -1);
  }

  /** The request is one the interface allows. */
  predicate GoodRequest(c: Config, t: Tls, r: Request) {
    && TypeOf(r.allocator) != Internal
    && (r.size > 0 ==> IsPow2(ChosenAlignment(t, r)))
    && (r.size == 0 ==> ZeroStrategy(c, r.allocator) != 0)
    && StrictRequest(c, t, r)
  }

  lemma GrowEnough(c: Config, s: State)
    requires Struct(c, s) && Quiet(c, s) && Supplied(c, s) && TableOpen(s)
    ensures Grow(c, s).Done? && Sum(Grow(c, s).value.slots, EmptyOne) >= 2
    ensures Sound(c, Grow(c, s).value)
  {
    GrowQuiet(c, s);
    var s' := Grow(c, s).value;
    GrowGrows(c, s, s');
    GrowKeeps(c, s, s', Mode(true, false));
    if |s'.slots| != |s.slots| { var t, k, taken :| Grown(c, s, s', t, k, taken); }
  }

  lemma AllocateOpenQuiet(c: Config, s: State, A: pos, r: Request)
    requires Healthy(c, s) && TypeOf(r.allocator) != Internal && WellPosed(c, A, r) && Modest(c, A, r) && TableOpen(s)
    ensures Fine(AllocateOpen(c, s, A, r))
  {
    CheckFreqQuiet(c, s);
    var s1 := CheckFreq(c, s).value;
    HealthyCounter(c, s, s1);
    if NeedsGrowth(s1, r) {
      GrowEnough(c, s1);
      CoreQuiet(c, Grow(c, s1).value, SlotBytes(c, A, r.size), A, r);
    } else {
      CoreQuiet(c, s1, SlotBytes(c, A, r.size), A, r);
    }
  }

  lemma CloseAfter(c: Config, s: State, A: pos, r: Request)
    requires Struct(c, s) && UserRequest(r) && WellPosed(c, A, r) && AllocateOpen(c, s, A, r).Done?
    ensures
      var (s1, user) := AllocateOpen(c, s, A, r).value;
      && FillBlock(s1, user, r).Done?
      && CloseTable(c, s1).Done? && FillBlock(CloseTable(c, s1).value, user, r).Done?
  {
    var m := Mode(false, false);
    var k := AllocateOpenKeeps(c, s, A, r, m);
    var (s1, user) := AllocateOpen(c, s, A, r).value;
    FillKeeps(c, s, s1, user, k, A, r, m);
    CloseAndFill(c, s, s1, user, k, A, r, m);
  }

  lemma PassesTest(t: Tls, r: Request)
    requires IsPow2(ChosenAlignment(t, r))
    ensures ChosenAlignment(t, r) == LowestBit(ChosenAlignment(t, r))
  {
    LowestBitTest(ChosenAlignment(t, r));
  }

  lemma AllocateQuiet(c: Config, s: State, t: Tls, r: Request, closed: bool)
    requires Healthy(c, s) && GoodRequest(c, t, r) && (closed || TableOpen(s))
    ensures Fine(Allocate(c, s, t, r, closed))
  {
    if !(r.size == 0 && ZeroStrategy(c, r.allocator) != 3) {
      var A := ChosenAlignment(t, r);
      if r.size > 0 { PassesTest(t, r); }
      if closed {
        HealthyOpen(c, s);
        var s1 := OpenTable(c, s).value;
        AllocateOpenQuiet(c, s1, A, r);
        if AllocateOpen(c, s1, A, r).Done? { CloseAfter(c, s1, A, r); }
      } else {
        AllocateOpenQuiet(c, s, A, r);
        if AllocateOpen(c, s, A, r).Done? { CloseAfter(c, s, A, r); }
      }
    }
  }

  lemma DeallocateOpenQuiet(c: Config, s: State, a: nat, allocator: Allocator, site: Site, i: nat)
    requires Struct(c, s) && Quiet(c, s) && LiveKey(s, a, allocator, i) && TypeOf(allocator) != Internal
    ensures DeallocateOpen(c, s, a, allocator, site).Done?
  {
    CheckFreqQuiet(c, s);
    var s1 := CheckFreq(c, s).value;
    LiveUserNonzero(c, s1, i);
    FreeVerdict(c, s1, a, allocator);
    assert LiveKey(s1, a, allocator, i);
    CheckSlotQuiet(c, s1, i);
    ReleaseKeeps(c, s1, i, site, Mode(true, false));
  }

  lemma DeallocateQuiet(c: Config, s: State, a: nat, allocator: Allocator, site: Site, i: nat)
    requires Healthy(c, s) && LiveKey(s, a, allocator, i) && TypeOf(allocator) != Internal
    ensures Deallocate(c, s, a, allocator, site).Done?
  {
    HealthyOpen(c, s);
    var s1 := OpenTable(c, s).value;
    DeallocateOpenQuiet(c, s1, a, allocator, site, i);
    var j := DeallocateOpenKeeps(c, s1, a, allocator, site, Mode(true, false));
    CloseKeeps(c, DeallocateOpen(c, s1, a, allocator, site).value, Mode(true, false));
  }

  lemma CheckQuiet(c: Config, s: State, a: nat, i: nat)
    requires Healthy(c, s) && i < |s.slots| && IsLive(s.slots[i]) && s.slots[i].userAddress == a
    ensures Check(c, s, a).Done?
  {
    HealthyOpen(c, s);
    var s1 := OpenTable(c, s).value;
    LiveUserNonzero(c, s1, i);
    LookupFinds(c, s1, i);
    CheckSlotQuiet(c, s1, i);
    CloseKeeps(c, s1, Mode(true, false));
  }

  lemma CheckAllDone(c: Config, s: State)
    requires Healthy(c, s)
    ensures CheckAll(c, s).Done?
  {
    HealthyOpen(c, s);
    var s1 := OpenTable(c, s).value;
    CheckAllQuiet(c, s1, 0);
    CloseKeeps(c, s1, Mode(true, false));
  }

  // ---- realloc ----

  /** After the inner allocation everything is still quiet. */
  lemma AllocQuiet(c: Config, s: State, s1: State, user: nat, k: nat, A: pos, r: Request, m: Mode)
    requires Quiet(c, s) && AllocOk(c, s, s1, user, k, A, r, m) && UserRequest(r)
    ensures Quiet(c, s1)
  {
    if user != 0 { NewBlockOpen(c, s1, k, A, r); }
    CallQuiet(c, s, s1, m, -1, if user == 0 then -1 else k);
  }

  lemma WrittenQuiet(c: Config, s: State, s': State, k: nat)
    requires Struct(c, s) && Quiet(c, s) && Written(s, s', k)
    ensures Struct(c, s') && Quiet(c, s')
  {
    WrittenKeeps(c, s, s', k, Mode(true, false));
    forall i | 0 <= i < |s'.slots| ensures LiveOpen(s', i) && (IsLive(s'.slots[i]) ==> SlackOk(c, s', i)) {
      assert LiveOpen(s, i);
      if IsLive(s'.slots[i]) {
        assert SlackOk(c, s, i) && SlotOk(c, s.slots[i]);
        LivePartCovered(c, s.slots[i]);
        if i == k { UserBytesInside(c, s.slots[k]); } else { assert Kept(true, s, s', i); }
      }
    }
  }

  lemma UserOpen(c: Config, s: State, i: nat)
    requires Sound(c, s) && i < |s.slots| && IsLive(s.slots[i]) && LiveOpen(s, i)
    ensures AllOpen(s.pages, s.slots[i].userAddress, s.slots[i].userAddress + s.slots[i].userSize)
  {
    var sl := s.slots[i];
    UserBytesInside(c, sl);
    SlotMapped(c, s, i);
    forall b: nat | sl.userAddress <= b < sl.userAddress + sl.userSize ensures b in s.pages.open && b in s.pages.mem {
      assert InUserBytes(sl, b);
    }
  }

  lemma MoveContentsDone(c: Config, s: State, i: nat, k: nat)
    requires Sound(c, s) && Quiet(c, s) && i < |s.slots| && IsLive(s.slots[i])
    requires k < |s.slots| && IsLive(s.slots[k])
    ensures MoveContents(s, s.slots[i].userAddress, s.slots[i].userSize, s.slots[k].userAddress, s.slots[k].userSize).Done?
  {
    assert LiveOpen(s, i) && LiveOpen(s, k);
    UserOpen(c, s, i);
    UserOpen(c, s, k);
  }

  lemma ReallocMoveQuiet(c: Config, s: State, s1: State, user: nat, prev: nat, site: Site, i: nat, k: nat, A: pos, r: Request)
    requires Struct(c, s) && Quiet(c, s) && LiveKey(s, prev, EFA_REALLOC, i)
    requires AllocOk(c, s, s1, user, k, A, r, Mode(true, false)) && user != 0 && UserRequest(r)
    ensures ReallocMove(c, s1, prev, user, r.size, site).Done?
  {
    AllocQuiet(c, s, s1, user, k, A, r, Mode(true, false));
    assert Kept(true, s, s1, i);
    LiveUserNonzero(c, s1, i);
    LookupFinds(c, s1, i);
    NotNullAddr(c, s1, i);
    MoveContentsDone(c, s1, i, k);
    var s2 := MoveContents(s1, prev, s1.slots[i].userSize, user, r.size).value;
    MoveContentsMeans(c, s1, prev, s1.slots[i].userSize, k, r.size);
    WrittenQuiet(c, s1, s2, k);
    DeallocateOpenQuiet(c, s2, prev, EFA_REALLOC, site, i);
  }

  lemma ReallocOpenQuiet(c: Config, s: State, t: Tls, prev: nat, newSize: nat, site: Site, i: nat)
    requires Healthy(c, s) && GoodRealloc(c, t, prev, newSize, site) && TableOpen(s)
    requires prev != 0 ==> LiveKey(s, prev, EFA_REALLOC, i)
    ensures Fine(ReallocOpen(c, s, t, prev, newSize, site))
  {
    if prev == 0 {
      AllocateQuiet(c, s, t, ReallocRequest(t, newSize, t.fill, site), false);
    } else if newSize == 0 {
      NotNullAddr(c, s, i);
      DeallocateOpenQuiet(c, s, prev, EFA_REALLOC, site, i);
    } else {
      var r := ReallocRequest(t, newSize, None, site);
      AllocateQuiet(c, s, t, r, false);
      var o := Allocate(c, s, t, r, false);
      if o.Done? && o.value.1 != 0 {
        var k := AllocateKeeps(c, s, t, r, false, Mode(true, false));
        ReallocMoveQuiet(c, s, o.value.0, o.value.1, prev, site, i, k, ChosenAlignment(t, r), r);
      }
    }
  }

  /** The sizes and alignments realloc may be asked for. */
  predicate GoodRealloc(c: Config, t: Tls, prev: nat, newSize: nat, site: Site) {
    if prev != 0 && newSize == 0 then true else GoodRequest(c, t, ReallocRequest(t, newSize, None, site))
  }

  lemma ReallocQuiet(c: Config, s: State, t: Tls, prev: nat, newSize: nat, site: Site, i: nat)
    requires Healthy(c, s) && GoodRealloc(c, t, prev, newSize, site)
    requires prev != 0 ==> LiveKey(s, prev, EFA_REALLOC, i)
    ensures Fine(Realloc(c, s, t, prev, newSize, site))
  {
    HealthyOpen(c, s);
    var s1 := OpenTable(c, s).value;
    ReallocOpenQuiet(c, s1, t, prev, newSize, site, i);
    if ReallocOpen(c, s1, t, prev, newSize, site).Done? {
      var d, k := ReallocOpenKeeps(c, s1, t, prev, newSize, site, Mode(false, false));
      CloseKeeps(c, ReallocOpen(c, s1, t, prev, newSize, site).value.0, Mode(true, false));
    }
  }

  // ---- well-behaved programs ----

  /** What the program may do in state s: ask for sensible blocks, free or resize or
      check what it owns through the right family, write into its own blocks. */
  ghost predicate WellBehaved(c: Config, s: State, op: Op) {
    match op
    case DoAllocate(t, r) => GoodRequest(c, t, r)
    case DoFree(a, allocator, site) =>
      TypeOf(allocator) != Internal &&
      (a == 0 || a == NullAddr(c, s) || (a in LiveMap(s) && LiveMap(s)[a].family == TypeOf(allocator)))
    case DoRealloc(t, prev, size, site) =>
      GoodRealloc(c, t, prev, size, site) && (prev == 0 || (prev in LiveMap(s) && LiveMap(s)[prev].family == CFamily))
    case DoCheck(a) => a == 0 || a in LiveMap(s)
    case DoCheckAll => true
    case Store(a, v) => exists i :: 0 <= i < |s.slots| && IsLive(s.slots[i]) && InUserBytes(s.slots[i], a)
  }

  lemma KeyOfMap(c: Config, s: State, a: nat, allocator: Allocator) returns (i: nat)
    requires Sound(c, s) && a in LiveMap(s) && LiveMap(s)[a].family == TypeOf(allocator)
    ensures LiveKey(s, a, allocator, i)
  {
    i := LiveMapSlot(c, s, a);
  }

  lemma StoreFine(c: Config, s: State, a: nat, v: Byte)
    requires Sound(c, s) && AllLiveOpen(s)
    requires exists i :: 0 <= i < |s.slots| && IsLive(s.slots[i]) && InUserBytes(s.slots[i], a)
    ensures StoreByte(s, a, v).Done?
  {
    var i :| 0 <= i < |s.slots| && IsLive(s.slots[i]) && InUserBytes(s.slots[i], a);
    UserBytesInside(c, s.slots[i]);
    SlotMapped(c, s, i);
    assert LiveOpen(s, i);
  }

  /** No false alarm: between calls, a well-behaved operation completes, except that
      an mmap failure may be fatal if the settings say so. */
  lemma StepFine(c: Config, s: State, op: Op)
    requires c.Valid() && Between(c, s) && Healthy(c, s) && WellBehaved(c, s, op)
    ensures Fine(Step(c, s, op))
  {
    match op
    case DoAllocate(t, r) => AllocateQuiet(c, s, t, r, true);
    case DoFree(a, allocator, site) =>
      if a != 0 && a != NullAddr(c, s) {
        var i := KeyOfMap(c, s, a, allocator);
        DeallocateQuiet(c, s, a, allocator, site, i);
      }
    case DoRealloc(t, prev, size, site) =>
      var i := 0;
      if prev != 0 { i := KeyOfMap(c, s, prev, EFA_REALLOC); }
      ReallocQuiet(c, s, t, prev, size, site, i);
    case DoCheck(a) =>
      if a != 0 {
        var i := LiveMapSlot(c, s, a);
        CheckQuiet(c, s, a, i);
      }
    case DoCheckAll => CheckAllDone(c, s);
    case Store(a, v) => StoreFine(c, s, a, v);
  }

  /** ... and it leaves everything healthy for the next one, as long as mmap gives
      memory. */
  lemma StepHealthy(c: Config, s: State, op: Op)
    requires Between(c, s) && Healthy(c, s) && WellBehaved(c, s, op) && Step(c, s, op).Done?
    requires Step(c, s, op).value.0.pages.failed == s.pages.failed
    ensures Between(c, Step(c, s, op).value.0) && Healthy(c, Step(c, s, op).value.0)
  {
    var (s', p) := Step(c, s, op).value;
    StepRefines(c, s, op);
    if op.Store? {
      StoreQuiet(c, s, s', op.a, op.v);
    } else {
      var drop, add := StepCall(c, s, op, Mode(false, false));
      CallQuiet(c, s, s', Mode(false, false), drop, add);
    }
  }

  lemma StoreQuiet(c: Config, s: State, s': State, a: nat, v: Byte)
    requires Struct(c, s) && Quiet(c, s) && StoreByte(s, a, v) == Done(s')
    requires exists i :: 0 <= i < |s.slots| && IsLive(s.slots[i]) && InUserBytes(s.slots[i], a)
    ensures Quiet(c, s')
  {
    var i :| 0 <= i < |s.slots| && IsLive(s.slots[i]) && InUserBytes(s.slots[i], a);
    assert Written(s, s', i);
    WrittenQuiet(c, s, s', i);
  }

  /** A program all of whose operations are well behaved when they are reached. */
  ghost predicate WellBehavedRun(c: Config, s: State, ops: seq<Op>)
    requires c.Valid()
    decreases |ops|
  {
    ops == [] ||
    (WellBehaved(c, s, ops[0]) &&
     (Step(c, s, ops[0]).Done? ==> WellBehavedRun(c, Step(c, s, ops[0]).value.0, ops[1..])))
  }

  /** No run of a well-behaved program is ever stopped by DUMA while mmap succeeds:
      for every part of it that completed without an mmap failure, the next operation
      completes too (or is the one whose mmap fails fatally). */
  lemma {:induction false} NoAlarmEver(c: Config, s: State, ops: seq<Op>, op: Op)
    requires Between(c, s) && Healthy(c, s) && WellBehavedRun(c, s, ops + [op])
    requires Run(c, s, ops).Done? && Run(c, s, ops).value.0.pages.failed == s.pages.failed
    ensures Fine(Step(c, Run(c, s, ops).value.0, op))
    decreases |ops|
  {
    var all := ops + [op];
    if ops == [] {
      assert all[0] == op;
      StepFine(c, s, op);
    } else {
      assert all[0] == ops[0] && all[1..] == ops[1..] + [op];
      NoAlarmStep(c, s, ops, op);
      NoAlarmEver(c, Step(c, s, ops[0]).value.0, ops[1..], op);
    }
  }

  /** The count of failed mmap calls never goes down. */
  lemma {:induction false} RunFailures(c: Config, s: State, ops: seq<Op>, op: Op)
    requires Between(c, s) && WellBehavedRun(c, s, ops + [op]) && Run(c, s, ops).Done?
    ensures s.pages.failed <= Run(c, s, ops).value.0.pages.failed
    decreases |ops|
  {
    if ops != [] {
      var all := ops + [op];
      assert all[0] == ops[0] && all[1..] == ops[1..] + [op];
      StepRefines(c, s, ops[0]);
      RunFailures(c, Step(c, s, ops[0]).value.0, ops[1..], op);
    }
  }

  lemma NoAlarmStep(c: Config, s: State, ops: seq<Op>, op: Op)
    requires Between(c, s) && Healthy(c, s) && ops != [] && WellBehaved(c, s, ops[0])
    requires Step(c, s, ops[0]).Done? && WellBehavedRun(c, Step(c, s, ops[0]).value.0, ops[1..] + [op])
    requires Run(c, s, ops).Done? && Run(c, s, ops).value.0.pages.failed == s.pages.failed
    ensures
      var s1 := Step(c, s, ops[0]).value.0;
      Between(c, s1) && Healthy(c, s1) && s1.pages.failed == s.pages.failed
  {
    var s1 := Step(c, s, ops[0]).value.0;
    StepRefines(c, s, ops[0]);
    RunFailures(c, s1, ops[1..], op);
    StepHealthy(c, s, ops[0]);
  }

  /** The state in which the program starts is healthy. */
  lemma BootHealthy(c: Config, t: Tls, answers: seq<nat>)
    requires c.Valid() && Boot(c, t, answers).Done? && c.SlotsPerPage() >= 7
    requires Boot(c, t, answers).value.pages.failed == 0
    ensures Between(c, Boot(c, t, answers).value) && Healthy(c, Boot(c, t, answers).value)
  {
    BootBoots(c, t, answers);
    BootsHealthy(c, t, answers, Boot(c, t, answers).value);
  }

  lemma BootsHealthy(c: Config, t: Tls, answers: seq<nat>, s: State)
    requires c.Valid() && Boots(c, t, answers, s) && c.SlotsPerPage() >= 7 && s.pages.failed == 0
    ensures Between(c, s) && Healthy(c, s)
  {
    var s0, r :| BootStep(c, t, answers, s0, r, s);
    InitKeeps(c, answers);
    BootsKeep(c, t, answers, s);
    BootQuiet(c, s0, t, r, s);
  }

  lemma BootQuiet(c: Config, s0: State, t: Tls, r: Request, s2: State)
    requires c.Valid() && Struct(c, s0) && AllLiveOpen(s0) && Sound(c, s2) && UserRequest(r)
    requires forall i :: 0 <= i < |s0.slots| ==> NoUser(s0.slots[i])
    requires FirstCalls(c, s0, t, r) == Done(s2)
    ensures Quiet(c, s2)
  {
    var s1, p := CallsReturn(c, s0, t, r, s2);
    MallocQuiet(c, s0, s1, p, t, r);
    FreeQuiet(c, s1, s2, p, EFA_FREE, UNKNOWN_SITE);
  }

  lemma MallocQuiet(c: Config, s: State, s': State, p: nat, t: Tls, r: Request)
    requires c.Valid() && Struct(c, s) && AllLiveOpen(s) && UserRequest(r)
    requires forall i :: 0 <= i < |s.slots| ==> NoUser(s.slots[i])
    requires Allocate(c, s, t, r, true) == Done((s', p))
    ensures Struct(c, s') && Quiet(c, s')
  {
    var k := AllocateKeeps(c, s, t, r, true, Mode(false, false));
    FirstQuiet(c, s, s', p, k, t, r, Mode(false, false));
  }

  lemma FreeQuiet(c: Config, s: State, s': State, a: nat, allocator: Allocator, site: Site)
    requires c.Valid() && Struct(c, s) && Quiet(c, s) && Sound(c, s') && TypeOf(allocator) != Internal
    requires Deallocate(c, s, a, allocator, site) == Done(s')
    ensures Quiet(c, s')
  {
    var m := Mode(false, false);
    var i := DeallocateKeeps(c, s, a, allocator, site, m);
    if a != 0 && a != NullAddr(c, s) { CallQuiet(c, s, s', m, i, -1); }
  }

  lemma FirstQuiet(c: Config, s0: State, s1: State, p: nat, k: nat, t: Tls, r: Request, m: Mode)
    requires Struct(c, s0) && AllLiveOpen(s0) && UserRequest(r)
    requires forall i :: 0 <= i < |s0.slots| ==> NoUser(s0.slots[i])
    requires AllocateResult(c, s0, s1, p, k, t, r, m)
    ensures Struct(c, s1) && Quiet(c, s1)
  {
    if !(r.size == 0 && ZeroStrategy(c, r.allocator) != 3) {
      AllocQuiet(c, s0, s1, p, k, ChosenAlignment(t, r), r, m);
    }
  }
}
