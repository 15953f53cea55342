/**
 The core of `_duma_allocate`: best fit, or a new chunk; split; place.
 */
module Allocation {
  import opened Bits
  import opened Placement
  import opened Wrappers
  import opened Slots
  import opened Heap
  import opened Invariants
  import opened Reduction
  import opened Chunks
  import opened Placing

  /** Requests whose accessible pages stay inside their slot wherever it lies. */
  predicate Modest(c: Config, A: pos, r: Request) {
    r.size == 0 || !r.protectBelow || A <= c.pageSize
  }

  /** No slot but k starts being in use or protected. */
  predicate NoOther(x: Slot, y: Slot) {
    && (y.state == IN_USE ==> y == x)
    && (IsProtected(y) ==> IsProtected(x) && y.userAddress == x.userAddress)
  }

  ghost predicate NoOthers(s: State, s': State, k: int) {
    && |s'.slots| == |s.slots|
    && forall i :: 0 <= i < |s.slots| && i != k ==> NoOther(s.slots[i], s'.slots[i])
  }

  /** The state apart from slots, counters and pages. */
  predicate SameTable(s: State, s': State) {
    && s'.allocList == s.allocList && s'.allocListSize == s.allocListSize
    && s'.nullBlock == s.nullBlock && s'.checkFreqCounter == s.checkFreqCounter
    && s.pages.failed <= s'.pages.failed
  }

  /** A step that takes `taken` records and keeps the books; without a limit, and if
      no mmap call fails, no protected memory is reduced. */
  ghost predicate CountsKept(c: Config, s: State, s': State, taken: nat) {
    && s'.unUsedSlots == Take(s.unUsedSlots, taken)
    && Sum(s'.slots, EmptyOne) >= Sum(s.slots, EmptyOne) - taken
    && BooksFollow(s, s')
    && s.pages.failed <= s'.pages.failed
    && (Unlimited(c, s, s') ==> Drift(s') == Drift(s))
  }

  lemma CountsAccounts(c: Config, s: State, s': State, taken: nat)
    requires c.Valid() && Accounts(c, s) && CountsKept(c, s, s', taken)
    ensures Accounts(c, s')
  {}

  lemma CountsTrans(c: Config, s: State, s1: State, s2: State, t1: nat, t2: nat)
    requires CountsKept(c, s, s1, t1) && CountsKept(c, s1, s2, t2) && t1 + t2 <= 2
    ensures CountsKept(c, s, s2, t1 + t2)
  {}

  /** The memory side of a step that brings block k (k = -1: none) into use. */
  ghost predicate Moved(c: Config, s: State, s': State, k: int, m: Mode) {
    && Sound(c, s')
    && SameTable(s, s')
    && Frame(m, s, s', -1, c)
    && NoOthers(s, s', k)
    && (m.strict && AllDead(c, s) ==> AllDead(c, s'))
  }

  lemma MovedTrans(c: Config, s: State, s1: State, s2: State, k: int, m: Mode)
    requires Moved(c, s, s1, -1, m) && Moved(c, s1, s2, k, m)
    ensures Moved(c, s, s2, k, m)
  {
    FrameTrans(m, s, s1, s2, -1, c);
    forall i | 0 <= i < |s.slots| && i != k ensures NoOther(s.slots[i], s2.slots[i]) {
      assert NoOther(s.slots[i], s1.slots[i]) && NoOther(s1.slots[i], s2.slots[i]);
    }
  }

  // ---- carving a block out of free slot k ----

  lemma SplitMoves(c: Config, s: State, k: nat, e: Option<nat>, need: nat, m: Mode)
    requires Sound(c, s) && k < |s.slots| && Fits(s.slots[k], need)
    requires e.Some? ==> e.value < |s.slots| && s.slots[e.value].state == EMPTY
    requires 0 < need && need % c.pageSize == 0
    requires SplitSlot(s, k, e, need).Done?
    ensures var s' := SplitSlot(s, k, e, need).value;
            Moved(c, s, s', -1, m) && CountsKept(c, s, s', if s.slots[k].internalSize > need then 1 else 0)
  {
    SplitKeeps(c, s, k, e, need);
    SplitBooks(c, s, k, e, need);
    var s' := SplitSlot(s, k, e, need).value;
    forall i | 0 <= i < |s.slots| && Busy(m, s.slots[i]) ensures Kept(m.strict, s, s', i) {
      assert Kept(true, s, s', i);
    }
    forall i | 0 <= i < |s.slots| ensures NoOther(s.slots[i], s'.slots[i]) {
      if s'.slots[i] != s.slots[i] { assert s'.slots[i].state == FREE; }
    }
  }

  lemma PlaceMoves(c: Config, s: State, k: nat, need: nat, A: pos, r: Request, m: Mode)
    requires Sound(c, s) && k < |s.slots| && s.slots[k].state == FREE
    requires WellPosed(c, A, r) && (m.strict ==> Modest(c, A, r))
    requires need == SlotBytes(c, A, r.size) == s.slots[k].internalSize
    requires PlaceSlot(c, s, k, need, A, r).Done?
    ensures
      var (s', user) := PlaceSlot(c, s, k, need, A, r).value;
      && Moved(c, s, s', k, m) && CountsKept(c, s, s', 0)
      && NewBlock(c, s', k, A, r) && user == s'.slots[k].userAddress != 0
      && s'.slots[k].internalAddress == s.slots[k].internalAddress
  {
    if m.strict && r.size > 0 && r.protectBelow {
      SmallAlignmentConfined(c, A, r, s.slots[k].internalAddress);
    }
    PlaceKeeps(c, s, k, need, A, r, m.strict);
    var (s', user) := PlaceSlot(c, s, k, need, A, r).value;
    PlaceBooks(s, k, s'.slots[k]);
    PlaceFrame(c, s, s', k, A, r, m);
  }

  lemma PlaceFrame(c: Config, s: State, s': State, k: nat, A: pos, r: Request, m: Mode)
    requires Sound(c, s) && Placed(c, s, s', k, A, r, m.strict) && s.slots[k].state == FREE
    ensures Frame(m, s, s', -1, c) && NoOthers(s, s', k)
  {
    SlotMapped(c, s, k);
    forall i | 0 <= i < |s.slots| && Busy(m, s.slots[i]) ensures Kept(m.strict, s, s', i) {
      assert i != k;
    }
  }

  ghost predicate CarveOk(c: Config, s: State, s': State, user: nat, k: nat, A: pos, r: Request, m: Mode, taken: nat) {
    && Moved(c, s, s', k, m) && CountsKept(c, s, s', taken)
    && NewBlock(c, s', k, A, r) && user == s'.slots[k].userAddress != 0
    && k < |s.slots| && (s.slots[k].state == FREE || s.slots[k].state == EMPTY)
  }

  lemma CarveKeeps(c: Config, s: State, k: nat, e: Option<nat>, need: nat, A: pos, r: Request, m: Mode)
    returns (taken: nat)
    requires Sound(c, s) && k < |s.slots| && Fits(s.slots[k], need)
    requires e.Some? ==> e.value < |s.slots| && s.slots[e.value].state == EMPTY
    requires WellPosed(c, A, r) && (m.strict ==> Modest(c, A, r))
    requires need == SlotBytes(c, A, r.size)
    requires Carve(c, s, k, e, need, A, r).Done?
    ensures
      var (s', user) := Carve(c, s, k, e, need, A, r).value;
      && CarveOk(c, s, s', user, k, A, r, m, taken)
      && taken == if s.slots[k].internalSize > need then 1 else 0
  {
    SlotBytesAligned(c, A, r);
    taken := if s.slots[k].internalSize > need then 1 else 0;
    var s1 := SplitSlot(s, k, e, need).value;
    SplitKeeps(c, s, k, e, need);
    SplitMoves(c, s, k, e, need, m);
    PlaceMoves(c, s1, k, need, A, r, m);
    var (s', user) := PlaceSlot(c, s1, k, need, A, r).value;
    MovedTrans(c, s, s1, s', k, m);
    CountsTrans(c, s, s1, s', taken, 0);
  }

  lemma SlotBytesAligned(c: Config, A: pos, r: Request)
    requires c.Valid() && WellPosed(c, A, r)
    ensures SlotBytes(c, A, r.size) % c.pageSize == 0
    ensures r.size > 0 ==> r.size < SlotBytes(c, A, r.size)
  {
    DivModUnique(c.pageSize, c.pageSize, 1, 0);
    if r.size > 0 { InternalSizeMeans(c.pageSize, A, r.size); }
  }

  // ---- a new chunk ----

  lemma ObtainedMoves(c: Config, s: State, s': State, calm: bool, m: Mode)
    requires Obtained(c, s, s', calm) && Sound(c, s) && (m.prot ==> calm)
    ensures SameTable(s, s') && Frame(m, s, s', -1, c) && NoOthers(s, s', -1)
    ensures m.strict && AllDead(c, s) ==> AllDead(c, s')
  {
    forall i | 0 <= i < |s.slots| && Busy(m, s.slots[i]) ensures Kept(m.strict, s, s', i) {
      assert Kept(true, s, s', i);
    }
    forall i | 0 <= i < |s.slots| ensures NoOther(s.slots[i], s'.slots[i]) {
      assert ReducedSlot(s.slots[i], s'.slots[i]);
    }
  }

  /** Entering a fresh chunk as a free slot. */
  lemma ChunkMoves(c: Config, s: State, s1: State, e: nat, a: nat, n: nat, s2: State, calm: bool, m: Mode)
    requires Sound(c, s) && ObtainOk(c, s, s1, a, n, calm) && (m.prot ==> calm)
    requires Unlimited(c, s, s1) ==> calm
    requires a > 0 && n > 0 && n % c.pageSize == 0
    requires e < |s.slots| && s.slots[e].state == EMPTY && s2 == AddChunk(s1, e, a, n, n, 1)
    ensures Moved(c, s, s2, -1, m) && CountsKept(c, s, s2, 1)
    ensures s2.slots[e].state == FREE && s2.slots[e].internalSize == n
    ensures forall i :: 0 <= i < |s.slots| && i != e && s.slots[i].state == EMPTY ==> s2.slots[i].state == EMPTY
  {
    assert Kept(true, s, s1, e);
    AddChunkKeeps(c, s1, e, a, n);
    AddChunkBooks(s1, e, a, n);
    ObtainedMoves(c, s, s1, calm, m);
    ChunkFrame(c, s, s1, e, a, n, s2, m);
    forall i | 0 <= i < |s.slots| && i != e && s.slots[i].state == EMPTY ensures s2.slots[i].state == EMPTY {
      assert Kept(true, s, s1, i);
    }
  }

  lemma ChunkFrame(c: Config, s: State, s1: State, e: nat, a: nat, n: nat, s2: State, m: Mode)
    requires Frame(m, s, s1, -1, c) && NoOthers(s, s1, -1) && e < |s1.slots| && s1.slots[e].state == EMPTY
    requires s2 == AddChunk(s1, e, a, n, n, 1)
    ensures Frame(m, s, s2, -1, c) && NoOthers(s, s2, -1)
  {
    FrameTrans(m, s, s1, s2, -1, c);
    forall i | 0 <= i < |s.slots| ensures NoOther(s.slots[i], s2.slots[i]) {
      assert NoOther(s.slots[i], s1.slots[i]);
    }
  }

  lemma NumChunksIsOne(c: Config, A: pos, r: Request, chunk: nat)
    requires c.Valid() && WellPosed(c, A, r)
    requires chunk == ChunkSize(c, SlotBytes(c, A, r.size)) && chunk > 0
    ensures NumChunks(r.size, chunk) == 1
  {
    SlotBytesAligned(c, A, r);
    ChunkPositive(c, SlotBytes(c, A, r.size));
    if r.size > 0 { OneChunk(r.size, chunk); }
  }

  /** How many EMPTY records the core uses up for a request it serves. */
  function RecordsTaken(c: Config, slots: seq<Slot>, need: nat): nat
    requires c.Valid()
  {
    var full := BestFit(slots, need);
    if full.Some? then (if slots[full.value].internalSize > need then 1 else 0)
    else (if ChunkSize(c, need) > need then 2 else 1)
  }

  /** What the core does: it either places the block in slot k, or gives up because
      mmap failed. */
  ghost predicate CoreOk(c: Config, s: State, s': State, user: nat, k: nat, A: pos, r: Request, m: Mode, taken: nat) {
    if user == 0 then
      Moved(c, s, s', -1, m) && CountsKept(c, s, s', taken) && taken == 0 && s.pages.failed < s'.pages.failed
    else
      CarveOk(c, s, s', user, k, A, r, m, taken)
  }

  lemma CarveChunkKeeps(c: Config, s: State, e0: nat, e1: nat, A: pos, r: Request, m: Mode)
    returns (taken: nat)
    requires Sound(c, s) && e0 < |s.slots| && e1 < |s.slots| && e0 != e1
    requires s.slots[e0].state == EMPTY && s.slots[e1].state == EMPTY
    requires WellPosed(c, A, r) && (m.strict ==> Modest(c, A, r))
    requires CarveChunk(c, s, e0, e1, SlotBytes(c, A, r.size), A, r).Done?
    requires m.prot ==>
      c.maxAlloc <= 0 &&
      CarveChunk(c, s, e0, e1, SlotBytes(c, A, r.size), A, r).value.0.pages.failed == s.pages.failed
    ensures
      var (s', user) := CarveChunk(c, s, e0, e1, SlotBytes(c, A, r.size), A, r).value;
      && CoreOk(c, s, s', user, e0, A, r, m, taken)
      && taken == (if user == 0 then 0 else if ChunkSize(c, SlotBytes(c, A, r.size)) > SlotBytes(c, A, r.size) then 2 else 1)
  {
    var need := SlotBytes(c, A, r.size);
    var chunk := ChunkSize(c, need);
    ChunkPositive(c, need);
    NumChunksIsOne(c, A, r, chunk);
    assert TotalSize(chunk, 1) == chunk;
    ObtainKeeps(c, s, chunk, chunk, r.failEnv);
    var (s1, a) := Obtain(c, s, chunk, chunk, r.failEnv).value;
    if a == 0 {
      ObtainedMoves(c, s, s1, c.maxAlloc <= 0 && s1.pages.failed == s.pages.failed, m);
      taken := 0;
    } else {
      var s2 := AddChunk(s1, e0, a, chunk, chunk, 1);
      var (s', user) := Carve(c, s2, e0, Some(e1), need, A, r).value;
      taken := PlaceInChunk(c, s, s1, a, chunk, e0, e1, s2, need, A, r, s', user, m);
    }
  }

  lemma PlaceInChunk(c: Config, s: State, s1: State, a: nat, chunk: nat, e0: nat, e1: nat, s2: State,
                     need: nat, A: pos, r: Request, s': State, user: nat, m: Mode)
    returns (taken: nat)
    requires Sound(c, s) && ObtainOk(c, s, s1, a, chunk, c.maxAlloc <= 0 && s1.pages.failed == s.pages.failed)
    requires a > 0 && chunk % c.pageSize == 0 && need == SlotBytes(c, A, r.size) && chunk >= need
    requires e0 < |s.slots| && e1 < |s.slots| && e0 != e1
    requires s.slots[e0].state == EMPTY && s.slots[e1].state == EMPTY
    requires WellPosed(c, A, r) && (m.strict ==> Modest(c, A, r))
    requires s2 == AddChunk(s1, e0, a, chunk, chunk, 1) && |s2.slots| == |s.slots|
    requires Carve(c, s2, e0, Some(e1), need, A, r) == Done((s', user))
    requires m.prot ==> c.maxAlloc <= 0 && s'.pages.failed == s.pages.failed
    ensures CarveOk(c, s, s', user, e0, A, r, m, taken) && taken == if chunk > need then 2 else 1
  {
    var calm := c.maxAlloc <= 0 && s1.pages.failed == s.pages.failed;
    ChunkMoves(c, s, s1, e0, a, chunk, s2, calm, Mode(m.strict, false));
    var t := CarveKeeps(c, s2, e0, Some(e1), need, A, r, m);
    assert s1.pages.failed == s2.pages.failed <= s'.pages.failed;
    ChunkMoves(c, s, s1, e0, a, chunk, s2, calm, m);
    MovedTrans(c, s, s2, s', e0, m);
    CountsTrans(c, s, s2, s', 1, t);
    taken := 1 + t;
  }

  lemma CoreKeeps(c: Config, s: State, need: nat, A: pos, r: Request, m: Mode) returns (k: nat, taken: nat)
    requires Sound(c, s)
    requires WellPosed(c, A, r) && (m.strict ==> Modest(c, A, r))
    requires need == SlotBytes(c, A, r.size) && Core(c, s, need, A, r).Done?
    requires m.prot ==>
      c.maxAlloc <= 0 &&
      Core(c, s, need, A, r).value.0.pages.failed == s.pages.failed
    ensures
      var (s', user) := Core(c, s, need, A, r).value;
      && CoreOk(c, s, s', user, k, A, r, m, taken)
      && taken == (if user == 0 then 0 else RecordsTaken(c, s.slots, need))
  {
    var full := BestFit(s.slots, need);
    var e0 := FirstEmpty(s.slots, 0);
    if full.Some? {
      k := full.value;
      taken := CarveKeeps(c, s, k, e0, need, A, r, m);
    } else {
      k := e0.value;
      var e1 := FirstEmpty(s.slots, k + 1);
      taken := CarveChunkKeeps(c, s, k, e1.value, A, r, m);
    }
  }
}
