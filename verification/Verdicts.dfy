/**
 With which verdict calls end, case by case: why a free is refused, which side a check
 blames, when the internal errors strike; and what exactly the start sets up.
 */
module Verdicts {
  import opened Bits
  import opened Wrappers
  import opened Pages
  import opened Slots
  import opened Heap
  import opened Invariants
  import opened Calls
  import opened Operations
  import opened Initialisation
  import opened Runs
  import opened Detection
  import opened NoFalseAlarm
  import opened Undercount
  import opened Effects

  // ---- who may free what ----

  /** Memory from allocator a belongs to deallocator d. */
  predicate Belongs(a: Allocator, d: Allocator) {
    match d
    case EFA_FREE =>
      a in {EFA_MALLOC, EFA_CALLOC, EFA_MEMALIGN, EFA_POSIX_MEMALIGN, EFA_REALLOC, EFA_VALLOC, EFA_STRDUP}
    case EFA_REALLOC =>
      a in {EFA_MALLOC, EFA_CALLOC, EFA_MEMALIGN, EFA_POSIX_MEMALIGN, EFA_REALLOC, EFA_VALLOC, EFA_STRDUP}
    case EFA_DEL_ELEM => a == EFA_NEW_ELEM
    case EFA_DEL_ARRAY => a == EFA_NEW_ARRAY
    case EFA_MEMBER_DEL_ELEM => a == EFA_MEMBER_NEW_ELEM
    case EFA_MEMBER_DEL_ARRAY => a == EFA_MEMBER_NEW_ARRAY
    case _ => false
  }

  /** The functions that hand out memory, and those that take it back. */
  predicate Allocates(a: Allocator) {
    a in {EFA_MALLOC, EFA_CALLOC, EFA_MEMALIGN, EFA_POSIX_MEMALIGN, EFA_REALLOC, EFA_VALLOC, EFA_STRDUP,
          EFA_NEW_ELEM, EFA_NEW_ARRAY, EFA_MEMBER_NEW_ELEM, EFA_MEMBER_NEW_ARRAY}
  }

  predicate Deallocates(d: Allocator) {
    d in {EFA_FREE, EFA_REALLOC, EFA_DEL_ELEM, EFA_DEL_ARRAY, EFA_MEMBER_DEL_ELEM, EFA_MEMBER_DEL_ARRAY}
  }

  /** The family test is this table. */
  lemma FamilyTable(a: Allocator, d: Allocator)
    requires Allocates(a) && Deallocates(d)
    ensures TypeOf(a) == TypeOf(d) <==> Belongs(a, d)
  {}

  /** n is the first slot whose bytes, or the byte behind them, are at a. */
  predicate FirstNear(s: State, a: nat, n: Option<nat>) {
    match n
    case None =>
      forall i :: 0 <= i < |s.slots| ==>
        !(s.slots[i].internalAddress <= a <= s.slots[i].internalAddress + s.slots[i].internalSize)
    case Some(k) =>
      && k < |s.slots|
      && s.slots[k].internalAddress <= a <= s.slots[k].internalAddress + s.slots[k].internalSize
      && forall i :: 0 <= i < k ==>
           !(s.slots[i].internalAddress <= a <= s.slots[i].internalAddress + s.slots[i].internalSize)
  }

  /** What a free by d of the address a of slot x does: it returns for a live block of an
      allocator that d belongs to, and aborts for memory already freed and for any other
      slot. */
  predicate SlotSays(x: Slot, d: Allocator, o: Outcome<State>) {
    if IsProtected(x) then o == Abort(AlreadyFreed)
    else if TypeOf(x.allocator) == Internal then o == Abort(FreeMismatch)
    else Allocates(x.allocator) ==> if Belongs(x.allocator, d) then o.Done? else o == Abort(FreeMismatch)
  }

  /** What the pointer checks find, the call says. */
  lemma ChecksSay(c: Config, s: State, s0: State, s1: State, a: nat, d: Allocator, site: Site)
    requires c.Valid() && a != 0 && a != NullAddr(c, s) && OpenTable(c, s) == Done(s0) && CheckFreq(c, s0) == Done(s1)
    requires FreeTarget(s1, a, d).Abort?
    ensures Deallocate(c, s, a, d, site) == Abort(FreeTarget(s1, a, d).reason)
  {}

  lemma CheckedOpen(c: Config, s: State) returns (s0: State, s1: State)
    requires Steady(c, s)
    ensures OpenTable(c, s) == Done(s0) && CheckFreq(c, s0) == Done(s1)
    ensures Sound(c, s1) && s1.slots == s.slots
  {
    s1 := CheckedSteady(c, s);
    s0 := OpenTable(c, s).value;
  }

  lemma SlotVerdict(c: Config, s: State, a: nat, d: Allocator, i: nat)
    requires Sound(c, s) && i < |s.slots| && s.slots[i].userAddress == a != 0 && Deallocates(d)
    ensures
      var x, o := s.slots[i], FreeTarget(s, a, d);
      if IsProtected(x) then o == Abort(AlreadyFreed)
      else if TypeOf(x.allocator) != TypeOf(d) then o == Abort(FreeMismatch)
      else LiveKey(s, a, d, i)
  {
    LookupFinds(c, s, i);
    assert SlotOk(c, s.slots[i]);
  }

  lemma FreeSaysOf(c: Config, s: State, a: nat, d: Allocator, site: Site, i: nat)
    requires Steady(c, s) && Deallocates(d) && a != 0 && a != NullAddr(c, s)
    requires i < |s.slots| && s.slots[i].userAddress == a
    ensures SlotSays(s.slots[i], d, Deallocate(c, s, a, d, site))
  {
    var s0, s1 := CheckedOpen(c, s);
    SlotVerdict(c, s1, a, d, i);
    var x := s.slots[i];
    if IsProtected(x) || TypeOf(x.allocator) != TypeOf(d) {
      ChecksSay(c, s, s0, s1, a, d, site);
    } else {
      FreeReturns(c, s, a, d, site, i);
    }
    if Allocates(x.allocator) { FamilyTable(x.allocator, d); }
  }

  lemma NoSlotSays(c: Config, s: State, a: nat, d: Allocator, site: Site)
    requires Steady(c, s) && Deallocates(d) && a != 0 && a != NullAddr(c, s)
    requires forall i :: 0 <= i < |s.slots| ==> s.slots[i].userAddress != a
    ensures
      var o := Deallocate(c, s, a, d, site);
      o.Abort? && o.reason.NotFromDuma? && FirstNear(s, a, o.reason.near)
  {
    var s0, s1 := CheckedOpen(c, s);
    ChecksSay(c, s, s0, s1, a, d, site);
    NearestMeans(s1, a);
  }

  lemma NearestMeans(s: State, a: nat)
    ensures FirstNear(s, a, NearestSlot(s.slots, a))
  {
    var n := NearestSlot(s.slots, a);
    forall i | 0 <= i < |s.slots| && (n.Some? ==> i < n.value)
      ensures !(s.slots[i].internalAddress <= a <= s.slots[i].internalAddress + s.slots[i].internalSize)
    {
      assert !Near(s.slots[i], a);
    }
  }

  /** What free says of a pointer in a state without damage. An address that is no
      slot's is refused with the first slot that touches it. */
  lemma FreeSays(c: Config, s: State, a: nat, d: Allocator, site: Site)
    requires Steady(c, s) && Deallocates(d) && a != 0 && a != NullAddr(c, s)
    ensures forall i :: 0 <= i < |s.slots| && s.slots[i].userAddress == a ==>
              SlotSays(s.slots[i], d, Deallocate(c, s, a, d, site))
    ensures (forall i :: 0 <= i < |s.slots| ==> s.slots[i].userAddress != a) ==>
              var o := Deallocate(c, s, a, d, site);
              o.Abort? && o.reason.NotFromDuma? && FirstNear(s, a, o.reason.near)
  {
    if i :| 0 <= i < |s.slots| && s.slots[i].userAddress == a {
      forall j | 0 <= j < |s.slots| && s.slots[j].userAddress == a
        ensures SlotSays(s.slots[j], d, Deallocate(c, s, a, d, site))
      {
        FreeSaysOf(c, s, a, d, site, j);
      }
    } else {
      NoSlotSays(c, s, a, d, site);
    }
  }

  // ---- which side was damaged ----

  /** The no man's land of slot sl below its block, or above it, is as it was filled. */
  ghost predicate LowIntact(p: Pages, sl: Slot, fill: Byte) {
    forall b: nat :: InSlack(sl, b) && b < sl.userAddress ==> b in p.mem && p.mem[b] == fill
  }

  ghost predicate HighIntact(p: Pages, sl: Slot, fill: Byte) {
    forall b: nat :: InSlack(sl, b) && b >= sl.userAddress ==> b in p.mem && p.mem[b] == fill
  }

  /** A check blames the bytes below the block if any of them was overwritten, else
      those above. */
  lemma BlamedSide(c: Config, s: State, i: nat)
    requires Sound(c, s) && i < |s.slots| && IsLive(s.slots[i]) && LiveOpen(s, i)
    ensures
      CheckSlack(c, s.pages, s.slots[i]) ==
      if !LowIntact(s.pages, s.slots[i], c.slackFill) then Some(SlackBelow)
      else if !HighIntact(s.pages, s.slots[i], c.slackFill) then Some(SlackAbove)
      else None
  {
    var sl, p := s.slots[i], s.pages;
    if sl.userSize > 0 {
      SlackReadable(c, s, i);
      ScanMeans(p, AccBegin(sl), sl.userAddress, c.slackFill, SlackBelow);
      ScanMeans(p, sl.userAddress + sl.userSize, AccEnd(sl), c.slackFill, SlackAbove);
      assert LowIntact(p, sl, c.slackFill) <==> AllAre(p, AccBegin(sl), sl.userAddress, c.slackFill) by {
        if LowIntact(p, sl, c.slackFill) {
          forall b: nat | AccBegin(sl) <= b < sl.userAddress ensures b in p.mem && p.mem[b] == c.slackFill {
            assert InSlack(sl, b);
          }
        }
      }
      assert HighIntact(p, sl, c.slackFill) <==> AllAre(p, sl.userAddress + sl.userSize, AccEnd(sl), c.slackFill) by {
        if HighIntact(p, sl, c.slackFill) {
          forall b: nat | sl.userAddress + sl.userSize <= b < AccEnd(sl) ensures b in p.mem && p.mem[b] == c.slackFill {
            assert InSlack(sl, b);
          }
        }
      }
    }
  }

  lemma IntactReturns(c: Config, s: State, s1: State)
    requires Between(c, s) && SlackIntact(c, s) && OpenTable(c, s) == Done(s1)
    ensures CheckAll(c, s).Done?
  {
    var m := Mode(false, false);
    OpenKeeps(c, s, m);
    CallQuiet(c, s, s1, m, -1, -1);
    CheckAllQuiet(c, s1, 0);
    CloseKeeps(c, s1, m);
  }

  /** duma_checkAll returns exactly if no block's no man's land was overwritten. */
  lemma CheckAllVerdict(c: Config, s: State)
    requires Between(c, s)
    ensures CheckAll(c, s).Done? <==> SlackIntact(c, s)
  {
    if SlackIntact(c, s) {
      OpenKeeps(c, s, Mode(false, false));
      IntactReturns(c, s, OpenTable(c, s).value);
    } else {
      var i :| 0 <= i < |s.slots| && IsLive(s.slots[i]) && !SlackOk(c, s, i);
      CorruptionCaught(c, s, i, EFA_FREE, UNKNOWN_SITE);
    }
  }

  // ---- internal errors ----

  lemma PlaceStops(c: Config, s: State, k: nat, need: nat, A: pos, r: Request)
    requires c.Valid() && k < |s.slots| && PlaceSlot(c, s, k, need, A, r).Abort?
    ensures PlaceSlot(c, s, k, need, A, r).reason in {MprotectFailed, SegFault}
  {}

  lemma CarveStops(c: Config, s: State, k: nat, e: Option<nat>, need: nat, A: pos, r: Request)
    requires c.Valid() && k < |s.slots| && (e.Some? ==> e.value < |s.slots|) && Carve(c, s, k, e, need, A, r).Abort?
    ensures Carve(c, s, k, e, need, A, r).reason in {MprotectFailed, SegFault, NullSlotWrite}
    ensures Carve(c, s, k, e, need, A, r).reason == NullSlotWrite <==> s.slots[k].internalSize > need && e.None?
  {
    var o := SplitSlot(s, k, e, need);
    if o.Done? { PlaceStops(c, o.value, k, need, A, r); }
  }

  lemma CarveRuns(c: Config, s: State, k: nat, e: Option<nat>, need: nat, A: pos, r: Request)
    requires c.Valid() && k < |s.slots| && (e.Some? ==> e.value < |s.slots|)
    ensures s.slots[k].internalSize > need && e.None? ==> Carve(c, s, k, e, need, A, r).Abort?
  {}

  lemma ChunkStops(c: Config, s: State, e0: nat, e1: nat, need: nat, A: pos, r: Request)
    requires c.Valid() && e0 < |s.slots| && e1 < |s.slots| && need > 0 && CarveChunk(c, s, e0, e1, need, A, r).Abort?
    ensures CarveChunk(c, s, e0, e1, need, A, r).reason in {MprotectFailed, SegFault, MmapFailed}
  {
    var chunk := ChunkSize(c, need);
    ChunkPositive(c, need);
    var num := NumChunks(r.size, chunk);
    var total := TotalSize(chunk, num);
    ObtainFine(c, s, chunk, total, r.failEnv);
    ObtainLength(c, s, chunk, total, r.failEnv);
    var o := Obtain(c, s, chunk, total, r.failEnv);
    if o.Done? && o.value.1 != 0 {
      CarveStops(c, AddChunk(o.value.0, e0, o.value.1, chunk, total, num), e0, Some(e1), need, A, r);
    }
  }

  /** How many empty records the search finds. */
  lemma EmptyFound(slots: seq<Slot>)
    ensures
      var e0 := FirstEmpty(slots, 0);
      && (e0.None? <==> Sum(slots, EmptyOne) == 0)
      && (e0.None? || FirstEmpty(slots, e0.value + 1).None? <==> Sum(slots, EmptyOne) < 2)
  {
    var e0 := FirstEmpty(slots, 0);
    SumBounds(slots, |slots|, EmptyOne);
    if e0.Some? {
      assert EmptyOne(slots[e0.value]) == 1;
      var e1 := FirstEmpty(slots, e0.value + 1);
      if e1.Some? { CountsTwo(slots, e0.value, e1.value); }
    }
    if Sum(slots, EmptyOne) >= 2 { TwoEmpty(slots); }
    if Sum(slots, EmptyOne) > 0 { EmptyExists(slots, 0, |slots|); }
  }

  /** The core stops with "No empty slot" exactly if no free slot fits and fewer than two
      records are empty; and it writes through a null pointer exactly if a free slot fits
      that is too large, and no record is empty. */
  lemma CoreStops(c: Config, s: State, need: nat, A: pos, r: Request)
    requires c.Valid() && need > 0
    ensures
      var fit := BestFit(s.slots, need);
      && (Core(c, s, need, A, r) == Abort(NoEmptySlot) <==> fit.None? && Sum(s.slots, EmptyOne) < 2)
      && (Core(c, s, need, A, r) == Abort(NullSlotWrite) <==>
            fit.Some? && s.slots[fit.value].internalSize > need && Sum(s.slots, EmptyOne) == 0)
  {
    var fit, e0 := BestFit(s.slots, need), FirstEmpty(s.slots, 0);
    EmptyFound(s.slots);
    if fit.Some? {
      CarveRuns(c, s, fit.value, e0, need, A, r);
      if Carve(c, s, fit.value, e0, need, A, r).Abort? { CarveStops(c, s, fit.value, e0, need, A, r); }
    } else if e0.Some? {
      var e1 := FirstEmpty(s.slots, e0.value + 1);
      if e1.Some? && CarveChunk(c, s, e0.value, e1.value, need, A, r).Abort? {
        ChunkStops(c, s, e0.value, e1.value, need, A, r);
      }
    }
  }

  // ---- the start ----

  /** The first chunk is at a, its size is `size`: the table in its first page, the rest
      one free slot, all other records empty. */
  ghost predicate FirstRecords(c: Config, s: State, a: nat, size: nat)
    requires c.slotSize > 0
  {
    && s.allocList == a && s.allocListSize == c.pageSize && |s.slots| == c.pageSize / c.slotSize >= 2
    && s.slots[0].state == IN_USE && s.slots[0].internalAddress == s.slots[0].userAddress == a
    && s.slots[0].internalSize == s.slots[0].userSize == c.pageSize && s.slots[0].allocator == EFA_INT_ALLOC
    && (if size > c.pageSize then
          && s.slots[1].state == FREE && s.slots[1].internalAddress == a + c.pageSize
          && s.slots[1].internalSize == size - c.pageSize
        else s.slots[1] == ZERO_SLOT)
    && (forall i :: 2 <= i < |s.slots| ==> s.slots[i] == ZERO_SLOT)
  }

  /** Mapped are the first chunk and the two pages of the null block; accessible is the
      table, whose bytes are 0. */
  ghost predicate FirstMemory(c: Config, s: State, a: nat, size: nat) {
    && (forall b: nat :: b in s.pages.mem <==> a <= b < a + size || InNull(c, s, b))
    && (forall b: nat :: b in s.pages.open <==> a <= b < a + c.pageSize)
    && (forall b: nat :: a <= b < a + c.pageSize ==> b in s.pages.mem && s.pages.mem[b] == 0)
  }

  /** What initialisation leaves: the table in the first page of the first chunk, which is
      at least a megabyte; the rest of the chunk as one free slot that nobody may touch;
      all other records empty; and the null block, two pages nobody may touch. */
  lemma InitMeans(c: Config, answers: seq<nat>, s: State) returns (a: nat, size: nat)
    requires c.Valid() && Init(c, answers) == Done(s)
    ensures size % c.pageSize == 0 && 1024 * 1024 <= size < 1024 * 1024 + c.pageSize
    ensures |answers| >= 2 && s.nullBlock == answers[0] > 0 && a == answers[1] > 0 && s.pages.answers == answers[2..]
    ensures FirstRecords(c, s, a, size) && FirstMemory(c, s, a, size)
    ensures s.unUsedSlots == |s.slots| - 2 && s.sumAllocatedMem == s.sumProtectedMem == 0 && s.checkFreqCounter == 0
  {
    var s0, zero;
    s0, zero, a := InitPages(c, answers);
    size := BootedSize(c);
    BootedRecords(c, s0, zero, a, size);
    BootedMemory(c, s0, zero, a, size);
  }

  lemma BootedSize(c: Config) returns (size: nat)
    requires c.Valid()
    ensures size == InitSize(c) && size % c.pageSize == 0 && 1024 * 1024 <= size < 1024 * 1024 + c.pageSize
  {
    size := InitSize(c);
    AlignUpMeans(if MEMORY_CREATION_SIZE < c.pageSize then c.pageSize else MEMORY_CREATION_SIZE, c.pageSize);
    DivModUnique(c.pageSize, c.pageSize, 1, 0);
    if MEMORY_CREATION_SIZE < c.pageSize { AlignUpFixed(c.pageSize, c.pageSize); }
  }

  lemma BootedRecords(c: Config, s: State, zero: nat, a: nat, size: nat)
    requires Booted(c, s, zero, a) && size == InitSize(c)
    ensures FirstRecords(c, s, a, size)
  {
    InitRecords(c, a);
  }

  lemma BootedMemory(c: Config, s: State, zero: nat, a: nat, size: nat)
    requires Booted(c, s, zero, a) && size == InitSize(c)
    ensures FirstMemory(c, s, a, size)
  {
    forall b: nat ensures b in s.pages.mem <==> a <= b < a + size || InNull(c, s, b) {
      assert b in Span(zero, zero + 2 * c.pageSize) <==> InNull(c, s, b);
      assert b in Span(a, a + size) <==> a <= b < a + size;
    }
    forall b: nat ensures b in s.pages.open <==> a <= b < a + c.pageSize {
      assert b in Span(a, a + c.pageSize) <==> a <= b < a + c.pageSize;
    }
  }
}
