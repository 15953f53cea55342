/**
 What one call of the allocator does to its state, as functions on values:
 the specification the methods of class `Duma` are proved against, and the
 subject of the invariants.
 */
module Heap {
  import opened Bits
  import opened Placement
  import opened Wrappers
  import opened Pages
  import opened Slots

  const MEMORY_CREATION_SIZE: nat := 1024 * 1024

  /** Settings fixed after initialisation. */
  datatype Config = Config(
    pageSize: nat,
    slotSize: nat,        // sizeof(struct _DUMA_Slot)
    protectFree: int,     // < 0: for ever, 0: never, > 0: up to that many kB
    maxAlloc: int,
    checkFreq: nat,
    slackFill: Byte,
    malloc0Strategy: nat,
    new0Strategy: nat,
    mallocFailExit: bool)
  {
    predicate Valid() {
      && IsPow2(pageSize) && pageSize % 1024 == 0
      && 0 < slotSize && 2 * slotSize <= pageSize < SIZE_MAX / 2
    }

    function SlotsPerPage(): nat
      requires slotSize > 0
    {
      pageSize / slotSize
    }
  }

  /** The per-thread settings a call reads; ALIGNMENT is never 0. */
  datatype Tls = Tls(alignment: pos, protectBelow: bool, fill: Option<Byte>)
  type pos = x: nat | x > 0 witness 1

  /** The parameters of `_duma_allocate`; alignment 0 asks for the default. */
  datatype Request = Request(
    alignment: nat,
    size: nat,
    protectBelow: bool,
    fill: Option<Byte>,
    allocator: Allocator,
    failEnv: bool,
    site: Site)

  datatype State = State(
    slots: seq<Slot>,
    allocList: nat,
    allocListSize: nat,
    unUsedSlots: nat,     // a size_t: it wraps around
    sumAllocatedMem: int,
    sumProtectedMem: int,
    checkFreqCounter: int,
    nullBlock: nat,
    pages: Pages,
    lost: nat)            // kB released by reductions that failed: a history variable

  /** x - n and x + n in size_t. */
  function Take(x: nat, n: nat): nat {
    if n <= x then x - n else if n <= x + SIZE_MAX + 1 then x + SIZE_MAX + 1 - n else 0
  }

  function Give(x: nat, n: nat): nat {
    (x + n) % (SIZE_MAX + 1)
  }

  function NullAddr(c: Config, s: State): nat {
    s.nullBlock + c.pageSize
  }

  // ---- opening and closing the table ----

  function OpenTable(c: Config, s: State): Outcome<State>
    requires c.Valid()
  {
    var p :- Allow(s.pages, c.pageSize, s.allocList, s.allocListSize);
    Done(s.(pages := p))
  }

  function CloseTable(c: Config, s: State): Outcome<State>
    requires c.Valid()
  {
    var p :- Deny(s.pages, c.pageSize, s.allocList, s.allocListSize);
    Done(s.(pages := p))
  }

  // ---- slack ----

  /** Every byte of [lo, hi) can be read and written. */
  predicate AllOpen(p: Pages, lo: nat, hi: int) {
    forall b: nat {:trigger b in p.open} {:trigger b in p.mem} :: lo <= b < hi ==> b in p.open && b in p.mem
  }

  /** Reading [lo, hi) upwards: the first byte that faults or differs from `fill`. */
  function Scan(p: Pages, lo: nat, hi: int, fill: Byte, bad: Reason): Option<Reason>
    decreases hi - lo
  {
    if lo >= hi then None
    else if lo !in p.open || lo !in p.mem then Some(SegFault)
    else if p.mem[lo] != fill then Some(bad)
    else Scan(p, lo + 1, hi, fill, bad)
  }

  /** _duma_check_slack */
  function CheckSlack(c: Config, p: Pages, sl: Slot): Option<Reason> {
    if sl.userSize == 0 || sl.internalAddress == 0 then None
    else
      var low := Scan(p, AccBegin(sl), sl.userAddress, c.slackFill, SlackBelow);
      if low.Some? then low
      else Scan(p, sl.userAddress + sl.userSize, AccEnd(sl), c.slackFill, SlackAbove)
  }

  /** _duma_check_all_slacks, from slot i on */
  function CheckAllSlacks(c: Config, s: State, i: nat): Option<Reason>
    decreases |s.slots| - i
  {
    if i >= |s.slots| then None
    else
      var r := if s.slots[i].state == IN_USE && s.slots[i].userSize > 0
               then CheckSlack(c, s.pages, s.slots[i]) else None;
      if r.Some? then r else CheckAllSlacks(c, s, i + 1)
  }

  /** The periodic check at the start of every (de)allocation. */
  function CheckFreq(c: Config, s: State): (r: Outcome<State>)
    ensures r.Done? ==> r.value == s.(checkFreqCounter := r.value.checkFreqCounter)
  {
    if c.checkFreq == 0 then Done(s)
    else if s.checkFreqCounter + 1 == c.checkFreq then
      match CheckAllSlacks(c, s, 0)
      case Some(r) => Abort(r)
      case None => Done(s.(checkFreqCounter := 0))
    else Done(s.(checkFreqCounter := s.checkFreqCounter + 1))
  }

  /** _duma_init_slack, as its effect on memory */
  function InitSlack(c: Config, mem: map<nat, Byte>, sl: Slot): map<nat, Byte> {
    if sl.userSize == 0 then mem
    else
      FillRange(FillRange(mem, AccBegin(sl), sl.userAddress, c.slackFill),
                sl.userAddress + sl.userSize, AccEnd(sl), c.slackFill)
  }

  /** The bytes _duma_init_slack writes are accessible. */
  predicate SlackOpen(p: Pages, sl: Slot) {
    sl.userSize > 0 ==>
      AllOpen(p, AccBegin(sl), sl.userAddress) && AllOpen(p, sl.userAddress + sl.userSize, AccEnd(sl))
  }

  // ---- lookups ----

  /** slotForUserAddress: the first slot with that user address. */
  function SlotForUser(slots: seq<Slot>, a: nat): (r: Option<nat>)
    ensures r.Some? ==> r.value < |slots| && slots[r.value].userAddress == a
    ensures r.Some? ==> forall i :: 0 <= i < r.value ==> slots[i].userAddress != a
    ensures r.None? ==> forall i :: 0 <= i < |slots| ==> slots[i].userAddress != a
  {
    if slots == [] then None
    else
      var n := |slots| - 1;
      var r := SlotForUser(slots[..n], a);
      assert forall i :: 0 <= i < n ==> slots[i] == slots[..n][i];
      if r.Some? then r
      else if slots[n].userAddress == a then Some(n)
      else None
  }

  /** The slot, or its upper bound, touches the address. */
  predicate Near(sl: Slot, a: nat) {
    sl.internalAddress <= a <= sl.internalAddress + sl.internalSize
  }

  /** nearestSlotForUserAddress: the first slot around that address. */
  function NearestSlot(slots: seq<Slot>, a: nat): (r: Option<nat>)
    ensures r.Some? ==> r.value < |slots| && Near(slots[r.value], a)
    ensures r.Some? ==> forall i :: 0 <= i < r.value ==> !Near(slots[i], a)
    ensures r.None? ==> forall i :: 0 <= i < |slots| ==> !Near(slots[i], a)
  {
    if slots == [] then None
    else
      var n := |slots| - 1;
      var r := NearestSlot(slots[..n], a);
      assert forall i :: 0 <= i < n ==> slots[i] == slots[..n][i];
      if r.Some? then r
      else if Near(slots[n], a) then Some(n)
      else None
  }

  predicate Fits(sl: Slot, need: nat) {
    sl.state == FREE && sl.internalSize >= need
  }

  /** The first of the smallest free slots that are large enough. */
  function BestFit(slots: seq<Slot>, need: nat): (r: Option<nat>)
    ensures r.Some? ==> r.value < |slots| && Fits(slots[r.value], need)
    ensures r.Some? ==> forall i :: 0 <= i < |slots| && Fits(slots[i], need) ==>
                          slots[r.value].internalSize <= slots[i].internalSize
    ensures r.Some? ==> forall i :: 0 <= i < r.value && Fits(slots[i], need) ==>
                          slots[r.value].internalSize < slots[i].internalSize
    ensures r.None? ==> forall i :: 0 <= i < |slots| ==> !Fits(slots[i], need)
  {
    if slots == [] then None
    else
      var n := |slots| - 1;
      var r := BestFit(slots[..n], need);
      assert forall i :: 0 <= i < n ==> slots[i] == slots[..n][i];
      if Fits(slots[n], need) && (r.None? || slots[n].internalSize < slots[r.value].internalSize)
      then Some(n) else r
  }

  /** The first EMPTY slot at or after `from`. */
  function FirstEmpty(slots: seq<Slot>, from: nat): (r: Option<nat>)
    ensures r.Some? ==> from <= r.value < |slots| && slots[r.value].state == EMPTY
    ensures r.Some? ==> forall i :: from <= i < r.value ==> slots[i].state != EMPTY
    ensures r.None? ==> forall i :: from <= i < |slots| ==> slots[i].state != EMPTY
    decreases |slots| - from
  {
    if from >= |slots| then None
    else if slots[from].state == EMPTY then Some(from)
    else FirstEmpty(slots, from + 1)
  }

  // ---- reduceProtectedMemory ----

  /** The bytes up to the end of the page holding userAddress. A slot's user
      address is never below its first byte, and the result is never above its
      size, so the guards only make the function total. */
  function KeptSize(c: Config, sl: Slot): nat
    requires c.Valid()
  {
    if sl.userAddress < sl.internalAddress then 0
    else
      var keep := AlignDown(sl.userAddress - sl.internalAddress + c.pageSize, c.pageSize);
      if keep <= sl.internalSize then keep else sl.internalSize
  }

  function Trimmed(c: Config, sl: Slot): Slot
    requires c.Valid()
  {
    sl.(state := BEGIN_PROTECTED, internalSize := KeptSize(c, sl))
  }

  /** Phase 1 on one slot: release everything above the page of userAddress. */
  function TrimSlot(c: Config, s: State, i: nat): State
    requires c.Valid() && i < |s.slots|
  {
    var sl := s.slots[i];
    var keep := KeptSize(c, sl);
    s.(slots := s.slots[i := Trimmed(c, sl)],
       pages := Delete(s.pages, c.pageSize, sl.internalAddress + keep, sl.internalSize - keep))
  }

  /** Give back all memory of a slot and the slot itself. */
  function DropSlot(c: Config, s: State, i: nat): State
    requires c.Valid() && i < |s.slots|
  {
    var sl := s.slots[i];
    s.(slots := s.slots[i := Emptied(sl)],
       pages := Delete(s.pages, c.pageSize, sl.internalAddress, sl.internalSize))
  }

  function Phase1(c: Config, s: State, i: nat, done: nat, k: nat): (r: (State, nat))
    requires c.Valid()
    ensures |r.0.slots| == |s.slots|
    decreases |s.slots| - i
  {
    if i >= |s.slots| || done >= k then (s, done)
    else if s.slots[i].state == ALL_PROTECTED then
      Phase1(c, TrimSlot(c, s, i), i + 1,
             done + KB(s.slots[i].internalSize - KeptSize(c, s.slots[i])), k)
    else Phase1(c, s, i + 1, done, k)
  }

  function Phase2(c: Config, s: State, i: nat, done: nat, k: nat): (r: (State, nat))
    requires c.Valid()
    ensures |r.0.slots| == |s.slots|
    decreases |s.slots| - i
  {
    if i >= |s.slots| || done >= k then (s, done)
    else if s.slots[i].state == BEGIN_PROTECTED then
      Phase2(c, DropSlot(c, s, i), i + 1, done + KB(s.slots[i].internalSize), k)
    else Phase2(c, s, i + 1, done, k)
  }

  /** The sums are corrected only when the goal was reached. */
  function Booked(s: State, done: nat): State {
    s.(sumProtectedMem := s.sumProtectedMem - done, sumAllocatedMem := s.sumAllocatedMem - done)
  }

  /** reduceProtectedMemory(k), k in kB; the flag is its return value. */
  function Reduce(c: Config, s: State, k: nat): (r: (State, bool))
    requires c.Valid()
    ensures |r.0.slots| == |s.slots|
  {
    if k == 0 then (s, false)
    else
      var (s1, done1) := Phase1(c, s, 0, 0, k);
      if done1 >= k then (Booked(s1, done1), true)
      else
        var (s2, done2) := Phase2(c, s1, 0, done1, k);
        if done2 >= k then (Booked(s2, done2), true) else (s2.(lost := s2.lost + done2), false)
  }

  lemma {:induction false} Phase1Rank(c: Config, s: State, i: nat, done: nat, k: nat)
    requires c.Valid()
    ensures var (s', done') := Phase1(c, s, i, done, k);
            && Sum(s'.slots, Rank) <= Sum(s.slots, Rank)
            && (done' != done ==> Sum(s'.slots, Rank) < Sum(s.slots, Rank))
    decreases |s.slots| - i
  {
    if i >= |s.slots| || done >= k {
    } else if s.slots[i].state == ALL_PROTECTED {
      SumUpdate(s.slots, i, Trimmed(c, s.slots[i]), Rank);
      Phase1Rank(c, TrimSlot(c, s, i), i + 1,
                 done + KB(s.slots[i].internalSize - KeptSize(c, s.slots[i])), k);
    } else {
      Phase1Rank(c, s, i + 1, done, k);
    }
  }

  lemma {:induction false} Phase2Rank(c: Config, s: State, i: nat, done: nat, k: nat)
    requires c.Valid()
    ensures var (s', done') := Phase2(c, s, i, done, k);
            && Sum(s'.slots, Rank) <= Sum(s.slots, Rank)
            && (done' != done ==> Sum(s'.slots, Rank) < Sum(s.slots, Rank))
    decreases |s.slots| - i
  {
    if i >= |s.slots| || done >= k {
    } else if s.slots[i].state == BEGIN_PROTECTED {
      SumUpdate(s.slots, i, Emptied(s.slots[i]), Rank);
      Phase2Rank(c, DropSlot(c, s, i), i + 1, done + KB(s.slots[i].internalSize), k);
    } else {
      Phase2Rank(c, s, i + 1, done, k);
    }
  }

  /** Success makes progress, so the retry loop around mmap terminates. */
  lemma ReduceRank(c: Config, s: State, k: nat)
    requires c.Valid()
    ensures var (s', more) := Reduce(c, s, k);
            && Sum(s'.slots, Rank) <= Sum(s.slots, Rank)
            && (more ==> Sum(s'.slots, Rank) < Sum(s.slots, Rank))
            && Sum(s'.slots, Rank) >= 0
  {
    var (s', more) := Reduce(c, s, k);
    SumBounds(s'.slots, |s'.slots|, Rank);
    if k > 0 {
      Phase1Rank(c, s, 0, 0, k);
      var (s1, done1) := Phase1(c, s, 0, 0, k);
      Phase2Rank(c, s1, 0, done1, k);
    }
  }

  // ---- creating a chunk ----

  function CreatePages(c: Config, s: State, size: nat): (State, nat)
    requires c.Valid()
  {
    var (p, a) := Create(s.pages, c.pageSize, size);
    (s.(pages := p), a)
  }

  /** do { reduce; create } while (reduce_more && failed) */
  function CreateRetry(c: Config, s: State, size: nat, k: nat): (State, nat)
    requires c.Valid()
    decreases Sum(s.slots, Rank)
  {
    ReduceRank(c, s, k);
    var (s1, more) := Reduce(c, s, k);
    var (s2, a) := CreatePages(c, s1, size);
    if more && a == 0 then CreateRetry(c, s2, size, k) else (s2, a)
  }

  function ChunkSize(c: Config, need: nat): nat
    requires c.Valid()
  {
    AlignUp(if MEMORY_CREATION_SIZE < need then need else MEMORY_CREATION_SIZE, c.pageSize)
  }

  function NumChunks(size: nat, chunk: nat): nat
    requires chunk > 0
  {
    if size <= 0 then 1 else (size + (chunk - 1)) / chunk
  }

  function TotalSize(chunk: nat, num: nat): nat {
    chunk * num
  }

  function LimitAllocated(c: Config, s: State, kB: nat): State
    requires c.Valid()
  {
    if c.maxAlloc > 0 && s.sumAllocatedMem + kB > c.maxAlloc then Reduce(c, s, kB).0 else s
  }

  /** Pages for a new chunk, or address 0. */
  function Obtain(c: Config, s: State, chunk: nat, total: nat, failEnv: bool): Outcome<(State, nat)>
    requires c.Valid()
  {
    var s0 := LimitAllocated(c, s, KB(chunk));
    var (s1, a1) := CreatePages(c, s0, total);
    if a1 != 0 || c.protectFree == 0 then Done((s1, a1))
    else
      var (s2, a2) := CreateRetry(c, s1, total, KB(chunk));
      if a2 != 0 || !failEnv then Done((s2, a2))
      else
        var (s3, a3) := CreatePages(c, s2, total);
        if a3 == 0 && c.mallocFailExit then Abort(MmapFailed) else Done((s3, a3))
  }

  /** Slot e becomes the free slot of a new chunk. */
  function AddChunk(s: State, e: nat, a: nat, chunk: nat, total: nat, num: nat): State
    requires e < |s.slots|
  {
    s.(slots := s.slots[e := s.slots[e].(internalAddress := a, internalSize := total, state := FREE)],
       sumAllocatedMem := s.sumAllocatedMem + KB(chunk) * num,
       unUsedSlots := Take(s.unUsedSlots, 1))
  }

  // ---- splitting and placing ----

  function Remainder(sl: Slot, need: nat): Slot
    requires need <= sl.internalSize
  {
    var a := sl.internalAddress + need;
    sl.(internalAddress := a, internalSize := sl.internalSize - need,
        userAddress := a, userSize := sl.internalSize - need)
  }

  /** Cut slot k down to `need` bytes; slot e takes the surplus. */
  function SplitSlot(s: State, k: nat, e: Option<nat>, need: nat): Outcome<State>
    requires k < |s.slots| && (e.Some? ==> e.value < |s.slots|)
  {
    var sl := s.slots[k];
    if sl.internalSize <= need then Done(s)
    else if e.None? then Abort(NullSlotWrite)
    else Done(s.(slots := s.slots[e.value := Remainder(sl, need)][k := sl.(internalSize := need)],
                 unUsedSlots := Take(s.unUsedSlots, 1)))
  }

  datatype Spot = Spot(user: nat, prot: int)

  /** The addresses chosen for a block in the slot that starts at `start`. */
  function Place(c: Config, start: nat, need: nat, A: pos, r: Request): Spot
    requires c.Valid()
  {
    if r.size == 0 then Spot(start + c.pageSize / 2, start)
    else if !r.protectBelow then
      var user := UserAbove(c.pageSize, A, start, need, r.size);
      Spot(user, ProtAbove(c.pageSize, user, r.size))
    else
      var user := UserBelow(c.pageSize, A, start);
      Spot(user, ProtBelow(c.pageSize, user))
  }

  /** The live and dead pages of a block. */
  function Protect(c: Config, p: Pages, start: nat, need: nat, spot: Spot, r: Request): Outcome<Pages>
    requires c.Valid()
  {
    if r.size == 0 then Deny(p, c.pageSize, start, need)
    else if !r.protectBelow then
      var p1 :- Allow(p, c.pageSize, start, spot.prot - start);
      if spot.prot < 0 then Abort(MprotectFailed)
      else Deny(p1, c.pageSize, spot.prot, start + need - spot.prot)
    else
      var p1 :- Allow(p, c.pageSize, spot.user, need - (spot.user - spot.prot));
      Deny(p1, c.pageSize, start, spot.user - start)
  }

  function Occupied(sl: Slot, spot: Spot, r: Request): Slot {
    sl.(userAddress := spot.user, protAddress := spot.prot, userSize := r.size, state := IN_USE,
        allocator := r.allocator, fileSource := AllocationSource, site := r.site)
  }

  /** Put the block into slot k and fill its no man's land. */
  function PlaceSlot(c: Config, s: State, k: nat, need: nat, A: pos, r: Request): Outcome<(State, nat)>
    requires c.Valid() && k < |s.slots|
  {
    var start := s.slots[k].internalAddress;
    var spot := Place(c, start, need, A, r);
    var p :- Protect(c, s.pages, start, need, spot, r);
    var sl := Occupied(s.slots[k], spot, r);
    if !SlackOpen(p, sl) then Abort(SegFault)
    else Done((s.(slots := s.slots[k := sl], pages := p.(mem := InitSlack(c, p.mem, sl))), spot.user))
  }

  /** Split, then place. */
  function Carve(c: Config, s: State, k: nat, e: Option<nat>, need: nat, A: pos, r: Request)
    : Outcome<(State, nat)>
    requires c.Valid() && k < |s.slots| && (e.Some? ==> e.value < |s.slots|)
  {
    var s1 :- SplitSlot(s, k, e, need);
    PlaceSlot(c, s1, k, need, A, r)
  }

  /** From a new chunk. */
  function CarveChunk(c: Config, s: State, e0: nat, e1: nat, need: nat, A: pos, r: Request)
    : Outcome<(State, nat)>
    requires c.Valid() && e0 < |s.slots| && e1 < |s.slots| && need > 0
  {
    var chunk := ChunkSize(c, need);
    ChunkPositive(c, need);
    var num := NumChunks(r.size, chunk);
    var (s1, a) :- Obtain(c, s, chunk, TotalSize(chunk, num), r.failEnv);
    ObtainLength(c, s, chunk, TotalSize(chunk, num), r.failEnv);
    if a == 0 then Done((s1, 0))
    else Carve(c, AddChunk(s1, e0, a, chunk, TotalSize(chunk, num), num), e0, Some(e1), need, A, r)
  }

  lemma ChunkPositive(c: Config, need: nat)
    requires c.Valid() && need > 0
    ensures ChunkSize(c, need) >= need && ChunkSize(c, need) > 0
    ensures ChunkSize(c, need) % c.pageSize == 0
  {
    AlignUpMeans(if MEMORY_CREATION_SIZE < need then need else MEMORY_CREATION_SIZE, c.pageSize);
  }

  lemma {:induction false} CreateRetryLength(c: Config, s: State, size: nat, k: nat)
    requires c.Valid()
    ensures |CreateRetry(c, s, size, k).0.slots| == |s.slots|
    decreases Sum(s.slots, Rank)
  {
    ReduceRank(c, s, k);
    var (s1, more) := Reduce(c, s, k);
    var (s2, a) := CreatePages(c, s1, size);
    if more && a == 0 { CreateRetryLength(c, s2, size, k); }
  }

  lemma ObtainLength(c: Config, s: State, chunk: nat, total: nat, failEnv: bool)
    requires c.Valid()
    ensures var o := Obtain(c, s, chunk, total, failEnv);
            o.Done? ==> |o.value.0.slots| == |s.slots|
  {
    var s0 := LimitAllocated(c, s, KB(chunk));
    var (s1, a1) := CreatePages(c, s0, total);
    CreateRetryLength(c, s1, total, KB(chunk));
  }

  /** The part of `_duma_allocate` between the table checks and closing the table. */
  function Core(c: Config, s: State, need: nat, A: pos, r: Request): Outcome<(State, nat)>
    requires c.Valid() && need > 0
  {
    var full := BestFit(s.slots, need);
    var e0 := FirstEmpty(s.slots, 0);
    if full.Some? then Carve(c, s, full.value, e0, need, A, r)
    else if e0.None? then Abort(NoEmptySlot)
    else
      var e1 := FirstEmpty(s.slots, e0.value + 1);
      if e1.None? then Abort(NoEmptySlot)
      else CarveChunk(c, s, e0.value, e1.value, need, A, r)
  }

  // ---- deallocation ----

  /** The pointer checks of `_duma_deallocate`; the result is the slot's index. */
  function FreeTarget(s: State, a: nat, allocator: Allocator): Outcome<nat> {
    match SlotForUser(s.slots, a)
    case None => Abort(NotFromDuma(NearestSlot(s.slots, a)))
    case Some(i) =>
      if IsProtected(s.slots[i]) then Abort(AlreadyFreed)
      else if TypeOf(s.slots[i].allocator) != TypeOf(allocator) then Abort(FreeMismatch)
      else Done(i)
  }

  predicate WantsReduction(c: Config, s: State, kB: nat) {
    && c.protectFree > 0
    && s.sumProtectedMem + kB > c.protectFree
    && kB < c.protectFree
    && s.sumProtectedMem >= kB
  }

  predicate WillProtect(c: Config, s: State, sl: Slot, kB: nat) {
    sl.allocator != EFA_INT_ALLOC &&
    (c.protectFree < 0 || (c.protectFree > 0 && s.sumProtectedMem + kB <= c.protectFree))
  }

  function Retired(sl: Slot, site: Site): Slot {
    if site.line != 0 then sl.(state := ALL_PROTECTED, fileSource := DeallocationSource, site := site)
    else sl.(state := ALL_PROTECTED)
  }

  /** Deny the slot's memory for as long as PROTECT_FREE allows. */
  function Protecting(c: Config, s: State, i: nat, kB: nat, site: Site): Outcome<State>
    requires c.Valid() && i < |s.slots|
  {
    var sl := s.slots[i];
    var p :- Deny(s.pages, c.pageSize, sl.internalAddress, sl.internalSize);
    Done(s.(slots := s.slots[i := Retired(sl, site)], pages := p,
            sumProtectedMem := s.sumProtectedMem + kB))
  }

  /** Give the slot's memory back. */
  function Dropping(c: Config, s: State, i: nat, kB: nat): State
    requires c.Valid() && i < |s.slots|
  {
    DropSlot(c, s, i).(sumAllocatedMem := s.sumAllocatedMem - kB,
                       unUsedSlots := Give(s.unUsedSlots, 1))
  }

  function Settle(c: Config, s: State, i: nat, kB: nat, site: Site): Outcome<State>
    requires c.Valid() && i < |s.slots|
  {
    if WillProtect(c, s, s.slots[i], kB) then Protecting(c, s, i, kB, site) else Done(Dropping(c, s, i, kB))
  }

  /** Make room under PROTECT_FREE, then protect the memory or give it back. */
  function Release(c: Config, s: State, i: nat, site: Site): Outcome<State>
    requires c.Valid() && i < |s.slots|
  {
    var kB := KB(s.slots[i].internalSize);
    Settle(c, if WantsReduction(c, s, kB) then Reduce(c, s, kB).0 else s, i, kB, site)
  }

  /** `_duma_deallocate` of an address other than 0 and null_addr, table open. */
  function DeallocateOpen(c: Config, s: State, a: nat, allocator: Allocator, site: Site): Outcome<State>
    requires c.Valid()
  {
    var s1 :- CheckFreq(c, s);
    var i :- FreeTarget(s1, a, allocator);
    match CheckSlack(c, s1.pages, s1.slots[i])
    case Some(r) => Abort(r)
    case None => Release(c, s1, i, site)
  }

  function DeallocateAny(c: Config, s: State, a: nat, allocator: Allocator, site: Site): Outcome<State>
    requires c.Valid()
  {
    if a == 0 || a == NullAddr(c, s) then Done(s) else DeallocateOpen(c, s, a, allocator, site)
  }

  /** `_duma_deallocate(address, 1, ...)` */
  function Deallocate(c: Config, s: State, a: nat, allocator: Allocator, site: Site): Outcome<State>
    requires c.Valid()
  {
    if a == 0 || a == NullAddr(c, s) then Done(s)
    else
      var s1 :- OpenTable(c, s);
      var s2 :- DeallocateOpen(c, s1, a, allocator, site);
      CloseTable(c, s2)
  }

  // ---- growing the table ----

  const GROW_SITE := Site("duma.c", 1232)

  function GrowRequest(newSize: nat): Request {
    Request(1, newSize, false, None, EFA_INT_ALLOC, false, GROW_SITE)
  }

  function ZeroSlots(n: nat): (r: seq<Slot>)
    ensures |r| == n && forall i :: 0 <= i < n ==> r[i] == ZERO_SLOT
  {
    seq(n, i => ZERO_SLOT)
  }

  /** Every byte of [lo, hi) is mapped and 0. */
  predicate AllZero(mem: map<nat, Byte>, lo: nat, hi: nat) {
    forall b: nat {:trigger b in mem} :: lo <= b < hi ==> b in mem && mem[b] == 0
  }

  /** Stands for what a record is whose bytes are not all 0: not an empty slot. */
  const GARBAGE := ZERO_SLOT.(userAddress := 1, userSize := 1, state := IN_USE)

  /** The record that table memory holds where none was stored. Its layout does not
      matter: zero bytes are an empty slot, anything else is garbage. */
  function RecordAt(mem: map<nat, Byte>, at: nat, size: nat): Slot {
    if AllZero(mem, at, at + size) then ZERO_SLOT else GARBAGE
  }

  function RecordsAt(mem: map<nat, Byte>, at: nat, n: nat, size: nat): (r: seq<Slot>)
    ensures |r| == n
    decreases n
  {
    if n == 0 then [] else [RecordAt(mem, at, size)] + RecordsAt(mem, at + size, n - 1, size)
  }

  /** The new table takes over: its first records are the old ones, the others are what
      their bytes say. */
  function Switched(c: Config, s: State, mem: map<nat, Byte>, a: nat, newSize: nat): State
    requires c.Valid()
  {
    s.(slots := s.slots + RecordsAt(mem, a + |s.slots| * c.slotSize, c.SlotsPerPage(), c.slotSize),
       allocList := a, allocListSize := newSize,
       unUsedSlots := Give(s.unUsedSlots, c.SlotsPerPage()),
       pages := s.pages.(mem := mem))
  }

  /** The memory with the bytes of the table copied to a, and a page of zeros behind. */
  function MovedBytes(c: Config, s: State, a: nat): map<nat, Byte>
    requires AllOpen(s.pages, s.allocList, s.allocList + s.allocListSize)
  {
    var end := a + s.allocListSize;
    FillRange(CopyRange(s.pages.mem, a, s.allocList, s.allocListSize), end, end + c.pageSize, 0)
  }

  /** The bytes of the old table are copied to the new one and a page of zeros follows. */
  function SwitchTable(c: Config, s: State, a: nat, newSize: nat): Outcome<State>
    requires c.Valid()
  {
    var size := s.allocListSize;
    if !AllOpen(s.pages, s.allocList, s.allocList + size) || !AllOpen(s.pages, a, a + size + c.pageSize)
    then Abort(SegFault)
    else
      Done(Switched(c, s, MovedBytes(c, s, a), a, newSize))
  }

  lemma InternalSizePositive(P: nat, A: nat, size: nat)
    requires IsPow2(P)
    ensures InternalSize(P, A, size) >= P > 0
  {}

  /** The end of allocateMoreSlots: use the new table and free the old one. */
  function GrowSwitch(c: Config, s: State, a: nat, prev: nat, newSize: nat): Outcome<State>
    requires c.Valid()
  {
    if a == 0 then Done(s)
    else
      var sw :- SwitchTable(c, s, a, newSize);
      DeallocateAny(c, sw, prev, EFA_INT_DEALLOC, GROW_SITE)
  }

  /** The internal allocation of a table of newSize bytes. */
  function TableCore(c: Config, s: State, newSize: nat): Outcome<(State, nat)>
    requires c.Valid()
  {
    InternalSizePositive(c.pageSize, 1, newSize);
    Core(c, s, InternalSize(c.pageSize, 1, newSize), 1, GrowRequest(newSize))
  }

  /** ... after the periodic check. */
  function TableBlock(c: Config, o: Outcome<State>, newSize: nat): Outcome<(State, nat)>
    requires c.Valid()
  {
    var s :- o;
    TableCore(c, s, newSize)
  }

  /** ... and what follows it. */
  function GrowRest(c: Config, o: Outcome<(State, nat)>, prev: nat, newSize: nat): Outcome<State>
    requires c.Valid()
  {
    var (s, a) :- o;
    GrowSwitch(c, s, a, prev, newSize)
  }

  /** ... from the periodic check on. */
  function GrowChecked(c: Config, o: Outcome<State>, prev: nat, newSize: nat): Outcome<State>
    requires c.Valid()
  {
    var s :- o;
    GrowRest(c, TableCore(c, s, newSize), prev, newSize)
  }

  /** allocateMoreSlots, for a table of newSize bytes. Its call of `_duma_allocate` asks
      for a positive size with alignment 1, an internal allocator and an already open
      table, so it goes straight from the periodic check to the core, and it never
      grows again. */
  function GrowTo(c: Config, s: State, newSize: nat): (g: Outcome<State>)
    requires c.Valid()
    ensures g == GrowChecked(c, CheckFreq(c, s), s.allocList, newSize)
  {
    GrowChecked(c, CheckFreq(c, s), s.allocList, newSize)
  }

  /** The new table has one more page. */
  function NewTableSize(c: Config, s: State): nat {
    s.allocListSize + c.pageSize
  }

  function Grow(c: Config, s: State): Outcome<State>
    requires c.Valid()
  {
    GrowTo(c, s, NewTableSize(c, s))
  }

  /** The internal allocation returns address a. */
  predicate CoreGives(c: Config, s: State, newSize: nat, s1: State, a: nat)
    requires c.Valid()
  {
    var o := TableCore(c, s, newSize);
    o.Done? && o.value.0 == s1 && o.value.1 == a
  }

  /** The steps of a growth that returns: the periodic check, the internal
      allocation, the switch. */
  predicate GrowPath(c: Config, s: State, newSize: nat, s0: State, s1: State, a: nat, g: State)
    requires c.Valid()
  {
    && newSize == s.allocListSize + c.pageSize
    && s0 == s.(checkFreqCounter := s0.checkFreqCounter)
    && CoreGives(c, s0, newSize, s1, a)
    && GrowSwitch(c, s1, a, s.allocList, newSize) == Done(g)
  }

  ghost predicate Grows(c: Config, s: State, g: State)
    requires c.Valid()
  {
    exists newSize, s0, s1, a :: GrowPath(c, s, newSize, s0, s1, a, g)
  }

  lemma GrowGrows(c: Config, s: State, g: State)
    requires c.Valid() && Grow(c, s) == Done(g)
    ensures Grows(c, s, g)
  {
    GrowToGrows(c, s, NewTableSize(c, s), g);
  }

  lemma GrowToGrows(c: Config, s: State, newSize: nat, g: State)
    requires c.Valid() && newSize == s.allocListSize + c.pageSize && GrowTo(c, s, newSize) == Done(g)
    ensures Grows(c, s, g)
  {
    var o := CheckFreq(c, s);
    var x := TableCore(c, o.value, newSize);
    assert GrowPath(c, s, newSize, o.value, x.value.0, x.value.1, g);
  }

  /** The internal allocation and what follows it both return. */
  predicate Continues(c: Config, s0: State, prev: nat, newSize: nat, s1: State, a: nat)
    requires c.Valid()
  {
    CoreGives(c, s0, newSize, s1, a) && GrowSwitch(c, s1, a, prev, newSize).Done?
  }

  ghost predicate CanGrow(c: Config, s0: State, prev: nat, newSize: nat)
    requires c.Valid()
  {
    exists s1, a :: Continues(c, s0, prev, newSize, s1, a)
  }

  lemma CheckedDone(c: Config, s0: State, prev: nat, newSize: nat)
    requires c.Valid() && CanGrow(c, s0, prev, newSize)
    ensures GrowChecked(c, Done(s0), prev, newSize).Done?
  {
    var s1, a :| Continues(c, s0, prev, newSize, s1, a);
  }

  /** A growth whose parts return, returns. */
  lemma GrowParts(c: Config, s: State, newSize: nat, s0: State)
    requires c.Valid() && CheckFreq(c, s) == Done(s0) && CanGrow(c, s0, s.allocList, newSize)
    ensures GrowTo(c, s, newSize).Done?
  {
    CheckedDone(c, s0, s.allocList, newSize);
  }

  // ---- allocation ----

  function ChosenAlignment(t: Tls, r: Request): pos {
    if r.alignment != 0 then r.alignment
    else if 0 < r.size < t.alignment then LeadingPower(r.size)
    else t.alignment
  }

  function ZeroStrategy(c: Config, a: Allocator): nat {
    if IsCpp(a) then c.new0Strategy else c.malloc0Strategy
  }

  predicate NeedsGrowth(s: State, r: Request) {
    TypeOf(r.allocator) != Internal && s.unUsedSlots < 7
  }

  function SlotBytes(c: Config, A: pos, size: nat): (need: nat)
    requires c.Valid()
    ensures need > 0
  {
    if size == 0 then c.pageSize
    else InternalSizePositive(c.pageSize, A, size); InternalSize(c.pageSize, A, size)
  }

  /** `_duma_allocate` once the size and alignment are settled and the table is open. */
  function AllocateOpen(c: Config, s: State, A: pos, r: Request): Outcome<(State, nat)>
    requires c.Valid()
  {
    var s1 :- CheckFreq(c, s);
    var s2 :- (if NeedsGrowth(s1, r) then Grow(c, s1) else Done(s1));
    Core(c, s2, SlotBytes(c, A, r.size), A, r)
  }

  /** memset of the user bytes, if asked for. */
  function FillBlock(s: State, user: nat, r: Request): Outcome<State> {
    if user == 0 || r.fill.None? || r.size == 0 then Done(s)
    else if !AllOpen(s.pages, user, user + r.size) then Abort(SegFault)
    else Done(s.(pages := s.pages.(mem := FillRange(s.pages.mem, user, user + r.size, r.fill.value))))
  }

  /** ... from opening the table to filling the block. */
  function AllocateWith(c: Config, s: State, A: pos, r: Request, closed: bool): Outcome<(State, nat)>
    requires c.Valid()
  {
    var s1 :- (if closed then OpenTable(c, s) else Done(s));
    var (s2, user) :- AllocateOpen(c, s1, A, r);
    var s3 :- (if closed then CloseTable(c, s2) else Done(s2));
    var s4 :- FillBlock(s3, user, r);
    Done((s4, user))
  }

  /** `_duma_allocate`; `closed` is its parameter protectAllocList. */
  function Allocate(c: Config, s: State, t: Tls, r: Request, closed: bool): Outcome<(State, nat)>
    requires c.Valid()
  {
    var strategy := ZeroStrategy(c, r.allocator);
    if r.size == 0 && strategy == 0 then Abort(ZeroSize)
    else if r.size == 0 && strategy == 1 then Done((s, 0))
    else if r.size == 0 && strategy != 3 then Done((s, NullAddr(c, s)))
    else
      var A := ChosenAlignment(t, r);
      if r.size > 0 && A != LowestBit(A) then Abort(BadAlignment)
      else
        AllocateWith(c, s, A, r, closed)
  }

  // ---- realloc ----

  function ReallocRequest(t: Tls, size: nat, fill: Option<Byte>, site: Site): Request {
    Request(0, size, t.protectBelow, fill, EFA_REALLOC, true, site)
  }

  /** What realloc copies: min(old, new) bytes, the growth zeroed. */
  function MoveContents(s: State, prev: nat, prevSize: nat, block: nat, newSize: nat): Outcome<State> {
    var n := if newSize > prevSize then prevSize else newSize;
    if !AllOpen(s.pages, prev, prev + n) || !AllOpen(s.pages, block, block + newSize) then Abort(SegFault)
    else
      var m := CopyRange(s.pages.mem, block, prev, n);
      Done(s.(pages := s.pages.(mem := FillRange(m, block + n, block + newSize, 0))))
  }

  function ReallocMove(c: Config, s: State, prev: nat, block: nat, newSize: nat, site: Site): Outcome<State>
    requires c.Valid()
  {
    match SlotForUser(s.slots, prev)
    case None => Abort(NotFromMalloc)
    case Some(i) =>
      var s1 :- MoveContents(s, prev, s.slots[i].userSize, block, newSize);
      DeallocateAny(c, s1, prev, EFA_REALLOC, site)
  }

  function ReallocOpen(c: Config, s: State, t: Tls, prev: nat, newSize: nat, site: Site): Outcome<(State, nat)>
    requires c.Valid()
  {
    if prev == 0 then Allocate(c, s, t, ReallocRequest(t, newSize, t.fill, site), false)
    else if newSize == 0 then
      var s1 :- DeallocateAny(c, s, prev, EFA_REALLOC, site);
      Done((s1, 0))
    else
      var (s1, block) :- Allocate(c, s, t, ReallocRequest(t, newSize, None, site), false);
      if block == 0 then Done((s1, 0))
      else
        var s2 :- ReallocMove(c, s1, prev, block, newSize, site);
        Done((s2, block))
  }

  /** `_duma_realloc` */
  function Realloc(c: Config, s: State, t: Tls, prev: nat, newSize: nat, site: Site): Outcome<(State, nat)>
    requires c.Valid()
  {
    var s1 :- OpenTable(c, s);
    var (s2, user) :- ReallocOpen(c, s1, t, prev, newSize, site);
    var s3 :- CloseTable(c, s2);
    Done((s3, user))
  }

  // ---- checks ----

  function CheckOpen(c: Config, s: State, a: nat): Outcome<State> {
    match SlotForUser(s.slots, a)
    case None => Abort(NotFromDuma(NearestSlot(s.slots, a)))
    case Some(i) =>
      if IsProtected(s.slots[i]) then Abort(AlreadyFreed)
      else
        match CheckSlack(c, s.pages, s.slots[i])
        case Some(r) => Abort(r)
        case None => Done(s)
  }

  /** `duma_check` */
  function Check(c: Config, s: State, a: nat): Outcome<State>
    requires c.Valid()
  {
    if a == 0 then Done(s)
    else
      var s1 :- OpenTable(c, s);
      var s2 :- CheckOpen(c, s1, a);
      CloseTable(c, s2)
  }

  /** `duma_checkAll` */
  function CheckAll(c: Config, s: State): Outcome<State>
    requires c.Valid()
  {
    var s1 :- OpenTable(c, s);
    match CheckAllSlacks(c, s1, 0)
    case Some(r) => Abort(r)
    case None => CloseTable(c, s1)
  }

  // ---- initialisation ----

  const INIT_SITE := Site("duma.c", 1161)

  function InitSize(c: Config): nat
    requires c.Valid()
  {
    AlignUp(if MEMORY_CREATION_SIZE < c.pageSize then c.pageSize else MEMORY_CREATION_SIZE, c.pageSize)
  }

  function TableSlot(a: nat, size: nat): Slot {
    Slot(a, a, 0, size, size, IN_USE, EFA_INT_ALLOC, AllocationSource, INIT_SITE)
  }

  function FreeSlot(a: nat, size: nat): Slot {
    Slot(a, a, 0, size, size, FREE, EFA_INT_ALLOC, AllocationSource, INIT_SITE)
  }

  /** The second record: the rest of the first chunk, if there is any. */
  function SecondSlot(c: Config, a: nat): Slot
    requires c.Valid()
  {
    var size := InitSize(c);
    if size > c.pageSize then FreeSlot(a + c.pageSize, size - c.pageSize) else ZERO_SLOT
  }

  function InitSlots(c: Config, a: nat): (r: seq<Slot>)
    requires c.Valid()
    ensures |r| == c.SlotsPerPage()
  {
    TwoSlots(c);
    ZeroSlots(c.SlotsPerPage())[0 := TableSlot(a, c.pageSize)][1 := SecondSlot(c, a)]
  }

  lemma TwoSlots(c: Config)
    requires c.Valid()
    ensures c.SlotsPerPage() >= 2
    ensures c.SlotsPerPage() * c.slotSize <= c.pageSize
  {
    var q, r := c.pageSize / c.slotSize, c.pageSize % c.slotSize;
    assert c.pageSize == q * c.slotSize + r;
    if q < 2 { AtMostOne(q, c.slotSize); }
  }

  lemma AtMostOne(k: nat, m: nat)
    requires k <= 1
    ensures k * m <= m
  {}

  /** The state with the first table at a and the null block at zero. */
  function FirstState(c: Config, a: nat, zero: nat, p: Pages): State
    requires c.Valid()
  {
    TwoSlots(c);
    State(InitSlots(c, a), a, c.pageSize, c.SlotsPerPage() - 2, 0, 0, 0, zero, p, 0)
  }

  /** The table at the start of the first chunk, and the free rest. */
  function EnterChunk(c: Config, p: Pages, zero: nat, a: nat): Outcome<State>
    requires c.Valid()
  {
    var free := SecondSlot(c, a);
    var zeroed := p.(mem := FillRange(p.mem, a, a + c.pageSize, 0));
    var q :- Deny(zeroed, c.pageSize, free.internalAddress, free.internalSize);
    Done(FirstState(c, a, zero, q))
  }

  /** The first chunk, once the null block is there. */
  function InitChunk(c: Config, p: Pages, zero: nat): Outcome<State>
    requires c.Valid()
  {
    var (q, a) := Create(p, c.pageSize, InitSize(c));
    if a == 0 then Abort(MmapFailed) else EnterChunk(c, q, zero, a)
  }

  /** `_duma_init`; `answers` is what mmap will answer from now on. */
  function Init(c: Config, answers: seq<nat>): Outcome<State>
    requires c.Valid()
  {
    var (p, zero) := Create(Pages(map[], {}, answers, 0), c.pageSize, 2 * c.pageSize);
    if zero == 0 then Abort(MmapFailed)
    else
      var q :- Deny(p, c.pageSize, zero, 2 * c.pageSize);
      InitChunk(c, q, zero)
  }
}
