/**
 What an allocation does when mmap gives no memory: when MALLOC_FAILEXIT ends the
 program.
 */
module Exhaustion {
  import opened Placement
  import opened Wrappers
  import opened Pages
  import opened Slots
  import opened Heap
  import opened Invariants
  import opened Placing
  import opened Allocation
  import opened Calls
  import opened Operations
  import opened Initialisation
  import opened Runs
  import opened Theorems
  import opened Detection
  import opened NoFalseAlarm

  /** From now on no mmap call succeeds: what is left of the script is empty, or names
      no page. */
  predicate Dry(c: Config, p: Pages)
    requires c.pageSize > 0
  {
    forall i :: 0 <= i < |p.answers| ==> p.answers[i] == 0 || p.answers[i] % c.pageSize != 0
  }

  /** No mmap call was made, and nothing else was mapped. */
  predicate NoNewPages(p: Pages, q: Pages) {
    q.answers == p.answers && q.mem.Keys <= p.mem.Keys
  }

  predicate SameMapped(p: Pages, q: Pages) {
    q.answers == p.answers && q.mem.Keys == p.mem.Keys
  }

  lemma CreateDry(c: Config, s: State, size: nat)
    requires c.Valid() && Dry(c, s.pages)
    ensures var (s', a) := CreatePages(c, s, size);
            a == 0 && Dry(c, s'.pages) && s'.slots == s.slots
  {}

  // ---- giving memory back asks for none ----

  lemma {:induction false} Phase1Answers(c: Config, s: State, i: nat, done: nat, k: nat)
    requires c.Valid()
    ensures NoNewPages(s.pages, Phase1(c, s, i, done, k).0.pages)
    decreases |s.slots| - i
  {
    if i >= |s.slots| || done >= k {
    } else if s.slots[i].state == ALL_PROTECTED {
      Phase1Answers(c, TrimSlot(c, s, i), i + 1, done + KB(s.slots[i].internalSize - KeptSize(c, s.slots[i])), k);
    } else {
      Phase1Answers(c, s, i + 1, done, k);
    }
  }

  lemma {:induction false} Phase2Answers(c: Config, s: State, i: nat, done: nat, k: nat)
    requires c.Valid()
    ensures NoNewPages(s.pages, Phase2(c, s, i, done, k).0.pages)
    decreases |s.slots| - i
  {
    if i >= |s.slots| || done >= k {
    } else if s.slots[i].state == BEGIN_PROTECTED {
      Phase2Answers(c, DropSlot(c, s, i), i + 1, done + KB(s.slots[i].internalSize), k);
    } else {
      Phase2Answers(c, s, i + 1, done, k);
    }
  }

  lemma ReduceAnswers(c: Config, s: State, k: nat)
    requires c.Valid()
    ensures NoNewPages(s.pages, Reduce(c, s, k).0.pages)
  {
    if k > 0 {
      Phase1Answers(c, s, 0, 0, k);
      var (s1, done1) := Phase1(c, s, 0, 0, k);
      Phase2Answers(c, s1, 0, done1, k);
    }
  }

  lemma ReleaseAnswers(c: Config, s: State, i: nat, site: Site)
    requires c.Valid() && i < |s.slots| && Release(c, s, i, site).Done?
    ensures NoNewPages(s.pages, Release(c, s, i, site).value.pages)
  {
    ReduceAnswers(c, s, KB(s.slots[i].internalSize));
  }

  lemma FreeAnswers(c: Config, s: State, a: nat, allocator: Allocator, site: Site)
    requires c.Valid() && DeallocateAny(c, s, a, allocator, site).Done?
    ensures NoNewPages(s.pages, DeallocateAny(c, s, a, allocator, site).value.pages)
  {
    if a != 0 && a != NullAddr(c, s) {
      var s1 := CheckFreq(c, s).value;
      ReleaseAnswers(c, s1, FreeTarget(s1, a, allocator).value, site);
    }
  }

  // ---- getting a chunk ----

  lemma {:induction false} RetryDry(c: Config, s: State, size: nat, k: nat)
    requires c.Valid() && Dry(c, s.pages)
    ensures var (s', a) := CreateRetry(c, s, size, k);
            a == 0 && Dry(c, s'.pages)
    decreases Sum(s.slots, Rank)
  {
    ReduceRank(c, s, k);
    ReduceAnswers(c, s, k);
    var (s1, more) := Reduce(c, s, k);
    CreateDry(c, s1, size);
    var (s2, a) := CreatePages(c, s1, size);
    if more { RetryDry(c, s2, size, k); }
  }

  /** When every mmap call fails, a chunk that cannot be had ends the program exactly
      if MALLOC_FAILEXIT is set, the caller lets failures be handled by the environment,
      and PROTECT_FREE is not 0: the exiting call is inside the branch that reduces
      protected memory. Otherwise address 0 comes back. */
  lemma ObtainDry(c: Config, s: State, chunk: nat, total: nat, failEnv: bool)
    requires c.Valid() && Dry(c, s.pages)
    ensures
      var o := Obtain(c, s, chunk, total, failEnv);
      && (o == Abort(MmapFailed) <==> c.mallocFailExit && failEnv && c.protectFree != 0)
      && (o != Abort(MmapFailed) ==> o.Done? && o.value.1 == 0 && Dry(c, o.value.0.pages))
  {
    ReduceAnswers(c, s, KB(chunk));
    var s0 := LimitAllocated(c, s, KB(chunk));
    CreateDry(c, s0, total);
    var s1 := CreatePages(c, s0, total).0;
    RetryDry(c, s1, total, KB(chunk));
    CreateDry(c, CreateRetry(c, s1, total, KB(chunk)).0, total);
  }

  // ---- the core ----

  lemma CarveAnswers(c: Config, s: State, k: nat, e: Option<nat>, need: nat, A: pos, r: Request)
    requires c.Valid() && k < |s.slots| && (e.Some? ==> e.value < |s.slots|)
    requires Carve(c, s, k, e, need, A, r).Done?
    ensures NoNewPages(s.pages, Carve(c, s, k, e, need, A, r).value.0.pages)
  {}

  lemma CoreDry(c: Config, s: State, need: nat, A: pos, r: Request)
    requires c.Valid() && need > 0 && Dry(c, s.pages) && Core(c, s, need, A, r).Done?
    ensures Dry(c, Core(c, s, need, A, r).value.0.pages)
  {
    var full, e0 := BestFit(s.slots, need), FirstEmpty(s.slots, 0);
    if full.Some? {
      CarveAnswers(c, s, full.value, e0, need, A, r);
    } else {
      var chunk := ChunkSize(c, need);
      ChunkPositive(c, need);
      ObtainDry(c, s, chunk, TotalSize(chunk, NumChunks(r.size, chunk)), r.failEnv);
    }
  }

  lemma SwitchDry(c: Config, s: State, a: nat, prev: nat, newSize: nat, g: State)
    requires c.Valid() && Dry(c, s.pages) && GrowSwitch(c, s, a, prev, newSize) == Done(g)
    ensures Dry(c, g.pages)
  {
    if a != 0 {
      var sw := SwitchTable(c, s, a, newSize).value;
      FreeAnswers(c, sw, prev, EFA_INT_DEALLOC, GROW_SITE);
    }
  }

  lemma GrowDry(c: Config, s: State, g: State)
    requires c.Valid() && Dry(c, s.pages) && Grows(c, s, g)
    ensures Dry(c, g.pages)
  {
    var newSize, s0, s1, a :| GrowPath(c, s, newSize, s0, s1, a, g);
    PathDry(c, s, newSize, s0, s1, a, g);
  }

  lemma PathDry(c: Config, s: State, newSize: nat, s0: State, s1: State, a: nat, g: State)
    requires c.Valid() && Dry(c, s.pages) && GrowPath(c, s, newSize, s0, s1, a, g)
    ensures Dry(c, g.pages)
  {
    TableDry(c, s0, newSize);
    SwitchDry(c, s1, a, s.allocList, newSize, g);
  }

  lemma TableDry(c: Config, s: State, newSize: nat)
    requires c.Valid() && Dry(c, s.pages)
    ensures TableCore(c, s, newSize).Done? ==> Dry(c, TableCore(c, s, newSize).value.0.pages)
  {
    InternalSizePositive(c.pageSize, 1, newSize);
    if TableCore(c, s, newSize).Done? {
      CoreDry(c, s, InternalSize(c.pageSize, 1, newSize), 1, GrowRequest(newSize));
    }
  }

  /** The core on a table with two empty records: a free slot serves the request;
      without one it ends the program or hands out nothing. */
  lemma CoreVerdict(c: Config, s: State, need: nat, A: pos, r: Request)
    requires Sound(c, s) && Dry(c, s.pages) && Sum(s.slots, EmptyOne) >= 2
    requires WellPosed(c, A, r) && Modest(c, A, r) && need == SlotBytes(c, A, r.size)
    ensures
      var o, fits := Core(c, s, need, A, r), BestFit(s.slots, need).Some?;
      && (o == Abort(MmapFailed) <==> !fits && c.mallocFailExit && r.failEnv && c.protectFree != 0)
      && (o != Abort(MmapFailed) ==> o.Done? && (o.value.1 == 0 <==> !fits))
  {
    TwoEmpty(s.slots);
    var full, e0 := BestFit(s.slots, need), FirstEmpty(s.slots, 0);
    if full.Some? {
      CarveQuiet(c, s, full.value, e0.value, need, A, r);
      var taken := CarveKeeps(c, s, full.value, e0, need, A, r, Mode(true, false));
    } else {
      var chunk := ChunkSize(c, need);
      ChunkPositive(c, need);
      ObtainDry(c, s, chunk, TotalSize(chunk, NumChunks(r.size, chunk)), r.failEnv);
    }
  }

  // ---- the whole call ----

  /** The state in which a request meets the table: opened, checked, and grown if
      records are scarce. */
  function Prepared(c: Config, s: State, r: Request): Outcome<State>
    requires c.Valid()
  {
    var s1 :- OpenTable(c, s);
    var s2 :- CheckFreq(c, s1);
    if NeedsGrowth(s2, r) then Grow(c, s2) else Done(s2)
  }

  lemma PreparedReturns(c: Config, s: State, r: Request)
    requires c.Valid() && Healthy(c, s) && Dry(c, s.pages)
    ensures Prepared(c, s, r).Done?
    ensures
      var s' := Prepared(c, s, r).value;
      Sound(c, s') && Sum(s'.slots, EmptyOne) >= 2 && Dry(c, s'.pages)
  {
    HealthyOpen(c, s);
    var s1 := OpenTable(c, s).value;
    CheckFreqQuiet(c, s1);
    var s2 := CheckFreq(c, s1).value;
    HealthyCounter(c, s1, s2);
    if NeedsGrowth(s2, r) {
      GrowEnough(c, s2);
      GrowGrows(c, s2, Grow(c, s2).value);
      GrowDry(c, s2, Grow(c, s2).value);
    }
  }

  /** An allocation while every mmap call fails: it ends the program exactly if no free
      slot is large enough, MALLOC_FAILEXIT is set, the caller lets failures be handled
      by the environment, and PROTECT_FREE is not 0; otherwise it returns, and hands out
      0 exactly if no free slot is large enough. */
  lemma AllocateDry(c: Config, s: State, t: Tls, r: Request)
    requires c.Valid() && Healthy(c, s) && Dry(c, s.pages) && GoodRequest(c, t, r)
    requires r.size > 0 || ZeroStrategy(c, r.allocator) == 3
    ensures Prepared(c, s, r).Done?
    ensures
      var need := SlotBytes(c, ChosenAlignment(t, r), r.size);
      var fits := BestFit(Prepared(c, s, r).value.slots, need).Some?;
      var o := Allocate(c, s, t, r, true);
      && (o == Abort(MmapFailed) <==> !fits && c.mallocFailExit && r.failEnv && c.protectFree != 0)
      && (o != Abort(MmapFailed) ==> o.Done? && (o.value.1 == 0 <==> !fits))
  {
    var A := ChosenAlignment(t, r);
    if r.size > 0 { PassesTest(t, r); }
    PreparedReturns(c, s, r);
    var s' := Prepared(c, s, r).value;
    CoreVerdict(c, s', SlotBytes(c, A, r.size), A, r);
    PreparedCore(c, s, s', A, r);
  }

  lemma PreparedOpen(c: Config, s: State, s1: State, s': State, A: pos, r: Request)
    requires c.Valid() && OpenTable(c, s) == Done(s1) && Prepared(c, s, r) == Done(s')
    ensures AllocateOpen(c, s1, A, r) == Core(c, s', SlotBytes(c, A, r.size), A, r)
  {}

  /** After the preparation the core decides alone. */
  lemma PreparedCore(c: Config, s: State, s': State, A: pos, r: Request)
    requires c.Valid() && Struct(c, s) && Prepared(c, s, r) == Done(s') && UserRequest(r) && WellPosed(c, A, r)
    ensures
      var o, w := Core(c, s', SlotBytes(c, A, r.size), A, r), AllocateWith(c, s, A, r, true);
      if o.Done? then
        && w.Done? && w.value.1 == o.value.1
        && w.value.0.slots == o.value.0.slots && w.value.0.unUsedSlots == o.value.0.unUsedSlots
        && SameMapped(o.value.0.pages, w.value.0.pages) && w.value.0.lost == o.value.0.lost
        && w.value.0.allocList == o.value.0.allocList && w.value.0.allocListSize == o.value.0.allocListSize
        && o.value.0.pages.open - Region(c.pageSize, o.value.0.allocList, o.value.0.allocListSize) <= w.value.0.pages.open
      else
        w.Abort? && w.reason == o.reason
  {
    OpenKeeps(c, s, Mode(true, false));
    var s1 := OpenTable(c, s).value;
    PreparedOpen(c, s, s1, s', A, r);
    if AllocateOpen(c, s1, A, r).Done? { CloseAfter(c, s1, A, r); }
  }

  // ---- a witness ----

  /** A state between calls in which all of mmap's answers are used up and the table has
      records enough. */
  lemma DryStart(c: Config) returns (s: State, a: nat)
    requires c.Valid() && c.pageSize <= SIZE_MAX / 16 && c.SlotsPerPage() >= 9
    ensures Between(c, s) && AllDead(c, s) && Healthy(c, s) && Dry(c, s.pages)
    ensures s.unUsedSlots >= 7 && a > 0 && a % c.pageSize == 0 && s.slots == InitSlots(c, a)
  {
    var s0, zero;
    InitSucceeds(c, []);
    s0, zero, a := InitPages(c, [c.pageSize, 4 * c.pageSize] + []);
    s := DryAfter(c, s0, zero, a);
  }

  lemma DryAfter(c: Config, s0: State, zero: nat, a: nat) returns (s: State)
    requires Booted(c, s0, zero, a) && s0.pages.answers == [] && c.SlotsPerPage() >= 9
    ensures Between(c, s) && AllDead(c, s) && Healthy(c, s) && Dry(c, s.pages)
    ensures s.unUsedSlots >= 7 && s.slots == InitSlots(c, a)
  {
    InitInvariants(c, s0, zero, a);
    InitPermissions(c, s0, zero, a);
    s := AfterInit(c, s0);
    assert SlackIntact(c, s) by {
      forall i | 0 <= i < |s.slots| ensures !IsLive(s.slots[i]) { assert NoUser(s0.slots[i]); }
    }
  }

  /** More than the first chunk holds. */
  function LargeRequest(c: Config): Request
    requires c.Valid()
  {
    Request(1, InitSize(c), false, None, EFA_MALLOC, true, UNKNOWN_SITE)
  }

  lemma LargeDoesNotFit(c: Config, s: State, a: nat)
    requires c.Valid() && a > 0 && a % c.pageSize == 0 && s.slots == InitSlots(c, a)
    ensures BestFit(s.slots, SlotBytes(c, 1, InitSize(c))).None?
  {
    InitRecords(c, a);
    InitSizeMeans(c);
    InternalSizeMeans(c.pageSize, 1, InitSize(c));
  }

  /** MALLOC_FAILEXIT is ignored when PROTECT_FREE is 0: with the setting on, and a
      caller that lets failures be handled by the environment, the same malloc in the
      same state returns 0 if PROTECT_FREE is 0 and ends the program otherwise. */
  lemma FailExitIgnored(c: Config, t: Tls) returns (s: State)
    requires c.Valid() && c.pageSize <= SIZE_MAX / 16 && c.SlotsPerPage() >= 9 && c.mallocFailExit
    ensures Between(c, s) && AllDead(c, s)
    ensures
      var o := Allocate(c, s, t, LargeRequest(c), true);
      if c.protectFree == 0 then o.Done? && o.value.1 == 0 else o == Abort(MmapFailed)
  {
    var a;
    s, a := DryStart(c);
    InitSizeMeans(c);
    AllocateDry(c, s, t, LargeRequest(c));
    LargeDoesNotFit(c, s, a);
  }
}
