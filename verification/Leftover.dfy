/**
 What is left of a chunk behind its first block: a free slot anybody can access.
 */
module Leftover {
  import opened Bits
  import opened Placement
  import opened Wrappers
  import opened Pages
  import opened Slots
  import opened Tiling
  import opened Heap
  import opened Invariants
  import opened Chunks
  import opened Placing
  import opened Allocation
  import opened Calls
  import opened Growth
  import opened Runs
  import opened Theorems
  import opened NoFalseAlarm
  import opened Exhaustion
  import opened Effects
  import opened Wrap

  /** Every byte of [lo, lo + n) is accessible. */
  ghost predicate Opened(p: Pages, lo: nat, n: nat) {
    forall b: nat :: lo <= b < lo + n ==> b in p.open
  }

  /** Slot e is free and all its bytes are accessible. */
  ghost predicate FreeAndOpen(s: State, e: nat) {
    e < |s.slots| && s.slots[e].state == FREE && s.slots[e].internalSize > 0
    && Opened(s.pages, s.slots[e].internalAddress, s.slots[e].internalSize)
  }

  lemma CreateOpens(c: Config, s: State, n: nat)
    requires c.Valid() && n % c.pageSize == 0
    ensures var (s', a) := CreatePages(c, s, n);
            a != 0 ==> Opened(s'.pages, a, n)
  {
    CreateRegion(s.pages, c.pageSize, n);
    var (s', a) := CreatePages(c, s, n);
    forall b: nat | a <= b < a + n && a != 0 ensures b in s'.pages.open { assert b in Span(a, a + n); }
  }

  lemma {:induction false} RetryOpens(c: Config, s: State, n: nat, k: nat)
    requires c.Valid() && n % c.pageSize == 0
    ensures var (s', a) := CreateRetry(c, s, n, k);
            a != 0 ==> Opened(s'.pages, a, n)
    decreases Sum(s.slots, Rank)
  {
    ReduceRank(c, s, k);
    var (s1, more) := Reduce(c, s, k);
    CreateOpens(c, s1, n);
    var (s2, a) := CreatePages(c, s1, n);
    if more && a == 0 { RetryOpens(c, s2, n, k); }
  }

  lemma ObtainOpens(c: Config, s: State, chunk: nat, n: nat, failEnv: bool)
    requires c.Valid() && n % c.pageSize == 0
    ensures var o := Obtain(c, s, chunk, n, failEnv);
            o.Done? && o.value.1 != 0 ==> Opened(o.value.0.pages, o.value.1, n)
  {
    var s0 := LimitAllocated(c, s, KB(chunk));
    CreateOpens(c, s0, n);
    var s1 := CreatePages(c, s0, n).0;
    RetryOpens(c, s1, n, KB(chunk));
    CreateOpens(c, CreateRetry(c, s1, n, KB(chunk)).0, n);
  }

  /** Cutting a block off an accessible free slot leaves an accessible free slot. */
  lemma CarveLeaves(c: Config, s: State, k: nat, e: nat, need: nat, A: pos, r: Request, s': State, user: nat)
    requires Sound(c, s) && k < |s.slots| && Fits(s.slots[k], need) && s.slots[k].internalSize > need
    requires e < |s.slots| && s.slots[e].state == EMPTY && FreeAndOpen(s, k)
    requires WellPosed(c, A, r) && need == SlotBytes(c, A, r.size)
    requires Carve(c, s, k, Some(e), need, A, r) == Done((s', user))
    ensures FreeAndOpen(s', e) && s'.slots[e] == Remainder(s.slots[k], need)
  {
    SlotBytesAligned(c, A, r);
    SplitKeeps(c, s, k, Some(e), need);
    var s1 := SplitSlot(s, k, Some(e), need).value;
    PlaceKeeps(c, s1, k, need, A, r, false);
    assert Kept(false, s1, s', e);
    forall b: nat | s'.slots[e].internalAddress <= b < End(s'.slots[e]) ensures b in s'.pages.open {
      assert Covers(s1.slots[e], b);
    }
  }

  /** A block that does not fill its new chunk leaves an accessible free slot: nobody
      denies access to the surplus of a chunk created after initialisation. */
  lemma ChunkLeaves(c: Config, s: State, e0: nat, e1: nat, need: nat, A: pos, r: Request, s': State, user: nat)
    requires Sound(c, s) && e0 < |s.slots| && e1 < |s.slots| && e0 != e1
    requires s.slots[e0].state == EMPTY && s.slots[e1].state == EMPTY
    requires WellPosed(c, A, r) && need == SlotBytes(c, A, r.size) && ChunkSize(c, need) > need
    requires CarveChunk(c, s, e0, e1, need, A, r) == Done((s', user)) && user != 0
    ensures FreeAndOpen(s', e1)
  {
    var chunk := ChunkSize(c, need);
    ChunkPositive(c, need);
    NumChunksIsOne(c, A, r, chunk);
    assert TotalSize(chunk, 1) == chunk;
    ObtainKeeps(c, s, chunk, chunk, r.failEnv);
    ObtainOpens(c, s, chunk, chunk, r.failEnv);
    var (s1, a) := Obtain(c, s, chunk, chunk, r.failEnv).value;
    var s2 := AddChunk(s1, e0, a, chunk, chunk, 1);
    ChunkMoves(c, s, s1, e0, a, chunk, s2, c.maxAlloc <= 0 && s1.pages.failed == s.pages.failed, Mode(false, false));
    CarveLeaves(c, s2, e0, e1, need, A, r, s', user);
  }

  // ---- a run ----

  /** When mmap gives the chunk, the request is served. */
  lemma ChunkServes(c: Config, s: State, e0: nat, e1: nat, need: nat, A: pos, r: Request, chunk: nat, top: nat, rest: seq<nat>)
    requires Sound(c, s) && e0 < |s.slots| && e1 < |s.slots| && e0 != e1
    requires s.slots[e0].state == EMPTY && s.slots[e1].state == EMPTY && c.maxAlloc <= 0
    requires WellPosed(c, A, r) && Modest(c, A, r) && need == SlotBytes(c, A, r.size) && chunk == ChunkSize(c, need)
    requires s.pages.answers == [top] + rest && Below(s.pages, top)
    requires top > 0 && top % c.pageSize == 0 && top + chunk <= SIZE_MAX
    ensures CarveChunk(c, s, e0, e1, need, A, r).Done? && CarveChunk(c, s, e0, e1, need, A, r).value.1 != 0
  {
    ChunkPositive(c, need);
    NumChunksIsOne(c, A, r, chunk);
    assert TotalSize(chunk, 1) == chunk;
    CreateAt(c, s, chunk, top, rest);
    var s1 := CreatePages(c, s, chunk).0;
    ObtainKeeps(c, s, chunk, chunk, r.failEnv);
    var s2 := AddChunk(s1, e0, top, chunk, chunk, 1);
    ChunkMoves(c, s, s1, e0, top, chunk, s2, true, Mode(true, false));
    CarveQuiet(c, s2, e0, e1, need, A, r);
    var taken := CarveKeeps(c, s2, e0, Some(e1), need, A, r, Mode(true, false));
  }

  lemma CoreLeaves(c: Config, s: State, need: nat, A: pos, r: Request, chunk: nat, top: nat, rest: seq<nat>) returns (e: nat)
    requires Sound(c, s) && NoFree(s.slots) && Sum(s.slots, EmptyOne) >= 2 && c.maxAlloc <= 0
    requires WellPosed(c, A, r) && Modest(c, A, r) && need == SlotBytes(c, A, r.size) && chunk == ChunkSize(c, need) > need
    requires s.pages.answers == [top] + rest && Below(s.pages, top)
    requires top > 0 && top % c.pageSize == 0 && top + chunk <= SIZE_MAX
    ensures Core(c, s, need, A, r).Done? && FreeAndOpen(Core(c, s, need, A, r).value.0, e)
  {
    TwoEmpty(s.slots);
    var e0 := FirstEmpty(s.slots, 0).value;
    e := FirstEmpty(s.slots, e0 + 1).value;
    ChunkServes(c, s, e0, e, need, A, r, chunk, top, rest);
    var o := CarveChunk(c, s, e0, e, need, A, r).value;
    ChunkLeaves(c, s, e0, e, need, A, r, o.0, o.1);
  }

  /** Closing the table does not close the free slot. */
  lemma StillOpen(c: Config, s: State, w: State, e: nat)
    requires Struct(c, w) && FreeAndOpen(s, e) && w.slots == s.slots
    requires s.pages.open - Region(c.pageSize, w.allocList, w.allocListSize) <= w.pages.open
    ensures FreeAndOpen(w, e)
  {
    var t := TableIndex(c, w);
    TableMapped(c, w, t);
    var x := w.slots[e];
    forall b: nat | x.internalAddress <= b < x.internalAddress + x.internalSize ensures b in w.pages.open {
      assert Covers(x, b);
      CoverApart(w.slots, e, t, b);
    }
  }

  lemma MallocLeaves(c: Config, s: State, t: Tls, r: Request, need: nat, chunk: nat, top: nat, rest: seq<nat>)
    returns (w: State, p: nat, e: nat)
    requires Full(c, s, [top] + rest) && GoodRequest(c, t, r) && r.size > 0
    requires need == SlotBytes(c, ChosenAlignment(t, r), r.size) && chunk == ChunkSize(c, need) > need
    requires Below(s.pages, top) && top > 0 && top % c.pageSize == 0 && top + chunk <= SIZE_MAX
    ensures Step(c, s, DoAllocate(t, r)) == Done((w, p)) && FreeAndOpen(w, e)
  {
    PassesTest(t, r);
    var A := ChosenAlignment(t, r);
    var s1 := PreparedFull(c, s, r, [top] + rest);
    e := CoreLeaves(c, s1, need, A, r, chunk, top, rest);
    PreparedCore(c, s, s1, A, r);
    var o := Allocate(c, s, t, r, true).value;
    w, p := o.0, o.1;
    AllocateSteady(c, s, t, r, w, p);
    StillOpen(c, Core(c, s1, need, A, r).value.0, w, e);
  }

  lemma SomeSmall(c: Config, t: Tls, need: nat, chunk: nat) returns (r: Request)
    requires SmallPages(c) && need == 2 * c.pageSize && chunk == MEMORY_CREATION_SIZE
    ensures GoodRequest(c, t, r) && r.size > 0 && need == SlotBytes(c, ChosenAlignment(t, r), r.size)
    ensures chunk == ChunkSize(c, need) > need
  {
    r := Request(1, 1, false, None, EFA_MALLOC, true, UNKNOWN_SITE);
    InitSizeIs(c);
    SmallNeed(c.pageSize, 1, 1);
    AlignUpFixed(MEMORY_CREATION_SIZE, c.pageSize);
  }

  /** Free memory is not always denied: after the start, a malloc that takes the rest of
      the first chunk and one that gets a new chunk, slot e is free and accessible. */
  lemma FreeMemoryOpen(c: Config, t: Tls) returns (answers: seq<nat>, ops: seq<Op>, e: nat)
    requires c.Valid() && Unlucky(c) && SmallPages(c) && c.SlotsPerPage() >= 10
    requires GoodRequest(c, t, FirstRequest(t))
    ensures Boot(c, t, answers).Done? && UserOps(ops) && Run(c, Boot(c, t, answers).value, ops).Done?
    ensures
      var s := Run(c, Boot(c, t, answers).value, ops).value.0;
      Between(c, s) && AllDead(c, s) && FreeAndOpen(s, e)
  {
    var s, s';
    answers, s, ops, s', e := OpeningRun(c, t, c.SlotsPerPage() - 3);
    var ps :| RunsTo(c, s, ops, s', ps);
    BootKeeps(c, t, answers);
    RunRedZone(c, s, ops);
  }

  lemma OpeningRun(c: Config, t: Tls, u: nat) returns (answers: seq<nat>, s: State, ops: seq<Op>, s': State, e: nat)
    requires c.Valid() && Unlucky(c) && SmallPages(c) && u >= 7 && u == c.SlotsPerPage() - 3
    requires GoodRequest(c, t, FirstRequest(t))
    ensures Boot(c, t, answers) == Done(s) && Reaches(c, s, ops, s') && UserOps(ops) && ModestOps(c, ops)
    ensures FreeAndOpen(s', e)
  {
    var P, M := c.pageSize, MEMORY_CREATION_SIZE;
    var top, need1, need2, rest := 4 * P + M, M - 3 * P, 2 * P, [4 * P + M] + [];
    answers := Answers(c, rest);
    s := BootStage(c, t, rest);
    var r1 := SomeFill(c, t, need1);
    var r2 := SomeSmall(c, t, need2, M);
    var s1, p := FillStep(c, s, t, r1, need1, 2, u, KB(2 * P));
    TopAligned(c, top);
    var q;
    s', q, e := MallocLeaves(c, s1, t, r2, need2, M, top, []);
    RequestAllowed(c, t, r1);
    RequestAllowed(c, t, r2);
    ops := RunTwo(c, s, DoAllocate(t, r1), DoAllocate(t, r2), s1, p, s', q);
  }

  lemma TopAligned(c: Config, top: nat)
    requires SmallPages(c) && top == 4 * c.pageSize + MEMORY_CREATION_SIZE
    ensures top > 0 && top % c.pageSize == 0 && top + MEMORY_CREATION_SIZE <= SIZE_MAX
  {
    InitSizeIs(c);
    DivModUnique(4 * c.pageSize, c.pageSize, 4, 0);
    MultipleSum(4 * c.pageSize, MEMORY_CREATION_SIZE, c.pageSize);
  }

  lemma RunTwo(c: Config, s: State, a: Op, b: Op, s1: State, p: nat, s2: State, q: nat) returns (ops: seq<Op>)
    requires c.Valid() && Step(c, s, a) == Done((s1, p)) && Step(c, s1, b) == Done((s2, q))
    requires Allowed(c, a) && Allowed(c, b)
    ensures Reaches(c, s, ops, s2) && UserOps(ops) && ModestOps(c, ops)
  {
    var second := [b] + [];
    ops := [a] + second;
    assert RunsTo(c, s2, [], s2, []);
    ReachCons(c, s1, b, [], s2, q, s2);
    ReachCons(c, s, a, second, s1, p, s2);
    assert ops == [a, b];
  }
}
