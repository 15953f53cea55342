/**
 The supply counter wraps around: a run from the start of the program.
 */
module Wrap {
  import opened Bits
  import opened Placement
  import opened Wrappers
  import opened Pages
  import opened Slots
  import opened Heap
  import opened Invariants
  import opened Reduction
  import opened Chunks
  import opened Placing
  import opened Allocation
  import opened Calls
  import opened Growth
  import opened Operations
  import opened Initialisation
  import opened Runs
  import opened Theorems
  import opened NoFalseAlarm
  import opened Exhaustion
  import opened Undercount
  import opened Effects

  // ---- a chunk that cannot be had ----

  predicate NoFree(slots: seq<Slot>) {
    forall i :: 0 <= i < |slots| ==> slots[i].state != FREE
  }

  /** Protected records become empty without being counted, the others stay. */
  predicate Wiped(s: State, s': State) {
    && |s'.slots| == |s.slots| && s'.unUsedSlots == s.unUsedSlots
    && (forall i :: 0 <= i < |s.slots| ==>
          if IsProtected(s.slots[i]) then s'.slots[i].state == EMPTY else s'.slots[i] == s.slots[i])
    && s'.pages.mem.Keys <= s.pages.mem.Keys
    && s'.lost == s.lost + Sum(s.slots, ProtectedKB)
  }

  lemma ReduceWipes(c: Config, s: State, k: nat)
    requires Sound(c, s) && Sum(s.slots, ProtectedKB) < k
    ensures !Reduce(c, s, k).1 && Wiped(s, Reduce(c, s, k).0)
    ensures Reduce(c, s, k).0.pages.answers == s.pages.answers
  {
    SumBounds(s.slots, |s.slots|, ProtectedKB);
    ReduceResult(c, s, k);
    ReduceSucceeds(c, s, k);
    ReduceAnswers(c, s, k);
    var s' := Reduce(c, s, k).0;
    forall i | 0 <= i < |s.slots|
      ensures if IsProtected(s.slots[i]) then s'.slots[i].state == EMPTY else s'.slots[i] == s.slots[i]
    {
      assert ReducedSlot(s.slots[i], s'.slots[i]) && !IsProtected(s'.slots[i]);
    }
  }

  /** The next mmap call fails. */
  lemma CreateFails(c: Config, s: State, size: nat)
    requires c.Valid() && s.pages.answers != [] && s.pages.answers[0] == 0
    ensures
      var (s', a) := CreatePages(c, s, size);
      && a == 0 && s' == s.(pages := s'.pages) && s'.pages.mem == s.pages.mem
      && s'.pages.answers == s.pages.answers[1..]
  {}

  lemma RetryWipes(c: Config, s: State, chunk: nat)
    requires Sound(c, s) && chunk % c.pageSize == 0 && Sum(s.slots, ProtectedKB) < KB(chunk)
    requires s.pages.answers != [] && s.pages.answers[0] == 0
    ensures
      var (s', a) := CreateRetry(c, s, chunk, KB(chunk));
      a == 0 && Wiped(s, s') && s'.pages.answers == s.pages.answers[1..]
  {
    ReduceWipes(c, s, KB(chunk));
    CreateFails(c, Reduce(c, s, KB(chunk)).0, chunk);
  }

  /** mmap refuses two or three times. */
  function Refusals(failEnv: bool): seq<nat> {
    if failEnv then [0, 0, 0] else [0, 0]
  }

  lemma ObtainWipes(c: Config, s: State, chunk: nat, failEnv: bool, rest: seq<nat>)
    requires Sound(c, s) && chunk % c.pageSize == 0 && Sum(s.slots, ProtectedKB) < KB(chunk)
    requires c.maxAlloc <= 0 && c.protectFree != 0 && !c.mallocFailExit
    requires s.pages.answers == Refusals(failEnv) + rest
    ensures
      var o := Obtain(c, s, chunk, chunk, failEnv);
      o.Done? && o.value.1 == 0 && Wiped(s, o.value.0) && o.value.0.pages.answers == rest
  {
    CreateFails(c, s, chunk);
    CreateOk(c, s, chunk);
    var s1 := CreatePages(c, s, chunk).0;
    RetryWipes(c, s1, chunk);
    var s2 := CreateRetry(c, s1, chunk, KB(chunk)).0;
    if failEnv { CreateFails(c, s2, chunk); }
  }

  lemma ChunkKB(c: Config, need: nat, kB: nat)
    requires c.Valid() && need > 0 && kB < KB(MEMORY_CREATION_SIZE)
    ensures kB < KB(ChunkSize(c, need)) && ChunkSize(c, need) % c.pageSize == 0 && ChunkSize(c, need) > 0
  {
    ChunkPositive(c, need);
    AlignUpMeans(if MEMORY_CREATION_SIZE < need then need else MEMORY_CREATION_SIZE, c.pageSize);
  }

  /** The core without a free slot and without memory. */
  lemma CoreWipes(c: Config, s: State, need: nat, A: pos, r: Request, rest: seq<nat>)
    requires Sound(c, s) && NoFree(s.slots) && Sum(s.slots, EmptyOne) >= 2
    requires WellPosed(c, A, r) && need == SlotBytes(c, A, r.size)
    requires Sum(s.slots, ProtectedKB) < KB(MEMORY_CREATION_SIZE)
    requires c.maxAlloc <= 0 && c.protectFree != 0 && !c.mallocFailExit
    requires s.pages.answers == Refusals(r.failEnv) + rest
    ensures
      var o := Core(c, s, need, A, r);
      o.Done? && o.value.1 == 0 && Wiped(s, o.value.0) && o.value.0.pages.answers == rest
  {
    TwoEmpty(s.slots);
    var e0 := FirstEmpty(s.slots, 0).value;
    ChunkWipes(c, s, e0, FirstEmpty(s.slots, e0 + 1).value, need, A, r, ChunkSize(c, need), rest);
  }

  lemma ChunkWipes(c: Config, s: State, e0: nat, e1: nat, need: nat, A: pos, r: Request, chunk: nat, rest: seq<nat>)
    requires Sound(c, s) && e0 < |s.slots| && e1 < |s.slots|
    requires WellPosed(c, A, r) && need == SlotBytes(c, A, r.size) && chunk == ChunkSize(c, need)
    requires Sum(s.slots, ProtectedKB) < KB(MEMORY_CREATION_SIZE)
    requires c.maxAlloc <= 0 && c.protectFree != 0 && !c.mallocFailExit
    requires s.pages.answers == Refusals(r.failEnv) + rest
    ensures
      var o := CarveChunk(c, s, e0, e1, need, A, r);
      o.Done? && o.value.1 == 0 && Wiped(s, o.value.0) && o.value.0.pages.answers == rest
  {
    SumBounds(s.slots, |s.slots|, ProtectedKB);
    ChunkKB(c, need, Sum(s.slots, ProtectedKB));
    NumChunksIsOne(c, A, r, chunk);
    assert TotalSize(chunk, 1) == chunk;
    ObtainWipes(c, s, chunk, r.failEnv, rest);
  }

  lemma PathWipes(c: Config, s: State, newSize: nat, s0: State, s1: State, a: nat, g: State, rest: seq<nat>)
    requires c.Valid() && Struct(c, s) && GrowPath(c, s, newSize, s0, s1, a, g)
    requires NoFree(s.slots) && Sum(s.slots, EmptyOne) >= 2 && Sum(s.slots, ProtectedKB) < KB(MEMORY_CREATION_SIZE)
    requires c.maxAlloc <= 0 && c.protectFree != 0 && !c.mallocFailExit
    requires s.pages.answers == Refusals(false) + rest
    ensures Wiped(s, g) && g.pages.answers == rest
  {
    CounterSound(c, s, s0.checkFreqCounter);
    GrowWellPosed(c, s, newSize);
    InternalSizePositive(c.pageSize, 1, newSize);
    CoreWipes(c, s0, InternalSize(c.pageSize, 1, newSize), 1, GrowRequest(newSize), rest);
  }

  lemma GrownWipes(c: Config, s: State, g: State, rest: seq<nat>)
    requires c.Valid() && Struct(c, s) && Grows(c, s, g)
    requires NoFree(s.slots) && Sum(s.slots, EmptyOne) >= 2 && Sum(s.slots, ProtectedKB) < KB(MEMORY_CREATION_SIZE)
    requires c.maxAlloc <= 0 && c.protectFree != 0 && !c.mallocFailExit
    requires s.pages.answers == Refusals(false) + rest
    ensures Wiped(s, g) && g.pages.answers == rest
  {
    var newSize, s0, s1, a :| GrowPath(c, s, newSize, s0, s1, a, g);
    PathWipes(c, s, newSize, s0, s1, a, g, rest);
  }

  // ---- a table without free slots ----

  /** What mmap answers before the request itself is served: it refuses a growth. */
  function Prelude(u: nat): seq<nat> {
    if u < 7 then Refusals(false) else []
  }

  /** The settings of the runs: freed memory is protected for ever, and nothing stops the
      program when mmap fails. */
  predicate Unlucky(c: Config) {
    c.Valid() && c.maxAlloc <= 0 && c.protectFree < 0 && !c.mallocFailExit
  }

  /** No slot is free, none is protected if growth is due, and mmap refuses a growth. */
  ghost predicate Full(c: Config, s: State, rest: seq<nat>) {
    && Unlucky(c) && Steady(c, s) && NoFree(s.slots) && Sum(s.slots, EmptyOne) >= 2
    && (s.unUsedSlots < 7 ==> NoneProtected(s))
    && s.pages.answers == Prelude(s.unUsedSlots) + rest
  }

  /** The records are the same, and nothing more is mapped. */
  predicate SameTables(s: State, s': State) {
    SameRecords(s, s') && s'.pages.mem.Keys <= s.pages.mem.Keys && s'.lost == s.lost
  }

  lemma GrowRefused(c: Config, s: State, rest: seq<nat>)
    requires Full(c, s, rest) && TableOpen(s) && s.unUsedSlots < 7
    ensures Grow(c, s).Done?
    ensures var g := Grow(c, s).value;
            Struct(c, g) && SameTables(s, g) && g.pages.answers == rest
  {
    GrowQuiet(c, s);
    var g := Grow(c, s).value;
    GrowGrows(c, s, g);
    GrowKeeps(c, s, g, Mode(true, false));
    SumConstant(s.slots, |s.slots|, ProtectedKB, 0);
    GrownWipes(c, s, g, rest);
  }

  lemma PreparedFull(c: Config, s: State, r: Request, rest: seq<nat>) returns (s': State)
    requires Full(c, s, rest) && UserRequest(r)
    ensures Prepared(c, s, r) == Done(s')
    ensures Struct(c, s') && SameTables(s, s') && s'.pages.answers == rest
  {
    var s1 := CheckedSteady(c, s);
    if NeedsGrowth(s1, r) {
      GrowRefused(c, s1, rest);
      s' := Grow(c, s1).value;
    } else {
      s' := s1;
    }
  }

  // ---- a chunk of its own for a block ----

  /** The next mmap call gives the memory at top. */
  lemma CreateAt(c: Config, s: State, size: nat, top: nat, rest: seq<nat>)
    requires c.Valid() && s.pages.answers == [top] + rest && Below(s.pages, top)
    requires top > 0 && top % c.pageSize == 0 && size % c.pageSize == 0 && top + size <= SIZE_MAX
    ensures
      var (s', a) := CreatePages(c, s, size);
      && a == top && s' == s.(pages := s'.pages) && s'.pages.answers == rest
      && Below(s'.pages, top + size)
  {
    AlignUpFixed(size, c.pageSize);
    WholePages(c.pageSize, top, size);
    assert Span(top, top + size) !! s.pages.mem.Keys;
    assert s.pages.answers[0] == top && s.pages.answers[1..] == rest;
  }

  /** Slot e holds a new block; nothing else happened to the records. */
  predicate Added(s: State, o: Outcome<(State, nat)>, e: nat, rest: seq<nat>) {
    && o.Done? && o.value.1 != 0 && e < |s.slots| && s.slots[e].state == EMPTY
    && |o.value.0.slots| == |s.slots| && o.value.0.slots == s.slots[e := o.value.0.slots[e]]
    && o.value.0.slots[e].state == IN_USE
    && o.value.0.unUsedSlots == Take(s.unUsedSlots, 1)
    && o.value.0.pages.answers == rest
  }

  /** A request as large as its chunk, when mmap gives the chunk. */
  lemma ChunkAdds(c: Config, s: State, e0: nat, e1: nat, need: nat, A: pos, r: Request, top: nat, rest: seq<nat>)
    requires Sound(c, s) && e0 < |s.slots| && e1 < |s.slots| && e0 != e1
    requires s.slots[e0].state == EMPTY && s.slots[e1].state == EMPTY && c.maxAlloc <= 0
    requires WellPosed(c, A, r) && Modest(c, A, r) && need == SlotBytes(c, A, r.size) == ChunkSize(c, need)
    requires s.pages.answers == [top] + rest && Below(s.pages, top)
    requires top > 0 && top % c.pageSize == 0 && top + need <= SIZE_MAX
    ensures
      var o := CarveChunk(c, s, e0, e1, need, A, r);
      Added(s, o, e0, rest) && Below(o.value.0.pages, top + need)
  {
    ChunkPositive(c, need);
    NumChunksIsOne(c, A, r, need);
    assert TotalSize(need, 1) == need;
    CreateAt(c, s, need, top, rest);
    var s1 := CreatePages(c, s, need).0;
    ObtainKeeps(c, s, need, need, r.failEnv);
    AddedCarve(c, s, s1, AddChunk(s1, e0, top, need, need, 1), e0, e1, need, A, r, top);
  }

  lemma AddedCarve(c: Config, s: State, s1: State, s2: State, e0: nat, e1: nat, need: nat, A: pos, r: Request, top: nat)
    requires Sound(c, s) && ObtainOk(c, s, s1, top, need, true) && s1.pages.failed == s.pages.failed
    requires e0 < |s.slots| && e1 < |s.slots| && e0 != e1 && s1.slots == s.slots && s1.unUsedSlots == s.unUsedSlots
    requires s.slots[e0].state == EMPTY && s.slots[e1].state == EMPTY && top > 0
    requires WellPosed(c, A, r) && Modest(c, A, r) && need == SlotBytes(c, A, r.size) && need % c.pageSize == 0
    requires s2 == AddChunk(s1, e0, top, need, need, 1)
    ensures
      var o := Carve(c, s2, e0, Some(e1), need, A, r);
      Added(s, o, e0, s1.pages.answers) && o.value.0.pages.mem.Keys == s1.pages.mem.Keys
  {
    ChunkMoves(c, s, s1, e0, top, need, s2, true, Mode(true, false));
    CarveQuiet(c, s2, e0, e1, need, A, r);
    var (s', user) := Carve(c, s2, e0, Some(e1), need, A, r).value;
    CarveEffect(c, s2, e0, Some(e1), need, A, r, s', user);
    var taken := CarveKeeps(c, s2, e0, Some(e1), need, A, r, Mode(true, false));
    assert s'.slots == s.slots[e0 := s'.slots[e0]];
  }

  lemma CoreAdds(c: Config, s: State, need: nat, A: pos, r: Request, top: nat, rest: seq<nat>) returns (e: nat)
    requires Sound(c, s) && NoFree(s.slots) && Sum(s.slots, EmptyOne) >= 2 && c.maxAlloc <= 0
    requires WellPosed(c, A, r) && Modest(c, A, r) && need == SlotBytes(c, A, r.size) == ChunkSize(c, need)
    requires s.pages.answers == [top] + rest && Below(s.pages, top)
    requires top > 0 && top % c.pageSize == 0 && top + need <= SIZE_MAX
    ensures Added(s, Core(c, s, need, A, r), e, rest) && Below(Core(c, s, need, A, r).value.0.pages, top + need)
  {
    TwoEmpty(s.slots);
    e := FirstEmpty(s.slots, 0).value;
    ChunkAdds(c, s, e, FirstEmpty(s.slots, e + 1).value, need, A, r, top, rest);
  }

  /** What the core did is what the call did. */
  lemma AddedCall(s: State, s1: State, o: Outcome<(State, nat)>, w: Outcome<(State, nat)>, e: nat, rest: seq<nat>)
    requires Added(s1, o, e, rest) && SameRecords(s, s1)
    requires w.Done? && w.value.1 == o.value.1 && w.value.0.slots == o.value.0.slots
    requires w.value.0.unUsedSlots == o.value.0.unUsedSlots && SameMapped(o.value.0.pages, w.value.0.pages)
    ensures Added(s, w, e, rest)
  {}

  /** A request as large as its chunk, in a full table. */
  lemma AllocateAdds(c: Config, s: State, t: Tls, A: pos, r: Request, need: nat, top: nat, rest: seq<nat>)
    returns (e: nat)
    requires Full(c, s, [top] + rest) && GoodRequest(c, t, r) && r.size > 0 && A == ChosenAlignment(t, r)
    requires need == SlotBytes(c, A, r.size) == ChunkSize(c, need)
    requires Below(s.pages, top) && top > 0 && top % c.pageSize == 0 && top + need <= SIZE_MAX
    ensures
      var o := Allocate(c, s, t, r, true);
      Added(s, o, e, rest) && Below(o.value.0.pages, top + need) && Steady(c, o.value.0)
  {
    PassesTest(t, r);
    var s1 := PreparedFull(c, s, r, [top] + rest);
    e := CoreAdds(c, s1, need, A, r, top, rest);
    var o, w := Core(c, s1, need, A, r), Allocate(c, s, t, r, true);
    PreparedCore(c, s, s1, A, r);
    AddedCall(s, s1, o, w, e, rest);
    AllocateSteady(c, s, t, r, w.value.0, w.value.1);
  }

  /** A request that gets nothing, while records are plenty. */
  lemma AllocateWipes(c: Config, s: State, t: Tls, A: pos, r: Request, need: nat, rest: seq<nat>)
    requires Full(c, s, Refusals(r.failEnv) + rest) && s.unUsedSlots >= 7
    requires GoodRequest(c, t, r) && r.size > 0 && A == ChosenAlignment(t, r) && need == SlotBytes(c, A, r.size)
    requires Sum(s.slots, ProtectedKB) < KB(MEMORY_CREATION_SIZE)
    ensures
      var o := Allocate(c, s, t, r, true);
      && o.Done? && o.value.1 == 0 && Wiped(s, o.value.0) && o.value.0.pages.answers == rest
      && Steady(c, o.value.0)
  {
    PassesTest(t, r);
    var s1 := PreparedFull(c, s, r, Refusals(r.failEnv) + rest);
    CoreWipes(c, s1, need, A, r, rest);
    var o, w := Core(c, s1, need, A, r), Allocate(c, s, t, r, true);
    PreparedCore(c, s, s1, A, r);
    AllocateSteady(c, s, t, r, w.value.0, w.value.1);
  }

  // ---- using up the records ----

  /** A request for need bytes of slot, as many as its chunk has. */
  ghost predicate Big(c: Config, t: Tls, r: Request, need: nat)
    requires c.Valid()
  {
    && GoodRequest(c, t, r) && r.size > 0
    && need == SlotBytes(c, ChosenAlignment(t, r), r.size) && need == ChunkSize(c, need) && need % c.pageSize == 0
  }

  /** u records counted, two more really empty, and none free or protected. */
  ghost predicate Exhausting(c: Config, s: State, u: nat, top: nat) {
    && Unlucky(c) && Steady(c, s) && NoFree(s.slots) && NoneProtected(s)
    && s.unUsedSlots == u && Sum(s.slots, EmptyOne) == u + 2
    && Below(s.pages, top)
  }

  lemma BigStep(c: Config, s: State, t: Tls, r: Request, op: Op, u: nat, top: nat, need: nat, next: nat, rest: seq<nat>)
    returns (w: State, p: nat)
    requires Exhausting(c, s, u, top) && s.pages.answers == Prelude(u) + ([top] + rest) && Big(c, t, r, need)
    requires top > 0 && top % c.pageSize == 0 && next == top + need <= SIZE_MAX && op == DoAllocate(t, r)
    ensures Step(c, s, op) == Done((w, p))
    ensures w.unUsedSlots == Take(u, 1) && Sum(w.slots, EmptyOne) == u + 1 && w.pages.answers == rest
    ensures u > 0 ==> Exhausting(c, w, u - 1, next)
  {
    var e := AllocateAdds(c, s, t, ChosenAlignment(t, r), r, need, top, rest);
    var o := Allocate(c, s, t, r, true).value;
    w, p := o.0, o.1;
    SumUpdate(s.slots, e, w.slots[e], EmptyOne);
  }

  /** mmap refuses every growth, and gives every block its chunk of need bytes. */
  function Script(u: nat, top: nat, need: nat): seq<nat>
    decreases u
  {
    Prelude(u) + ([top] + Later(u, top, need))
  }

  function Later(u: nat, top: nat, need: nat): seq<nat>
    decreases u, 0
  {
    if u == 0 then [] else Script(u - 1, top + need, need)
  }

  /** Where the last of the blocks ends. */
  function ScriptEnd(u: nat, top: nat, need: nat): (end: nat)
    ensures end >= top + need
    decreases u
  {
    if u == 0 then top + need else ScriptEnd(u - 1, top + need, need)
  }

  lemma {:induction false} ScriptEndIs(u: nat, top: nat, need: nat)
    ensures ScriptEnd(u, top, need) == top + (u + 1) * need
    decreases u
  {
    if u > 0 {
      ScriptEndIs(u - 1, top + need, need);
      assert (u + 1) * need == need + u * need;
    }
  }

  /** As many blocks as there are counted records, and one more. */
  function Blocks(op: Op, u: nat): seq<Op>
    decreases u
  {
    if u == 0 then [op] else [op] + Blocks(op, u - 1)
  }

  /** The program returns the pointers ps and leaves state s'. */
  predicate RunsTo(c: Config, s: State, ops: seq<Op>, s': State, ps: seq<nat>)
    requires c.Valid()
  {
    Run(c, s, ops) == Done((s', ps))
  }

  ghost predicate Reaches(c: Config, s: State, ops: seq<Op>, s': State)
    requires c.Valid()
  {
    exists ps :: RunsTo(c, s, ops, s', ps)
  }

  lemma ReachCons(c: Config, s: State, op: Op, ops: seq<Op>, w: State, p: nat, s': State)
    requires c.Valid() && Step(c, s, op) == Done((w, p)) && Reaches(c, w, ops, s')
    ensures Reaches(c, s, [op] + ops, s')
  {
    assert ([op] + ops)[0] == op && ([op] + ops)[1..] == ops;
    var ps :| RunsTo(c, w, ops, s', ps);
    assert RunsTo(c, s, [op] + ops, s', [p] + ps);
  }

  /** The program leaves state s' with a counter that wrapped around; one record is
      really left. */
  ghost predicate EndsWrapped(c: Config, s: State, ops: seq<Op>, s': State)
    requires c.Valid()
  {
    Reaches(c, s, ops, s') && s'.unUsedSlots == SIZE_MAX && Sum(s'.slots, EmptyOne) == 1
  }

  ghost predicate Wraps(c: Config, s: State, ops: seq<Op>)
    requires c.Valid()
  {
    exists s' :: EndsWrapped(c, s, ops, s')
  }

  lemma WrapCons(c: Config, s: State, op: Op, ops: seq<Op>, w: State, p: nat)
    requires c.Valid() && Step(c, s, op) == Done((w, p)) && Wraps(c, w, ops)
    ensures Wraps(c, s, [op] + ops)
  {
    var s' :| EndsWrapped(c, w, ops, s');
    ReachCons(c, s, op, ops, w, p, s');
    assert EndsWrapped(c, s, [op] + ops, s');
  }

  lemma LastBlock(c: Config, s: State, op: Op, w: State, p: nat)
    requires c.Valid() && Step(c, s, op) == Done((w, p)) && w.unUsedSlots == SIZE_MAX && Sum(w.slots, EmptyOne) == 1
    ensures Wraps(c, s, [op])
  {
    assert RunsTo(c, w, [], w, []);
    assert EndsWrapped(c, w, [], w);
    WrapCons(c, s, op, [], w, p);
    assert [op] + [] == [op];
  }

  lemma BlocksNext(op: Op, u: nat, v: nat)
    requires u == v + 1
    ensures Blocks(op, u) == [op] + Blocks(op, v)
  {}

  lemma BlocksCons(c: Config, s: State, op: Op, blocks: seq<Op>, more: seq<Op>, w: State, p: nat)
    requires c.Valid() && blocks == [op] + more && Step(c, s, op) == Done((w, p)) && Wraps(c, w, more)
    ensures Wraps(c, s, blocks)
  {
    WrapCons(c, s, op, more, w, p);
  }

  lemma ScriptNext(P: nat, u: nat, top: nat, need: nat, v: nat, next: nat)
    requires u == v + 1 && next == top + need && P > 0 && top % P == 0 && need % P == 0
    ensures Later(u, top, need) == Script(v, next, need) && ScriptEnd(u, top, need) == ScriptEnd(v, next, need)
    ensures next % P == 0
  {
    MultipleSum(top, need, P);
  }

  /** The counter falls to 0 while two records are left, and then wraps around. */
  lemma {:induction false} RunExhausts(c: Config, s: State, t: Tls, r: Request, op: Op, u: nat, top: nat, need: nat)
    requires c.Valid() && Exhausting(c, s, u, top) && s.pages.answers == Script(u, top, need) && Big(c, t, r, need)
    requires top > 0 && top % c.pageSize == 0 && ScriptEnd(u, top, need) <= SIZE_MAX && op == DoAllocate(t, r)
    ensures Wraps(c, s, Blocks(op, u))
    decreases u
  {
    var next := top + need;
    var w, p := BigStep(c, s, t, r, op, u, top, need, next, Later(u, top, need));
    if u == 0 {
      LastBlock(c, s, op, w, p);
    } else {
      var v := u - 1;
      ScriptNext(c.pageSize, u, top, need, v, next);
      RunExhausts(c, w, t, r, op, v, next, need);
      BlocksNext(op, u, v);
      BlocksCons(c, s, op, Blocks(op, u), Blocks(op, v), w, p);
    }
  }

  // ---- from the start to a full table ----

  /** Slot f is the only free one. */
  predicate OneFree(slots: seq<Slot>, f: nat, size: nat) {
    && f < |slots| && slots[f].state == FREE && slots[f].internalSize == size
    && forall i :: 0 <= i < |slots| && i != f ==> slots[i].state != FREE
  }

  /** u records are empty and counted, p are protected and hold kB. */
  predicate Tally(s: State, u: nat, p: nat, kB: nat) {
    && s.unUsedSlots == u && Sum(s.slots, EmptyOne) == u
    && Sum(s.slots, ProtectedOne) == p && Sum(s.slots, ProtectedKB) == kB
  }

  lemma TallyUpdate(slots: seq<Slot>, k: nat, x: Slot)
    requires k < |slots|
    ensures
      var t := slots[k := x];
      && Sum(t, EmptyOne) == Sum(slots, EmptyOne) - EmptyOne(slots[k]) + EmptyOne(x)
      && Sum(t, ProtectedOne) == Sum(slots, ProtectedOne) - ProtectedOne(slots[k]) + ProtectedOne(x)
      && Sum(t, ProtectedKB) == Sum(slots, ProtectedKB) - ProtectedKB(slots[k]) + ProtectedKB(x)
  {
    SumUpdate(slots, k, x, EmptyOne);
    SumUpdate(slots, k, x, ProtectedOne);
    SumUpdate(slots, k, x, ProtectedKB);
  }

  predicate NoneLive(slots: seq<Slot>) {
    forall i :: 0 <= i < |slots| ==> !IsLive(slots[i])
  }

  /** The records after the first malloc and free: its block y is protected, the rest of
      the first chunk is still free. */
  lemma StartRecords(c: Config, a: nat, need: nat, y: Slot, slots: seq<Slot>)
    requires c.Valid() && a > 0 && a % c.pageSize == 0 && c.SlotsPerPage() >= 9
    requires 0 < need && need + c.pageSize < InitSize(c)
    requires slots == InitSlots(c, a)[2 := Remainder(InitSlots(c, a)[1], need)][1 := y]
    requires y.state == ALL_PROTECTED && y.internalSize == need
    ensures OneFree(slots, 2, InitSize(c) - c.pageSize - need) && NoneLive(slots)
    ensures Sum(slots, EmptyOne) == c.SlotsPerPage() - 3
    ensures Sum(slots, ProtectedOne) == 1 && Sum(slots, ProtectedKB) == KB(need)
  {
    InitRecords(c, a);
    InitSums(c, a);
    var s0, x := InitSlots(c, a), Remainder(InitSlots(c, a)[1], need);
    TallyUpdate(s0, 2, x);
    TallyUpdate(s0[2 := x], 1, y);
  }

  lemma StartStage(c: Config, s0: State, t: Tls, A: pos, r: Request, a: nat, need: nat) returns (s: State)
    requires c.Valid() && Unlucky(c) && Steady(c, s0) && 4 * c.pageSize <= InitSize(c) && c.SlotsPerPage() >= 9
    requires a > 0 && a % c.pageSize == 0 && s0.slots == InitSlots(c, a) && s0.unUsedSlots == c.SlotsPerPage() - 2
    requires GoodRequest(c, t, r) && 0 < r.size <= c.pageSize && A == ChosenAlignment(t, r) && A <= c.pageSize
    requires need == 2 * c.pageSize && TypeOf(r.allocator) == CFamily
    ensures FirstCalls(c, s0, t, r) == Done(s) && Steady(c, s) && TableClosed(s)
    ensures Tally(s, c.SlotsPerPage() - 3, 1, KB(need)) && OneFree(s.slots, 2, InitSize(c) - c.pageSize - need)
    ensures SameMapped(s0.pages, s.pages) && NoneLive(s.slots)
  {
    StartServes(c, s0, t, A, r, a, need);
    var o := Allocate(c, s0, t, r, true).value;
    var w, p := o.0, o.1;
    assert LiveKey(w, p, EFA_FREE, 1);
    FreeForever(c, w, p, EFA_FREE, UNKNOWN_SITE, 1);
    s := Deallocate(c, w, p, EFA_FREE, UNKNOWN_SITE).value;
    StartedRecords(c, s0, w, s, a, need);
  }

  lemma StartedRecords(c: Config, s0: State, w: State, s: State, a: nat, need: nat)
    requires c.Valid() && a > 0 && a % c.pageSize == 0 && c.SlotsPerPage() >= 9
    requires 0 < need && need + c.pageSize < InitSize(c)
    requires s0.slots == InitSlots(c, a) && s0.unUsedSlots == c.SlotsPerPage() - 2
    requires 1 < |w.slots| && CarvedTo(s0, w, 1, Some(2), need, w.slots[1]) && RetiredOnly(w, s, 1, UNKNOWN_SITE)
    ensures Tally(s, c.SlotsPerPage() - 3, 1, KB(need)) && OneFree(s.slots, 2, InitSize(c) - c.pageSize - need)
    ensures SameMapped(s0.pages, s.pages) && NoneLive(s.slots)
  {
    InitRecords(c, a);
    StartRecords(c, a, need, s.slots[1], s.slots);
  }

  /** A block that takes the last free slot as a whole. */
  lemma FillStep(c: Config, s: State, t: Tls, r: Request, need: nat, f: nat, u: nat, kB: nat) returns (w: State, p: nat)
    requires c.Valid() && Unlucky(c) && Steady(c, s) && Tally(s, u, 1, kB) && u >= 7 && OneFree(s.slots, f, need)
    requires GoodRequest(c, t, r) && r.size > 0 && need == SlotBytes(c, ChosenAlignment(t, r), r.size)
    requires TypeOf(r.allocator) == CFamily
    ensures Step(c, s, DoAllocate(t, r)) == Done((w, p))
    ensures Steady(c, w) && Tally(w, u, 1, kB) && NoFree(w.slots) && SameMapped(s.pages, w.pages)
    ensures LiveKey(w, p, EFA_FREE, f) && w.slots[f].internalSize == need
  {
    var e := OnlyFit(s.slots, f, need, need);
    AllocateFits(c, s, t, ChosenAlignment(t, r), r, need, f, e);
    var o := Allocate(c, s, t, r, true).value;
    w, p := o.0, o.1;
    TallyUpdate(s.slots, f, w.slots[f]);
  }

  lemma OnlyFit(slots: seq<Slot>, f: nat, size: nat, need: nat) returns (e: nat)
    requires OneFree(slots, f, size) && need <= size && Sum(slots, EmptyOne) >= 2
    ensures BestFit(slots, need) == Some(f) && FirstEmpty(slots, 0) == Some(e)
  {
    TwoEmpty(slots);
    e := FirstEmpty(slots, 0).value;
    var k := BestFit(slots, need);
    assert Fits(slots[f], need) && k.Some? && Fits(slots[k.value], need);
  }

  /** Its free. */
  lemma FreeStep(c: Config, s: State, p: nat, f: nat, u: nat, kB: nat, need: nat) returns (w: State)
    requires c.Valid() && Unlucky(c) && Steady(c, s) && Tally(s, u, 1, kB) && NoFree(s.slots)
    requires LiveKey(s, p, EFA_FREE, f) && s.slots[f].internalSize == need
    ensures Step(c, s, DoFree(p, EFA_FREE, UNKNOWN_SITE)) == Done((w, 0))
    ensures Steady(c, w) && Tally(w, u, 2, kB + KB(need)) && NoFree(w.slots) && SameMapped(s.pages, w.pages)
  {
    FreeForever(c, s, p, EFA_FREE, UNKNOWN_SITE, f);
    w := Deallocate(c, s, p, EFA_FREE, UNKNOWN_SITE).value;
    TallyUpdate(s.slots, f, w.slots[f]);
  }

  lemma {:induction false} WipedCount(a: seq<Slot>, b: seq<Slot>, n: nat)
    requires n <= |a| == |b|
    requires forall i :: 0 <= i < n ==> if IsProtected(a[i]) then b[i].state == EMPTY else b[i] == a[i]
    ensures SumTo(b, n, EmptyOne) == SumTo(a, n, EmptyOne) + SumTo(a, n, ProtectedOne)
  {
    if n > 0 { WipedCount(a, b, n - 1); }
  }

  /** A request that gets nothing empties the protected records uncounted. */
  lemma WipeStep(c: Config, s: State, t: Tls, r: Request, need: nat, u: nat, kB: nat, top: nat, rest: seq<nat>)
    returns (w: State)
    requires c.Valid() && Unlucky(c) && Steady(c, s) && Tally(s, u, 2, kB) && u >= 7 && NoFree(s.slots)
    requires kB < KB(MEMORY_CREATION_SIZE) && Below(s.pages, top) && s.pages.answers == Refusals(true) + rest
    requires GoodRequest(c, t, r) && r.size > 0 && need == SlotBytes(c, ChosenAlignment(t, r), r.size) && r.failEnv
    ensures Step(c, s, DoAllocate(t, r)) == Done((w, 0))
    ensures Exhausting(c, w, u, top) && w.pages.answers == rest && w.lost == s.lost + kB
  {
    assert s.pages.answers == Prelude(u) + (Refusals(true) + rest);
    AllocateWipes(c, s, t, ChosenAlignment(t, r), r, need, rest);
    w := Allocate(c, s, t, r, true).value.0;
    WipedCount(s.slots, w.slots, |s.slots|);
  }

  lemma {:induction false} BlocksAre(c: Config, op: Op, u: nat)
    requires Allowed(c, op)
    ensures UserOps(Blocks(op, u)) && ModestOps(c, Blocks(op, u))
    decreases u
  {
    if u > 0 { BlocksAre(c, op, u - 1); }
  }

  /** From a table with one free slot: fill it, free the block, and ask in vain for a big
      one. */
  lemma ThreeSteps(c: Config, s: State, t: Tls, r1: Request, need1: nat, f: nat, r2: Request, need2: nat, u: nat, kB: nat, top: nat, rest: seq<nat>)
    returns (s1: State, p: nat, s2: State, s3: State)
    requires c.Valid() && Unlucky(c) && Steady(c, s) && Tally(s, u, 1, kB) && u >= 7 && OneFree(s.slots, f, need1)
    requires GoodRequest(c, t, r1) && r1.size > 0 && need1 == SlotBytes(c, ChosenAlignment(t, r1), r1.size)
    requires TypeOf(r1.allocator) == CFamily && kB + KB(need1) < KB(MEMORY_CREATION_SIZE)
    requires Big(c, t, r2, need2) && r2.failEnv
    requires Below(s.pages, top) && s.pages.answers == Refusals(true) + rest
    ensures Step(c, s, DoAllocate(t, r1)) == Done((s1, p))
    ensures Step(c, s1, DoFree(p, EFA_FREE, UNKNOWN_SITE)) == Done((s2, 0))
    ensures Step(c, s2, DoAllocate(t, r2)) == Done((s3, 0))
    ensures Exhausting(c, s3, u, top) && s3.pages.answers == rest && s3.lost >= kB + KB(need1)
  {
    s1, p := FillStep(c, s, t, r1, need1, f, u, kB);
    s2 := FreeStep(c, s1, p, f, u, kB, need1);
    s3 := WipeStep(c, s2, t, r2, need2, u, kB + KB(need1), top, rest);
  }

  /** ... and take all records. */
  lemma RunWraps(c: Config, s: State, t: Tls, r1: Request, need1: nat, f: nat, r2: Request, need2: nat, u: nat, kB: nat, top: nat)
    returns (ops: seq<Op>)
    requires c.Valid() && Unlucky(c) && Steady(c, s) && Tally(s, u, 1, kB) && u >= 7 && OneFree(s.slots, f, need1)
    requires GoodRequest(c, t, r1) && r1.size > 0 && need1 == SlotBytes(c, ChosenAlignment(t, r1), r1.size)
    requires TypeOf(r1.allocator) == CFamily && kB + KB(need1) < KB(MEMORY_CREATION_SIZE)
    requires Big(c, t, r2, need2) && r2.failEnv
    requires Below(s.pages, top) && top > 0 && top % c.pageSize == 0 && ScriptEnd(u, top, need2) <= SIZE_MAX
    requires s.pages.answers == Refusals(true) + Script(u, top, need2)
    ensures Wraps(c, s, ops) && UserOps(ops) && ModestOps(c, ops)
  {
    var s1, p, s2, s3 := ThreeSteps(c, s, t, r1, need1, f, r2, need2, u, kB, top, Script(u, top, need2));
    var a, b, d := DoAllocate(t, r1), DoFree(p, EFA_FREE, UNKNOWN_SITE), DoAllocate(t, r2);
    RunExhausts(c, s3, t, r2, d, u, top, need2);
    RequestAllowed(c, t, r1);
    RequestAllowed(c, t, r2);
    BlocksAre(c, d, u);
    ops := Chain(c, s, s1, s2, s3, a, b, d, p, Blocks(d, u));
  }

  predicate Allowed(c: Config, op: Op) {
    UserOp(op) && ModestOp(c, op)
  }

  lemma RequestAllowed(c: Config, t: Tls, r: Request)
    requires GoodRequest(c, t, r)
    ensures Allowed(c, DoAllocate(t, r))
  {}

  lemma Chain(c: Config, s: State, s1: State, s2: State, s3: State, a: Op, b: Op, d: Op, p: nat, more: seq<Op>)
    returns (ops: seq<Op>)
    requires c.Valid() && Step(c, s, a) == Done((s1, p)) && Step(c, s1, b) == Done((s2, 0))
    requires Step(c, s2, d) == Done((s3, 0)) && Wraps(c, s3, more)
    requires Allowed(c, a) && Allowed(c, b) && Allowed(c, d) && UserOps(more) && ModestOps(c, more)
    ensures Wraps(c, s, ops) && UserOps(ops) && ModestOps(c, ops)
  {
    var third := [d] + more;
    var second := [b] + third;
    ops := [a] + second;
    WrapCons(c, s2, d, more, s3, 0);
    WrapCons(c, s1, b, third, s2, 0);
    WrapCons(c, s, a, second, s1, p);
    assert ops == [a, b, d] + more;
  }

  // ---- the run ----

  /** A block that takes the rest of the first chunk after the first malloc. */
  function FillRequest(c: Config): Request {
    Request(1, if 4 * c.pageSize < MEMORY_CREATION_SIZE then MEMORY_CREATION_SIZE - 4 * c.pageSize else 1,
            false, None, EFA_MALLOC, true, UNKNOWN_SITE)
  }

  /** A block so large that it fills its chunk. */
  function BigRequest(): Request {
    Request(1, MEMORY_CREATION_SIZE, false, None, EFA_MALLOC, true, UNKNOWN_SITE)
  }

  /** The page sizes in question: at least eight pages in a chunk. */
  predicate SmallPages(c: Config) {
    c.Valid() && 8 * c.pageSize <= MEMORY_CREATION_SIZE
  }

  lemma FillNeed(c: Config, t: Tls, r: Request, need: nat)
    requires SmallPages(c) && r == FillRequest(c) && need == MEMORY_CREATION_SIZE - 3 * c.pageSize
    ensures GoodRequest(c, t, r) && r.size > 0 && need == SlotBytes(c, ChosenAlignment(t, r), r.size)
    ensures TypeOf(r.allocator) == CFamily && KB(2 * c.pageSize) + KB(need) < KB(MEMORY_CREATION_SIZE)
  {
    var P, M := c.pageSize, MEMORY_CREATION_SIZE;
    InitSizeIs(c);
    DivModUnique(P, P, 1, 0);
    DivModUnique(2 * P, P, 2, 0);
    DivModUnique(4 * P, P, 4, 0);
    MultipleSum(M, 4 * P, P);
    AlignUpFixed(M - 4 * P, P);
    MultipleSum(M - 4 * P, P, P);
    KBSum(2 * P, need, P);
    MultipleSum(2 * P, need, P);
    KBSum(M - P, P, P);
  }

  lemma BigNeed(c: Config, t: Tls, r: Request, need: nat)
    requires SmallPages(c) && r == BigRequest() && need == MEMORY_CREATION_SIZE + c.pageSize
    ensures Big(c, t, r, need) && r.failEnv
  {
    InitSizeIs(c);
    DivModUnique(c.pageSize, c.pageSize, 1, 0);
    MultipleSum(MEMORY_CREATION_SIZE, c.pageSize, c.pageSize);
    AlignUpFixed(MEMORY_CREATION_SIZE, c.pageSize);
    AlignUpFixed(need, c.pageSize);
  }

  lemma ScriptFits(c: Config, u: nat, top: nat, need: nat)
    requires SmallPages(c) && u + 1 <= c.SlotsPerPage()
    requires top == 4 * c.pageSize + MEMORY_CREATION_SIZE && need == MEMORY_CREATION_SIZE + c.pageSize
    ensures ScriptEnd(u, top, need) <= SIZE_MAX && top > 0 && top % c.pageSize == 0
  {
    ScriptEndIs(u, top, need);
    SlotsPerPageSmall(c);
    LessTimes(u + 1, MEMORY_CREATION_SIZE, need);
    InitSizeIs(c);
    DivModUnique(4 * c.pageSize, c.pageSize, 4, 0);
    MultipleSum(4 * c.pageSize, MEMORY_CREATION_SIZE, c.pageSize);
  }

  lemma LessTimes(a: nat, b: nat, m: nat)
    requires a <= b
    ensures a * m <= b * m
  {}

  /** The start leaves one free slot. */
  lemma BootStage(c: Config, t: Tls, rest: seq<nat>) returns (s: State)
    requires c.Valid() && Unlucky(c) && SmallPages(c) && c.SlotsPerPage() >= 9 && GoodRequest(c, t, FirstRequest(t))
    ensures Boot(c, t, Answers(c, rest)) == Done(s) && Steady(c, s) && TableClosed(s) && NoneLive(s.slots)
    ensures Tally(s, c.SlotsPerPage() - 3, 1, KB(2 * c.pageSize))
    ensures OneFree(s.slots, 2, MEMORY_CREATION_SIZE - 3 * c.pageSize)
    ensures s.pages.answers == rest && Below(s.pages, 4 * c.pageSize + MEMORY_CREATION_SIZE)
  {
    FirstAlignment(t);
    InitSizeIs(c);
    PageSizeAtLeast(c);
    DivModUnique(4 * c.pageSize, c.pageSize, 4, 0);
    var s0 := InitSteady(c, rest);
    s := StartStage(c, s0, t, ChosenAlignment(t, FirstRequest(t)), FirstRequest(t), 4 * c.pageSize, 2 * c.pageSize);
  }

  /** The counter wraps around in a run of the program: for every configuration with
      PROTECT_FREE < 0, without a limit, with at least eight pages in a megabyte and ten
      records in a page, some behaviour of mmap and some sequence of mallocs and a free
      after the start make it wrap, without any call being stopped. */
  lemma CounterWraps(c: Config, t: Tls) returns (answers: seq<nat>, ops: seq<Op>)
    requires c.Valid() && Unlucky(c) && SmallPages(c) && c.SlotsPerPage() >= 10
    requires GoodRequest(c, t, FirstRequest(t))
    ensures Boot(c, t, answers).Done? && UserOps(ops) && ModestOps(c, ops)
    ensures Run(c, Boot(c, t, answers).value, ops).Done?
    ensures
      var s := Run(c, Boot(c, t, answers).value, ops).value.0;
      && Between(c, s) && AllDead(c, s)
      && s.unUsedSlots == SIZE_MAX && Sum(s.slots, EmptyOne) == 1 && !Counted(s)
  {
    var u := c.SlotsPerPage() - 3;
    var s;
    answers, s, ops := RunOf(c, t, u);
    BootKeeps(c, t, answers);
    var s' :| EndsWrapped(c, s, ops, s');
    var ps :| RunsTo(c, s, ops, s', ps);
    RunRedZone(c, s, ops);
  }

  lemma RunOf(c: Config, t: Tls, u: nat) returns (answers: seq<nat>, s: State, ops: seq<Op>)
    requires c.Valid() && Unlucky(c) && SmallPages(c) && u >= 7 && u == c.SlotsPerPage() - 3
    requires GoodRequest(c, t, FirstRequest(t))
    ensures Boot(c, t, answers) == Done(s) && Wraps(c, s, ops) && UserOps(ops) && ModestOps(c, ops)
  {
    var P, M := c.pageSize, MEMORY_CREATION_SIZE;
    var top, need1, need2 := 4 * P + M, M - 3 * P, M + P;
    var rest := Refusals(true) + Script(u, top, need2);
    answers := Answers(c, rest);
    s := BootStage(c, t, rest);
    var r1 := SomeFill(c, t, need1);
    var r2 := SomeBig(c, t, need2);
    ScriptFits(c, u, top, need2);
    ops := RunWraps(c, s, t, r1, need1, 2, r2, need2, u, KB(2 * P), top);
  }

  lemma SomeFill(c: Config, t: Tls, need: nat) returns (r: Request)
    requires SmallPages(c) && need == MEMORY_CREATION_SIZE - 3 * c.pageSize
    ensures GoodRequest(c, t, r) && r.size > 0 && need == SlotBytes(c, ChosenAlignment(t, r), r.size)
    ensures TypeOf(r.allocator) == CFamily && KB(2 * c.pageSize) + KB(need) < KB(MEMORY_CREATION_SIZE)
  {
    r := FillRequest(c);
    FillNeed(c, t, r, need);
  }

  lemma SomeBig(c: Config, t: Tls, need: nat) returns (r: Request)
    requires SmallPages(c) && need == MEMORY_CREATION_SIZE + c.pageSize
    ensures Big(c, t, r, need) && r.failEnv
  {
    r := BigRequest();
    BigNeed(c, t, r, need);
  }

  // ---- the books ----

  lemma RunThree(c: Config, s: State, a: Op, b: Op, d: Op, s1: State, p: nat, s2: State, s3: State) returns (ops: seq<Op>)
    requires c.Valid() && Step(c, s, a) == Done((s1, p)) && Step(c, s1, b) == Done((s2, 0))
    requires Step(c, s2, d) == Done((s3, 0)) && Allowed(c, a) && Allowed(c, b) && Allowed(c, d)
    ensures Reaches(c, s, ops, s3) && UserOps(ops)
  {
    var third := [d] + [];
    var second := [b] + third;
    ops := [a] + second;
    assert RunsTo(c, s3, [], s3, []);
    ReachCons(c, s2, d, [], s3, 0, s3);
    ReachCons(c, s1, b, third, s2, 0, s3);
    ReachCons(c, s, a, second, s1, p, s3);
    assert ops == [a, b, d];
  }

  /** A run after which the books are wrong: nothing is protected any more, but they
      still say so. */
  lemma BooksLost(c: Config, t: Tls) returns (answers: seq<nat>, ops: seq<Op>)
    requires c.Valid() && Unlucky(c) && SmallPages(c) && c.SlotsPerPage() >= 10
    requires GoodRequest(c, t, FirstRequest(t))
    ensures Boot(c, t, answers).Done? && UserOps(ops)
    ensures Run(c, Boot(c, t, answers).value, ops).Done?
    ensures
      var s := Run(c, Boot(c, t, answers).value, ops).value.0;
      Between(c, s) && NoneProtected(s) && s.sumProtectedMem > 0 && !Exact(c, s)
  {
    var s, s';
    answers, s, ops, s' := LosingRun(c, t, c.SlotsPerPage() - 3);
    BooksOf(c, t, answers, ops, s, s');
  }

  lemma LosingRun(c: Config, t: Tls, u: nat) returns (answers: seq<nat>, s: State, ops: seq<Op>, s': State)
    requires c.Valid() && Unlucky(c) && SmallPages(c) && u >= 7 && u == c.SlotsPerPage() - 3
    requires GoodRequest(c, t, FirstRequest(t))
    ensures Boot(c, t, answers) == Done(s) && Reaches(c, s, ops, s') && UserOps(ops)
    ensures NoneProtected(s') && s'.lost > 0
  {
    var P, M := c.pageSize, MEMORY_CREATION_SIZE;
    var top, need1, need2, rest := 4 * P + M, M - 3 * P, M + P, Refusals(true) + [];
    answers := Answers(c, rest);
    s := BootStage(c, t, rest);
    var r1 := SomeFill(c, t, need1);
    var r2 := SomeBig(c, t, need2);
    var s1, p, s2;
    s1, p, s2, s' := ThreeSteps(c, s, t, r1, need1, 2, r2, need2, u, KB(2 * P), top, []);
    RequestAllowed(c, t, r1);
    RequestAllowed(c, t, r2);
    ops := RunThree(c, s, DoAllocate(t, r1), DoFree(p, EFA_FREE, UNKNOWN_SITE), DoAllocate(t, r2), s1, p, s2, s');
    HoldsMemory(c);
  }

  lemma HoldsMemory(c: Config)
    requires c.Valid()
    ensures KB(2 * c.pageSize) > 0
  {}

  lemma BooksOf(c: Config, t: Tls, answers: seq<nat>, ops: seq<Op>, s: State, s': State)
    requires c.Valid() && Boot(c, t, answers) == Done(s) && UserOps(ops)
    requires Reaches(c, s, ops, s') && NoneProtected(s') && s'.lost > 0
    ensures Run(c, s, ops).Done? && Run(c, s, ops).value.0 == s'
    ensures Between(c, s') && s'.sumProtectedMem > 0 && !Exact(c, s')
  {
    var ps :| RunsTo(c, s, ops, s', ps);
    BootKeeps(c, t, answers);
    RunKeeps(c, s, ops);
    RunAccounts(c, s, ops);
    SumBounds(s'.slots, |s'.slots|, ProtectedKB);
  }
}
