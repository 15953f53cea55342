/**
 The supply counter: a true count never wraps around, and what makes it too low.
 */
module Undercount {
  import opened Bits
  import opened Placement
  import opened Pages
  import opened Slots
  import opened Heap
  import opened Invariants
  import opened Reduction
  import opened Chunks
  import opened Placing
  import opened Allocation
  import opened Calls
  import opened Growth
  import opened Operations
  import opened Initialisation
  import opened NoFalseAlarm
  import opened Exhaustion

  // ---- a true count never wraps ----

  /** Two empty records are counted as two. */
  lemma CountsTwo(slots: seq<Slot>, i: nat, j: nat)
    requires i < j < |slots| && slots[i].state == EMPTY && slots[j].state == EMPTY
    ensures Sum(slots, EmptyOne) >= 2
  {
    var x := slots[i].(state := FREE);
    SumUpdate(slots, i, x, EmptyOne);
    var t := slots[i := x];
    SumBounds(t, |t|, EmptyOne);
    assert EmptyOne(t[j]) == 1;
  }

  /** A request that is served found every record it takes: it stops with an internal
      error rather than take one that is not there. */
  lemma EnoughRecords(c: Config, s: State, need: nat, A: pos, r: Request)
    requires c.Valid() && need > 0 && Core(c, s, need, A, r).Done? && Core(c, s, need, A, r).value.1 != 0
    ensures RecordsTaken(c, s.slots, need) <= Sum(s.slots, EmptyOne)
  {
    var full, e0 := BestFit(s.slots, need), FirstEmpty(s.slots, 0);
    SumBounds(s.slots, |s.slots|, EmptyOne);
    if full.Some? {
      if e0.Some? { assert EmptyOne(s.slots[e0.value]) == 1; }
    } else {
      CountsTwo(s.slots, e0.value, FirstEmpty(s.slots, e0.value + 1).value);
    }
  }

  /** So a counter that is the true number of empty records never wraps around,
      whether or not the table could be grown before. */
  lemma TrueCountStays(c: Config, s: State, need: nat, A: pos, r: Request)
    requires Struct(c, s) && s.unUsedSlots == Sum(s.slots, EmptyOne) && TypeOf(r.allocator) != Internal
    requires WellPosed(c, A, r) && need == SlotBytes(c, A, r.size) && Core(c, s, need, A, r).Done?
    requires Core(c, s, need, A, r).value.1 != 0
    ensures Counted(Core(c, s, need, A, r).value.0)
  {
    EnoughRecords(c, s, need, A, r);
    SupplyCounterExact(c, s, need, A, r);
  }

  // ---- what makes the count too low ----

  /** Initialisation counts the records as used up that it would use for a chunk with a
      free rest; if the page is the whole chunk, one of them is still empty. */
  lemma StartCount(c: Config, answers: seq<nat>)
    requires c.Valid() && Init(c, answers).Done?
    ensures
      var s := Init(c, answers).value;
      Sum(s.slots, EmptyOne) == s.unUsedSlots + (if c.pageSize < MEMORY_CREATION_SIZE then 0 else 1)
  {
    var s, zero, a := InitPages(c, answers);
    InitSums(c, a);
    InitSizeMeans(c);
    AlignUpMeans(if MEMORY_CREATION_SIZE < c.pageSize then c.pageSize else MEMORY_CREATION_SIZE, c.pageSize);
    if c.pageSize >= MEMORY_CREATION_SIZE {
      DivModUnique(c.pageSize, c.pageSize, 1, 0);
      AlignUpFixed(c.pageSize, c.pageSize);
    }
  }

  lemma {:induction false} Phase1Empty(c: Config, s: State, i: nat, done: nat, k: nat)
    requires c.Valid()
    ensures var s' := Phase1(c, s, i, done, k).0;
            s'.unUsedSlots == s.unUsedSlots && Sum(s'.slots, EmptyOne) == Sum(s.slots, EmptyOne)
    decreases |s.slots| - i
  {
    if i >= |s.slots| || done >= k {
    } else if s.slots[i].state == ALL_PROTECTED {
      SumUpdate(s.slots, i, Trimmed(c, s.slots[i]), EmptyOne);
      Phase1Empty(c, TrimSlot(c, s, i), i + 1, done + KB(s.slots[i].internalSize - KeptSize(c, s.slots[i])), k);
    } else {
      Phase1Empty(c, s, i + 1, done, k);
    }
  }

  /** Phase 2 empties at least one record if it starts and there is one to empty. */
  lemma {:induction false} Phase2Empty(c: Config, s: State, i: nat, done: nat, k: nat)
    requires c.Valid()
    ensures
      var s' := Phase2(c, s, i, done, k).0;
      && s'.unUsedSlots == s.unUsedSlots && Sum(s'.slots, EmptyOne) >= Sum(s.slots, EmptyOne)
      && (Sum(s'.slots, EmptyOne) > Sum(s.slots, EmptyOne) <==>
            done < k && exists j :: i <= j < |s.slots| && s.slots[j].state == BEGIN_PROTECTED)
    decreases |s.slots| - i
  {
    if i >= |s.slots| || done >= k {
    } else if s.slots[i].state == BEGIN_PROTECTED {
      SumUpdate(s.slots, i, Emptied(s.slots[i]), EmptyOne);
      Phase2Empty(c, DropSlot(c, s, i), i + 1, done + KB(s.slots[i].internalSize), k);
    } else {
      Phase2Empty(c, s, i + 1, done, k);
    }
  }

  /** A reduction never counts the records it empties, and it empties some exactly if
      trimming alone does not release enough and something is protected. */
  lemma ReduceUncounted(c: Config, s: State, k: nat)
    requires c.Valid() && k > 0
    ensures
      var s' := Reduce(c, s, k).0;
      && s'.unUsedSlots == s.unUsedSlots && Sum(s'.slots, EmptyOne) >= Sum(s.slots, EmptyOne)
      && (Sum(s'.slots, EmptyOne) > Sum(s.slots, EmptyOne) <==>
            Phase1(c, s, 0, 0, k).1 < k && exists i :: 0 <= i < |s.slots| && IsProtected(s.slots[i]))
  {
    Phase1Empty(c, s, 0, 0, k);
    Phase1States(c, s, 0, 0, k);
    var (s1, done1) := Phase1(c, s, 0, 0, k);
    Phase2Empty(c, s1, 0, done1, k);
    if done1 < k {
      forall i | 0 <= i < |s.slots| ensures IsProtected(s.slots[i]) <==> s1.slots[i].state == BEGIN_PROTECTED {
        assert s1.slots[i] == s.slots[i] || s1.slots[i] == Trimmed(c, s.slots[i]);
      }
    }
  }

  // ---- a wrap ----

  predicate NoneProtected(s: State) {
    forall i :: 0 <= i < |s.slots| ==> !IsProtected(s.slots[i])
  }

  predicate SameRecords(s: State, s': State) {
    s'.slots == s.slots && s'.unUsedSlots == s.unUsedSlots
  }

  /** Without memory and with nothing to reduce, a request that no free slot can serve
      leaves the records alone. */
  lemma CoreFails(c: Config, s: State, need: nat, A: pos, r: Request)
    requires Sound(c, s) && Dry(c, s.pages) && NoneProtected(s) && BestFit(s.slots, need).None?
    requires WellPosed(c, A, r) && need == SlotBytes(c, A, r.size) && Core(c, s, need, A, r).Done?
    ensures
      var (s', user) := Core(c, s, need, A, r).value;
      user == 0 && Sound(c, s') && SameRecords(s, s') && Dry(c, s'.pages)
  {
    var chunk := ChunkSize(c, need);
    ChunkPositive(c, need);
    NumChunksIsOne(c, A, r, chunk);
    assert TotalSize(chunk, 1) == chunk;
    ObtainDry(c, s, chunk, chunk, r.failEnv);
    ObtainKeeps(c, s, chunk, chunk, r.failEnv);
    var s1 := Obtain(c, s, chunk, chunk, r.failEnv).value.0;
    forall i | 0 <= i < |s.slots| ensures s1.slots[i] == s.slots[i] {
      assert Kept(true, s, s1, i);
    }
  }

  /** No free slot can hold a table of newSize bytes. */
  predicate NoRoom(c: Config, s: State, newSize: nat)
    requires c.Valid()
  {
    newSize % c.pageSize == 0 && newSize > 0 && BestFit(s.slots, SlotBytes(c, 1, newSize)).None?
  }

  lemma PathFails(c: Config, s: State, newSize: nat, s0: State, s1: State, a: nat, g: State)
    requires c.Valid() && GrowPath(c, s, newSize, s0, s1, a, g) && Sound(c, s)
    requires Dry(c, s.pages) && NoneProtected(s) && NoRoom(c, s, newSize)
    ensures Sound(c, g) && SameRecords(s, g) && Dry(c, g.pages)
  {
    CounterSound(c, s, s0.checkFreqCounter);
    InternalSizePositive(c.pageSize, 1, newSize);
    CoreFails(c, s0, InternalSize(c.pageSize, 1, newSize), 1, GrowRequest(newSize));
  }

  ghost predicate NoGrowth(c: Config, s: State)
    requires c.Valid()
  {
    forall newSize: nat :: newSize == s.allocListSize + c.pageSize ==> NoRoom(c, s, newSize)
  }

  lemma GrownNothing(c: Config, s: State, g: State)
    requires c.Valid() && Sound(c, s) && Grows(c, s, g) && Dry(c, s.pages) && NoneProtected(s) && NoGrowth(c, s)
    ensures Sound(c, g) && SameRecords(s, g) && Dry(c, g.pages)
  {
    var n, s0, s1, a :| GrowPath(c, s, n, s0, s1, a, g);
    PathFails(c, s, n, s0, s1, a, g);
  }

  /** ... and so does a growth. */
  lemma GrowFails(c: Config, s: State)
    requires c.Valid() && Struct(c, s) && Quiet(c, s) && TableOpen(s) && Dry(c, s.pages) && NoneProtected(s)
    requires Sum(s.slots, EmptyOne) >= 2 && NoGrowth(c, s)
    ensures Grow(c, s).Done?
    ensures
      var g := Grow(c, s).value;
      Struct(c, g) && SameRecords(s, g) && Dry(c, g.pages)
  {
    GrowQuiet(c, s);
    GrowGrows(c, s, Grow(c, s).value);
    GrownNothing(c, s, Grow(c, s).value);
    GrowKeeps(c, s, Grow(c, s).value, Mode(true, false));
  }

  /** mmap gives nothing, nothing can be reduced, and no free slot can hold a larger
      table; two records are empty. */
  ghost predicate Scarce(c: Config, s: State) {
    && c.Valid() && Struct(c, s) && Quiet(c, s) && Counted(s) && Sum(s.slots, EmptyOne) >= 2
    && Dry(c, s.pages) && NoneProtected(s) && NoGrowth(c, s)
  }

  lemma ScarcePrepared(c: Config, s: State, r: Request)
    requires c.Valid() && Scarce(c, s)
    ensures Prepared(c, s, r).Done?
    ensures
      var s' := Prepared(c, s, r).value;
      Struct(c, s') && SameRecords(s, s') && Dry(c, s'.pages)
  {
    var m := Mode(true, false);
    OpenKeeps(c, s, m);
    var s1 := OpenTable(c, s).value;
    CallQuiet(c, s, s1, m, -1, -1);
    CheckFreqQuiet(c, s1);
    var s2 := CheckFreq(c, s1).value;
    CounterKeeps(c, s1, s2.checkFreqCounter, m);
    ScarceSame(c, s, s2);
    if NeedsGrowth(s2, r) { GrowFails(c, s2); }
  }

  lemma ScarceSame(c: Config, s: State, s': State)
    requires c.Valid() && Scarce(c, s)
    requires s'.slots == s.slots && s'.allocListSize == s.allocListSize && s'.pages.answers == s.pages.answers
    ensures Dry(c, s'.pages) && NoneProtected(s') && NoGrowth(c, s')
  {
    forall newSize: nat | newSize == s'.allocListSize + c.pageSize ensures NoRoom(c, s', newSize) {
      assert NoRoom(c, s, newSize);
    }
  }

  /** In such a state a request that a free slot can serve is served, and afterwards the
      counter is a lower bound exactly if it covered the record that the surplus of the
      free slot takes; otherwise it has wrapped around. */
  lemma ScarceCount(c: Config, s: State, t: Tls, r: Request)
    requires c.Valid() && Scarce(c, s) && GoodRequest(c, t, r) && r.size > 0
    requires BestFit(s.slots, SlotBytes(c, ChosenAlignment(t, r), r.size)).Some?
    ensures Allocate(c, s, t, r, true).Done? && Allocate(c, s, t, r, true).value.1 != 0
    ensures
      var s', need := Allocate(c, s, t, r, true).value.0, SlotBytes(c, ChosenAlignment(t, r), r.size);
      && (Counted(s') <==> RecordsTaken(c, s.slots, need) <= s.unUsedSlots)
      && (!Counted(s') ==> s'.unUsedSlots >= SIZE_MAX - 1)
  {
    var A := ChosenAlignment(t, r);
    PassesTest(t, r);
    ScarcePrepared(c, s, r);
    var s1 := Prepared(c, s, r).value;
    CoreVerdict(c, s1, SlotBytes(c, A, r.size), A, r);
    SupplyCounterExact(c, s1, SlotBytes(c, A, r.size), A, r);
    PreparedCore(c, s, s1, A, r);
  }
}
