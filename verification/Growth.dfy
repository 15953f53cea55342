/**
 allocateMoreSlots: the table is moved and freed by the allocator it serves.
 */
module Growth {
  import opened Bits
  import opened Placement
  import opened Wrappers
  import opened Pages
  import opened Slots
  import opened Tiling
  import opened Heap
  import opened Invariants
  import opened Reduction
  import opened Placing
  import opened Allocation
  import opened Deallocation
  import opened Calls

  lemma GrowWellPosed(c: Config, s: State, newSize: nat)
    requires c.Valid() && s.allocListSize % c.pageSize == 0 && newSize == s.allocListSize + c.pageSize
    ensures newSize % c.pageSize == 0 && WellPosed(c, 1, GrowRequest(newSize)) && Modest(c, 1, GrowRequest(newSize))
    ensures SlotBytes(c, 1, newSize) == InternalSize(c.pageSize, 1, newSize)
  {
    DivModUnique(c.pageSize, c.pageSize, 1, 0);
    MultipleSum(s.allocListSize, c.pageSize, c.pageSize);
  }

  /** Two tables: t is the old one, still in charge; k is the new one's block. */
  ghost predicate TwoTables(c: Config, s: State, t: nat, k: nat, newSize: nat) {
    && Sound(c, s) && t != k && k < |s.slots| && IsTableSlot(s, t)
    && (forall i :: 0 <= i < |s.slots| && IsTable(s.slots[i]) ==> i == t || i == k)
    && IsTable(s.slots[k]) && s.slots[k].userSize == newSize
    && s.slots[k].internalAddress == s.slots[k].userAddress != 0
    && (forall b: nat :: s.slots[k].userAddress <= b < s.slots[k].userAddress + newSize ==> b in s.pages.open)
  }

  /** The block for the new table is there. */
  lemma GrowBlock(c: Config, s: State, s': State, t: nat, k: nat, newSize: nat, m: Mode)
    requires Struct(c, s) && IsTableSlot(s, t)
    requires newSize > 0 && newSize % c.pageSize == 0
    requires Moved(c, s, s', k, m) && NewBlock(c, s', k, 1, GrowRequest(newSize))
    requires k < |s.slots| && s.slots[k].state != IN_USE && s'.slots[k].userAddress != 0
    ensures TwoTables(c, s', t, k, newSize)
  {
    assert Kept(m.strict, s, s', t);
    forall i | 0 <= i < |s'.slots| && IsTable(s'.slots[i]) ensures i == t || i == k {
      if i != k {
        assert NoOther(s.slots[i], s'.slots[i]) && IsTableSlot(s, i);
        UserAddressesDiffer(c, s, i, t);
      }
    }
    var x := s'.slots[k];
    forall b: nat | x.userAddress <= b < x.userAddress + newSize ensures b in s'.pages.open {
      assert Covers(x, b);
    }
  }

  // ---- the appended records ----

  /** Zero bytes are empty records, wherever the records begin. */
  lemma {:induction false} ZeroBytesEmpty(mem: map<nat, Byte>, at: nat, n: nat, size: nat)
    requires AllZero(mem, at, at + n * size)
    ensures RecordsAt(mem, at, n, size) == ZeroSlots(n)
    decreases n
  {
    if n == 0 {
      assert ZeroSlots(0) == [];
    } else {
      assert n * size == size + (n - 1) * size && (n - 1) * size >= 0;
      ZeroBytesEmpty(mem, at + size, n - 1, size);
      assert RecordAt(mem, at, size) == ZERO_SLOT;
      assert ZeroSlots(n) == [ZERO_SLOT] + ZeroSlots(n - 1);
    }
  }

  /** What switching to the block at [a, a + newSize) does: empty records are appended,
      only bytes of the new table are written, and its tail is 0 again. */
  ghost predicate TableMoved(c: Config, s: State, sw: State, a: nat, newSize: nat)
    requires c.Valid()
  {
    && sw == s.(slots := s.slots + ZeroSlots(c.SlotsPerPage()), allocList := a, allocListSize := newSize,
                unUsedSlots := Give(s.unUsedSlots, c.SlotsPerPage()), pages := s.pages.(mem := sw.pages.mem))
    && sw.pages.mem.Keys == s.pages.mem.Keys
    && (forall b: nat :: b in s.pages.mem && !(a <= b < a + newSize) ==> sw.pages.mem[b] == s.pages.mem[b])
    && ZeroTail(c, sw)
  }

  /** The records that switching appends are empty because their bytes are 0: the first
      of them may begin in the tail of the old table's bytes, which nothing has ever
      written, and the others lie in the new page. */
  lemma SwitchMeans(c: Config, s: State, a: nat, newSize: nat, sw: State)
    requires c.Valid() && SwitchTable(c, s, a, newSize) == Done(sw) && newSize == s.allocListSize + c.pageSize
    requires ZeroTail(c, s) && |s.slots| * c.slotSize <= s.allocListSize
    ensures TableMoved(c, s, sw, a, newSize)
  {
    var mem := SwitchWrites(c, s, a, newSize, sw);
    SwitchedRecords(c, s, mem, a, newSize);
  }

  lemma SwitchWrites(c: Config, s: State, a: nat, newSize: nat, sw: State) returns (mem: map<nat, Byte>)
    requires c.Valid() && SwitchTable(c, s, a, newSize) == Done(sw) && newSize == s.allocListSize + c.pageSize
    requires ZeroTail(c, s) && |s.slots| * c.slotSize <= s.allocListSize
    ensures sw == Switched(c, s, mem, a, newSize)
    ensures mem.Keys == s.pages.mem.Keys && AllZero(mem, a + |s.slots| * c.slotSize, a + newSize)
    ensures forall b: nat :: b in s.pages.mem && !(a <= b < a + newSize) ==> mem[b] == s.pages.mem[b]
  {
    mem := sw.pages.mem;
    SwitchedBytes(s.pages.mem, a, s.allocList, s.allocListSize, c.pageSize, |s.slots| * c.slotSize);
  }

  lemma SwitchedRecords(c: Config, s: State, mem: map<nat, Byte>, a: nat, newSize: nat)
    requires c.Valid() && newSize == s.allocListSize + c.pageSize && |s.slots| * c.slotSize <= s.allocListSize
    requires AllZero(mem, a + |s.slots| * c.slotSize, a + newSize)
    ensures Switched(c, s, mem, a, newSize).slots == s.slots + ZeroSlots(c.SlotsPerPage())
    ensures ZeroTail(c, Switched(c, s, mem, a, newSize))
  {
    TwoSlots(c);
    var used, n := |s.slots| * c.slotSize, c.SlotsPerPage();
    assert AllZero(mem, a + used, a + used + n * c.slotSize);
    ZeroBytesEmpty(mem, a + used, n, c.slotSize);
    MoreRecords(|s.slots|, n, c.slotSize);
    LessZero(mem, a + used, n * c.slotSize, a + newSize);
  }

  lemma LessZero(mem: map<nat, Byte>, lo: nat, skip: nat, hi: nat)
    requires AllZero(mem, lo, hi)
    ensures AllZero(mem, lo + skip, hi)
  {}

  lemma MoreRecords(n: nat, more: nat, size: nat)
    ensures (n + more) * size == n * size + more * size
  {}

  /** The bytes of the new table: copied, then zeros. */
  lemma SwitchedBytes(mem: map<nat, Byte>, a: nat, prev: nat, size: nat, P: nat, used: nat)
    requires used <= size && AllZero(mem, prev + used, prev + size)
    requires forall b: nat :: prev <= b < prev + size || a <= b < a + size + P ==> b in mem
    ensures
      var m := FillRange(CopyRange(mem, a, prev, size), a + size, a + size + P, 0);
      && AllZero(m, a + used, a + size + P)
      && forall b: nat :: b in mem && !(a <= b < a + size + P) ==> m[b] == mem[b]
  {
    var m := FillRange(CopyRange(mem, a, prev, size), a + size, a + size + P, 0);
    forall b: nat | a + used <= b < a + size + P ensures b in m && m[b] == 0 {
      assert b in mem;
      if b < a + size { assert prev + (b - a) in mem; }
    }
  }

  /** Appending empty records, and writing into the new table. */
  lemma AppendKeeps(c: Config, s: State, s': State, k: nat, newSize: nat, m: Mode)
    requires Sound(c, s) && k < |s.slots| && IsTable(s.slots[k]) && s.slots[k].userSize == newSize
    requires TableMoved(c, s, s', s.slots[k].userAddress, newSize)
    ensures Sound(c, s') && CallOk(c, s, s', m, -1, -1)
  {
    var n := c.SlotsPerPage();
    Extend(s.slots, Arena(c, s, 0, 0), ZeroSlots(n));
    AppendSums(s.slots, n);
    assert Arena(c, s', 0, 0) == Arena(c, s, 0, 0);
    AppendDead(c, s, s', n);
    forall i | 0 <= i < |s.slots| && Owned(m, s.slots[i]) ensures Kept(m.strict, s, s', i) {
      OutsideTable(c, s, k, i);
    }
  }

  lemma OutsideTable(c: Config, s: State, k: nat, i: nat)
    requires Sound(c, s) && k < |s.slots| && IsTable(s.slots[k]) && i < |s.slots| && i != k
    ensures forall b: nat :: Covers(s.slots[i], b) ==>
              b in s.pages.mem && !(s.slots[k].userAddress <= b < s.slots[k].userAddress + s.slots[k].userSize)
  {
    SlotMapped(c, s, i);
    assert SlotOk(c, s.slots[k]);
    forall b: nat | Covers(s.slots[i], b)
      ensures !(s.slots[k].userAddress <= b < s.slots[k].userAddress + s.slots[k].userSize)
    {
      if Covers(s.slots[k], b) { CoverUnique(s.slots, i, k, b); }
    }
  }

  lemma AppendDead(c: Config, s: State, s': State, n: nat)
    requires s'.slots == s.slots + ZeroSlots(n) && s'.pages.open == s.pages.open && s'.nullBlock == s.nullBlock
    ensures AllDead(c, s) ==> AllDead(c, s')
  {
    if AllDead(c, s) {
      forall i, b: nat | 0 <= i < |s'.slots| && MustBeDead(s'.slots[i], b) ensures b !in s'.pages.open {
        assert i < |s.slots|;
        assert MustBeDead(s.slots[i], b);
      }
    }
  }

  lemma AppendSums(slots: seq<Slot>, n: nat)
    ensures Sum(slots + ZeroSlots(n), EmptyOne) == Sum(slots, EmptyOne) + n
    ensures Sum(slots + ZeroSlots(n), ProtectedKB) == Sum(slots, ProtectedKB)
    ensures Sum(slots + ZeroSlots(n), HeldKB) == Sum(slots, HeldKB)
  {
    var z := ZeroSlots(n);
    SumAppend(slots, z, n, EmptyOne);
    SumAppend(slots, z, n, ProtectedKB);
    SumAppend(slots, z, n, HeldKB);
    SumConstant(z, n, EmptyOne, 1);
    SumConstant(z, n, ProtectedKB, 0);
    SumConstant(z, n, HeldKB, 0);
  }

  /** The table has no no man's land, so the internal free always finds it intact. */
  lemma TableHasNoSlack(c: Config, p: Pages, sl: Slot)
    requires c.pageSize > 0 && SlotOk(c, sl) && IsTable(sl)
    ensures CheckSlack(c, p, sl).None?
  {}

  /** A byte of a slot is not null_addr. */
  lemma NotNullAddr(c: Config, s: State, i: nat)
    requires Sound(c, s) && i < |s.slots| && s.slots[i].userAddress != 0
    ensures s.slots[i].userAddress != NullAddr(c, s)
  {
    UserInside(c, s.slots[i]);
    SlotMapped(c, s, i);
    assert InNull(c, s, NullAddr(c, s));
  }

  lemma ReleaseCall(c: Config, s: State, s': State, i: nat, m: Mode)
    requires ReleaseOk(c, s, s', i, m)
    ensures CallOk(c, s, s', m, i, -1)
  {
    forall j | 0 <= j < |s.slots| && j != i ensures SameUser(s.slots[j], s'.slots[j]) {
      assert NoOther(s.slots[j], s'.slots[j]);
    }
  }

  /** Releasing an internal slot gives its memory back. */
  lemma TableReleased(c: Config, s: State, s': State, t: nat, m: Mode)
    requires ReleaseOk(c, s, s', t, m) && IsTable(s.slots[t])
    ensures s'.slots[t].state == EMPTY
  {
    if s'.slots[t].state == ALL_PROTECTED { assert SlotOk(c, s'.slots[t]); }
  }

  /** After the switch and the release of the old table: one table again. */
  lemma NewTableRules(c: Config, s: State, s': State, t: nat, k: nat, newSize: nat)
    requires TwoTables(c, s, t, k, newSize) && c.Valid() && newSize > 0 && newSize % c.pageSize == 0
    requires |s.slots| <= |s'.slots| && s'.allocList == s.slots[k].userAddress && s'.allocListSize == newSize
    requires Sound(c, s') && s'.slots[k] == s.slots[k] && s'.slots[t].state == EMPTY
    requires forall b: nat :: Covers(s.slots[k], b) && b in s.pages.open ==> b in s'.pages.open
    requires forall i :: 0 <= i < |s.slots| && i != t ==> s'.slots[i].state == IN_USE ==> s'.slots[i] == s.slots[i]
    requires forall i :: |s.slots| <= i < |s'.slots| ==> s'.slots[i].state != IN_USE
    ensures HasTable(c, s') && IsTableSlot(s', k) && TableOpen(s')
    ensures forall i :: 0 <= i < |s'.slots| && IsTable(s'.slots[i]) ==> i == k
  {
    assert IsTableSlot(s', k);
    assert SlotOk(c, s.slots[k]);
    forall b: nat | s'.allocList <= b < s'.allocList + s'.allocListSize ensures b in s'.pages.open {
      assert Covers(s.slots[k], b);
    }
  }

  // ---- the first half: a block for the new table ----

  /** After the internal allocation: nothing came (a == 0), or slot k is the block. */
  ghost predicate HalfGrown(c: Config, s: State, s1: State, a: nat, t: nat, k: nat, taken: nat, m: Mode) {
    && c.Valid()
    && CallOk(c, s, s1, m, -1, -1)
    && CountsKept(c, s, s1, taken) && taken <= 2 && Accounts(c, s1)
    && s1.allocList == s.allocList && s1.allocListSize == s.allocListSize && |s1.slots| == |s.slots|
    && IsTableSlot(s, t) && s1.slots[t] == s.slots[t]
    && (if a == 0 then Struct(c, s1) && taken == 0 && s.pages.failed < s1.pages.failed
                       && (TableOpen(s) ==> TableOpen(s1))
        else TwoTables(c, s1, t, k, s.allocListSize + c.pageSize) && a == s1.slots[k].userAddress
             && (s.slots[k].state == FREE || s.slots[k].state == EMPTY)
             && Supply(c, s1) && (TableOpen(s) ==> TableOpen(s1)))
  }

  lemma HalfNothing(c: Config, s: State, s1: State, t: nat, k: nat, m: Mode)
    requires Struct(c, s) && IsTableSlot(s, t)
    requires Moved(c, s, s1, -1, m) && CountsKept(c, s, s1, 0) && s.pages.failed < s1.pages.failed
    ensures HalfGrown(c, s, s1, 0, t, k, 0, m)
  {
    CountsAccounts(c, s, s1, 0);
    assert Kept(m.strict, s, s1, t);
    MovedTable(c, s, s1, -1, m);
    MovedCall(c, s, s1, -1, m);
  }

  lemma HalfBlock(c: Config, s: State, s1: State, a: nat, t: nat, k: nat, taken: nat, m: Mode)
    requires Struct(c, s) && IsTableSlot(s, t) && taken <= 2
    requires CarveOk(c, s, s1, a, k, 1, GrowRequest(s.allocListSize + c.pageSize), m, taken)
    ensures HalfGrown(c, s, s1, a, t, k, taken, m)
  {
    CountsAccounts(c, s, s1, taken);
    GrowWellPosed(c, s, s.allocListSize + c.pageSize);
    assert Kept(m.strict, s, s1, t);
    GrowBlock(c, s, s1, t, k, s.allocListSize + c.pageSize, m);
    MovedCallTable(c, s, s1, k, m);
    TailStays(c, s, s1, t, m);
    if TableOpen(s) { TableStaysOpen(c, s, s1, t, m); }
  }

  /** The new block is internal, so no user slot appears. */
  lemma MovedCallTable(c: Config, s: State, s1: State, k: nat, m: Mode)
    requires Moved(c, s, s1, k, m) && k < |s.slots| && IsTable(s1.slots[k]) && s.lost <= s1.lost
    requires Unlimited(c, s, s1) && Drift(s) == 0 ==> Drift(s1) == 0
    ensures CallOk(c, s, s1, m, -1, -1)
  {
    MovedCall(c, s, s1, k, m);
  }

  lemma TableIndex(c: Config, s: State) returns (t: nat)
    requires Struct(c, s)
    ensures IsTableSlot(s, t)
  {
    t :| IsTableSlot(s, t);
  }

  /** From what the core did to what the first half did. */
  lemma GrowAllocates(c: Config, s: State, s0: State, s1: State, a: nat, k: nat, taken: nat, m: Mode)
    returns (t: nat)
    requires Struct(c, s) && s0 == s.(checkFreqCounter := s0.checkFreqCounter) && taken <= 2
    requires CoreOk(c, s0, s1, a, k, 1, GrowRequest(s.allocListSize + c.pageSize), m, taken)
    ensures HalfGrown(c, s, s1, a, t, k, taken, m)
  {
    CounterKeeps(c, s, s0.checkFreqCounter, m);
    t := TableIndex(c, s0);
    if a == 0 {
      HalfNothing(c, s0, s1, t, k, m);
    } else {
      HalfBlock(c, s0, s1, a, t, k, taken, m);
    }
    HalfFromCounter(c, s, s0, s1, a, t, k, taken, m);
  }

  lemma HalfFromCounter(c: Config, s: State, s0: State, s1: State, a: nat, t: nat, k: nat, taken: nat, m: Mode)
    requires HalfGrown(c, s0, s1, a, t, k, taken, m) && s0 == s.(checkFreqCounter := s0.checkFreqCounter)
    ensures HalfGrown(c, s, s1, a, t, k, taken, m)
  {
    assert CallOk(c, s, s1, m, -1, -1) by {
      forall i | 0 <= i < |s.slots| && Owned(m, s.slots[i]) ensures Kept(m.strict, s, s1, i) {
        assert Kept(m.strict, s0, s1, i);
      }
    }
  }

  // ---- the second half: switch and release the old table ----

  lemma FindsOldTable(c: Config, s: State, t: nat)
    requires Sound(c, s) && t < |s.slots| && IsTable(s.slots[t])
    ensures FreeTarget(s, s.slots[t].userAddress, EFA_INT_DEALLOC) == Done(t)
    ensures s.slots[t].userAddress != 0 && s.slots[t].userAddress != NullAddr(c, s)
  {
    assert SlotOk(c, s.slots[t]);
    LookupFinds(c, s, t);
    NotNullAddr(c, s, t);
  }

  lemma OldTableFreed(c: Config, s: State, t: nat, m: Mode)
    requires Sound(c, s) && t < |s.slots| && IsTable(s.slots[t])
    requires m.prot ==> c.protectFree <= 0
    requires CheckFreq(c, s).Done?
    ensures
      var o := DeallocateAny(c, s, s.slots[t].userAddress, EFA_INT_DEALLOC, GROW_SITE);
      var s1 := CheckFreq(c, s).value;
      && s1 == s.(checkFreqCounter := s1.checkFreqCounter)
      && o.Done? && ReleaseOk(c, s1, o.value, t, m) && o.value.slots[t].state == EMPTY
      && Sound(c, s1)
  {
    FindsOldTable(c, s, t);
    var s1 := CheckFreq(c, s).value;
    assert Sound(c, s1) by { assert Arena(c, s1, 0, 0) == Arena(c, s, 0, 0); }
    FindsOldTable(c, s1, t);
    TableHasNoSlack(c, s1.pages, s1.slots[t]);
    ReleaseKeeps(c, s1, t, GROW_SITE, m);
    TableReleased(c, s1, Release(c, s1, t, GROW_SITE).value, t, m);
  }

  /** What growth does when it gets its memory. */
  ghost predicate Grown(c: Config, s: State, s': State, t: nat, k: nat, taken: nat) {
    && c.Valid() && taken <= 2
    && |s'.slots| == |s.slots| + c.SlotsPerPage()
    && s'.allocListSize == s.allocListSize + c.pageSize
    && (forall i :: |s.slots| <= i < |s'.slots| ==> s'.slots[i] == ZERO_SLOT)
    && t < |s.slots| && IsTableSlot(s, t) && s'.slots[t].state == EMPTY
    && (forall b: nat :: Covers(s.slots[t], b) ==> b !in s'.pages.mem)
    && IsTableSlot(s', k) && (forall i :: 0 <= i < |s'.slots| && IsTable(s'.slots[i]) ==> i == k)
    && TableOpen(s')
    && s'.unUsedSlots == Give(Give(Take(s.unUsedSlots, taken), c.SlotsPerPage()), 1)
    && Sum(s'.slots, EmptyOne) >= Sum(s.slots, EmptyOne) - taken + c.SlotsPerPage() + 1
  }

  lemma SwitchKeeps(c: Config, s: State, newSize: nat, s1: State, a: nat, t: nat, k: nat, taken: nat, sw: State, m: Mode)
    requires c.Valid() && newSize == s.allocListSize + c.pageSize
    requires HalfGrown(c, s, s1, a, t, k, taken, m) && a != 0
    requires SwitchTable(c, s1, a, newSize) == Done(sw)
    ensures Sound(c, sw) && CallOk(c, s, sw, m, -1, -1) && Accounts(c, sw)
    ensures TwoTables(c, s1, t, k, newSize)
    ensures TableMoved(c, s1, sw, a, newSize)
    ensures Sum(sw.slots, EmptyOne) >= Sum(s.slots, EmptyOne) - taken + c.SlotsPerPage()
    ensures sw.unUsedSlots == Give(Take(s.unUsedSlots, taken), c.SlotsPerPage())
  {
    SwitchMeans(c, s1, a, newSize, sw);
    AppendKeeps(c, s1, sw, k, newSize, m);
    AppendSums(s1.slots, c.SlotsPerPage());
    CallTrans(c, s, s1, sw, m, -1, -1, -1, -1);
  }

  lemma RecordsFit(c: Config, n: nat, size: nat)
    requires c.Valid() && n * c.slotSize <= size
    ensures (n + c.SlotsPerPage()) * c.slotSize <= size + c.pageSize
  {
    TwoSlots(c);
    assert (n + c.SlotsPerPage()) * c.slotSize == n * c.slotSize + c.SlotsPerPage() * c.slotSize;
  }

  /** s2 is the switched state with its counter advanced, s' the end of the call. */
  ghost predicate Replaced(c: Config, s1: State, s2: State, s': State, t: nat, k: nat, newSize: nat, m: Mode) {
    && c.Valid() && newSize > 0 && newSize % c.pageSize == 0
    && TwoTables(c, s1, t, k, newSize)
    && s2.slots == s1.slots + ZeroSlots(c.SlotsPerPage()) && s2.pages.open == s1.pages.open
    && s2.allocList == s1.slots[k].userAddress && s2.allocListSize == newSize
    && ReleaseOk(c, s2, s', t, m) && s'.slots[t].state == EMPTY && ZeroTail(c, s2)
  }

  lemma GrowTable(c: Config, s1: State, s2: State, s': State, t: nat, k: nat, newSize: nat, m: Mode)
    requires Replaced(c, s1, s2, s', t, k, newSize, m)
    ensures HasTable(c, s') && IsTableSlot(s', k) && TableOpen(s') && ZeroTail(c, s')
    ensures forall i :: 0 <= i < |s'.slots| && IsTable(s'.slots[i]) ==> i == k
  {
    assert Kept(m.strict, s2, s', k);
    forall i | 0 <= i < |s'.slots| && i != t && s'.slots[i].state == IN_USE
      ensures i < |s1.slots| && s'.slots[i] == s1.slots[i]
    {
      assert NoOther(s2.slots[i], s'.slots[i]);
    }
    NewTableRules(c, s1, s', t, k, newSize);
    assert SlotOk(c, s1.slots[k]) && s2.slots[k] == s1.slots[k];
    NewTail(c, s2, s', k, m);
  }

  lemma NewTail(c: Config, s: State, s': State, k: nat, m: Mode)
    requires c.Valid() && IsTableSlot(s, k) && SlotOk(c, s.slots[k]) && Kept(m.strict, s, s', k)
    requires s'.allocList == s.allocList && s'.allocListSize == s.allocListSize && |s'.slots| == |s.slots|
    requires ZeroTail(c, s)
    ensures ZeroTail(c, s')
  {
    forall b: nat | s'.allocList + |s'.slots| * c.slotSize <= b < s'.allocList + s'.allocListSize
      ensures b in s'.pages.mem && s'.pages.mem[b] == 0
    {
      assert Covers(s.slots[k], b);
    }
  }

  lemma GrowEnds(c: Config, s: State, newSize: nat, s1: State, a: nat, t: nat, k: nat, taken: nat, sw: State, s2: State, s': State, m: Mode)
    requires c.Valid() && newSize == s.allocListSize + c.pageSize
    requires Struct(c, s) && HalfGrown(c, s, s1, a, t, k, taken, m) && a != 0
    requires SwitchTable(c, s1, a, newSize) == Done(sw)
    requires s2 == sw.(checkFreqCounter := s2.checkFreqCounter)
    requires ReleaseOk(c, s2, s', t, m) && s'.slots[t].state == EMPTY
    ensures Struct(c, s') && CallOk(c, s, s', m, -1, -1) && Grown(c, s, s', t, k, taken)
  {
    SwitchKeeps(c, s, newSize, s1, a, t, k, taken, sw, m);
    GrowEndsFrom(c, s, newSize, s1, a, t, k, taken, sw, s2, s', m);
  }

  lemma GrowEndsFrom(c: Config, s: State, newSize: nat, s1: State, a: nat, t: nat, k: nat, taken: nat, sw: State, s2: State, s': State, m: Mode)
    requires c.Valid() && newSize == s.allocListSize + c.pageSize
    requires Struct(c, s) && HalfGrown(c, s, s1, a, t, k, taken, m) && a != 0
    requires TableMoved(c, s1, sw, a, newSize) && CallOk(c, s, sw, m, -1, -1) && Accounts(c, sw)
    requires Sum(sw.slots, EmptyOne) >= Sum(s.slots, EmptyOne) - taken + c.SlotsPerPage()
    requires sw.unUsedSlots == Give(Take(s.unUsedSlots, taken), c.SlotsPerPage())
    requires s2 == sw.(checkFreqCounter := s2.checkFreqCounter)
    requires ReleaseOk(c, s2, s', t, m) && s'.slots[t].state == EMPTY
    ensures Struct(c, s') && CallOk(c, s, s', m, -1, -1) && Grown(c, s, s', t, k, taken)
  {
    CounterTail(c, sw, s2);
    GrowWellPosed(c, s, newSize);
    GrowTable(c, s1, s2, s', t, k, newSize, m);
    GrowStruct(c, s, s1, sw, s2, s', t, m);
    GrowMoved(c, s, s1, sw, s2, s', t, k, m);
    ZeroRecords(c, s1, s2, s', t, m);
  }

  lemma CounterTail(c: Config, s: State, s': State)
    requires ZeroTail(c, s) && s' == s.(checkFreqCounter := s'.checkFreqCounter)
    ensures ZeroTail(c, s')
  {}

  lemma GrowMoved(c: Config, s: State, s1: State, sw: State, s2: State, s': State, t: nat, k: nat, m: Mode)
    requires c.Valid() && CallOk(c, s, sw, m, -1, -1) && s2 == sw.(checkFreqCounter := s2.checkFreqCounter)
    requires ReleaseOk(c, s2, s', t, m) && s'.slots[t].state == EMPTY && t < |s.slots|
    requires IsTable(s.slots[t]) && sw.slots[t] == s.slots[t]
    ensures CallOk(c, s, s', m, -1, -1)
  {
    ReleaseCall(c, s2, s', t, m);
    GrowCalls(c, s, sw, s2, s', t, m);
  }

  lemma GrowStruct(c: Config, s: State, s1: State, sw: State, s2: State, s': State, t: nat, m: Mode)
    requires Struct(c, s) && Accounts(c, sw) && s2 == sw.(checkFreqCounter := s2.checkFreqCounter)
    requires ReleaseOk(c, s2, s', t, m) && HasTable(c, s') && ZeroTail(c, s')
    requires |sw.slots| == |s.slots| + c.SlotsPerPage() && sw.allocListSize == s.allocListSize + c.pageSize
    requires sw.allocList > 0
    ensures Struct(c, s')
  {
    RecordsFit(c, |s.slots|, s.allocListSize);
    ShapeGrows(|s.slots|, c.pageSize, c.SlotsPerPage(), s.allocListSize);
    assert TableShape(c, s');
    assert Accounts(c, s2);
  }

  lemma ShapeGrows(n: nat, P: nat, more: nat, size: nat)
    requires n * P == more * size
    ensures (n + more) * P == more * (size + P)
  {}

  lemma ZeroRecords(c: Config, s1: State, s2: State, s': State, t: nat, m: Mode)
    requires c.Valid() && ReleaseOk(c, s2, s', t, m) && t < |s1.slots|
    requires s2.slots == s1.slots + ZeroSlots(c.SlotsPerPage())
    ensures forall i :: |s1.slots| <= i < |s'.slots| ==> s'.slots[i] == ZERO_SLOT
  {
    forall i | |s1.slots| <= i < |s'.slots| ensures s'.slots[i] == ZERO_SLOT {
      assert ReducedSlot(s2.slots[i], s'.slots[i]);
    }
  }

  lemma GrowCalls(c: Config, s: State, sw: State, s2: State, s': State, t: nat, m: Mode)
    requires CallOk(c, s, sw, m, -1, -1) && s2 == sw.(checkFreqCounter := s2.checkFreqCounter)
    requires CallOk(c, s2, s', m, t, -1) && t < |s.slots| && !Owned(m, s.slots[t]) && !Owned(m, sw.slots[t])
    requires NoUser(s'.slots[t])
    ensures CallOk(c, s, s', m, -1, -1)
  {
    forall i | 0 <= i < |s.slots| && Owned(m, s.slots[i]) ensures Kept(m.strict, s, s', i) {
      assert Kept(m.strict, s, sw, i) && sw.slots[i] == s.slots[i];
      assert Kept(m.strict, s2, s', i);
    }
    forall i | 0 <= i < |s.slots| ensures SameUser(s.slots[i], s'.slots[i]) {
      if i != t { assert SameUser(s.slots[i], sw.slots[i]) && SameUser(s2.slots[i], s'.slots[i]); }
    }
    forall i | |s.slots| <= i < |s'.slots| ensures NoUser(s'.slots[i]) {
      if i < |sw.slots| { assert NoUser(sw.slots[i]) && SameUser(s2.slots[i], s'.slots[i]); }
    }
  }

  // ---- the whole of allocateMoreSlots ----

  /** Growth either finds no memory and changes nothing users or the table can see,
      or it is a complete and transparent move of the table. */
  ghost predicate GrowOk(c: Config, s: State, s': State, m: Mode) {
    && c.Valid() && Struct(c, s') && CallOk(c, s, s', m, -1, -1)
    && (|s'.slots| == |s.slots| ==>
          && s.pages.failed < s'.pages.failed && s'.unUsedSlots == s.unUsedSlots
          && Sum(s'.slots, EmptyOne) >= Sum(s.slots, EmptyOne)
          && s'.allocList == s.allocList && s'.allocListSize == s.allocListSize
          && (TableOpen(s) ==> TableOpen(s')))
    && (|s'.slots| != |s.slots| ==> exists t, k, taken :: Grown(c, s, s', t, k, taken))
  }

  lemma GrowKeeps(c: Config, s: State, g: State, m: Mode)
    requires c.Valid() && Struct(c, s) && Grows(c, s, g)
    requires m.prot ==> c.maxAlloc <= 0 && c.protectFree <= 0 && g.pages.failed == s.pages.failed
    ensures GrowOk(c, s, g, m)
  {
    var newSize, s0, s1, a :| GrowPath(c, s, newSize, s0, s1, a, g);
    GrowPathKeeps(c, s, newSize, s0, s1, a, g, m);
  }

  lemma GrowPathKeeps(c: Config, s: State, newSize: nat, s0: State, s1: State, a: nat, g: State, m: Mode)
    requires c.Valid() && Struct(c, s) && GrowPath(c, s, newSize, s0, s1, a, g)
    requires m.prot ==> c.maxAlloc <= 0 && c.protectFree <= 0 && g.pages.failed == s.pages.failed
    ensures GrowOk(c, s, g, m)
  {
    if a == 0 {
      GrowNothing(c, s, newSize, s0, s1, m);
    } else {
      GrowFrom(c, s, newSize, s0, s1, a, g, m);
    }
  }

  lemma GrowNothing(c: Config, s: State, newSize: nat, s0: State, s1: State, m: Mode)
    requires c.Valid() && Struct(c, s) && newSize == s.allocListSize + c.pageSize
    requires s0 == s.(checkFreqCounter := s0.checkFreqCounter) && CoreGives(c, s0, newSize, s1, 0)
    requires m.prot ==> c.maxAlloc <= 0 && s1.pages.failed == s.pages.failed
    ensures GrowOk(c, s, s1, m)
  {
    var k, taken := GrowCore(c, s, newSize, s0, s1, 0, m);
    var t := GrowAllocates(c, s, s0, s1, 0, k, taken, m);
  }

  lemma GrowCore(c: Config, s: State, newSize: nat, s0: State, s1: State, a: nat, m: Mode)
    returns (k: nat, taken: nat)
    requires c.Valid() && Struct(c, s) && newSize == s.allocListSize + c.pageSize
    requires s0 == s.(checkFreqCounter := s0.checkFreqCounter) && CoreGives(c, s0, newSize, s1, a)
    requires m.prot ==> c.maxAlloc <= 0 && s1.pages.failed == s.pages.failed
    ensures CoreOk(c, s0, s1, a, k, 1, GrowRequest(newSize), m, taken) && taken <= 2
  {
    CounterSound(c, s, s0.checkFreqCounter);
    GrowWellPosed(c, s, newSize);
    k, taken := TableCoreKeeps(c, s0, newSize, s1, a, m);
  }

  lemma TableCoreKeeps(c: Config, s: State, newSize: nat, s1: State, a: nat, m: Mode) returns (k: nat, taken: nat)
    requires Sound(c, s) && newSize > 0 && WellPosed(c, 1, GrowRequest(newSize))
    requires CoreGives(c, s, newSize, s1, a)
    requires m.prot ==> c.maxAlloc <= 0 && s1.pages.failed == s.pages.failed
    ensures CoreOk(c, s, s1, a, k, 1, GrowRequest(newSize), m, taken) && taken <= 2
  {
    InternalSizePositive(c.pageSize, 1, newSize);
    k, taken := CoreKeeps(c, s, InternalSize(c.pageSize, 1, newSize), 1, GrowRequest(newSize), m);
  }

  lemma GrowFrom(c: Config, s: State, newSize: nat, s0: State, s1: State, a: nat, s': State, m: Mode)
    requires c.Valid() && Struct(c, s) && newSize == s.allocListSize + c.pageSize
    requires s0 == s.(checkFreqCounter := s0.checkFreqCounter)
    requires CoreGives(c, s0, newSize, s1, a) && a != 0
    requires GrowSwitch(c, s1, a, s.allocList, newSize) == Done(s')
    requires m.prot ==> c.maxAlloc <= 0 && c.protectFree <= 0 && s'.pages.failed == s.pages.failed
    ensures GrowOk(c, s, s', m)
  {
    var sw := SwitchTable(c, s1, a, newSize).value;
    var m0 := Mode(m.strict, false);
    var k, taken := GrowCore(c, s, newSize, s0, s1, a, m0);
    var t := GrowAllocates(c, s, s0, s1, a, k, taken, m0);
    OldTableLeaves(c, s, newSize, s1, a, t, k, taken, sw, s', m0);
    k, taken := GrowCore(c, s, newSize, s0, s1, a, m);
    t := GrowAllocates(c, s, s0, s1, a, k, taken, m);
    GrowFinish(c, s, newSize, s1, a, t, k, taken, sw, s', m);
  }

  /** Freeing the old table does not call mmap. */
  lemma OldTableLeaves(c: Config, s: State, newSize: nat, s1: State, a: nat, t: nat, k: nat, taken: nat, sw: State, s': State, m: Mode)
    requires c.Valid() && newSize == s.allocListSize + c.pageSize
    requires HalfGrown(c, s, s1, a, t, k, taken, m) && a != 0 && !m.prot
    requires SwitchTable(c, s1, a, newSize) == Done(sw)
    requires DeallocateAny(c, sw, s.allocList, EFA_INT_DEALLOC, GROW_SITE) == Done(s')
    ensures s'.pages.failed == s1.pages.failed
  {
    SwitchKeeps(c, s, newSize, s1, a, t, k, taken, sw, m);
    var s2 := OldTableReleased(c, s, s1, sw, t, s', m);
  }

  lemma OldTableReleased(c: Config, s: State, s1: State, sw: State, t: nat, s': State, m: Mode) returns (s2: State)
    requires c.Valid() && Sound(c, sw) && IsTableSlot(s1, t) && s1.allocList == s.allocList
    requires |s1.slots| <= |sw.slots| && sw.slots[t] == s1.slots[t] && (m.prot ==> c.protectFree <= 0)
    requires DeallocateAny(c, sw, s.allocList, EFA_INT_DEALLOC, GROW_SITE) == Done(s')
    ensures s2 == sw.(checkFreqCounter := s2.checkFreqCounter)
    ensures ReleaseOk(c, s2, s', t, m) && s'.slots[t].state == EMPTY
  {
    FindsOldTable(c, sw, t);
    OldTableFreed(c, sw, t, m);
    s2 := CheckFreq(c, sw).value;
  }

  lemma GrowFinish(c: Config, s: State, newSize: nat, s1: State, a: nat, t: nat, k: nat, taken: nat, sw: State, s': State, m: Mode)
    requires c.Valid() && newSize == s.allocListSize + c.pageSize
    requires Struct(c, s) && HalfGrown(c, s, s1, a, t, k, taken, m) && a != 0
    requires m.prot ==> c.protectFree <= 0
    requires SwitchTable(c, s1, a, newSize) == Done(sw)
    requires DeallocateAny(c, sw, s.allocList, EFA_INT_DEALLOC, GROW_SITE) == Done(s')
    ensures GrowOk(c, s, s', m)
  {
    SwitchKeeps(c, s, newSize, s1, a, t, k, taken, sw, m);
    var s2 := OldTableReleased(c, s, s1, sw, t, s', m);
    GrowEnds(c, s, newSize, s1, a, t, k, taken, sw, s2, s', m);
    TwoSlots(c);
  }
}
