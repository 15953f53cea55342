/**
 `_duma_deallocate` after its checks: the block's memory is protected or given
 back, and nothing else changes.
 */
module Deallocation {
  import opened Placement
  import opened Pages
  import opened Slots
  import opened Tiling
  import opened Heap
  import opened Invariants
  import opened Reduction
  import opened Chunks
  import opened Placing
  import opened Allocation

  /** The slot of a freed block: protected as a whole, or empty. */
  predicate Freed(x: Slot, y: Slot) {
    || (y.state == ALL_PROTECTED && y.userAddress == x.userAddress && y.allocator == x.allocator
        && y.internalAddress == x.internalAddress && y.internalSize == x.internalSize)
    || (y.state == EMPTY && y == Emptied(x))
  }

  /** Slot i is freed, every other one in use is kept, nothing becomes accessible. */
  ghost predicate ReleaseMemory(c: Config, s: State, s': State, i: nat, m: Mode) {
    && i < |s.slots|
    && Sound(c, s')
    && SameTable(s, s') && s'.pages.failed == s.pages.failed
    && Frame(m, s, s', i, c)
    && NoOthers(s, s', i)
    && Freed(s.slots[i], s'.slots[i])
    && (IsLive(s.slots[i]) && c.protectFree < 0 ==> s'.slots[i].state == ALL_PROTECTED)
    && (forall j :: 0 <= j < |s.slots| && j != i ==> ReducedSlot(s.slots[j], s'.slots[j]))
    && (s'.slots[i].state == EMPTY ==> forall b: nat :: Covers(s.slots[i], b) ==> b !in s'.pages.mem)
    && s'.pages.open <= s.pages.open
    && (AllDead(c, s) ==> AllDead(c, s'))
  }

  /** The supply counter and the books follow. */
  ghost predicate ReleaseCounts(c: Config, s: State, s': State, i: nat, m: Mode)
    requires c.Valid() && i < |s'.slots|
  {
    && (if s'.slots[i].state == EMPTY
        then s'.unUsedSlots == Give(s.unUsedSlots, 1) && Sum(s'.slots, EmptyOne) >= Sum(s.slots, EmptyOne) + 1
        else s'.unUsedSlots == s.unUsedSlots && Sum(s'.slots, EmptyOne) >= Sum(s.slots, EmptyOne))
    && (Accounts(c, s) ==> Accounts(c, s'))
    && s.lost <= s'.lost && (Drift(s) == 0 ==> Drift(s') == 0)
  }

  ghost predicate ReleaseOk(c: Config, s: State, s': State, i: nat, m: Mode) {
    ReleaseMemory(c, s, s', i, m) && ReleaseCounts(c, s, s', i, m)
  }

  lemma RetireBooks(s: State, i: nat, site: Site)
    requires i < |s.slots| && s.slots[i].state == IN_USE
    ensures
      var t := s.slots[i := Retired(s.slots[i], site)];
      && Sum(t, EmptyOne) == Sum(s.slots, EmptyOne)
      && Sum(t, ProtectedKB) == Sum(s.slots, ProtectedKB) + KB(s.slots[i].internalSize)
      && Sum(t, HeldKB) == Sum(s.slots, HeldKB)
  {
    var x := Retired(s.slots[i], site);
    SumUpdate(s.slots, i, x, EmptyOne);
    SumUpdate(s.slots, i, x, ProtectedKB);
    SumUpdate(s.slots, i, x, HeldKB);
  }

  lemma ProtectingKeeps(c: Config, s: State, i: nat, site: Site, m: Mode)
    requires Sound(c, s) && i < |s.slots| && IsLive(s.slots[i])
    requires WillProtect(c, s, s.slots[i], KB(s.slots[i].internalSize))
    ensures
      var o := Protecting(c, s, i, KB(s.slots[i].internalSize), site);
      o.Done? && ReleaseOk(c, s, o.value, i, m)
  {
    var sl, kB := s.slots[i], KB(s.slots[i].internalSize);
    SlotMapped(c, s, i);
    WholePages(c.pageSize, sl.internalAddress, sl.internalSize);
    assert Region(c.pageSize, sl.internalAddress, sl.internalSize) <= s.pages.mem.Keys by {
      forall b | b in Span(sl.internalAddress, End(sl)) ensures b in s.pages.mem { assert Covers(sl, b); }
    }
    DeniedSlot(c, s, i, kB, site, Protecting(c, s, i, kB, site).value, m);
  }

  lemma DeniedSlot(c: Config, s: State, i: nat, kB: nat, site: Site, s': State, m: Mode)
    requires Sound(c, s) && i < |s.slots| && IsLive(s.slots[i]) && kB == KB(s.slots[i].internalSize)
    requires WillProtect(c, s, s.slots[i], kB)
    requires s' == s.(slots := s.slots[i := Retired(s.slots[i], site)], sumProtectedMem := s.sumProtectedMem + kB,
                      pages := s.pages.(open := s.pages.open - Span(s.slots[i].internalAddress, End(s.slots[i]))))
    ensures ReleaseOk(c, s, s', i, m)
  {
    BlockInside(c, s.slots[i]);
    Retag(s.slots, Arena(c, s, 0, 0), i, Retired(s.slots[i], site));
    assert Arena(c, s', 0, 0) == Arena(c, s, 0, 0);
    RetireBooks(s, i, site);
    ReleaseFrame(c, s, s', i, m);
    if AllDead(c, s) { ReleaseDead(c, s, s', i); }
  }

  lemma BlockInside(c: Config, sl: Slot)
    requires c.Valid() && SlotOk(c, sl) && IsLive(sl)
    ensures sl.internalAddress <= sl.userAddress < End(sl)
  {
  }

  lemma ReleaseFrame(c: Config, s: State, s': State, i: nat, m: Mode)
    requires Disjoint(s.slots) && i < |s.slots| == |s'.slots| && s'.nullBlock == s.nullBlock
    requires forall j :: 0 <= j < |s.slots| && j != i ==> s'.slots[j] == s.slots[j]
    requires SameOutside(s.pages, s'.pages, s.slots[i]) && s'.pages.open <= s.pages.open
    ensures Frame(m, s, s', i, c) && NoOthers(s, s', i)
  {
    forall j | 0 <= j < |s.slots| && j != i && Busy(m, s.slots[j]) ensures Kept(m.strict, s, s', j) {
      KeptOthers(s, s', i, j);
    }
  }

  lemma ReleaseDead(c: Config, s: State, s': State, i: nat)
    requires AllDead(c, s) && i < |s.slots| == |s'.slots| && s'.nullBlock == s.nullBlock
    requires forall j :: 0 <= j < |s.slots| && j != i ==> s'.slots[j] == s.slots[j]
    requires s'.pages.open <= s.pages.open
    requires forall b: nat :: Covers(s'.slots[i], b) ==> b !in s'.pages.open
    ensures AllDead(c, s')
  {
    forall j, b: nat | 0 <= j < |s'.slots| && MustBeDead(s'.slots[j], b) ensures b !in s'.pages.open {
      if j != i { assert MustBeDead(s.slots[j], b); }
    }
  }

  lemma DroppingKeeps(c: Config, s: State, i: nat, m: Mode)
    requires Sound(c, s) && i < |s.slots| && s.slots[i].state == IN_USE
    requires !WillProtect(c, s, s.slots[i], KB(s.slots[i].internalSize))
    ensures ReleaseOk(c, s, Dropping(c, s, i, KB(s.slots[i].internalSize)), i, m)
  {
    DropStep(c, s, i);
    WholePages(c.pageSize, s.slots[i].internalAddress, s.slots[i].internalSize);
    var d := DropSlot(c, s, i);
    var s' := Dropping(c, s, i, KB(s.slots[i].internalSize));
    forall j | 0 <= j < |s.slots| && j != i && Busy(m, s.slots[j]) ensures Kept(m.strict, s, s', j) {
      assert Kept(true, s, d, j);
    }
    if AllDead(c, s) { ReleaseDead(c, s, s', i); }
  }

  /** After the reduction that may come first. */
  lemma ReleaseAfterReduction(c: Config, s: State, s1: State, s': State, i: nat, m: Mode)
    requires Sound(c, s) && Sound(c, s1) && Obtained(c, s, s1, false) && BooksKept(s, s1, false)
    requires s1.pages.failed == s.pages.failed && s1.pages.open <= s.pages.open
    requires i < |s.slots| && s.slots[i].state == IN_USE && s1.slots[i] == s.slots[i] && !m.prot
    requires ReleaseOk(c, s1, s', i, m) && (Drift(s) == 0 ==> Drift(s1) == 0)
    ensures ReleaseOk(c, s, s', i, m)
  {
    MemoryAfterReduction(c, s, s1, s', i, m);
    assert ReleaseCounts(c, s, s', i, m) by {
      if Accounts(c, s) { assert Accounts(c, s1); }
    }
  }

  lemma MemoryAfterReduction(c: Config, s: State, s1: State, s': State, i: nat, m: Mode)
    requires Sound(c, s) && Obtained(c, s, s1, false)
    requires s1.pages.failed == s.pages.failed && s1.pages.open <= s.pages.open
    requires i < |s.slots| && s.slots[i].state == IN_USE && s1.slots[i] == s.slots[i] && !m.prot
    requires ReleaseMemory(c, s1, s', i, m)
    ensures ReleaseMemory(c, s, s', i, m)
  {
    assert Frame(m, s, s', i, c) by {
      ObtainedMoves(c, s, s1, false, m);
      FrameAfter(c, s, s1, s', i, m);
    }
    RecordsAfter(c, s, s1, s', i, m);
  }

  lemma RecordsAfter(c: Config, s: State, s1: State, s': State, i: nat, m: Mode)
    requires |s.slots| == |s1.slots| == |s'.slots|
    requires forall j :: 0 <= j < |s.slots| ==> ReducedSlot(s.slots[j], s1.slots[j])
    requires NoOthers(s1, s', i) && forall j :: 0 <= j < |s.slots| && j != i ==> ReducedSlot(s1.slots[j], s'.slots[j])
    ensures NoOthers(s, s', i)
    ensures forall j :: 0 <= j < |s.slots| && j != i ==> ReducedSlot(s.slots[j], s'.slots[j])
  {
    forall j | 0 <= j < |s.slots| && j != i
      ensures NoOther(s.slots[j], s'.slots[j]) && ReducedSlot(s.slots[j], s'.slots[j])
    {
      assert ReducedSlot(s.slots[j], s1.slots[j]) && ReducedSlot(s1.slots[j], s'.slots[j]);
      assert NoOther(s1.slots[j], s'.slots[j]);
    }
  }

  lemma FrameAfter(c: Config, s: State, s1: State, s': State, i: nat, m: Mode)
    requires Frame(m, s, s1, -1, c) && Frame(m, s1, s', i, c)
    ensures Frame(m, s, s', i, c)
  {
    forall j | 0 <= j < |s.slots| && j != i && Busy(m, s.slots[j]) ensures Kept(m.strict, s, s', j) {
      assert Kept(m.strict, s, s1, j) && Kept(m.strict, s1, s', j);
    }
  }

  lemma SettleKeeps(c: Config, s: State, i: nat, site: Site, m: Mode)
    requires Sound(c, s) && i < |s.slots| && s.slots[i].state == IN_USE
    ensures
      var o := Settle(c, s, i, KB(s.slots[i].internalSize), site);
      o.Done? && ReleaseOk(c, s, o.value, i, m)
  {
    if WillProtect(c, s, s.slots[i], KB(s.slots[i].internalSize)) {
      ProtectingKeeps(c, s, i, site, m);
    } else {
      DroppingKeeps(c, s, i, m);
    }
  }

  /** Releasing never aborts, and does exactly what ReleaseOk says. With `m.prot`
      (no reduction happens) it also keeps every protected slot. */
  lemma ReleaseKeeps(c: Config, s: State, i: nat, site: Site, m: Mode)
    requires Sound(c, s) && i < |s.slots| && s.slots[i].state == IN_USE
    requires m.prot ==> c.protectFree <= 0
    ensures Release(c, s, i, site).Done? && ReleaseOk(c, s, Release(c, s, i, site).value, i, m)
  {
    var kB := KB(s.slots[i].internalSize);
    if WantsReduction(c, s, kB) {
      ReleaseReducing(c, s, i, site, m);
    } else {
      SettleKeeps(c, s, i, site, m);
    }
  }

  lemma ReleaseReducing(c: Config, s: State, i: nat, site: Site, m: Mode)
    requires Sound(c, s) && i < |s.slots| && s.slots[i].state == IN_USE && !m.prot
    requires WantsReduction(c, s, KB(s.slots[i].internalSize))
    ensures
      var kB := KB(s.slots[i].internalSize);
      var o := Settle(c, Reduce(c, s, kB).0, i, kB, site);
      o.Done? && ReleaseOk(c, s, o.value, i, m)
  {
    var kB := KB(s.slots[i].internalSize);
    var s1 := ReducedState(c, s, kB, i);
    SettleKeeps(c, s1, i, site, m);
    ReleaseAfterReduction(c, s, s1, Settle(c, s1, i, kB, site).value, i, m);
  }

  lemma ReducedState(c: Config, s: State, k: nat, i: nat) returns (s1: State)
    requires Sound(c, s) && i < |s.slots| && !IsProtected(s.slots[i]) && k > 0 && s.sumProtectedMem >= k
    ensures Drift(s) == 0 ==> Drift(s1) == 0
    ensures s1 == Reduce(c, s, k).0
    ensures Sound(c, s1) && Obtained(c, s, s1, false) && BooksKept(s, s1, false)
    ensures s1.pages.failed == s.pages.failed && s1.pages.open <= s.pages.open
    ensures i < |s1.slots| && s1.slots[i] == s.slots[i]
  {
    s1 := Reduce(c, s, k).0;
    ReduceObtains(c, s, k);
    ReduceKeeps(c, s, k);
    assert Kept(true, s, s1, i);
    ReduceSucceeds(c, s, k);
    ReduceResult(c, s, k);
  }

  /** Where the memory of a freed block goes, decided before the call: with PROTECT_FREE
      > 0 it is protected if there is room under the limit, or if a reduction by the
      block's own size can make it. With less protected than that, it is given back at
      once, even where a smaller reduction would have made room. */
  lemma ReleaseVerdict(c: Config, s: State, i: nat, site: Site)
    requires Sound(c, s) && Accounts(c, s) && i < |s.slots| && IsLive(s.slots[i])
    ensures Release(c, s, i, site).Done?
    ensures
      var s', kB := Release(c, s, i, site).value, KB(s.slots[i].internalSize);
      var room := s.sumProtectedMem + kB <= c.protectFree;
      var reducible := kB < c.protectFree && Sum(s.slots, ProtectedKB) >= kB;
      && (s'.slots[i].state == ALL_PROTECTED <==> c.protectFree < 0 || (c.protectFree > 0 && (room || reducible)))
      && (s'.slots[i].state != ALL_PROTECTED ==> s'.slots[i].state == EMPTY)
  {
    ReleaseKeeps(c, s, i, site, Mode(false, false));
    var kB := KB(s.slots[i].internalSize);
    assert SlotOk(c, s.slots[i]);
    if WantsReduction(c, s, kB) {
      var s1 := ReducedState(c, s, kB, i);
      ReduceResult(c, s, kB);
      ReduceSucceeds(c, s, kB);
      SettleVerdict(c, s1, i, kB, site);
    } else {
      SettleVerdict(c, s, i, kB, site);
    }
  }

  lemma SettleVerdict(c: Config, s: State, i: nat, kB: nat, site: Site)
    requires Sound(c, s) && i < |s.slots| && IsLive(s.slots[i]) && Settle(c, s, i, kB, site).Done?
    ensures
      var s' := Settle(c, s, i, kB, site).value;
      && (s'.slots[i].state == ALL_PROTECTED <==>
            c.protectFree < 0 || (c.protectFree > 0 && s.sumProtectedMem + kB <= c.protectFree))
      && (s'.slots[i].state != ALL_PROTECTED ==> s'.slots[i].state == EMPTY)
  {}
}
