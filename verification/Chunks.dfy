/**
 Getting memory for a block: creating a chunk (with the reduce-and-retry loop),
 entering it in the table, and cutting a free slot in two.
 */
module Chunks {
  import opened Bits
  import opened Placement
  import opened Wrappers
  import opened Pages
  import opened Slots
  import opened Tiling
  import opened Heap
  import opened Invariants
  import opened Reduction

  /** Sound, except that [lo, lo + n) is mapped but in no slot yet. */
  ghost predicate SoundBut(c: Config, s: State, lo: nat, n: nat) {
    c.Valid() && SlotsOk(c, s) && Layout(c, s, lo, n)
  }

  /** The effect of creating pages and reducing, in any mixture, on everything that
      was there before; `calm` says no protected memory was reduced. */
  ghost predicate Obtained(c: Config, s: State, s': State, calm: bool) {
    && |s'.slots| == |s.slots|
    && s' == s.(slots := s'.slots, sumProtectedMem := s'.sumProtectedMem,
                sumAllocatedMem := s'.sumAllocatedMem, lost := s'.lost, pages := s'.pages)
    && s.pages.failed <= s'.pages.failed
    && (forall i :: 0 <= i < |s.slots| ==> ReducedSlot(s.slots[i], s'.slots[i]))
    && (forall i :: 0 <= i < |s.slots| && (calm || !IsProtected(s.slots[i])) ==> Kept(true, s, s', i))
    && (forall b: nat :: InNull(c, s, b) && b !in s.pages.open ==> b !in s'.pages.open)
    && (AllDead(c, s) ==> AllDead(c, s'))
  }

  /** How the counters may move meanwhile. */
  ghost predicate BooksKept(s: State, s': State, calm: bool) {
    && Sum(s'.slots, EmptyOne) >= Sum(s.slots, EmptyOne)
    && BooksFollow(s, s')
    && (calm ==> Drift(s') == Drift(s))
  }

  lemma ObtainedTrans(c: Config, s: State, s1: State, s2: State, calm1: bool, calm2: bool)
    requires Obtained(c, s, s1, calm1) && Obtained(c, s1, s2, calm2)
    ensures Obtained(c, s, s2, calm1 && calm2)
  {
    forall i | 0 <= i < |s.slots| ensures ReducedSlot(s.slots[i], s2.slots[i]) {
      assert ReducedSlot(s.slots[i], s1.slots[i]) && ReducedSlot(s1.slots[i], s2.slots[i]);
    }
    forall i | 0 <= i < |s.slots| && ((calm1 && calm2) || !IsProtected(s.slots[i]))
      ensures Kept(true, s, s2, i)
    {
      assert Kept(true, s, s1, i) && s1.slots[i] == s.slots[i];
      assert Kept(true, s1, s2, i);
    }
  }

  lemma ReducedObtained(c: Config, s: State, s': State)
    requires Reduced(c, s, s')
    ensures Obtained(c, s, s', false)
  {
    if AllDead(c, s) {
      forall i, b: nat | 0 <= i < |s'.slots| && MustBeDead(s'.slots[i], b) ensures b !in s'.pages.open {
        assert ReducedSlot(s.slots[i], s'.slots[i]);
        assert MustBeDead(s.slots[i], b);
      }
    }
  }

  lemma ReduceObtains(c: Config, s: State, k: nat)
    requires Sound(c, s)
    ensures var s' := Reduce(c, s, k).0;
            Sound(c, s') && Obtained(c, s, s', false) && BooksKept(s, s', false)
  {
    ReduceKeeps(c, s, k);
    ReducedObtained(c, s, Reduce(c, s, k).0);
  }

  /** Page_Create: on success a fresh aligned region, elsewhere nothing changes. */
  lemma CreateRegion(p: Pages, P: nat, n: nat)
    requires IsPow2(P) && n % P == 0
    ensures
      var (q, a) := Create(p, P, n);
      && a % P == 0 && p.failed <= q.failed && (q.failed == p.failed <==> a != 0)
      && (a == 0 ==> q.mem == p.mem && q.open == p.open)
      && (a != 0 ==>
            && q.mem.Keys == p.mem.Keys + Span(a, a + n) && q.open == p.open + Span(a, a + n)
            && Span(a, a + n) !! p.mem.Keys && a + n <= SIZE_MAX
            && (forall b :: b in p.mem ==> q.mem[b] == p.mem[b]))
  {
    DivModUnique(0, P, 0, 0);
    WholePages(P, Create(p, P, n).1, n);
    AlignUpFixed(n, P);
  }

  lemma CreateMeans(c: Config, s: State, n: nat)
    requires Sound(c, s) && n % c.pageSize == 0
    ensures
      var (s', a) := CreatePages(c, s, n);
      && SoundBut(c, s', a, if a == 0 then 0 else n)
      && a % c.pageSize == 0
      && s'.slots == s.slots && Obtained(c, s, s', true)
      && (s'.pages.failed == s.pages.failed <==> a != 0)
  {
    CreateLayout(c, s, n);
    CreateRegion(s.pages, c.pageSize, n);
    CreateFrame(c, s, CreatePages(c, s, n).0);
  }

  lemma CreateLayout(c: Config, s: State, n: nat)
    requires Sound(c, s) && n % c.pageSize == 0
    ensures var (s', a) := CreatePages(c, s, n);
            Layout(c, s', a, if a == 0 then 0 else n)
  {
    var (s', a) := CreatePages(c, s, n);
    CreateRegion(s.pages, c.pageSize, n);
    assert Arena(c, s', a, if a == 0 then 0 else n) == Arena(c, s, 0, 0);
  }

  /** Old bytes keep their contents and permissions: every slot is kept. */
  lemma CreateFrame(c: Config, s: State, s': State)
    requires Sound(c, s) && s' == s.(pages := s'.pages) && s.pages.failed <= s'.pages.failed
    requires forall b: nat :: b in s.pages.mem ==>
               b in s'.pages.mem && s'.pages.mem[b] == s.pages.mem[b] && (b in s'.pages.open <==> b in s.pages.open)
    ensures Obtained(c, s, s', true)
  {
    forall i | 0 <= i < |s.slots| ensures Kept(true, s, s', i) {
      forall b: nat | Covers(s.slots[i], b) ensures b in s.pages.mem {
        assert CoveredBy(s.slots, b);
        assert b in Arena(c, s, 0, 0);
      }
    }
    if AllDead(c, s) {
      forall i, b: nat | 0 <= i < |s'.slots| && MustBeDead(s'.slots[i], b) ensures b !in s'.pages.open {
        assert Kept(true, s, s', i);
      }
    }
  }

  ghost predicate ObtainOk(c: Config, s: State, s': State, a: nat, n: nat, calm: bool) {
    && SoundBut(c, s', a, if a == 0 then 0 else n)
    && a % c.pageSize == 0
    && Obtained(c, s, s', calm)
    && BooksKept(s, s', calm)
  }

  lemma CreateOk(c: Config, s: State, n: nat)
    requires Sound(c, s) && n % c.pageSize == 0
    ensures
      var (s', a) := CreatePages(c, s, n);
      && ObtainOk(c, s, s', a, n, true)
      && (s'.pages.failed == s.pages.failed <==> a != 0)
  {
    CreateMeans(c, s, n);
  }

  lemma ObtainOkTrans(c: Config, s: State, s1: State, s2: State, a: nat, n: nat, calm1: bool, calm2: bool)
    requires ObtainOk(c, s, s1, 0, n, calm1) && ObtainOk(c, s1, s2, a, n, calm2)
    ensures ObtainOk(c, s, s2, a, n, calm1 && calm2)
  {
    ObtainedTrans(c, s, s1, s2, calm1, calm2);
  }

  lemma ReduceOkObtain(c: Config, s: State, k: nat, n: nat)
    requires Sound(c, s)
    ensures ObtainOk(c, s, Reduce(c, s, k).0, 0, n, false)
  {
    ReduceObtains(c, s, k);
    DivModUnique(0, c.pageSize, 0, 0);
  }

  lemma {:induction false} CreateRetryOk(c: Config, s: State, n: nat, k: nat) returns (s': State, a: nat)
    requires Sound(c, s) && n % c.pageSize == 0
    ensures s' == CreateRetry(c, s, n, k).0 && a == CreateRetry(c, s, n, k).1
    ensures ObtainOk(c, s, s', a, n, false)
    decreases Sum(s.slots, Rank)
  {
    ReduceRank(c, s, k);
    var (s1, more) := Reduce(c, s, k);
    ReduceOkObtain(c, s, k, n);
    var (s2, a2) := CreatePages(c, s1, n);
    CreateOk(c, s1, n);
    ObtainOkTrans(c, s, s1, s2, a2, n, false, true);
    if more && a2 == 0 {
      s', a := CreateRetryOk(c, s2, n, k);
      ObtainOkTrans(c, s, s2, s', a, n, false, false);
    } else {
      s', a := s2, a2;
    }
  }

  /** Nothing protected is reduced if there is no limit and mmap never fails. */
  lemma ObtainKeeps(c: Config, s: State, chunk: nat, n: nat, failEnv: bool)
    requires Sound(c, s) && n % c.pageSize == 0
    requires Obtain(c, s, chunk, n, failEnv).Done?
    ensures
      var (s', a) := Obtain(c, s, chunk, n, failEnv).value;
      && ObtainOk(c, s, s', a, n, c.maxAlloc <= 0 && s'.pages.failed == s.pages.failed)
      && (s'.pages.failed == s.pages.failed ==> a != 0)
  {
    var s0 := LimitAllocated(c, s, KB(chunk));
    DivModUnique(0, c.pageSize, 0, 0);
    var calm := c.maxAlloc <= 0;
    assert ObtainOk(c, s, s0, 0, n, calm) && s0.pages.failed == s.pages.failed by {
      if s0 == s { ObtainSelf(c, s, n); } else { ReduceOkObtain(c, s, KB(chunk), n); ReduceKeeps(c, s, KB(chunk)); }
    }
    var (s1, a1) := CreatePages(c, s0, n);
    CreateOk(c, s0, n);
    ObtainOkTrans(c, s, s0, s1, a1, n, calm, true);
    if a1 == 0 && c.protectFree != 0 {
      var s2, a2 := CreateRetryOk(c, s1, n, KB(chunk));
      ObtainOkTrans(c, s, s1, s2, a2, n, calm, false);
      if a2 == 0 && failEnv {
        var (s3, a3) := CreatePages(c, s2, n);
        CreateOk(c, s2, n);
        ObtainOkTrans(c, s, s2, s3, a3, n, false, true);
      }
    }
  }

  lemma ObtainSelf(c: Config, s: State, n: nat)
    requires Sound(c, s)
    ensures ObtainOk(c, s, s, 0, n, true)
  {
    DivModUnique(0, c.pageSize, 0, 0);
  }

  // ---- entering the chunk ----

  lemma AddChunkKeeps(c: Config, s: State, e: nat, a: nat, n: nat)
    requires SoundBut(c, s, a, n) && e < |s.slots| && s.slots[e].state == EMPTY
    requires a > 0 && n > 0 && a % c.pageSize == 0 && n % c.pageSize == 0
    ensures
      var s' := AddChunk(s, e, a, n, n, 1);
      && Sound(c, s')
      && (forall i :: 0 <= i < |s.slots| && i != e ==> Kept(true, s, s', i))
      && (AllDead(c, s) ==> AllDead(c, s'))
      && s'.slots[e].state == FREE && s'.slots[e].internalSize == n && s'.slots[e].userAddress == 0
  {
    var s' := AddChunk(s, e, a, n, n, 1);
    var x := s'.slots[e];
    forall b: nat ensures b in Arena(c, s', 0, 0) <==> b in Arena(c, s, a, n) || Covers(x, b) {
      assert InNull(c, s', b) == InNull(c, s, b);
      assert Covers(x, b) <==> a <= b < a + n;
    }
    Add(s.slots, Arena(c, s, a, n), e, x, Arena(c, s', 0, 0));
    forall i | 0 <= i < |s.slots| && i != e ensures Kept(true, s, s', i) {}
    if AllDead(c, s) {
      forall i, b: nat | 0 <= i < |s'.slots| && MustBeDead(s'.slots[i], b) ensures b !in s'.pages.open {
        assert i != e;
        assert MustBeDead(s.slots[i], b);
      }
    }
  }

  lemma AddChunkBooks(s: State, e: nat, a: nat, n: nat)
    requires e < |s.slots| && s.slots[e].state == EMPTY
    ensures
      var s' := AddChunk(s, e, a, n, n, 1);
      && Sum(s'.slots, EmptyOne) == Sum(s.slots, EmptyOne) - 1
      && Drift(s') == Drift(s) && s'.lost == s.lost
      && s'.sumAllocatedMem - Sum(s'.slots, HeldKB) == s.sumAllocatedMem - Sum(s.slots, HeldKB)
  {
    var s' := AddChunk(s, e, a, n, n, 1);
    SumUpdate(s.slots, e, s'.slots[e], EmptyOne);
    SumUpdate(s.slots, e, s'.slots[e], ProtectedKB);
    SumUpdate(s.slots, e, s'.slots[e], HeldKB);
  }

  // ---- splitting ----

  lemma RemainderOk(c: Config, sl: Slot, need: nat)
    requires c.Valid() && SlotOk(c, sl) && sl.state == FREE
    requires 0 < need < sl.internalSize && need % c.pageSize == 0
    ensures SlotOk(c, Remainder(sl, need)) && SlotOk(c, sl.(internalSize := need))
    ensures KB(sl.internalSize) == KB(need) + KB(Remainder(sl, need).internalSize)
  {
    MultipleSum(sl.internalAddress, need, c.pageSize);
    MultipleSum(sl.internalSize, need, c.pageSize);
    KBSum(need, sl.internalSize - need, c.pageSize);
  }

  /** y is the free slot of what x has beyond its first `need` bytes. */
  predicate Surplus(x: Slot, y: Slot, need: nat) {
    && y.state == FREE && y.allocator == x.allocator
    && y.internalAddress == y.userAddress == x.internalAddress + need
    && y.internalSize == y.userSize && y.internalSize + need == x.internalSize
  }

  /** Splitting a free slot: afterwards it has exactly the bytes needed. */
  lemma SplitKeeps(c: Config, s: State, k: nat, e: Option<nat>, need: nat)
    requires Sound(c, s) && k < |s.slots| && Fits(s.slots[k], need)
    requires e.Some? ==> e.value < |s.slots| && s.slots[e.value].state == EMPTY
    requires 0 < need && need % c.pageSize == 0
    requires SplitSlot(s, k, e, need).Done?
    ensures
      var s' := SplitSlot(s, k, e, need).value;
      && Sound(c, s') && |s'.slots| == |s.slots|
      && s'.slots[k] == s.slots[k].(internalSize := need)
      && (s.slots[k].internalSize > need ==> e.Some? && Surplus(s.slots[k], s'.slots[e.value], need))
      && (forall i :: 0 <= i < |s.slots| && i != k && Some(i) != e ==> s'.slots[i] == s.slots[i])
      && (forall i :: 0 <= i < |s.slots| && s.slots[i].state != FREE && s.slots[i].state != EMPTY
            ==> Kept(true, s, s', i))
      && (forall i :: 0 <= i < |s.slots| && s'.slots[i] != s.slots[i] ==>
            (s.slots[i].state == FREE || s.slots[i].state == EMPTY) && s'.slots[i].state == FREE)
      && s'.pages == s.pages
      && (AllDead(c, s) ==> AllDead(c, s'))
  {
    var sl := s.slots[k];
    if sl.internalSize > need {
      var s' := SplitSlot(s, k, e, need).value;
      var x, y := sl.(internalSize := need), Remainder(sl, need);
      RemainderOk(c, sl, need);
      Split(s.slots, Arena(c, s, 0, 0), k, e.value, x, y);
      assert Arena(c, s', 0, 0) == Arena(c, s, 0, 0);
      if AllDead(c, s) {
        forall i, b: nat | 0 <= i < |s'.slots| && MustBeDead(s'.slots[i], b) ensures b !in s'.pages.open {
          assert i != k && i != e.value;
          assert MustBeDead(s.slots[i], b);
        }
      }
    } else {
      assert s.slots[k] == s.slots[k].(internalSize := need);
    }
  }

  /** Splitting takes one empty slot, if the free slot was too large. */
  lemma SplitBooks(c: Config, s: State, k: nat, e: Option<nat>, need: nat)
    requires Sound(c, s) && k < |s.slots| && Fits(s.slots[k], need)
    requires e.Some? ==> e.value < |s.slots| && s.slots[e.value].state == EMPTY
    requires 0 < need && need % c.pageSize == 0
    requires SplitSlot(s, k, e, need).Done?
    ensures
      var s' := SplitSlot(s, k, e, need).value;
      var taken := if s.slots[k].internalSize > need then 1 else 0;
      && s'.unUsedSlots == Take(s.unUsedSlots, taken)
      && Sum(s'.slots, EmptyOne) == Sum(s.slots, EmptyOne) - taken
      && Sum(s'.slots, ProtectedKB) == Sum(s.slots, ProtectedKB)
      && Sum(s'.slots, HeldKB) == Sum(s.slots, HeldKB)
  {
    var sl := s.slots[k];
    if sl.internalSize > need {
      var x, y := sl.(internalSize := need), Remainder(sl, need);
      RemainderOk(c, sl, need);
      var t := s.slots[e.value := y];
      SumUpdate(s.slots, e.value, y, EmptyOne);
      SumUpdate(s.slots, e.value, y, ProtectedKB);
      SumUpdate(s.slots, e.value, y, HeldKB);
      SumUpdate(t, k, x, EmptyOne);
      SumUpdate(t, k, x, ProtectedKB);
      SumUpdate(t, k, x, HeldKB);
    }
  }
}
