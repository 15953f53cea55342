/**
 Putting a block into a slot: the red zone and the no man's land it gets, and
 that no other slot notices.
 */
module Placing {
  import opened Bits
  import opened Placement
  import opened Pages
  import opened Slots
  import opened Tiling
  import opened Heap
  import opened Invariants

  /** What holds of every request that reaches the core: a power-of-two alignment,
      and internal requests are those of table growth. */
  predicate WellPosed(c: Config, A: pos, r: Request)
    requires c.pageSize > 0
  {
    && (r.size > 0 ==> IsPow2(A))
    && (TypeOf(r.allocator) == Internal ==>
          A == 1 && r.size > 0 && r.size % c.pageSize == 0 && !r.protectBelow && r.allocator == EFA_INT_ALLOC)
  }

  /** The pages made accessible lie inside the slot. */
  predicate Confined(c: Config, A: pos, r: Request, start: nat) {
    r.size == 0 || !r.protectBelow || (start + c.pageSize) % A == 0
  }

  /** Alignments up to a page are always confined. */
  lemma SmallAlignmentConfined(c: Config, A: pos, r: Request, start: nat)
    requires c.Valid() && IsPow2(A) && A <= c.pageSize && start % c.pageSize == 0
    ensures Confined(c, A, r, start)
  {
    DivModUnique(c.pageSize, c.pageSize, 1, 0);
    MultipleSum(start, c.pageSize, c.pageSize);
    Pow2Divides(A, c.pageSize);
    MultipleTrans(start + c.pageSize, A, c.pageSize);
  }

  /** The record of a placed block. */
  lemma PlaceMeans(c: Config, sl: Slot, need: nat, A: pos, r: Request)
    requires c.Valid() && WellPosed(c, A, r) && SlotOk(c, sl) && sl.state == FREE
    requires need == SlotBytes(c, A, r.size) == sl.internalSize
    ensures
      var x := Occupied(sl, Place(c, sl.internalAddress, need, A, r), r);
      && BlockOk(c, x) && SlotOk(c, x) && need % c.pageSize == 0
      && (r.size > 0 ==> x.userAddress % A == 0)
      && (r.size > 0 && !r.protectBelow ==>
            x.userAddress <= x.protAddress && x.protAddress % c.pageSize == 0
            && x.protAddress - (x.userAddress + r.size) < c.pageSize
            && x.protAddress - (x.userAddress + r.size) < A)
      && (r.size > 0 && r.protectBelow ==>
            x.protAddress < x.userAddress && x.userAddress % c.pageSize == 0)
      && sl.internalAddress <= x.userAddress < End(x)
  {
    var P, start := c.pageSize, sl.internalAddress;
    DivModUnique(P, P, 1, 0);
    if r.size > 0 {
      InternalSizeMeans(P, A, r.size);
      if r.protectBelow {
        BelowPlacement(P, A, start, r.size);
      } else {
        AbovePlacement(P, A, start, r.size);
        if A <= P { AboveTail(P, A, start, r.size); }
        if TypeOf(r.allocator) == Internal { AlignUpFixed(r.size, P); }
      }
    }
  }

  /** Exactly the accessible part of the new block is open; outside the slot
      nothing changes if the block is confined, and nothing closes otherwise. */
  ghost predicate Protected(c: Config, p: Pages, q: Pages, x: Slot, confined: bool) {
    && q == p.(open := q.open)
    && q.open <= p.open + q.mem.Keys
    && (forall b: nat :: Covers(x, b) ==>
          (b in q.open <==> x.userSize > 0 && AccBegin(x) <= b < AccEnd(x)))
    && (forall b: nat :: !Covers(x, b) && b in p.open ==> b in q.open)
    && (confined ==> forall b: nat :: !Covers(x, b) && b in q.open ==> b in p.open)
  }

  lemma ProtectMeans(c: Config, p: Pages, sl: Slot, need: nat, A: pos, r: Request)
    requires c.Valid() && WellPosed(c, A, r) && SlotOk(c, sl) && sl.state == FREE
    requires need == SlotBytes(c, A, r.size) == sl.internalSize
    requires Protect(c, p, sl.internalAddress, need, Place(c, sl.internalAddress, need, A, r), r).Done?
    ensures
      var spot := Place(c, sl.internalAddress, need, A, r);
      var q := Protect(c, p, sl.internalAddress, need, spot, r).value;
      Protected(c, p, q, Occupied(sl, spot, r), Confined(c, A, r, sl.internalAddress))
  {
    PlaceMeans(c, sl, need, A, r);
    if r.size == 0 {
      WholePages(c.pageSize, sl.internalAddress, need);
    } else if !r.protectBelow {
      ProtectMeansAbove(c, p, sl, need, A, r);
    } else {
      ProtectMeansBelow(c, p, sl, need, A, r);
    }
  }

  lemma ProtectMeansAbove(c: Config, p: Pages, sl: Slot, need: nat, A: pos, r: Request)
    requires c.Valid() && WellPosed(c, A, r) && SlotOk(c, sl) && sl.state == FREE
    requires r.size > 0 && !r.protectBelow
    requires need == SlotBytes(c, A, r.size) == sl.internalSize
    requires Protect(c, p, sl.internalAddress, need, Place(c, sl.internalAddress, need, A, r), r).Done?
    ensures
      var spot := Place(c, sl.internalAddress, need, A, r);
      var q := Protect(c, p, sl.internalAddress, need, spot, r).value;
      Protected(c, p, q, Occupied(sl, spot, r), true)
  {
    PlaceMeans(c, sl, need, A, r);
    ProtectAbove(c, Occupied(sl, Place(c, sl.internalAddress, need, A, r), r));
  }

  lemma ProtectMeansBelow(c: Config, p: Pages, sl: Slot, need: nat, A: pos, r: Request)
    requires c.Valid() && WellPosed(c, A, r) && SlotOk(c, sl) && sl.state == FREE
    requires r.size > 0 && r.protectBelow
    requires need == SlotBytes(c, A, r.size) == sl.internalSize
    requires Protect(c, p, sl.internalAddress, need, Place(c, sl.internalAddress, need, A, r), r).Done?
    ensures
      var spot := Place(c, sl.internalAddress, need, A, r);
      var q := Protect(c, p, sl.internalAddress, need, spot, r).value;
      Protected(c, p, q, Occupied(sl, spot, r), Confined(c, A, r, sl.internalAddress))
  {
    PlaceMeans(c, sl, need, A, r);
    BelowSpot(c, sl.internalAddress, need, A, r);
    InternalSizeMeans(c.pageSize, A, r.size);
    BelowRegions(c, sl.internalAddress, need, Place(c, sl.internalAddress, need, A, r).user);
  }

  lemma ProtectAbove(c: Config, x: Slot)
    requires c.Valid() && SlotOk(c, x) && BlockOk(c, x) && x.state == IN_USE
    requires x.userSize > 0 && x.protAddress >= x.userAddress && x.protAddress % c.pageSize == 0
    ensures Region(c.pageSize, x.internalAddress, x.protAddress - x.internalAddress)
            == Span(x.internalAddress, x.protAddress)
    ensures Region(c.pageSize, x.protAddress, End(x) - x.protAddress) == Span(x.protAddress, End(x))
  {
    MultipleSum(x.protAddress, x.internalAddress, c.pageSize);
    MultipleSum(x.internalAddress, x.internalSize, c.pageSize);
    MultipleSum(End(x), x.protAddress, c.pageSize);
    WholePages(c.pageSize, x.internalAddress, x.protAddress - x.internalAddress);
    WholePages(c.pageSize, x.protAddress, End(x) - x.protAddress);
  }

  /** Below mode: the dead page ends at the block, and the block starts right after
      the first page exactly when it is confined. */
  lemma BelowSpot(c: Config, start: nat, need: nat, A: pos, r: Request)
    requires c.Valid() && IsPow2(A) && r.size > 0 && r.protectBelow && start % c.pageSize == 0
    requires need == InternalSize(c.pageSize, A, r.size)
    ensures
      var spot := Place(c, start, need, A, r);
      && spot.user == spot.prot + c.pageSize && start + c.pageSize <= spot.user
      && spot.user + r.size <= start + need
      && spot.user % c.pageSize == 0
      && (Confined(c, A, r, start) <==> spot.user == start + c.pageSize)
  {
    BelowPlacement(c.pageSize, A, start, r.size);
    DivModUnique(c.pageSize, c.pageSize, 1, 0);
    MultipleSum(start, c.pageSize, c.pageSize);
    FirstAligned(c.pageSize, A, start + c.pageSize, UserBelow(c.pageSize, A, start));
  }

  lemma BelowRegions(c: Config, start: nat, need: nat, user: nat)
    requires c.Valid() && start % c.pageSize == 0 && user % c.pageSize == 0 && need % c.pageSize == 0
    requires start <= user && c.pageSize <= need
    ensures Region(c.pageSize, user, need - c.pageSize) == Span(user, user + need - c.pageSize)
    ensures Region(c.pageSize, start, user - start) == Span(start, user)
  {
    MultipleSum(user, start, c.pageSize);
    DivModUnique(c.pageSize, c.pageSize, 1, 0);
    MultipleSum(need, c.pageSize, c.pageSize);
    WholePages(c.pageSize, user, need - c.pageSize);
    WholePages(c.pageSize, start, user - start);
  }

  /** Setting up the pages never fails inside a mapped slot. */
  lemma ProtectSucceeds(c: Config, p: Pages, sl: Slot, need: nat, A: pos, r: Request)
    requires c.Valid() && WellPosed(c, A, r) && SlotOk(c, sl) && sl.state == FREE
    requires need == SlotBytes(c, A, r.size) == sl.internalSize
    requires Confined(c, A, r, sl.internalAddress)
    requires forall b: nat :: Covers(sl, b) ==> b in p.mem
    ensures Protect(c, p, sl.internalAddress, need, Place(c, sl.internalAddress, need, A, r), r).Done?
  {
    var start := sl.internalAddress;
    assert Span(start, start + need) <= p.mem.Keys by {
      forall b: nat | start <= b < start + need ensures b in p.mem { assert Covers(sl, b); }
    }
    if r.size == 0 {
      WholePages(c.pageSize, start, need);
    } else if !r.protectBelow {
      AboveSucceeds(c, p, sl, need, A, r);
    } else {
      BelowSpot(c, start, need, A, r);
      BelowRegions(c, start, need, Place(c, start, need, A, r).user);
    }
  }

  lemma AboveSucceeds(c: Config, p: Pages, sl: Slot, need: nat, A: pos, r: Request)
    requires c.Valid() && WellPosed(c, A, r) && SlotOk(c, sl) && sl.state == FREE
    requires r.size > 0 && !r.protectBelow
    requires need == SlotBytes(c, A, r.size) == sl.internalSize
    requires Span(sl.internalAddress, sl.internalAddress + need) <= p.mem.Keys
    ensures Protect(c, p, sl.internalAddress, need, Place(c, sl.internalAddress, need, A, r), r).Done?
  {
    PlaceMeans(c, sl, need, A, r);
    ProtectAbove(c, Occupied(sl, Place(c, sl.internalAddress, need, A, r), r));
  }

  /** The slack of a block is filled; nothing else of memory changes. */
  lemma InitSlackMeans(c: Config, mem: map<nat, Byte>, x: Slot)
    requires c.pageSize > 0 && BlockOk(c, x)
    ensures
      var m := InitSlack(c, mem, x);
      && m.Keys == mem.Keys
      && (forall b: nat :: b in mem ==> m[b] == if InSlack(x, b) then c.slackFill else mem[b])
      && (forall b: nat :: InSlack(x, b) ==> AccBegin(x) <= b < AccEnd(x) && !InUserBytes(x, b))
  {
  }

  /** What placing a block in slot k does to the rest, and to the slot itself. */
  ghost predicate Placed(c: Config, s: State, s': State, k: nat, A: pos, r: Request, strict: bool) {
    && Sound(c, s')
    && k < |s.slots| == |s'.slots|
    && s' == s.(slots := s.slots[k := s'.slots[k]], pages := s.pages.(mem := s'.pages.mem, open := s'.pages.open))
    && NewBlock(c, s', k, A, r)
    && (forall i :: 0 <= i < |s.slots| && i != k ==> Kept(strict, s, s', i))
    && (strict ==> forall b: nat :: !Covers(s.slots[k], b) && b in s'.pages.open ==> b in s.pages.open)
    && (strict && AllDead(c, s) ==> AllDead(c, s'))
  }

  /** Slot k holds the block asked for: aligned, live bytes accessible, the rest of
      the slot dead, the slack filled. */
  ghost predicate NewBlock(c: Config, s: State, k: nat, A: pos, r: Request) {
    && k < |s.slots| && c.pageSize > 0
    && var x := s.slots[k];
    && x.state == IN_USE && x.allocator == r.allocator && x.userSize == r.size
    && x.fileSource == AllocationSource && x.site == r.site
    && BlockOk(c, x)
    && (r.size > 0 ==> x.userAddress % A == 0 && (r.protectBelow <==> x.protAddress < x.userAddress))
    && (r.size > 0 && !r.protectBelow ==> x.protAddress - (x.userAddress + r.size) < A)
    && (forall b: nat :: Covers(x, b) ==>
          (b in s.pages.open <==> x.userSize > 0 && AccBegin(x) <= b < AccEnd(x)))
    && (forall b: nat :: InSlack(x, b) ==> b in s.pages.mem && s.pages.mem[b] == c.slackFill)
  }

  lemma PlaceKeeps(c: Config, s: State, k: nat, need: nat, A: pos, r: Request, strict: bool)
    requires Sound(c, s) && k < |s.slots| && s.slots[k].state == FREE
    requires WellPosed(c, A, r)
    requires need == SlotBytes(c, A, r.size) == s.slots[k].internalSize
    requires strict ==> Confined(c, A, r, s.slots[k].internalAddress)
    requires PlaceSlot(c, s, k, need, A, r).Done?
    ensures
      var (s', user) := PlaceSlot(c, s, k, need, A, r).value;
      Placed(c, s, s', k, A, r, strict) && user == s'.slots[k].userAddress != 0
  {
    var sl := s.slots[k];
    var spot := Place(c, sl.internalAddress, need, A, r);
    var q := Protect(c, s.pages, sl.internalAddress, need, spot, r).value;
    PlaceMeans(c, sl, need, A, r);
    ProtectMeans(c, s.pages, sl, need, A, r);
    PlaceRecord(c, s, PlaceSlot(c, s, k, need, A, r).value.0, k, q, Occupied(sl, spot, r), A, r, strict);
  }

  /** The record x of a block, its permissions q and its no man's land. */
  lemma PlaceRecord(c: Config, s: State, s': State, k: nat, q: Pages, x: Slot, A: pos, r: Request, strict: bool)
    requires Sound(c, s) && k < |s.slots| && s.slots[k].state == FREE
    requires SlotOk(c, x) && BlockOk(c, x) && Protected(c, s.pages, q, x, strict)
    requires x == s.slots[k].(userAddress := x.userAddress, protAddress := x.protAddress, userSize := r.size, state := IN_USE,
                              allocator := r.allocator, fileSource := AllocationSource, site := r.site)
    requires r.size > 0 ==> x.userAddress % A == 0 && (r.protectBelow <==> x.protAddress < x.userAddress)
    requires r.size > 0 && !r.protectBelow ==> x.protAddress - (x.userAddress + r.size) < A
    requires s' == s.(slots := s.slots[k := x], pages := q.(mem := InitSlack(c, q.mem, x)))
    ensures Placed(c, s, s', k, A, r, strict)
  {
    InitSlackMeans(c, q.mem, x);
    Retag(s.slots, Arena(c, s, 0, 0), k, x);
    assert Arena(c, s', 0, 0) == Arena(c, s, 0, 0);
    SlotMapped(c, s, k);
    forall i | 0 <= i < |s.slots| && i != k ensures Kept(strict, s, s', i) {
      forall b: nat | Covers(s.slots[i], b) ensures !Covers(x, b) && !InSlack(x, b) {
        if Covers(s.slots[k], b) { CoverUnique(s.slots, i, k, b); }
      }
    }
    if strict && AllDead(c, s) {
      PlaceDead(c, s, s', k);
    }
  }

  /** Every byte of a slot is mapped and outside the null block. */
  lemma SlotMapped(c: Config, s: State, k: nat)
    requires Sound(c, s) && k < |s.slots|
    ensures forall b: nat :: Covers(s.slots[k], b) ==> b in s.pages.mem && !InNull(c, s, b)
  {
    forall b: nat | Covers(s.slots[k], b) ensures b in Arena(c, s, 0, 0) {
      assert CoveredBy(s.slots, b);
    }
  }

  lemma PlaceDead(c: Config, s: State, s': State, k: nat)
    requires AllDead(c, s) && Sound(c, s) && k < |s.slots| == |s'.slots|
    requires s'.nullBlock == s.nullBlock && s'.slots[k].state == IN_USE
    requires s'.slots[k].internalAddress == s.slots[k].internalAddress
    requires s'.slots[k].internalSize == s.slots[k].internalSize && s.slots[k].state != EMPTY
    requires forall i :: 0 <= i < |s.slots| && i != k ==> Kept(true, s, s', i)
    requires forall b: nat :: Covers(s'.slots[k], b) ==>
               (b in s'.pages.open <==>
                  s'.slots[k].userSize > 0 && AccBegin(s'.slots[k]) <= b < AccEnd(s'.slots[k]))
    requires forall b: nat :: !Covers(s'.slots[k], b) && b in s'.pages.open ==> b in s.pages.open
    ensures AllDead(c, s')
  {
    SlotMapped(c, s, k);
    forall i, b: nat | 0 <= i < |s'.slots| && MustBeDead(s'.slots[i], b) ensures b !in s'.pages.open {
      if i != k {
        assert Kept(true, s, s', i);
        assert MustBeDead(s.slots[i], b);
      }
    }
    forall b: nat | InNull(c, s', b) ensures b !in s'.pages.open {
      assert !Covers(s.slots[k], b);
    }
  }

  lemma PlaceBooks(s: State, k: nat, x: Slot)
    requires k < |s.slots| && s.slots[k].state == FREE && x.state == IN_USE
    requires x.internalSize == s.slots[k].internalSize
    ensures
      var t := s.slots[k := x];
      && Sum(t, EmptyOne) == Sum(s.slots, EmptyOne)
      && Sum(t, ProtectedKB) == Sum(s.slots, ProtectedKB)
      && Sum(t, HeldKB) == Sum(s.slots, HeldKB)
  {
    SumUpdate(s.slots, k, x, EmptyOne);
    SumUpdate(s.slots, k, x, ProtectedKB);
    SumUpdate(s.slots, k, x, HeldKB);
  }
}
