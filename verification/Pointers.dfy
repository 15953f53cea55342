/**
 What a caller can rely on about a pointer it was given: its alignment, its record,
 its contents; and which requests give no pointer.
 */
module Pointers {
  import opened Bits
  import opened Wrappers
  import opened Slots
  import opened Tiling
  import opened Heap
  import opened Invariants
  import opened Placing
  import opened Operations
  import opened Reallocation
  import opened Runs

  /** p has the alignment asked for; if none was asked for, the preset one, or, if the
      block is smaller than that, every power of two up to the block's size. */
  ghost predicate AlignedFor(alignment: nat, preset: pos, size: nat, p: nat) {
    if alignment != 0 then p % alignment == 0
    else if size >= preset then p % preset == 0
    else forall g: pos :: IsPow2(g) && g <= size ==> p % g == 0
  }

  /** Fewer bytes than this follow a block before its dead page. */
  function TailBound(alignment: nat, preset: pos, size: nat): nat {
    if alignment != 0 then alignment else if size >= preset then preset else size
  }

  /** Slot k is the block of `size` bytes at p, with its dead page on the side wanted. */
  predicate BlockFor(s: State, k: nat, p: nat, size: nat, below: bool, allocator: Allocator, site: Site) {
    && k < |s.slots|
    && var x := s.slots[k];
    && x.state == IN_USE && x.userAddress == p && x.userSize == size
    && x.allocator == allocator && x.fileSource == AllocationSource && x.site == site
    && (below <==> x.protAddress < x.userAddress)
  }

  /** In above mode the dead page follows as closely as the alignment allows. */
  predicate TightFor(s: State, k: nat, alignment: nat, preset: pos) {
    && k < |s.slots|
    && var x := s.slots[k];
    x.protAddress >= x.userAddress ==>
      0 <= x.protAddress - (x.userAddress + x.userSize) < TailBound(alignment, preset, x.userSize)
  }

  lemma ChosenAligns(t: Tls, r: Request, A: pos, p: nat)
    requires r.size > 0 && A == ChosenAlignment(t, r) && IsPow2(A) && p % A == 0
    ensures AlignedFor(r.alignment, t.alignment, r.size, p) && A <= TailBound(r.alignment, t.alignment, r.size)
  {
    if r.alignment == 0 && r.size < t.alignment {
      forall g: pos | IsPow2(g) && g <= r.size ensures p % g == 0 {
        LeadingPowerIsGreatest(r.size, g);
        Pow2Divides(g, A);
        MultipleTrans(p, g, A);
      }
    }
  }

  lemma NewBlockFor(c: Config, s: State, k: nat, t: Tls, A: pos, r: Request)
    requires NewBlock(c, s, k, A, r) && r.size > 0 && A == ChosenAlignment(t, r) && IsPow2(A)
    ensures
      var p := s.slots[k].userAddress;
      && AlignedFor(r.alignment, t.alignment, r.size, p)
      && BlockFor(s, k, p, r.size, r.protectBelow, r.allocator, r.site)
      && TightFor(s, k, r.alignment, t.alignment)
  {
    ChosenAligns(t, r, A, s.slots[k].userAddress);
  }

  lemma PassedTest(c: Config, s: State, t: Tls, r: Request, closed: bool)
    requires c.Valid() && r.size > 0 && Allocate(c, s, t, r, closed).Done?
    ensures IsPow2(ChosenAlignment(t, r))
  {
    LowestBitTest(ChosenAlignment(t, r));
  }

  /** A pointer that an allocation gives has the alignment asked for or set, and its
      block the size, side, family and position of the request, and its fill byte. */
  lemma AllocateGives(c: Config, s: State, t: Tls, r: Request, closed: bool, s': State, p: nat) returns (k: nat)
    requires Struct(c, s) && UserRequest(r) && r.size > 0
    requires Allocate(c, s, t, r, closed) == Done((s', p)) && p != 0
    ensures AlignedFor(r.alignment, t.alignment, r.size, p)
    ensures BlockFor(s', k, p, r.size, r.protectBelow, r.allocator, r.site)
    ensures TightFor(s', k, r.alignment, t.alignment)
    ensures r.fill.Some? ==>
              forall b: nat :: p <= b < p + r.size ==> b in s'.pages.mem && s'.pages.mem[b] == r.fill.value
  {
    PassedTest(c, s, t, r, closed);
    k := AllocateKeeps(c, s, t, r, closed, Mode(false, false));
    NewBlockFor(c, s', k, t, ChosenAlignment(t, r), r);
  }

  /** An alignment that is not a power of two is refused, whether asked for or set. A
      preset alignment is not looked at for blocks smaller than it. */
  lemma BadAlignmentStops(c: Config, s: State, t: Tls, r: Request, closed: bool)
    requires c.Valid() && r.size > 0
    requires if r.alignment != 0 then !IsPow2(r.alignment) else r.size >= t.alignment && !IsPow2(t.alignment)
    ensures Allocate(c, s, t, r, closed) == Abort(BadAlignment)
  {
    LowestBitTest(ChosenAlignment(t, r));
  }

  /** What a zero-size request gives: strategy 0 ends the program, 1 gives 0, 3 gives a
      block of its own, and any other the address every such request gets. The C families
      follow one setting, the C++ families the other. */
  lemma ZeroSizeVerdict(c: Config, s: State, t: Tls, r: Request, closed: bool)
    requires c.Valid() && r.size == 0
    ensures
      var cpp := r.allocator in {EFA_NEW_ELEM, EFA_DEL_ELEM, EFA_NEW_ARRAY, EFA_DEL_ARRAY, EFA_MEMBER_NEW_ELEM,
                                 EFA_MEMBER_DEL_ELEM, EFA_MEMBER_NEW_ARRAY, EFA_MEMBER_DEL_ARRAY};
      var strategy := if cpp then c.new0Strategy else c.malloc0Strategy;
      var o := Allocate(c, s, t, r, closed);
      && (strategy == 0 ==> o == Abort(ZeroSize))
      && (strategy == 1 ==> o == Done((s, 0)))
      && (strategy != 0 && strategy != 1 && strategy != 3 ==> o == Done((s, s.nullBlock + c.pageSize)))
  {}

  /** ... and the block of its own is a page nobody may touch, pointed at in its middle. */
  lemma ZeroSizeBlock(c: Config, s: State, t: Tls, r: Request, closed: bool, s': State, p: nat) returns (k: nat)
    requires Struct(c, s) && UserRequest(r) && r.size == 0 && ZeroStrategy(c, r.allocator) == 3
    requires Allocate(c, s, t, r, closed) == Done((s', p)) && p != 0
    ensures BlockFor(s', k, p, 0, true, r.allocator, r.site)
    ensures
      var x := s'.slots[k];
      && x.internalSize == c.pageSize && p == x.internalAddress + c.pageSize / 2
      && forall b: nat :: x.internalAddress <= b < x.internalAddress + c.pageSize ==>
           b in s'.pages.mem && b !in s'.pages.open
  {
    k := AllocateKeeps(c, s, t, r, closed, Mode(false, false));
    SlotMapped(c, s', k);
    var x := s'.slots[k];
    forall b: nat | x.internalAddress <= b < x.internalAddress + c.pageSize
      ensures b in s'.pages.mem && b !in s'.pages.open
    {
      assert Covers(x, b);
    }
  }

  // ---- realloc ----

  /** The pointer of a realloc that allocates has the preset alignment, its dead page is
      on the side set, and its record is that of a realloc. From 0 it holds the fill
      byte that is set; otherwise what the old block held, then zeros. */
  lemma ReallocGives(c: Config, s: State, t: Tls, prev: nat, size: nat, site: Site, s': State, p: nat) returns (k: nat)
    requires Struct(c, s) && size > 0 && (prev == 0 || prev in LiveMap(s))
    requires Realloc(c, s, t, prev, size, site) == Done((s', p)) && p != 0
    ensures AlignedFor(0, t.alignment, size, p)
    ensures BlockFor(s', k, p, size, t.protectBelow, EFA_REALLOC, site)
    ensures TightFor(s', k, 0, t.alignment)
    ensures prev == 0 && t.fill.Some? ==>
              forall b: nat :: p <= b < p + size ==> b in s'.pages.mem && s'.pages.mem[b] == t.fill.value
    ensures prev != 0 ==> Reallocated(s, s', prev, LiveMap(s)[prev].size, p, size)
  {
    var m := Mode(false, false);
    var i, k0 := ReallocKeeps(c, s, t, prev, size, site, m);
    var r := ReallocRequest(t, size, if prev == 0 then t.fill else None, site);
    ReallocPassed(c, s, t, prev, size, site, r);
    var A := ChosenAlignment(t, r);
    if prev == 0 {
      k := ReallocNew(c, s, s', p, size, t, site, i, k0, r, m);
    } else {
      k := ReallocFrom(c, s, s', p, prev, size, t, site, i, k0, r, m);
    }
    NewBlockFor(c, s', k, t, A, r);
  }

  lemma ReallocPassed(c: Config, s: State, t: Tls, prev: nat, size: nat, site: Site, r: Request)
    requires c.Valid() && size > 0 && Realloc(c, s, t, prev, size, site).Done?
    requires r == ReallocRequest(t, size, if prev == 0 then t.fill else None, site)
    ensures IsPow2(ChosenAlignment(t, r))
  {
    PassedTest(c, OpenTable(c, s).value, t, r, false);
  }

  lemma ReallocNew(c: Config, s: State, s': State, p: nat, size: nat, t: Tls, site: Site, i: int, k: int, r: Request, m: Mode)
    returns (k': nat)
    requires Struct(c, s) && p != 0 && size > 0 && r == ReallocRequest(t, size, t.fill, site)
    requires ReallocResult(c, s, s', p, 0, size, t, site, i, k, m)
    ensures NewBlock(c, s', k', ChosenAlignment(t, r), r) && s'.slots[k'].userAddress == p && Filled(s', p, r)
  {
    k' := k;
  }

  lemma ReallocFrom(c: Config, s: State, s': State, p: nat, prev: nat, size: nat, t: Tls, site: Site, i: int, k: int, r: Request, m: Mode)
    returns (k': nat)
    requires Struct(c, s) && prev in LiveMap(s) && p != 0 && size > 0 && r == ReallocRequest(t, size, None, site)
    requires ReallocResult(c, s, s', p, prev, size, t, site, i, k, m)
    ensures NewBlock(c, s', k', ChosenAlignment(t, r), r) && s'.slots[k'].userAddress == p
    ensures Reallocated(s, s', prev, LiveMap(s)[prev].size, p, size)
  {
    var j := LiveMapSlot(c, s, prev);
    assert !OwnBlock(c, s, s', p, prev, k, m);
    LiveUserNonzero(c, s, j);
    UserAddressesDiffer(c, s, i, j);
    k' := k;
  }
}
