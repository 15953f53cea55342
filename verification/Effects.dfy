/**
 The exact effect of calls on the records, when it is known which slot serves them;
 and that the program starts.
 */
module Effects {
  import opened Bits
  import opened Placement
  import opened Wrappers
  import opened Pages
  import opened Slots
  import opened Heap
  import opened Invariants
  import opened Placing
  import opened Allocation
  import opened Deallocation
  import opened Calls
  import opened Growth
  import opened Operations
  import opened Initialisation
  import opened Runs
  import opened Theorems
  import opened Detection
  import opened NoFalseAlarm
  import opened Exhaustion

  /** The invariants of a state between calls or right after initialisation in which no
      check finds anything. */
  ghost predicate Steady(c: Config, s: State) {
    c.Valid() && Struct(c, s) && Quiet(c, s)
  }

  lemma AllocateSteady(c: Config, s: State, t: Tls, r: Request, w: State, user: nat)
    requires Steady(c, s) && UserRequest(r) && r.size > 0 && Allocate(c, s, t, r, true) == Done((w, user))
    ensures Steady(c, w) && TableClosed(w)
  {
    var k := AllocateKeeps(c, s, t, r, true, Mode(false, false));
    AllocQuiet(c, s, w, user, k, ChosenAlignment(t, r), r, Mode(false, false));
  }

  // ---- a request served by a free slot ----

  /** Block x of need bytes was carved out of slot k. */
  predicate CarvedTo(s: State, s': State, k: nat, e: Option<nat>, need: nat, x: Slot) {
    && k < |s.slots| == |s'.slots| && (e.Some? ==> e.value < |s.slots|)
    && x.state == IN_USE && x.internalAddress == s.slots[k].internalAddress && x.internalSize == need
    && (if s.slots[k].internalSize <= need then
          s'.slots == s.slots[k := x] && s'.unUsedSlots == s.unUsedSlots
        else
          e.Some? && s'.slots == s.slots[e.value := Remainder(s.slots[k], need)][k := x]
          && s'.unUsedSlots == Take(s.unUsedSlots, 1))
    && SameMapped(s.pages, s'.pages)
  }

  lemma CarveEffect(c: Config, s: State, k: nat, e: Option<nat>, need: nat, A: pos, r: Request, s': State, user: nat)
    requires c.Valid() && k < |s.slots| && Fits(s.slots[k], need) && (e.Some? ==> e.value < |s.slots| && e.value != k)
    requires Carve(c, s, k, e, need, A, r) == Done((s', user))
    ensures CarvedTo(s, s', k, e, need, s'.slots[k]) && s'.slots[k].allocator == r.allocator
    ensures user == s'.slots[k].userAddress
  {}

  /** Opening the table and the periodic check. */
  lemma CheckedSteady(c: Config, s: State) returns (s': State)
    requires Steady(c, s)
    ensures OpenTable(c, s).Done? && CheckFreq(c, OpenTable(c, s).value) == Done(s')
    ensures s' == s.(checkFreqCounter := s'.checkFreqCounter, pages := s.pages.(open := s'.pages.open))
    ensures Steady(c, s') && TableOpen(s')
  {
    var m := Mode(true, false);
    OpenKeeps(c, s, m);
    var s1 := OpenTable(c, s).value;
    CallQuiet(c, s, s1, m, -1, -1);
    CheckFreqQuiet(c, s1);
    s' := CheckFreq(c, s1).value;
    CounterKeeps(c, s1, s'.checkFreqCounter, m);
  }

  /** The block is there, and the state it was taken from was s. */
  predicate Served(s: State, o: Outcome<(State, nat)>, k: nat, e: Option<nat>, need: nat, r: Request) {
    && o.Done? && o.value.1 != 0
    && CarvedTo(s, o.value.0, k, e, need, if k < |o.value.0.slots| then o.value.0.slots[k] else ZERO_SLOT)
    && o.value.0.slots[k].allocator == r.allocator && o.value.0.slots[k].userAddress == o.value.1
  }

  lemma CoreFits(c: Config, s: State, need: nat, A: pos, r: Request, k: nat, e: nat)
    requires Sound(c, s) && BestFit(s.slots, need) == Some(k) && FirstEmpty(s.slots, 0) == Some(e)
    requires WellPosed(c, A, r) && Modest(c, A, r) && need == SlotBytes(c, A, r.size)
    ensures Served(s, Core(c, s, need, A, r), k, Some(e), need, r)
  {
    CarveQuiet(c, s, k, e, need, A, r);
    var (s', user) := Carve(c, s, k, Some(e), need, A, r).value;
    CarveEffect(c, s, k, Some(e), need, A, r, s', user);
    var taken := CarveKeeps(c, s, k, Some(e), need, A, r, Mode(true, false));
  }

  /** What the core did is what the call did. */
  lemma ServedCall(s: State, s1: State, o: Outcome<(State, nat)>, w: Outcome<(State, nat)>, k: nat, e: Option<nat>, need: nat, r: Request)
    requires Served(s1, o, k, e, need, r) && s1.slots == s.slots && s1.unUsedSlots == s.unUsedSlots
    requires SameMapped(s.pages, s1.pages)
    requires w.Done? && w.value.1 == o.value.1 && w.value.0.slots == o.value.0.slots
    requires w.value.0.unUsedSlots == o.value.0.unUsedSlots && SameMapped(o.value.0.pages, w.value.0.pages)
    ensures Served(s, w, k, e, need, r)
  {}

  /** A request that a free slot can serve while records are plenty. */
  lemma AllocateFits(c: Config, s: State, t: Tls, A: pos, r: Request, need: nat, k: nat, e: nat)
    requires Steady(c, s) && s.unUsedSlots >= 7 && GoodRequest(c, t, r) && r.size > 0
    requires A == ChosenAlignment(t, r) && need == SlotBytes(c, A, r.size)
    requires BestFit(s.slots, need) == Some(k) && FirstEmpty(s.slots, 0) == Some(e)
    ensures Served(s, Allocate(c, s, t, r, true), k, Some(e), need, r)
    ensures Steady(c, Allocate(c, s, t, r, true).value.0) && TableClosed(Allocate(c, s, t, r, true).value.0)
  {
    PassesTest(t, r);
    var s1 := CheckedSteady(c, s);
    var o, w := Core(c, s1, need, A, r), Allocate(c, s, t, r, true);
    CoreFits(c, s1, need, A, r, k, e);
    PreparedCore(c, s, s1, A, r);
    ServedCall(s, s1, o, w, k, Some(e), need, r);
    AllocateSteady(c, s, t, r, w.value.0, w.value.1);
  }

  // ---- freeing for ever ----

  /** Slot i is protected, and nothing else happens to the records. */
  predicate RetiredOnly(s: State, s': State, i: nat, site: Site) {
    && i < |s.slots| && s'.slots == s.slots[i := Retired(s.slots[i], site)]
    && s'.unUsedSlots == s.unUsedSlots && SameMapped(s.pages, s'.pages) && s'.lost == s.lost
  }

  lemma ReleaseForever(c: Config, s: State, i: nat, site: Site)
    requires Sound(c, s) && i < |s.slots| && IsLive(s.slots[i]) && c.protectFree < 0
    ensures Release(c, s, i, site).Done? && RetiredOnly(s, Release(c, s, i, site).value, i, site)
  {
    ReleaseKeeps(c, s, i, site, Mode(true, true));
  }

  lemma FreeOpenForever(c: Config, s: State, a: nat, allocator: Allocator, site: Site, i: nat, s1: State)
    requires c.protectFree < 0 && LiveKey(s, a, allocator, i) && TypeOf(allocator) != Internal
    requires CheckFreq(c, s) == Done(s1) && Steady(c, s1)
    requires s1.slots == s.slots && s1.unUsedSlots == s.unUsedSlots && SameMapped(s.pages, s1.pages) && s1.lost == s.lost
    ensures DeallocateOpen(c, s, a, allocator, site).Done?
    ensures RetiredOnly(s, DeallocateOpen(c, s, a, allocator, site).value, i, site)
  {
    LiveUserNonzero(c, s1, i);
    FreeVerdict(c, s1, a, allocator);
    assert LiveKey(s1, a, allocator, i);
    CheckSlotQuiet(c, s1, i);
    ReleaseForever(c, s1, i, site);
  }

  /** PROTECT_FREE < 0: a free of a live block protects its slot, and that is all. */
  lemma FreeForever(c: Config, s: State, a: nat, allocator: Allocator, site: Site, i: nat)
    requires Steady(c, s) && c.protectFree < 0 && LiveKey(s, a, allocator, i) && TypeOf(allocator) != Internal
    ensures Deallocate(c, s, a, allocator, site).Done?
    ensures
      var s' := Deallocate(c, s, a, allocator, site).value;
      RetiredOnly(s, s', i, site) && Steady(c, s') && TableClosed(s')
  {
    LiveUserNonzero(c, s, i);
    NotNullAddr(c, s, i);
    var s1 := CheckedSteady(c, s);
    var s0 := OpenTable(c, s).value;
    FreeOpenForever(c, s0, a, allocator, site, i, s1);
    OpenKeeps(c, s, Mode(true, false));
    var j := DeallocateOpenKeeps(c, s0, a, allocator, site, Mode(true, false));
    CloseKeeps(c, DeallocateOpen(c, s0, a, allocator, site).value, Mode(true, false));
    FreedSteady(c, s, a, allocator, site, Deallocate(c, s, a, allocator, site).value);
  }

  lemma FreedSteady(c: Config, s: State, a: nat, allocator: Allocator, site: Site, s': State)
    requires Steady(c, s) && TypeOf(allocator) != Internal && a != 0 && a != NullAddr(c, s)
    requires Deallocate(c, s, a, allocator, site) == Done(s')
    ensures Steady(c, s') && TableClosed(s')
  {
    var i := DeallocateKeeps(c, s, a, allocator, site, Mode(false, false));
    FreeQuiet(c, s, s', a, allocator, site);
  }

  // ---- the program starts ----

  lemma CreationSizeIsPow2()
    ensures IsPow2(MEMORY_CREATION_SIZE)
  {
    assert IsPow2(2) && IsPow2(4);
    Pow2Product(4, 4);
    Pow2Product(16, 2);
    Pow2Product(32, 32);
    Pow2Product(1024, 1024);
  }

  /** For pages of up to a megabyte the first chunk is a megabyte. */
  lemma InitSizeIs(c: Config)
    requires c.Valid() && c.pageSize <= MEMORY_CREATION_SIZE
    ensures InitSize(c) == MEMORY_CREATION_SIZE && MEMORY_CREATION_SIZE % c.pageSize == 0
  {
    CreationSizeIsPow2();
    Pow2Divides(c.pageSize, MEMORY_CREATION_SIZE);
    AlignUpFixed(MEMORY_CREATION_SIZE, c.pageSize);
  }

  /** Every mapped byte is below top. */
  ghost predicate Below(p: Pages, top: nat) {
    forall b: nat :: b in p.mem ==> b < top
  }

  /** What mmap answers: page 1, page 4, then the rest. */
  function Answers(c: Config, rest: seq<nat>): seq<nat> {
    [c.pageSize, 4 * c.pageSize] + rest
  }

  lemma InitSteady(c: Config, rest: seq<nat>) returns (s: State)
    requires c.Valid() && c.pageSize <= SIZE_MAX / 16
    ensures Init(c, Answers(c, rest)) == Done(s) && Steady(c, s)
    ensures s.slots == InitSlots(c, 4 * c.pageSize) && s.unUsedSlots == c.SlotsPerPage() - 2
    ensures s.pages.answers == rest && s.lost == 0 && Below(s.pages, 4 * c.pageSize + InitSize(c))
  {
    InitSucceeds(c, rest);
    var zero, a;
    s, zero, a := InitPages(c, Answers(c, rest));
    InitInvariants(c, s, zero, a);
    InitPermissions(c, s, zero, a);
    assert SlackIntact(c, s) by {
      forall i | 0 <= i < |s.slots| ensures !IsLive(s.slots[i]) { assert NoUser(s.slots[i]); }
    }
    forall b: nat | b in s.pages.mem ensures b < 4 * c.pageSize + InitSize(c) {
      assert b in Span(zero, zero + 2 * c.pageSize) || b in Span(a, a + InitSize(c));
    }
  }

  lemma SmallNeed(P: nat, A: nat, size: nat)
    requires IsPow2(P) && 0 < size <= P && A <= P
    ensures InternalSize(P, A, size) == 2 * P
  {
    DivModUnique(P, P, 1, 0);
    DivModUnique(0, P, 0, 0);
    AlignUpMeans(size, P);
    var up := AlignUp(size, P);
    if up < P { MultipleGap(0, up, P); }
    if up > P { MultipleGap(P, up, P); }
  }

  lemma StartFits(c: Config, a: nat, need: nat)
    requires c.Valid() && a > 0 && a % c.pageSize == 0 && c.SlotsPerPage() >= 3
    requires 0 < need && need + c.pageSize <= InitSize(c)
    ensures BestFit(InitSlots(c, a), need) == Some(1) && FirstEmpty(InitSlots(c, a), 0) == Some(2)
  {
    InitRecords(c, a);
    var slots := InitSlots(c, a);
    assert Fits(slots[1], need) && slots[2].state == EMPTY;
    var k := BestFit(slots, need);
    assert k.Some? && Fits(slots[k.value], need);
  }

  /** The rest of the first chunk serves the first small request. */
  lemma StartServes(c: Config, s: State, t: Tls, A: pos, r: Request, a: nat, need: nat)
    requires Steady(c, s) && 4 * c.pageSize <= InitSize(c) && c.SlotsPerPage() >= 9
    requires a > 0 && a % c.pageSize == 0 && s.slots == InitSlots(c, a) && s.unUsedSlots == c.SlotsPerPage() - 2
    requires GoodRequest(c, t, r) && 0 < r.size <= c.pageSize && A == ChosenAlignment(t, r) && A <= c.pageSize
    requires need == 2 * c.pageSize
    ensures Served(s, Allocate(c, s, t, r, true), 1, Some(2), need, r)
    ensures Steady(c, Allocate(c, s, t, r, true).value.0) && TableClosed(Allocate(c, s, t, r, true).value.0)
  {
    SmallNeed(c.pageSize, A, r.size);
    StartFits(c, a, need);
    AllocateFits(c, s, t, A, r, need, 1, 2);
  }

  /** A free of a live block of the family returns. */
  lemma FreeReturns(c: Config, s: State, a: nat, allocator: Allocator, site: Site, i: nat)
    requires Steady(c, s) && LiveKey(s, a, allocator, i) && TypeOf(allocator) != Internal
    ensures Deallocate(c, s, a, allocator, site).Done?
  {
    var m := Mode(true, false);
    OpenKeeps(c, s, m);
    var s1 := OpenTable(c, s).value;
    CallQuiet(c, s, s1, m, -1, -1);
    DeallocateOpenQuiet(c, s1, a, allocator, site, i);
    LiveUserNonzero(c, s, i);
    var j := DeallocateOpenKeeps(c, s1, a, allocator, site, m);
    CloseKeeps(c, DeallocateOpen(c, s1, a, allocator, site).value, m);
  }

  lemma StartReturns(c: Config, s: State, t: Tls, A: pos, r: Request, a: nat)
    requires Steady(c, s) && 4 * c.pageSize <= InitSize(c) && c.SlotsPerPage() >= 9
    requires a > 0 && a % c.pageSize == 0 && s.slots == InitSlots(c, a) && s.unUsedSlots == c.SlotsPerPage() - 2
    requires GoodRequest(c, t, r) && 0 < r.size <= c.pageSize && A == ChosenAlignment(t, r) && A <= c.pageSize
    requires TypeOf(r.allocator) == CFamily
    ensures FirstCalls(c, s, t, r).Done?
  {
    StartServes(c, s, t, A, r, a, 2 * c.pageSize);
    var (w, p) := Allocate(c, s, t, r, true).value;
    assert LiveKey(w, p, EFA_FREE, 1);
    FreeReturns(c, w, p, EFA_FREE, UNKNOWN_SITE, 1);
  }

  lemma FirstAlignment(t: Tls)
    ensures ChosenAlignment(t, FirstRequest(t)) <= 123 && FirstRequest(t).size == 123
    ensures TypeOf(FirstRequest(t).allocator) == CFamily
  {}

  /** The program starts: initialisation, the first malloc and the first free return
      whenever mmap gives the null block and the first chunk. */
  lemma BootReturns(c: Config, t: Tls, rest: seq<nat>)
    requires c.Valid() && 4 * c.pageSize <= MEMORY_CREATION_SIZE && c.SlotsPerPage() >= 9
    requires GoodRequest(c, t, FirstRequest(t))
    ensures Boot(c, t, Answers(c, rest)).Done?
  {
    FirstAlignment(t);
    InitSizeIs(c);
    PageSizeAtLeast(c);
    var s := InitSteady(c, rest);
    DivModUnique(4 * c.pageSize, c.pageSize, 4, 0);
    StartReturns(c, s, t, ChosenAlignment(t, FirstRequest(t)), FirstRequest(t), 4 * c.pageSize);
  }

  lemma PageSizeAtLeast(c: Config)
    requires c.Valid()
    ensures c.pageSize >= 1024
  {}
}
