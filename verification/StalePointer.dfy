/**
 realloc of a pointer that is not live: exactly when it goes unnoticed.
 */
module StalePointer {
  import opened Bits
  import opened Wrappers
  import opened Pages
  import opened Slots
  import opened Heap
  import opened Invariants
  import opened Placing
  import opened Deallocation
  import opened Calls
  import opened Growth
  import opened Operations
  import opened Reallocation
  import opened Runs
  import opened Detection
  import opened NoFalseAlarm
  import opened Exhaustion
  import opened Effects
  import opened Wrap

  /** The allocation inside a realloc of `prev` to `size` bytes; it does not depend on
      `prev`. */
  function Inner(c: Config, s: State, t: Tls, size: nat, site: Site): Outcome<(State, nat)>
    requires c.Valid()
  {
    var s1 :- OpenTable(c, s);
    Allocate(c, s1, t, ReallocRequest(t, size, None, site), false)
  }

  /** A realloc that returns a pointer for one that is not live returns that very
      pointer, which the inner allocation gave. */
  lemma ReturnsOwn(c: Config, s: State, t: Tls, prev: nat, size: nat, site: Site)
    requires Between(c, s) && prev != 0 && prev !in LiveMap(s) && size > 0
    requires Realloc(c, s, t, prev, size, site).Done? && Realloc(c, s, t, prev, size, site).value.1 != 0
    ensures Realloc(c, s, t, prev, size, site).value.1 == prev
    ensures Inner(c, s, t, size, site).Done? && Inner(c, s, t, size, site).value.1 == prev
  {
    var i, k := ReallocKeeps(c, s, t, prev, size, site, Mode(false, false));
    if i != k { LiveMapAt(c, s, i); }
  }

  /** The periodic check finds nothing: it is switched off, or no no man's land is
      damaged. */
  ghost predicate Unalarmed(c: Config, s: State) {
    c.checkFreq == 0 || Quiet(c, s)
  }

  lemma UnalarmedCheck(c: Config, s: State)
    requires Sound(c, s) && Unalarmed(c, s)
    ensures CheckFreq(c, s).Done?
  {
    if c.checkFreq != 0 { CheckFreqQuiet(c, s); }
  }

  /** The free inside a realloc accepts the block that was allocated just before. */
  lemma OwnFree(c: Config, s: State, k: nat, A: pos, r: Request, site: Site)
    requires Struct(c, s) && Unalarmed(c, s) && UserRequest(r) && TypeOf(r.allocator) == CFamily
    requires NewBlock(c, s, k, A, r)
    ensures s.slots[k].userAddress != 0 && s.slots[k].userAddress != NullAddr(c, s)
    ensures DeallocateOpen(c, s, s.slots[k].userAddress, EFA_REALLOC, site).Done?
  {
    UnalarmedCheck(c, s);
    var s1, a := CheckFreq(c, s).value, s.slots[k].userAddress;
    CounterKeeps(c, s, s1.checkFreqCounter, Mode(true, false));
    LiveUserNonzero(c, s1, k);
    NotNullAddr(c, s, k);
    assert SlotOk(c, s.slots[k]);
    NewBlockOpen(c, s, k, A, r);
    CheckSlackVerdict(c, s, k);
    FreeVerdict(c, s1, a, EFA_REALLOC);
    assert LiveKey(s1, a, EFA_REALLOC, k);
    ReleaseKeeps(c, s1, k, site, Mode(true, false));
  }

  /** Copying the new block onto itself. */
  lemma OwnCopy(c: Config, s: State, user: nat, k: nat, A: pos, r: Request) returns (s': State)
    requires Struct(c, s) && Unalarmed(c, s) && NewBlock(c, s, k, A, r) && user == s.slots[k].userAddress
    requires r.size > 0 && UserRequest(r)
    ensures MoveContents(s, user, r.size, user, r.size) == Done(s')
    ensures Struct(c, s') && Unalarmed(c, s') && NewBlock(c, s', k, A, r) && s'.slots == s.slots
    ensures s'.nullBlock == s.nullBlock
  {
    NewBlockBytes(c, s, k, A, r);
    s' := MoveContents(s, user, r.size, user, r.size).value;
    MoveContentsMeans(c, s, user, r.size, k, r.size);
    WrittenKeeps(c, s, s', k, Mode(true, false));
    WrittenBlock(c, s, s', k, A, r);
    if c.checkFreq != 0 { WrittenQuiet(c, s, s', k); }
  }

  /** The second half of a realloc to the block it has just allocated. */
  lemma OwnMove(c: Config, s: State, user: nat, k: nat, A: pos, r: Request, site: Site) returns (s': State)
    requires Struct(c, s) && Unalarmed(c, s) && NewBlock(c, s, k, A, r) && user == s.slots[k].userAddress != 0
    requires r.size > 0 && UserRequest(r) && TypeOf(r.allocator) == CFamily
    ensures ReallocMove(c, s, user, user, r.size, site) == Done(s') && Struct(c, s')
  {
    LookupFinds(c, s, k);
    var s2 := OwnCopy(c, s, user, k, A, r);
    OwnFree(c, s2, k, A, r, site);
    s' := DeallocateOpen(c, s2, user, EFA_REALLOC, site).value;
    var i := DeallocateOpenKeeps(c, s2, user, EFA_REALLOC, site, Mode(true, false));
  }

  /** The allocation inside the realloc. */
  lemma InnerKeeps(c: Config, s: State, t: Tls, size: nat, site: Site, s2: State, user: nat)
    returns (s1: State, k: nat)
    requires Between(c, s) && Unalarmed(c, s) && size > 0 && user != 0
    requires Inner(c, s, t, size, site) == Done((s2, user))
    ensures OpenTable(c, s) == Done(s1) && Allocate(c, s1, t, ReallocRequest(t, size, None, site), false) == Done((s2, user))
    ensures
      var r := ReallocRequest(t, size, None, site);
      Struct(c, s2) && Unalarmed(c, s2) && NewBlock(c, s2, k, ChosenAlignment(t, r), r)
      && user == s2.slots[k].userAddress && Unused(s, Mode(false, false), user)
  {
    var m, r := Mode(false, false), ReallocRequest(t, size, None, site);
    OpenKeeps(c, s, m);
    s1 := OpenTable(c, s).value;
    k := AllocateKeeps(c, s1, t, r, false, m);
    NewPointer(c, s1, s2, user, k, ChosenAlignment(t, r), r, m);
    if c.checkFreq != 0 {
      CallQuiet(c, s, s1, m, -1, -1);
      AllocQuiet(c, s1, s2, user, k, ChosenAlignment(t, r), r, m);
    }
  }

  /** A pointer that the inner allocation gives is accepted, although it is not live. */
  lemma AcceptsOwn(c: Config, s: State, t: Tls, s2: State, prev: nat, size: nat, site: Site)
    requires Between(c, s) && Unalarmed(c, s) && prev != 0 && size > 0
    requires Inner(c, s, t, size, site) == Done((s2, prev))
    ensures prev !in LiveMap(s)
    ensures Realloc(c, s, t, prev, size, site).Done? && Realloc(c, s, t, prev, size, site).value.1 == prev
  {
    var r := ReallocRequest(t, size, None, site);
    var s1, k := InnerKeeps(c, s, t, size, site, s2, prev);
    UnusedPointer(c, s, Mode(false, false), prev);
    var s3 := OwnMove(c, s2, prev, k, ChosenAlignment(t, r), r, site);
    CloseKeeps(c, s3, Mode(false, false));
    assert ReallocOpen(c, s1, t, prev, size, site) == Done((s3, prev));
  }

  /** Of the pointers that are not live, realloc to a positive size accepts exactly one:
      the address its inner allocation gets, which the state before the call determines.
      It frees the new block at once and returns its address. */
  lemma StaleVerdict(c: Config, s: State, t: Tls, prev: nat, size: nat, site: Site)
    requires Between(c, s) && Unalarmed(c, s) && prev != 0 && prev !in LiveMap(s) && size > 0
    ensures
      var q, o := Realloc(c, s, t, prev, size, site), Inner(c, s, t, size, site);
      && (q.Done? && q.value.1 != 0 <==> o.Done? && o.value.1 == prev)
      && (q.Done? && q.value.1 != 0 ==> q.value.1 == prev && LiveMap(q.value.0) == LiveMap(s))
  {
    var q, o := Realloc(c, s, t, prev, size, site), Inner(c, s, t, size, site);
    if q.Done? && q.value.1 != 0 {
      ReturnsOwn(c, s, t, prev, size, site);
      RefineRealloc(c, s, t, prev, size, site);
    }
    if o.Done? && o.value.1 == prev { AcceptsOwn(c, s, t, o.value.0, prev, size, site); }
  }

  // ---- a witness ----

  lemma InnerCore(c: Config, s: State, s1: State, t: Tls, site: Site, A: pos, r: Request, s2: State, user: nat)
    requires c.Valid() && OpenTable(c, s) == Done(s1) && r == ReallocRequest(t, r.size, None, site)
    requires r.size > 0 && A == ChosenAlignment(t, r) && A == LowestBit(A)
    requires AllocateOpen(c, s1, A, r) == Done((s2, user))
    ensures Inner(c, s, t, r.size, site) == Done((s2, user))
  {}

  /** A realloc to one byte from a table with one free slot: its inner allocation is
      served by that slot, and its pointer was never handed out before. */
  lemma SmallInner(c: Config, s: State, t: Tls, r: Request, site: Site, f: nat, size: nat, need: nat) returns (p: nat)
    requires Steady(c, s) && TableClosed(s) && s.unUsedSlots >= 7 && Sum(s.slots, EmptyOne) >= 2
    requires OneFree(s.slots, f, size) && need == 2 * c.pageSize <= size && c.maxAlloc <= 0
    requires r == ReallocRequest(t, r.size, None, site) && 0 < r.size <= c.pageSize && ChosenAlignment(t, r) == 1
    ensures Inner(c, s, t, r.size, site).Done? && Inner(c, s, t, r.size, site).value.1 == p != 0
    ensures forall i :: 0 <= i < |s.slots| && !NoUser(s.slots[i]) ==> s.slots[i].userAddress != p
  {
    PassesTest(t, r);
    SmallNeed(c.pageSize, 1, r.size);
    var s0, s2, e;
    s0, s2, p, e := SmallOpen(c, s, r, f, size, need);
    InnerCore(c, s, s0, t, site, 1, r, s2, p);
    var s1, k := InnerKeeps(c, s, t, r.size, site, s2, p);
    NeverIssued(c, s, s2, f, e, p);
  }

  lemma SmallOpen(c: Config, s: State, r: Request, f: nat, size: nat, need: nat)
    returns (s0: State, s2: State, p: nat, e: nat)
    requires c.Valid() && Steady(c, s) && s.unUsedSlots >= 7 && Sum(s.slots, EmptyOne) >= 2
    requires OneFree(s.slots, f, size) && need <= size
    requires r.size > 0 && UserRequest(r) && need == SlotBytes(c, 1, r.size)
    ensures OpenTable(c, s) == Done(s0) && AllocateOpen(c, s0, 1, r) == Done((s2, p))
    ensures f < |s.slots| == |s2.slots| && e < |s.slots| && p == s2.slots[f].userAddress != 0
    ensures s.slots[f].state == FREE && s.slots[e].state == EMPTY
    ensures forall i :: 0 <= i < |s.slots| && i != f && i != e ==> s2.slots[i] == s.slots[i]
  {
    e := OnlyFit(s.slots, f, size, need);
    var s1 := CheckedSteady(c, s);
    s0 := OpenTable(c, s).value;
    CoreFits(c, s1, need, 1, r, f, e);
    var o := Core(c, s1, need, 1, r);
    s2, p := o.value.0, o.value.1;
    ServedOthers(s, s1, o, f, e, need, r);
    PreparedOpen(c, s, s0, s1, 1, r);
  }

  lemma ServedOthers(s: State, s1: State, o: Outcome<(State, nat)>, f: nat, e: nat, need: nat, r: Request)
    requires Served(s1, o, f, Some(e), need, r) && s1.slots == s.slots
    ensures f < |s.slots| == |o.value.0.slots| && o.value.1 == o.value.0.slots[f].userAddress != 0
    ensures forall i :: 0 <= i < |s.slots| && i != f && i != e ==> o.value.0.slots[i] == s.slots[i]
  {}

  lemma NeverIssued(c: Config, s: State, s': State, f: nat, e: nat, p: nat)
    requires Sound(c, s') && f < |s.slots| == |s'.slots| && e < |s.slots| && p == s'.slots[f].userAddress != 0
    requires s.slots[f].state == FREE && s.slots[e].state == EMPTY
    requires forall i :: 0 <= i < |s.slots| && i != f && i != e ==> s'.slots[i] == s.slots[i]
    ensures forall i :: 0 <= i < |s.slots| && !NoUser(s.slots[i]) ==> s.slots[i].userAddress != p
  {
    forall i | 0 <= i < |s.slots| && !NoUser(s.slots[i]) ensures s.slots[i].userAddress != p {
      if s.slots[i].userAddress == p { UserAddressesDiffer(c, s', i, f); }
    }
  }

  lemma OneByte(t: Tls, site: Site)
    ensures ChosenAlignment(t, ReallocRequest(t, 1, None, site)) == 1
  {}

  /** In the state in which the program starts no block is live, and realloc accepts a
      pointer that was never handed out: the only one that was belongs to a protected
      slot. */
  lemma NeverIssuedAccepted(c: Config, t: Tls, site: Site) returns (s: State, p: nat)
    requires c.Valid() && Unlucky(c) && SmallPages(c) && c.SlotsPerPage() >= 10 && GoodRequest(c, t, FirstRequest(t))
    ensures Boot(c, t, Answers(c, [])) == Done(s) && NoneLive(s.slots)
    ensures p != 0 && forall i :: 0 <= i < |s.slots| && IsProtected(s.slots[i]) ==> s.slots[i].userAddress != p
    ensures Realloc(c, s, t, p, 1, site).Done? && Realloc(c, s, t, p, 1, site).value.1 == p
  {
    s := BootStage(c, t, []);
    OneByte(t, site);
    var r := ReallocRequest(t, 1, None, site);
    PageSizeAtLeast(c);
    p := SmallInner(c, s, t, r, site, 2, MEMORY_CREATION_SIZE - 3 * c.pageSize, 2 * c.pageSize);
    AcceptsOwn(c, s, t, Inner(c, s, t, 1, site).value.0, p, 1, site);
  }

  // ---- duma_check ----

  /** Every byte of [lo, hi) is accessible and holds the fill byte. */
  predicate Holding(p: Pages, lo: nat, hi: int, fill: Byte) {
    forall b: nat {:trigger b in p.open} :: lo <= b < hi ==> b in p.open && b in p.mem && p.mem[b] == fill
  }

  lemma HoldingFirst(p: Pages, lo: nat, hi: int, fill: Byte)
    requires lo < hi
    ensures Holding(p, lo, hi, fill) <==> lo in p.open && lo in p.mem && p.mem[lo] == fill && Holding(p, lo + 1, hi, fill)
  {
    if lo in p.open && lo in p.mem && p.mem[lo] == fill && Holding(p, lo + 1, hi, fill) {
      forall b: nat | lo <= b < hi ensures b in p.open && b in p.mem && p.mem[b] == fill {
        if b > lo { assert lo + 1 <= b; }
      }
    }
  }

  lemma {:induction false} ScanNone(p: Pages, lo: nat, hi: int, fill: Byte, bad: Reason)
    ensures Scan(p, lo, hi, fill, bad).None? <==> Holding(p, lo, hi, fill)
    decreases hi - lo
  {
    if lo < hi {
      HoldingFirst(p, lo, hi, fill);
      ScanNone(p, lo + 1, hi, fill, bad);
    }
  }

  /** The check of a free slot reads from the end its record gives it up to wherever a
      stale protAddress points. */
  predicate FreePasses(c: Config, p: Pages, sl: Slot) {
    sl.userSize > 0 ==> Holding(p, sl.userAddress + sl.userSize, AccEnd(sl), c.slackFill)
  }

  lemma FreeSlotVerdict(c: Config, p: Pages, sl: Slot)
    requires c.Valid() && SlotOk(c, sl) && sl.state == FREE && sl.userAddress != 0
    ensures CheckSlack(c, p, sl).None? <==> FreePasses(c, p, sl)
  {
    ScanNone(p, sl.userAddress + sl.userSize, AccEnd(sl), c.slackFill, SlackAbove);
  }

  /** Slot i passes the check: a block with its no man's land intact, the table, or a
      free slot that happens to scan well. */
  ghost predicate Passes(c: Config, s: State, p: Pages, i: nat)
    requires i < |s.slots|
  {
    || (IsLive(s.slots[i]) && SlackOk(c, s, i))
    || IsTable(s.slots[i])
    || (s.slots[i].state == FREE && FreePasses(c, p, s.slots[i]))
  }

  lemma SlotVerdict(c: Config, s: State, s1: State, a: nat, i: nat)
    requires Between(c, s) && Struct(c, s1) && CallOk(c, s, s1, Mode(true, false), -1, -1)
    requires s1 == s.(pages := s.pages.(open := s1.pages.open))
    requires a != 0 && i < |s.slots| && s.slots[i].userAddress == a
    ensures CheckOpen(c, s1, a).Done? <==> Passes(c, s, s1.pages, i)
  {
    LookupFinds(c, s1, i);
    var sl := s.slots[i];
    assert SlotOk(c, sl);
    if IsLive(sl) {
      assert LiveOpen(s, i) && Kept(true, s, s1, i);
      LivePartCovered(c, sl);
      CheckSlackVerdict(c, s1, i);
    } else if IsTable(sl) {
      TableHasNoSlack(c, s1.pages, sl);
    } else if sl.state == FREE {
      FreeSlotVerdict(c, s1.pages, sl);
    }
  }

  /** `duma_check` returns exactly for 0 and for the addresses of slots that pass: not
      only live blocks do, the table and free slots may too. */
  lemma CheckVerdict(c: Config, s: State, a: nat)
    requires Between(c, s)
    ensures OpenTable(c, s).Done?
    ensures
      Check(c, s, a).Done? <==>
      a == 0 ||
      exists i :: 0 <= i < |s.slots| && s.slots[i].userAddress == a && Passes(c, s, OpenTable(c, s).value.pages, i)
  {
    var m := Mode(true, false);
    OpenKeeps(c, s, m);
    var s1 := OpenTable(c, s).value;
    CloseKeeps(c, s1, m);
    var r := SlotForUser(s.slots, a);
    if a != 0 && r.Some? {
      SlotVerdict(c, s, s1, a, r.value);
      forall i | 0 <= i < |s.slots| && s.slots[i].userAddress == a ensures i == r.value {
        UserAddressesDiffer(c, s, i, r.value);
      }
    }
  }

  /** The table's own address always passes. */
  lemma TablePasses(c: Config, s: State)
    requires Between(c, s)
    ensures Check(c, s, s.allocList).Done? && s.allocList !in LiveMap(s)
  {
    var t := TableIndex(c, s);
    CheckVerdict(c, s, s.allocList);
    assert Passes(c, s, OpenTable(c, s).value.pages, t);
    if s.allocList in LiveMap(s) {
      var i := LiveMapSlot(c, s, s.allocList);
      UserAddressesDiffer(c, s, i, t);
    }
  }
}
