/**
 What every state of the allocator satisfies, and the frame relation that says
 which slots a call leaves alone.
 */
module Invariants {
  import opened Bits
  import opened Placement
  import opened Wrappers
  import opened Pages
  import opened Slots
  import opened Tiling
  import opened Heap

  // ---- records ----

  /** A block of a user family inside its slot. A zero-size block is the middle of
      one dead page; above mode leaves at least a dead page from protAddress to the
      slot's end, less than a page behind the block; below mode the page from
      protAddress to the block. */
  predicate BlockOk(c: Config, sl: Slot)
    requires c.pageSize > 0
  {
    if sl.userSize == 0 then
      && sl.internalSize == c.pageSize
      && sl.protAddress == sl.internalAddress
      && sl.userAddress == sl.internalAddress + c.pageSize / 2
    else if sl.protAddress < sl.userAddress then
      && sl.internalAddress <= sl.protAddress
      && sl.protAddress + c.pageSize == sl.userAddress
      && sl.userAddress % c.pageSize == 0
      && sl.userAddress + sl.userSize <= End(sl)
    else
      && sl.internalAddress <= sl.userAddress
      && sl.userAddress + sl.userSize <= sl.protAddress <= End(sl) - c.pageSize
      && sl.protAddress % c.pageSize == 0
      && sl.protAddress - (sl.userAddress + sl.userSize) < c.pageSize
  }

  /** Non-EMPTY slots hold whole pages, their user address lies inside them, and a
      FREE slot is always tagged as internal. */
  predicate SlotOk(c: Config, sl: Slot)
    requires c.pageSize > 0
  {
    if sl.state == EMPTY then
      sl.internalAddress == 0 && sl.userAddress == 0 && sl.internalSize == 0 && sl.userSize == 0
      && sl.allocator == EFA_INT_ALLOC
    else
      && 0 < sl.internalAddress && sl.internalAddress % c.pageSize == 0
      && 0 < sl.internalSize && sl.internalSize % c.pageSize == 0
      && (sl.state == FREE ==>
            sl.allocator == EFA_INT_ALLOC && (sl.userAddress == 0 || sl.userAddress == sl.internalAddress))
      && (sl.state == IN_USE && TypeOf(sl.allocator) != Internal ==> BlockOk(c, sl))
      && (sl.state == IN_USE && TypeOf(sl.allocator) == Internal ==>
            sl.allocator == EFA_INT_ALLOC && sl.userAddress == sl.internalAddress
            && ((sl.protAddress == 0 && sl.userSize == sl.internalSize)
                || (sl.protAddress == sl.userAddress + sl.userSize && sl.userSize <= sl.internalSize)))
      && (IsProtected(sl) ==>
            TypeOf(sl.allocator) != Internal && sl.internalAddress <= sl.userAddress < End(sl))
  }

  ghost predicate SlotsOk(c: Config, s: State)
    requires c.pageSize > 0
  {
    forall i :: 0 <= i < |s.slots| ==> SlotOk(c, s.slots[i])
  }

  // ---- memory ----

  predicate InNull(c: Config, s: State, b: nat) {
    s.nullBlock <= b < s.nullBlock + 2 * c.pageSize
  }

  /** Mapped bytes outside the null block and outside [lo, lo + n). */
  function Arena(c: Config, s: State, lo: nat, n: nat): set<nat> {
    set b | b in s.pages.mem && !InNull(c, s, b) && !(lo <= b < lo + n)
  }

  /** The non-EMPTY slots are disjoint and their union is exactly the memory
      obtained from Page_Create and not yet given to Page_Delete, except for the
      null block and a chunk [lo, lo + n) about to be entered. */
  ghost predicate Layout(c: Config, s: State, lo: nat, n: nat) {
    && Tiles(s.slots, Arena(c, s, lo, n))
    && s.pages.open <= s.pages.mem.Keys
    && s.nullBlock > 0
    && (forall b: nat :: b in s.pages.mem ==> b < SIZE_MAX)
    && (forall b: nat :: InNull(c, s, b) ==> b in s.pages.mem)
    && (forall b: nat :: lo <= b < lo + n ==> b in s.pages.mem && !InNull(c, s, b))
  }

  ghost predicate Sound(c: Config, s: State) {
    c.Valid() && SlotsOk(c, s) && Layout(c, s, 0, 0)
  }

  // ---- counters ----

  /** By how much the booked protected memory exceeds the real one. */
  function Drift(s: State): int {
    s.sumProtectedMem - Sum(s.slots, ProtectedKB)
  }

  /** The books: the booked protected memory exceeds the real one by exactly what
      failed reductions released, and respects PROTECT_FREE; and the booked total
      (plus the first chunk, which is never booked) exceeds what the slots hold by
      the same amount. */
  ghost predicate Accounts(c: Config, s: State)
    requires c.Valid()
  {
    && Drift(s) == s.lost
    && s.sumAllocatedMem + KB(InitSize(c)) - Sum(s.slots, HeldKB) == Drift(s)
    && (c.protectFree > 0 ==> s.sumProtectedMem <= c.protectFree)
  }

  /** A step that protects nothing: the books move with the memory, except for what
      failed reductions release. */
  ghost predicate BooksFollow(s: State, s': State) {
    && Drift(s') - s'.lost == Drift(s) - s.lost
    && s.lost <= s'.lost
    && s'.sumProtectedMem <= s.sumProtectedMem
    && s'.sumAllocatedMem - Sum(s'.slots, HeldKB) - Drift(s') ==
       s.sumAllocatedMem - Sum(s.slots, HeldKB) - Drift(s)
  }

  /** No MAX_ALLOC limit, and no mmap call failed from s to s'. */
  predicate Unlimited(c: Config, s: State, s': State) {
    c.maxAlloc <= 0 && s'.pages.failed == s.pages.failed
  }

  /** The bytes of the table behind its last record are 0. */
  ghost predicate ZeroTail(c: Config, s: State) {
    AllZero(s.pages.mem, s.allocList + |s.slots| * c.slotSize, s.allocList + s.allocListSize)
  }

  /** Every page of the table adds the same number of records. */
  predicate TableShape(c: Config, s: State) {
    c.slotSize > 0 && |s.slots| * c.pageSize == c.SlotsPerPage() * s.allocListSize
  }

  /** The records fit into the table's memory, and nothing was written behind them. */
  ghost predicate Supply(c: Config, s: State) {
    && |s.slots| * c.slotSize <= s.allocListSize
    && TableShape(c, s)
    && ZeroTail(c, s)
    && 0 < s.allocListSize
    && 0 < s.allocList
  }

  /** The supply counter never promises more than there is. */
  ghost predicate Counted(s: State) {
    s.unUsedSlots <= Sum(s.slots, EmptyOne)
  }

  // ---- the table's own slot ----

  /** Slot t describes the table itself and is the only internal one in use. */
  predicate IsTableSlot(s: State, t: nat) {
    && t < |s.slots|
    && IsTable(s.slots[t])
    && s.slots[t].internalAddress == s.slots[t].userAddress == s.allocList
    && s.slots[t].userSize == s.allocListSize
  }

  ghost predicate HasTable(c: Config, s: State)
    requires c.pageSize > 0
  {
    && s.allocListSize % c.pageSize == 0
    && s.allocList % c.pageSize == 0
    && (exists t :: IsTableSlot(s, t))
    && (forall i :: 0 <= i < |s.slots| && IsTable(s.slots[i]) ==> IsTableSlot(s, i))
  }

  /** The structural invariant of every state between and inside calls. */
  ghost predicate Struct(c: Config, s: State) {
    && Sound(c, s)
    && Accounts(c, s)
    && Supply(c, s)
    && HasTable(c, s)
  }

  // ---- permissions ----

  /** The live part of a block is accessible. */
  predicate LiveOpen(s: State, i: nat)
    requires i < |s.slots|
  {
    var sl := s.slots[i];
    IsLive(sl) && sl.userSize > 0 ==> forall b: nat :: AccBegin(sl) <= b < AccEnd(sl) ==> b in s.pages.open
  }

  ghost predicate AllLiveOpen(s: State) {
    forall i :: 0 <= i < |s.slots| ==> LiveOpen(s, i)
  }

  /** All no man's land bytes of block i still hold the fill byte. */
  ghost predicate SlackOk(c: Config, s: State, i: nat) {
    && i < |s.slots|
    && forall b: nat :: InSlack(s.slots[i], b) ==> b in s.pages.mem && s.pages.mem[b] == c.slackFill
  }

  /** The bytes of a slot nobody may touch: the dead pages of a block, and every
      byte of freed memory that is still protected. */
  predicate MustBeDead(sl: Slot, b: nat) {
    && Covers(sl, b)
    && (IsProtected(sl) || (IsLive(sl) && (sl.userSize == 0 || !(AccBegin(sl) <= b < AccEnd(sl)))))
  }

  ghost predicate AllDead(c: Config, s: State) {
    && (forall i, b: nat :: 0 <= i < |s.slots| && MustBeDead(s.slots[i], b) ==> b !in s.pages.open)
    && (forall b: nat :: InNull(c, s, b) ==> b !in s.pages.open)
  }

  ghost predicate TableOpen(s: State) {
    forall b: nat :: s.allocList <= b < s.allocList + s.allocListSize ==> b in s.pages.open
  }

  ghost predicate TableClosed(s: State) {
    forall b: nat :: s.allocList <= b < s.allocList + s.allocListSize ==> b !in s.pages.open
  }

  // ---- frames ----

  /** `strict`: dead bytes stay dead too; `prot`: protected slots are kept too. */
  datatype Mode = Mode(strict: bool, prot: bool)

  predicate Busy(m: Mode, sl: Slot) {
    sl.state == IN_USE || (m.prot && IsProtected(sl))
  }

  /** The pages and contents of slot `sl` are the same; without `strict`, a dead
      byte of it may have become accessible. */
  ghost predicate SamePages(strict: bool, p: Pages, q: Pages, sl: Slot) {
    forall b: nat :: Covers(sl, b) ==>
      && (b in p.mem ==> b in q.mem && q.mem[b] == p.mem[b])
      && (b in p.open ==> b in q.open)
      && (strict && b !in p.open ==> b !in q.open)
  }

  /** Slot i has the same record, pages and contents. */
  ghost predicate Kept(strict: bool, s: State, s': State, i: nat) {
    && i < |s.slots| <= |s'.slots|
    && s'.slots[i] == s.slots[i]
    && SamePages(strict, s.pages, s'.pages, s.slots[i])
  }

  /** Every busy slot except `skip` is kept, and so is the null block. */
  ghost predicate Frame(m: Mode, s: State, s': State, skip: int, c: Config) {
    && |s.slots| <= |s'.slots|
    && s'.nullBlock == s.nullBlock
    && (forall i :: 0 <= i < |s.slots| && i != skip && Busy(m, s.slots[i]) ==> Kept(m.strict, s, s', i))
    && (m.strict ==> forall b: nat :: InNull(c, s, b) && b !in s.pages.open ==> b !in s'.pages.open)
  }

  lemma FrameTrans(m: Mode, s: State, s1: State, s2: State, skip: int, c: Config)
    requires Frame(m, s, s1, skip, c) && Frame(m, s1, s2, skip, c)
    ensures Frame(m, s, s2, skip, c)
  {
    forall i | 0 <= i < |s.slots| && i != skip && Busy(m, s.slots[i])
      ensures Kept(m.strict, s, s2, i)
    {
      assert Kept(m.strict, s, s1, i);
      assert Kept(m.strict, s1, s2, i);
    }
  }

  /** Outside the interval of `sl` nothing changed. */
  ghost predicate SameOutside(p: Pages, q: Pages, sl: Slot) {
    forall b: nat :: !Covers(sl, b) ==>
      && (b in p.mem <==> b in q.mem)
      && (b in p.mem ==> q.mem[b] == p.mem[b])
      && (b in p.open <==> b in q.open)
  }

  lemma KeptOthers(s: State, s': State, k: nat, i: nat)
    requires Disjoint(s.slots) && k < |s.slots| && i < |s.slots| <= |s'.slots| && i != k
    requires s'.slots[i] == s.slots[i]
    requires SameOutside(s.pages, s'.pages, s.slots[k])
    ensures Kept(true, s, s', i)
  {
    forall b: nat | Covers(s.slots[i], b) ensures !Covers(s.slots[k], b) {
      if Covers(s.slots[k], b) { CoverUnique(s.slots, i, k, b); }
    }
  }

  /** A whole number of pages is its own region. */
  lemma WholePages(P: nat, a: nat, n: nat)
    requires IsPow2(P) && n % P == 0
    ensures Region(P, a, n) == Span(a, a + n)
  {
    AlignUpFixed(n, P);
  }

  /** Distinct slots that are not EMPTY have distinct user addresses. */
  lemma UserAddressesDiffer(c: Config, s: State, i: nat, j: nat)
    requires Sound(c, s) && i < |s.slots| && j < |s.slots|
    requires s.slots[i].userAddress == s.slots[j].userAddress != 0
    ensures i == j
  {
    var a := s.slots[i].userAddress;
    UserInside(c, s.slots[i]);
    UserInside(c, s.slots[j]);
    CoverUnique(s.slots, i, j, a);
  }

  lemma UserInside(c: Config, sl: Slot)
    requires c.pageSize > 0 && SlotOk(c, sl) && sl.userAddress != 0
    ensures Covers(sl, sl.userAddress)
  {
  }

  /** Looking a user address up finds the slot that has it. */
  lemma LookupFinds(c: Config, s: State, i: nat)
    requires Sound(c, s) && i < |s.slots| && s.slots[i].userAddress != 0
    ensures SlotForUser(s.slots, s.slots[i].userAddress) == Some(i)
  {
    var r := SlotForUser(s.slots, s.slots[i].userAddress);
    assert r.Some?;
    UserAddressesDiffer(c, s, i, r.value);
  }
}
