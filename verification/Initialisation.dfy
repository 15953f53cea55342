/**
 `_duma_init`, and the first malloc and free that `duma_init` makes.
 */
module Initialisation {
  import opened Bits
  import opened Placement
  import opened Wrappers
  import opened Pages
  import opened Slots
  import opened Tiling
  import opened Heap
  import opened Invariants
  import opened Chunks
  import opened Calls
  import opened Operations

  lemma InitSizeMeans(c: Config)
    requires c.Valid()
    ensures InitSize(c) % c.pageSize == 0 && c.pageSize <= InitSize(c)
    ensures InitSize(c) > c.pageSize ==> (InitSize(c) - c.pageSize) % c.pageSize == 0
    ensures c.pageSize % c.pageSize == 0
  {
    AlignUpMeans(if MEMORY_CREATION_SIZE < c.pageSize then c.pageSize else MEMORY_CREATION_SIZE, c.pageSize);
    DivModUnique(c.pageSize, c.pageSize, 1, 0);
    MultipleSum(InitSize(c), c.pageSize, c.pageSize);
  }

  /** The records after initialisation: the table, the rest of the first chunk, and
      empty ones. */
  lemma InitRecords(c: Config, a: nat)
    requires c.Valid() && a > 0 && a % c.pageSize == 0
    ensures
      var slots := InitSlots(c, a);
      && |slots| == c.SlotsPerPage() >= 2
      && slots[0] == TableSlot(a, c.pageSize) && slots[1] == SecondSlot(c, a)
      && (forall i :: 2 <= i < |slots| ==> slots[i] == ZERO_SLOT)
      && (forall i :: 0 <= i < |slots| ==> SlotOk(c, slots[i]))
  {
    TwoSlots(c);
    InitSizeMeans(c);
    MultipleSum(a, c.pageSize, c.pageSize);
  }

  lemma InitSums(c: Config, a: nat)
    requires c.Valid()
    ensures
      var slots := InitSlots(c, a);
      && Sum(slots, EmptyOne) == c.SlotsPerPage() - (if InitSize(c) > c.pageSize then 2 else 1)
      && Sum(slots, ProtectedKB) == Sum(slots, ProtectedOne) == 0
      && Sum(slots, HeldKB) == KB(InitSize(c))
  {
    TwoSlots(c);
    InitSizeMeans(c);
    var n := c.SlotsPerPage();
    var z := ZeroSlots(n);
    SumConstant(z, n, EmptyOne, 1);
    SumConstant(z, n, ProtectedKB, 0);
    SumConstant(z, n, ProtectedOne, 0);
    SumConstant(z, n, HeldKB, 0);
    var x := TableSlot(a, c.pageSize);
    SumUpdate(z, 0, x, EmptyOne);
    SumUpdate(z, 0, x, ProtectedKB);
    SumUpdate(z, 0, x, ProtectedOne);
    SumUpdate(z, 0, x, HeldKB);
    var y := SecondSlot(c, a);
    SumUpdate(z[0 := x], 1, y, EmptyOne);
    SumUpdate(z[0 := x], 1, y, ProtectedKB);
    SumUpdate(z[0 := x], 1, y, ProtectedOne);
    SumUpdate(z[0 := x], 1, y, HeldKB);
    KBSum(c.pageSize, InitSize(c) - c.pageSize, c.pageSize);
  }

  // ---- memory after initialisation ----

  /** Only the null block is mapped, and it is denied. */
  ghost predicate NullPages(c: Config, p: Pages, zero: nat)
    requires c.Valid()
  {
    && zero > 0 && zero + 2 * c.pageSize <= SIZE_MAX
    && p.mem.Keys == Span(zero, zero + 2 * c.pageSize) && p.open == {}
  }

  /** The first chunk is mapped too; its first page is open and zero. */
  ghost predicate FirstPages(c: Config, p: Pages, zero: nat, a: nat)
    requires c.Valid()
  {
    && zero > 0 && zero + 2 * c.pageSize <= SIZE_MAX
    && a > 0 && a % c.pageSize == 0 && a + InitSize(c) <= SIZE_MAX
    && p.mem.Keys == Span(zero, zero + 2 * c.pageSize) + Span(a, a + InitSize(c))
    && Span(zero, zero + 2 * c.pageSize) !! Span(a, a + InitSize(c))
    && p.open == Span(a, a + c.pageSize)
    && AllZero(p.mem, a, a + c.pageSize)
  }

  /** The state `_duma_init` leaves. */
  ghost predicate Booted(c: Config, s: State, zero: nat, a: nat) {
    && c.Valid() && FirstPages(c, s.pages, zero, a) && s.pages.failed == 0 && c.SlotsPerPage() >= 2
    && s == State(InitSlots(c, a), a, c.pageSize, c.SlotsPerPage() - 2, 0, 0, 0, zero, s.pages, 0)
  }

  /** Creating and denying the null block. */
  lemma NullBlockPages(c: Config, p0: Pages, p1: Pages, zero: nat)
    requires c.Valid() && p0.mem == map[] && p0.open == {} && zero != 0
    requires Create(p0, c.pageSize, 2 * c.pageSize) == (p1, zero)
    ensures
      var o := Deny(p1, c.pageSize, zero, 2 * c.pageSize);
      o.Done? && NullPages(c, o.value, zero) && o.value.failed == p0.failed && o.value.answers == p1.answers
  {
    var P := c.pageSize;
    InitSizeMeans(c);
    MultipleSum(P, P, P);
    CreateRegion(p0, P, 2 * P);
    WholePages(P, zero, 2 * P);
  }

  /** The pages of the second record. */
  lemma RestRegion(c: Config, a: nat)
    requires c.Valid() && a > 0 && a % c.pageSize == 0
    ensures
      var free := SecondSlot(c, a);
      var rest := Region(c.pageSize, free.internalAddress, free.internalSize);
      && free.internalAddress % c.pageSize == 0
      && rest <= Span(a, a + InitSize(c)) && Span(a, a + InitSize(c)) - rest == Span(a, a + c.pageSize)
  {
    InitSizeMeans(c);
    var free := SecondSlot(c, a);
    DivModUnique(0, c.pageSize, 0, 0);
    MultipleSum(a, c.pageSize, c.pageSize);
    WholePages(c.pageSize, free.internalAddress, free.internalSize);
  }

  /** Creating the first chunk, clearing the table and denying the rest. */
  lemma FirstChunkPages(c: Config, p: Pages, zero: nat, q: Pages, a: nat)
    requires c.Valid() && NullPages(c, p, zero) && Create(p, c.pageSize, InitSize(c)) == (q, a) && a != 0
    ensures
      var zeroed := q.(mem := FillRange(q.mem, a, a + c.pageSize, 0));
      var free := SecondSlot(c, a);
      var o := Deny(zeroed, c.pageSize, free.internalAddress, free.internalSize);
      o.Done? && FirstPages(c, o.value, zero, a) && o.value.failed == p.failed && o.value.answers == q.answers
  {
    InitSizeMeans(c);
    CreateRegion(p, c.pageSize, InitSize(c));
    RestRegion(c, a);
    forall b: nat | a <= b < a + c.pageSize ensures b in q.mem { assert b in Span(a, a + InitSize(c)); }
  }

  lemma InitPages(c: Config, answers: seq<nat>) returns (s: State, zero: nat, a: nat)
    requires c.Valid() && Init(c, answers).Done?
    ensures Init(c, answers) == Done(s) && Booted(c, s, zero, a)
    ensures |answers| >= 2 && s.pages.answers == answers[2..] && zero == answers[0] && a == answers[1]
  {
    TwoSlots(c);
    var p0 := Pages(map[], {}, answers, 0);
    var (p1, z) := Create(p0, c.pageSize, 2 * c.pageSize);
    NullBlockPages(c, p0, p1, z);
    var p2 := Deny(p1, c.pageSize, z, 2 * c.pageSize).value;
    var (p3, table) := Create(p2, c.pageSize, InitSize(c));
    FirstChunkPages(c, p2, z, p3, table);
    s, zero, a := Init(c, answers).value, z, table;
  }

  // ---- the invariants ----

  /** The first two records split the first chunk. */
  lemma FirstChunkCovered(c: Config, a: nat)
    requires c.Valid() && a > 0 && a % c.pageSize == 0
    ensures Disjoint(InitSlots(c, a))
    ensures forall b: nat :: CoveredBy(InitSlots(c, a), b) <==> a <= b < a + InitSize(c)
  {
    InitRecords(c, a);
    InitSizeMeans(c);
    var t := InitSlots(c, a);
    forall b: nat ensures CoveredBy(t, b) <==> a <= b < a + InitSize(c) {
      if a <= b < a + c.pageSize { assert Covers(t[0], b); }
      if a + c.pageSize <= b < a + InitSize(c) { assert Covers(t[1], b); }
      if CoveredBy(t, b) {
        var i :| 0 <= i < |t| && Covers(t[i], b);
        assert i < 2;
      }
    }
  }

  lemma InitLayout(c: Config, s: State, zero: nat, a: nat)
    requires Booted(c, s, zero, a)
    ensures Layout(c, s, 0, 0)
  {
    InitSizeMeans(c);
    FirstChunkCovered(c, a);
    forall b: nat ensures b in Arena(c, s, 0, 0) <==> CoveredBy(s.slots, b) {
      assert b in Span(zero, zero + 2 * c.pageSize) <==> InNull(c, s, b);
      assert b in Span(a, a + InitSize(c)) <==> a <= b < a + InitSize(c);
    }
    forall b: nat | InNull(c, s, b) ensures b in s.pages.mem {
      assert b in Span(zero, zero + 2 * c.pageSize);
    }
    forall b: nat | b in s.pages.mem ensures b < SIZE_MAX {
      assert b in Span(zero, zero + 2 * c.pageSize) || b in Span(a, a + InitSize(c));
    }
  }

  lemma InitSupply(c: Config, s: State, zero: nat, a: nat)
    requires Booted(c, s, zero, a)
    ensures Supply(c, s)
  {
    TwoSlots(c);
    forall b: nat | a + |s.slots| * c.slotSize <= b < a + c.pageSize ensures b in s.pages.mem && s.pages.mem[b] == 0 {
      assert a <= b;
    }
  }

  lemma InitPermissions(c: Config, s: State, zero: nat, a: nat)
    requires Booted(c, s, zero, a)
    ensures TableOpen(s) && AllLiveOpen(s) && AllDead(c, s) && HasTable(c, s)
    ensures forall i :: 0 <= i < |s.slots| ==> NoUser(s.slots[i])
  {
    InitRecords(c, a);
    InitSizeMeans(c);
    assert IsTableSlot(s, 0);
    assert forall i :: 0 <= i < |s.slots| && IsTable(s.slots[i]) ==> i == 0;
    assert Span(a, a + c.pageSize) <= Span(a, a + InitSize(c));
    forall b: nat | InNull(c, s, b) ensures b !in s.pages.open {
      assert b in Span(zero, zero + 2 * c.pageSize);
    }
  }

  lemma InitInvariants(c: Config, s: State, zero: nat, a: nat)
    requires Booted(c, s, zero, a)
    ensures Struct(c, s) && Drift(s) == 0
    ensures c.SlotsPerPage() >= 7 ==> Supplied(c, s)
  {
    InitSums(c, a);
    assert SlotsOk(c, s) by { InitRecords(c, a); }
    InitLayout(c, s, zero, a);
    InitSupply(c, s, zero, a);
    InitPermissions(c, s, zero, a);
  }

  /** _duma_init establishes every invariant; the table is still open. */
  lemma InitKeeps(c: Config, answers: seq<nat>)
    requires c.Valid() && Init(c, answers).Done?
    ensures
      var s := Init(c, answers).value;
      && Struct(c, s) && TableOpen(s) && AllLiveOpen(s) && AllDead(c, s)
      && (c.SlotsPerPage() >= 7 ==> Supplied(c, s))
      && s.pages.failed == 0 && Drift(s) == 0
      && (forall i :: 0 <= i < |s.slots| ==> NoUser(s.slots[i]))
  {
    var s, zero, a := InitPages(c, answers);
    InitInvariants(c, s, zero, a);
    InitPermissions(c, s, zero, a);
  }
}
