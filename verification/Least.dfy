/**
 Reductions release no more than they must: which records a reduction leaves, to the
 last one, and when frees and allocations reduce, by how much, and how often.
 */
module Least {
  import opened Bits
  import opened Placement
  import opened Wrappers
  import opened Slots
  import opened Heap
  import opened Invariants
  import opened Reduction
  import opened Chunks
  import opened Deallocation
  import opened Calls
  import opened Operations

  // ---- a reduction releases no more than it must ----

  /** The records with the freed blocks among the first n cut down to the pages up to
      their user address. */
  function TrimmedTo(c: Config, slots: seq<Slot>, n: nat): (t: seq<Slot>)
    requires c.Valid()
    ensures |t| == |slots|
  {
    seq(|slots|, j requires 0 <= j < |slots| =>
      if j < n && slots[j].state == ALL_PROTECTED then Trimmed(c, slots[j]) else slots[j])
  }

  /** The records with the cut-down blocks among the first n given back. */
  function EmptiedTo(slots: seq<Slot>, n: nat): (t: seq<Slot>)
    ensures |t| == |slots|
  {
    seq(|slots|, j requires 0 <= j < |slots| =>
      if j < n && slots[j].state == BEGIN_PROTECTED then Emptied(slots[j]) else slots[j])
  }

  /** How many kB less are protected in b than in a. */
  function Gain(a: seq<Slot>, b: seq<Slot>): int {
    Sum(a, ProtectedKB) - Sum(b, ProtectedKB)
  }

  /** The records b that a reduction of the records a by k kB leaves, where n is the
      number of records it looked at last. If cutting down freed blocks can release
      k kB, the first n are cut down, and the first n - 1 would not have sufficed. If
      not, all are cut down, and of those the first n are given back; again the first
      n - 1 would not have sufficed, or there are no more. */
  ghost predicate ReducedTo(c: Config, a: seq<Slot>, b: seq<Slot>, k: nat, n: nat)
    requires c.Valid()
  {
    var all := TrimmedTo(c, a, |a|);
    && n <= |a|
    && (if Gain(a, all) >= k then
          b == TrimmedTo(c, a, n) && n > 0 && Gain(a, b) >= k > Gain(a, TrimmedTo(c, a, n - 1))
        else if Sum(a, ProtectedKB) >= k then
          b == EmptiedTo(all, n) && n > 0 && Gain(a, b) >= k > Gain(a, EmptiedTo(all, n - 1))
        else
          b == EmptiedTo(all, |a|))
  }

  ghost predicate LeastReduction(c: Config, a: seq<Slot>, b: seq<Slot>, k: nat)
    requires c.Valid()
  {
    exists n :: ReducedTo(c, a, b, k, n)
  }

  lemma TrimmedNext(c: Config, a: seq<Slot>, n: nat)
    requires c.Valid() && n < |a|
    ensures
      TrimmedTo(c, a, n + 1) ==
      if a[n].state == ALL_PROTECTED then TrimmedTo(c, a, n)[n := Trimmed(c, a[n])] else TrimmedTo(c, a, n)
    ensures TrimmedTo(c, a, n)[n] == a[n]
  {}

  lemma EmptiedNext(a: seq<Slot>, n: nat)
    requires n < |a|
    ensures
      EmptiedTo(a, n + 1) ==
      if a[n].state == BEGIN_PROTECTED then EmptiedTo(a, n)[n := Emptied(a[n])] else EmptiedTo(a, n)
    ensures EmptiedTo(a, n)[n] == a[n]
  {}

  /** What cutting down one more record releases. */
  lemma TrimmedGain(c: Config, a: seq<Slot>, n: nat)
    requires c.Valid() && n < |a| && SlotOk(c, a[n])
    ensures
      var kB := if a[n].state == ALL_PROTECTED then KB(a[n].internalSize - KeptSize(c, a[n])) else 0;
      Gain(a, TrimmedTo(c, a, n + 1)) == Gain(a, TrimmedTo(c, a, n)) + kB && 0 <= kB <= KB(a[n].internalSize)
  {
    TrimmedNext(c, a, n);
    if a[n].state == ALL_PROTECTED {
      TrimmedOk(c, a[n]);
      SumUpdate(TrimmedTo(c, a, n), n, Trimmed(c, a[n]), ProtectedKB);
    }
  }

  lemma EmptiedGain(a: seq<Slot>, n: nat)
    requires n < |a|
    ensures
      var kB := if a[n].state == BEGIN_PROTECTED then KB(a[n].internalSize) else 0;
      Gain(a, EmptiedTo(a, n + 1)) == Gain(a, EmptiedTo(a, n)) + kB
  {
    EmptiedNext(a, n);
    if a[n].state == BEGIN_PROTECTED {
      SumUpdate(EmptiedTo(a, n), n, Emptied(a[n]), ProtectedKB);
    }
  }

  ghost predicate AllOk(c: Config, a: seq<Slot>)
    requires c.pageSize > 0
  {
    forall j :: 0 <= j < |a| ==> SlotOk(c, a[j])
  }

  lemma {:induction false} TrimmedGrows(c: Config, a: seq<Slot>, m: nat, n: nat)
    requires c.Valid() && m <= n <= |a| && AllOk(c, a)
    ensures Gain(a, TrimmedTo(c, a, m)) <= Gain(a, TrimmedTo(c, a, n))
    decreases n
  {
    if m < n {
      TrimmedGain(c, a, n - 1);
      TrimmedGrows(c, a, m, n - 1);
    }
  }

  /** A phase that left the records b, having released `done` of k kB, went as far as
      it had to; `first` kB were released before it, and upTo(n) are the records after
      its first n steps. */
  ghost predicate Reached1(c: Config, a: seq<Slot>, b: seq<Slot>, done: int, k: nat, n: nat)
    requires c.Valid()
  {
    && n <= |a| && b == TrimmedTo(c, a, n) && done == Gain(a, b)
    && (if done >= k then n > 0 && Gain(a, TrimmedTo(c, a, n - 1)) < k else n == |a|)
  }

  ghost predicate Reached2(a: seq<Slot>, b: seq<Slot>, first: int, done: int, k: nat, n: nat) {
    && n <= |a| && b == EmptiedTo(a, n) && done == first + Gain(a, b)
    && (if done >= k then n > 0 && first + Gain(a, EmptiedTo(a, n - 1)) < k else n == |a|)
  }

  /** Before step i the goal was not reached yet. */
  ghost predicate Short1(c: Config, a: seq<Slot>, i: nat, k: nat)
    requires c.Valid()
  {
    if i == 0 then k > 0 else Gain(a, TrimmedTo(c, a, i - 1)) < k
  }

  ghost predicate Short2(a: seq<Slot>, first: int, i: nat, k: nat) {
    if i == 0 then first < k else first + Gain(a, EmptiedTo(a, i - 1)) < k
  }

  lemma TrimNext(c: Config, a: seq<Slot>, s: State, i: nat, done: nat) returns (next: nat)
    requires c.Valid() && i < |a| && s.slots == TrimmedTo(c, a, i) && SlotOk(c, a[i])
    requires a[i].state == ALL_PROTECTED && done == Gain(a, s.slots)
    ensures s.slots[i] == a[i] && TrimSlot(c, s, i).slots == TrimmedTo(c, a, i + 1)
    ensures next == done + KB(a[i].internalSize - KeptSize(c, a[i])) == Gain(a, TrimSlot(c, s, i).slots)
  {
    next := done + KB(a[i].internalSize - KeptSize(c, a[i]));
    TrimmedNext(c, a, i);
    TrimmedGain(c, a, i);
  }

  lemma DropNext(c: Config, a: seq<Slot>, s: State, i: nat)
    requires c.Valid() && i < |a| && s.slots == EmptiedTo(a, i) && a[i].state == BEGIN_PROTECTED
    ensures s.slots[i] == a[i] && DropSlot(c, s, i).slots == EmptiedTo(a, i + 1)
    ensures Gain(a, DropSlot(c, s, i).slots) == Gain(a, s.slots) + KB(a[i].internalSize)
  {
    EmptiedNext(a, i);
    EmptiedGain(a, i);
  }

  lemma Stops1(c: Config, a: seq<Slot>, b: seq<Slot>, i: nat, done: nat, k: nat)
    requires c.Valid() && i <= |a| && b == TrimmedTo(c, a, i) && done == Gain(a, b)
    requires Short1(c, a, i, k) && (i >= |a| || done >= k)
    ensures Reached1(c, a, b, done, k, i)
  {
    if i == 0 { assert TrimmedTo(c, a, 0) == a; }
  }

  lemma Short1Next(c: Config, a: seq<Slot>, b: seq<Slot>, i: nat, done: nat, k: nat)
    requires c.Valid() && i < |a| && b == TrimmedTo(c, a, i) && done == Gain(a, b) && done < k
    ensures Short1(c, a, i + 1, k)
  {}

  /** Phase 1 from record i on, when the records a were s's before. */
  lemma {:induction false} Phase1Least(c: Config, a: seq<Slot>, s: State, i: nat, done: nat, k: nat, s': State, done': nat)
    returns (n: nat)
    requires c.Valid() && i <= |a| && s.slots == TrimmedTo(c, a, i) && done == Gain(a, s.slots)
    requires AllOk(c, a) && Short1(c, a, i, k) && Phase1(c, s, i, done, k) == (s', done')
    ensures Reached1(c, a, s'.slots, done', k, n)
    decreases |a| - i
  {
    if i >= |a| || done >= k {
      n := i;
      Stops1(c, a, s.slots, i, done, k);
    } else if a[i].state == ALL_PROTECTED {
      Short1Next(c, a, s.slots, i, done, k);
      var next := TrimNext(c, a, s, i, done);
      n := Phase1Least(c, a, TrimSlot(c, s, i), i + 1, next, k, s', done');
    } else {
      Short1Next(c, a, s.slots, i, done, k);
      TrimmedNext(c, a, i);
      n := Phase1Least(c, a, s, i + 1, done, k, s', done');
    }
  }

  /** Phase 2 from record i on; `first` kB were released before it. */
  lemma {:induction false} Phase2Least(c: Config, a: seq<Slot>, s: State, first: nat, i: nat, done: nat, k: nat, s': State, done': nat)
    returns (n: nat)
    requires c.Valid() && i <= |a| && s.slots == EmptiedTo(a, i) && done == first + Gain(a, s.slots)
    requires Short2(a, first, i, k) && Phase2(c, s, i, done, k) == (s', done')
    ensures Reached2(a, s'.slots, first, done', k, n)
    decreases |a| - i
  {
    if i >= |a| || done >= k {
      n := i;
      if i == 0 { assert EmptiedTo(a, 0) == a; }
    } else if a[i].state == BEGIN_PROTECTED {
      DropNext(c, a, s, i);
      n := Phase2Least(c, a, DropSlot(c, s, i), first, i + 1, done + KB(a[i].internalSize), k, s', done');
    } else {
      EmptiedNext(a, i);
      n := Phase2Least(c, a, s, first, i + 1, done, k, s', done');
    }
  }

  /** All that phase 1 and phase 2 together can release. */
  lemma GainAll(c: Config, a: seq<Slot>)
    requires c.Valid()
    ensures Gain(a, EmptiedTo(TrimmedTo(c, a, |a|), |a|)) == Sum(a, ProtectedKB)
  {
    var b := EmptiedTo(TrimmedTo(c, a, |a|), |a|);
    SumConstant(b, |b|, ProtectedKB, 0);
  }

  lemma {:induction false} EmptiedGrows(a: seq<Slot>, m: nat, n: nat)
    requires m <= n <= |a|
    ensures Gain(a, EmptiedTo(a, m)) <= Gain(a, EmptiedTo(a, n))
    decreases n
  {
    if m < n {
      EmptiedGain(a, n - 1);
      EmptiedGrows(a, m, n - 1);
    }
  }

  /** A reduction by k > 0 kB releases what it must and no more: see ReducedTo. */
  lemma ReduceIsLeast(c: Config, s: State, k: nat) returns (n: nat)
    requires Sound(c, s) && k > 0
    ensures ReducedTo(c, s.slots, Reduce(c, s, k).0.slots, k, n)
  {
    var a := s.slots;
    var all := TrimmedTo(c, a, |a|);
    assert TrimmedTo(c, a, 0) == a;
    var (s1, done1) := Phase1(c, s, 0, 0, k);
    Phase1Releases(c, s, 0, 0, k, s1, done1);
    n := Phase1Least(c, a, s, 0, 0, k, s1, done1);
    if done1 >= k {
      TrimmedGrows(c, a, n, |a|);
    } else {
      assert EmptiedTo(all, 0) == all;
      var (s2, done2) := Phase2(c, s1, 0, done1, k);
      Phase2Releases(c, s1, 0, done1, k, s2, done2);
      n := Phase2Least(c, all, s1, done1, 0, done1, k, s2, done2);
      LeastOfAll(c, a, all, s2.slots, done1, done2, k, n);
    }
  }

  lemma LeastOfAll(c: Config, a: seq<Slot>, all: seq<Slot>, b: seq<Slot>, done1: nat, done2: nat, k: nat, n: nat)
    requires c.Valid() && all == TrimmedTo(c, a, |a|) && done1 == Gain(a, all) < k && Reached2(all, b, done1, done2, k, n)
    ensures ReducedTo(c, a, b, k, n)
  {
    GainAll(c, a);
    EmptiedGrows(all, n, |all|);
  }

  /** So a reduction that succeeds releases less than k kB more than one record holds. */
  lemma ReducesLittle(c: Config, s: State, k: nat) returns (j: nat)
    requires Sound(c, s) && k > 0 && Sum(s.slots, ProtectedKB) >= k
    ensures j < |s.slots| && IsProtected(s.slots[j])
    ensures k <= Gain(s.slots, Reduce(c, s, k).0.slots) < k + KB(s.slots[j].internalSize)
  {
    var n := ReduceIsLeast(c, s, k);
    var a := s.slots;
    j := n - 1;
    if Gain(a, TrimmedTo(c, a, |a|)) >= k {
      TrimmedGain(c, a, j);
    } else {
      EmptiedGain(TrimmedTo(c, a, |a|), j);
      if IsProtected(a[j]) { KeptSizeMeans(c, a[j]); }
    }
  }

  // ---- when a free reduces ----

  /** The records a free leaves beside that of the block: with PROTECT_FREE > 0 and no
      room under it, those of a reduction by the block's own kB, if that is below the limit
      and booked as protected; otherwise they are as they were. */
  ghost predicate FreeReduces(c: Config, s: State, t: seq<Slot>, kB: nat)
    requires c.Valid()
  {
    if c.protectFree > 0 && s.sumProtectedMem + kB > c.protectFree && kB < c.protectFree && s.sumProtectedMem >= kB
    then LeastReduction(c, s.slots, t, kB)
    else t == s.slots
  }

  lemma ReleaseReduces(c: Config, s: State, i: nat, site: Site)
    requires Sound(c, s) && i < |s.slots| && IsLive(s.slots[i]) && Release(c, s, i, site).Done?
    ensures
      var b := Release(c, s, i, site).value.slots;
      |b| == |s.slots| && FreeReduces(c, s, b[i := s.slots[i]], KB(s.slots[i].internalSize))
  {
    var kB := KB(s.slots[i].internalSize);
    assert SlotOk(c, s.slots[i]);
    if WantsReduction(c, s, kB) {
      var s1 := ReducedState(c, s, kB, i);
      var n := ReduceIsLeast(c, s, kB);
      SettleOthers(c, s1, i, kB, site);
    } else {
      SettleOthers(c, s, i, kB, site);
    }
  }

  lemma SettleOthers(c: Config, s: State, i: nat, kB: nat, site: Site)
    requires c.Valid() && i < |s.slots| && Settle(c, s, i, kB, site).Done?
    ensures
      var b := Settle(c, s, i, kB, site).value.slots;
      |b| == |s.slots| && b[i := s.slots[i]] == s.slots
  {}

  /** The record of a freed block that is protected: as it was, except that it names
      the position of the free, if that is known. */
  predicate NamesFree(x: Slot, y: Slot, site: Site) {
    y.state == ALL_PROTECTED ==>
      && y == x.(state := y.state, fileSource := y.fileSource, site := y.site)
      && (if site.line != 0 then y.fileSource == DeallocationSource && y.site == site
          else y.fileSource == x.fileSource && y.site == x.site)
  }

  lemma ReleaseNames(c: Config, s: State, i: nat, site: Site)
    requires Sound(c, s) && i < |s.slots| && IsLive(s.slots[i]) && Release(c, s, i, site).Done?
    ensures |Release(c, s, i, site).value.slots| == |s.slots|
    ensures NamesFree(s.slots[i], Release(c, s, i, site).value.slots[i], site)
    ensures
      var y := Release(c, s, i, site).value.slots[i];
      y.state != ALL_PROTECTED ==>
        y == Slot(0, 0, s.slots[i].protAddress, 0, 0, EMPTY, EFA_INT_ALLOC, NoSource, Site("", 0))
  {
    var kB := KB(s.slots[i].internalSize);
    assert SlotOk(c, s.slots[i]);
    if WantsReduction(c, s, kB) { var s1 := ReducedState(c, s, kB, i); }
  }

  /** The records of a free that returns are those its release leaves. */
  lemma FreeCall(c: Config, s: State, a: nat, allocator: Allocator, site: Site, s': State) returns (i: nat, s1: State)
    requires Struct(c, s) && a != 0 && a != NullAddr(c, s) && TypeOf(allocator) != Internal
    requires Deallocate(c, s, a, allocator, site) == Done(s')
    ensures LiveKey(s, a, allocator, i) && Struct(c, s1)
    ensures s1 == s.(checkFreqCounter := s1.checkFreqCounter, pages := s.pages.(open := s1.pages.open))
    ensures Release(c, s1, i, site).Done? && Release(c, s1, i, site).value.slots == s'.slots
  {
    OpenKeeps(c, s, Mode(true, false));
    var s0 := OpenTable(c, s).value;
    s1 := CheckFreq(c, s0).value;
    i := FreeTarget(s1, a, allocator).value;
    FreeFinds(c, s0, s1, a, allocator, i);
  }

  /** A free that returns: where the block's memory goes, what its record says, and
      what happened to every other record. */
  lemma FreeIsLeast(c: Config, s: State, a: nat, allocator: Allocator, site: Site, s': State) returns (i: nat)
    requires Struct(c, s) && a != 0 && a != NullAddr(c, s) && TypeOf(allocator) != Internal
    requires Deallocate(c, s, a, allocator, site) == Done(s')
    ensures LiveKey(s, a, allocator, i) && |s'.slots| == |s.slots|
    ensures
      var kB := KB(s.slots[i].internalSize);
      && FreeReduces(c, s, s'.slots[i := s.slots[i]], kB)
      && NamesFree(s.slots[i], s'.slots[i], site)
      && (s'.slots[i].state == ALL_PROTECTED <==>
            c.protectFree < 0 ||
            (c.protectFree > 0 &&
             (s.sumProtectedMem + kB <= c.protectFree || (kB < c.protectFree && Sum(s.slots, ProtectedKB) >= kB))))
      && (s'.slots[i].state != ALL_PROTECTED ==>
            s'.slots[i] == Slot(0, 0, s.slots[i].protAddress, 0, 0, EMPTY, EFA_INT_ALLOC, NoSource, Site("", 0)))
  {
    var s1;
    i, s1 := FreeCall(c, s, a, allocator, site, s');
    ReleaseReduces(c, s1, i, site);
    ReleaseNames(c, s1, i, site);
    ReleaseVerdict(c, s1, i, site);
  }

  // ---- when an allocation reduces ----

  /** What a reduction does to the booked total. */
  lemma BookedTotal(c: Config, s: State, k: nat, s': State)
    requires Sound(c, s) && k > 0 && s' == Reduce(c, s, k).0
    ensures s'.sumAllocatedMem == s.sumAllocatedMem - (if Sum(s.slots, ProtectedKB) >= k then Gain(s.slots, s'.slots) else 0)
    ensures Sum(s.slots, ProtectedKB) >= k ==> Gain(s.slots, s'.slots) >= k
  {
    ReduceKeeps(c, s, k);
    ReduceResult(c, s, k);
    ReduceSucceeds(c, s, k);
  }

  /** MAX_ALLOC: before a chunk of kB kB is created the books are brought down so far
      that the chunk fits under the limit, if and only if it fits already or that much
      is protected; protected memory is reduced only if it does not fit. */
  lemma LimitHolds(c: Config, s: State, kB: nat, s': State)
    requires Sound(c, s) && kB > 0 && s' == LimitAllocated(c, s, kB)
    ensures if 0 < c.maxAlloc < s.sumAllocatedMem + kB then LeastReduction(c, s.slots, s'.slots, kB) else s' == s
    ensures c.maxAlloc > 0 && s.sumAllocatedMem <= c.maxAlloc ==>
              (s'.sumAllocatedMem + kB <= c.maxAlloc <==>
                 s.sumAllocatedMem + kB <= c.maxAlloc || Sum(s.slots, ProtectedKB) >= kB)
  {
    if 0 < c.maxAlloc < s.sumAllocatedMem + kB {
      var n := ReduceIsLeast(c, s, kB);
      BookedTotal(c, s, kB, s');
    }
  }

  /** Reductions by k kB, one after the other; all but the last found k kB protected. */
  ghost predicate Reductions(c: Config, w: seq<seq<Slot>>, a: seq<Slot>, b: seq<Slot>, k: nat)
    requires c.Valid()
  {
    && |w| > 0 && w[0] == a && w[|w| - 1] == b
    && (forall j :: 0 <= j < |w| - 1 ==> LeastReduction(c, w[j], w[j + 1], k))
    && (forall j :: 0 <= j < |w| - 2 ==> Sum(w[j], ProtectedKB) >= k)
  }

  /** Nothing is protected any more. */
  ghost predicate NothingProtected(slots: seq<Slot>) {
    forall j :: 0 <= j < |slots| ==> !IsProtected(slots[j])
  }

  /** The reduce-and-retry loop: one mmap call after every reduction, all but the last
      of which fail; it gives up only when nothing is protected any more. */
  lemma {:induction false} RetrySteps(c: Config, s: State, n: nat, k: nat, s': State, a: nat) returns (w: seq<seq<Slot>>)
    requires Sound(c, s) && n % c.pageSize == 0 && k > 0 && CreateRetry(c, s, n, k) == (s', a)
    ensures Reductions(c, w, s.slots, s'.slots, k)
    ensures |w| - 1 == s'.pages.failed - s.pages.failed + (if a == 0 then 0 else 1) >= 1
    ensures a == 0 ==> NothingProtected(s'.slots)
    decreases Sum(s.slots, Rank)
  {
    ReduceRank(c, s, k);
    var s1, more, s2, b := RetryOnce(c, s, n, k);
    if more && b == 0 {
      var rest := RetrySteps(c, s2, n, k, s', a);
      w := [s.slots] + rest;
    } else {
      w := [s.slots, s'.slots];
    }
  }

  /** One round of the loop. */
  lemma RetryOnce(c: Config, s: State, n: nat, k: nat) returns (s1: State, more: bool, s2: State, b: nat)
    requires Sound(c, s) && n % c.pageSize == 0 && k > 0
    ensures Reduce(c, s, k) == (s1, more) && CreatePages(c, s1, n) == (s2, b)
    ensures LeastReduction(c, s.slots, s2.slots, k) && s2.pages.failed - s.pages.failed == (if b == 0 then 1 else 0)
    ensures b == 0 ==> Sound(c, s2)
    ensures if more then Sum(s.slots, ProtectedKB) >= k else NothingProtected(s2.slots)
  {
    var r := Reduce(c, s, k);
    s1, more := r.0, r.1;
    ReduceKeeps(c, s, k);
    ReduceResult(c, s, k);
    ReduceSucceeds(c, s, k);
    var m := ReduceIsLeast(c, s, k);
    var q := CreatePages(c, s1, n);
    s2, b := q.0, q.1;
    CreateOk(c, s1, n);
  }

  /** Getting pages for a chunk: under MAX_ALLOC first as LimitHolds says; after that
      protected memory is touched only if mmap fails and PROTECT_FREE is not 0, by one
      reduction of the chunk's kB for every failure. The attempt is given up only when
      nothing is protected any more, and, if failures are left to the environment, after
      one mmap call more. */
  lemma ObtainSteps(c: Config, s: State, chunk: nat, n: nat, failEnv: bool, s': State, a: nat) returns (w: seq<seq<Slot>>)
    requires Sound(c, s) && n % c.pageSize == 0 && chunk > 0 && Obtain(c, s, chunk, n, failEnv) == Done((s', a))
    ensures Reductions(c, w, LimitAllocated(c, s, KB(chunk)).slots, s'.slots, KB(chunk))
    ensures |w| - 1 <= s'.pages.failed - s.pages.failed
    ensures c.protectFree == 0 ==> |w| == 1
    ensures a == 0 && c.protectFree != 0 ==>
              NothingProtected(s'.slots) && s'.pages.failed - s.pages.failed == |w| + (if failEnv then 1 else 0)
  {
    var k := KB(chunk);
    var s0 := LimitAllocated(c, s, k);
    ReduceKeeps(c, s, k);
    var (s1, a1) := CreatePages(c, s0, n);
    CreateOk(c, s0, n);
    if a1 != 0 || c.protectFree == 0 {
      w := [s'.slots];
    } else {
      var (s2, a2) := CreateRetry(c, s1, n, k);
      w := RetrySteps(c, s1, n, k, s2, a2);
      if a2 == 0 && failEnv { LastCall(c, s2, n); }
    }
  }

  lemma LastCall(c: Config, s: State, n: nat)
    requires c.Valid()
    ensures
      var (s', a) := CreatePages(c, s, n);
      s'.slots == s.slots && s.pages.failed <= s'.pages.failed
      && (a == 0 ==> s'.pages.failed == s.pages.failed + 1)
  {}

  /** A chunk is the smallest number of whole pages that holds the slot and a megabyte. */
  lemma ChunkSizeMeans(c: Config, need: nat)
    requires c.Valid()
    ensures
      var n := ChunkSize(c, need);
      && n % c.pageSize == 0 && n >= need && n >= 1024 * 1024
      && (n < need + c.pageSize || n < 1024 * 1024 + c.pageSize)
  {
    AlignUpMeans(if MEMORY_CREATION_SIZE < need then need else MEMORY_CREATION_SIZE, c.pageSize);
  }
}
