/**
 reduceProtectedMemory: what it may touch, what it releases, and how the books
 follow.
 */
module Reduction {
  import opened Bits
  import opened Placement
  import opened Pages
  import opened Slots
  import opened Tiling
  import opened Heap
  import opened Invariants

  /** What a reduction may do to one slot: only protected ones change, and they
      keep their page of userAddress or become EMPTY. */
  predicate ReducedSlot(x: Slot, y: Slot) {
    x == y ||
    (IsProtected(x) &&
     (y.state == EMPTY ||
      (y.state == BEGIN_PROTECTED && y == x.(state := y.state, internalSize := y.internalSize) &&
       x.userAddress < End(y) && y.internalSize <= x.internalSize)))
  }

  /** Everything outside the protected slots is as before. */
  ghost predicate Reduced(c: Config, s: State, s': State) {
    && |s'.slots| == |s.slots|
    && s' == s.(slots := s'.slots, sumProtectedMem := s'.sumProtectedMem,
                sumAllocatedMem := s'.sumAllocatedMem, lost := s'.lost,
                pages := s.pages.(mem := s'.pages.mem, open := s'.pages.open))
    && s'.pages.open <= s.pages.open
    && (forall i :: 0 <= i < |s.slots| ==> ReducedSlot(s.slots[i], s'.slots[i]))
    && (forall i :: 0 <= i < |s.slots| && !IsProtected(s.slots[i]) ==> Kept(true, s, s', i))
  }

  lemma ReducedTrans(c: Config, s: State, s1: State, s2: State)
    requires Reduced(c, s, s1) && Reduced(c, s1, s2)
    ensures Reduced(c, s, s2)
  {
    forall i | 0 <= i < |s.slots| ensures ReducedSlot(s.slots[i], s2.slots[i]) {
      assert ReducedSlot(s.slots[i], s1.slots[i]) && ReducedSlot(s1.slots[i], s2.slots[i]);
    }
    forall i | 0 <= i < |s.slots| && !IsProtected(s.slots[i]) ensures Kept(true, s, s2, i) {
      assert Kept(true, s, s1, i) && s1.slots[i] == s.slots[i];
      assert Kept(true, s1, s2, i);
    }
  }

  /** The kept size is whole pages and includes the page of userAddress. */
  lemma KeptSizeMeans(c: Config, sl: Slot)
    requires c.Valid() && SlotOk(c, sl) && IsProtected(sl)
    ensures
      var keep := KeptSize(c, sl);
      && keep == AlignDown(sl.userAddress - sl.internalAddress + c.pageSize, c.pageSize)
      && keep % c.pageSize == 0 && sl.userAddress - sl.internalAddress < keep <= sl.internalSize
      && keep <= sl.userAddress - sl.internalAddress + c.pageSize
  {
    var P := c.pageSize;
    var d := sl.userAddress - sl.internalAddress;
    AlignDownMeans(d + P, P);
    var keep := AlignDown(d + P, P);
    if keep > sl.internalSize { MultipleGap(sl.internalSize, keep, P); }
  }

  /** Giving pages back: what Page_Delete on the tail of slot i does. */
  lemma DeleteTail(c: Config, s: State, i: nat, from: nat, x: Slot)
    requires Sound(c, s) && i < |s.slots|
    requires s.slots[i].state != EMPTY
    requires s.slots[i].internalAddress <= from <= End(s.slots[i])
    requires (End(s.slots[i]) - from) % c.pageSize == 0
    requires SlotOk(c, x)
    requires if from == s.slots[i].internalAddress then x.state == EMPTY
             else x.state != EMPTY && x.internalAddress == s.slots[i].internalAddress && End(x) == from
    ensures
      var s' := s.(slots := s.slots[i := x],
                   pages := Delete(s.pages, c.pageSize, from, End(s.slots[i]) - from));
      && Sound(c, s')
      && s'.pages.open <= s.pages.open
      && (forall j :: 0 <= j < |s.slots| && j != i ==> Kept(true, s, s', j))
  {
    var sl := s.slots[i];
    var n := End(sl) - from;
    WholePages(c.pageSize, from, n);
    var s' := s.(slots := s.slots[i := x], pages := Delete(s.pages, c.pageSize, from, n));
    forall b: nat | Covers(sl, b) ensures b in Arena(c, s, 0, 0) {
      assert CoveredBy(s.slots, b);
    }
    assert forall b: nat :: b in s'.pages.mem <==> b in s.pages.mem && !(from <= b < End(sl));
    Shrink(s.slots, Arena(c, s, 0, 0), i, x, Arena(c, s', 0, 0));
    forall b: nat | InNull(c, s', b) ensures b in s'.pages.mem {
      assert b in s.pages.mem;
      assert !Covers(sl, b);
    }
    assert SameOutside(s.pages, s'.pages, sl);
    forall j | 0 <= j < |s.slots| && j != i ensures Kept(true, s, s', j) {
      KeptOthers(s, s', i, j);
    }
  }

  /** What a phase keeps; `kB` is what it released. */
  ghost predicate Released(c: Config, s: State, s': State, kB: int) {
    && Sound(c, s') && Reduced(c, s, s')
    && s'.sumProtectedMem == s.sumProtectedMem && s'.sumAllocatedMem == s.sumAllocatedMem && s'.lost == s.lost
    && Sum(s'.slots, ProtectedKB) == Sum(s.slots, ProtectedKB) - kB
    && Sum(s'.slots, HeldKB) == Sum(s.slots, HeldKB) - kB
    && Sum(s'.slots, EmptyOne) >= Sum(s.slots, EmptyOne)
  }

  lemma TrimmedOk(c: Config, sl: Slot)
    requires c.Valid() && SlotOk(c, sl) && sl.state == ALL_PROTECTED
    ensures
      var x := Trimmed(c, sl);
      && SlotOk(c, x) && ReducedSlot(sl, x) && x.state == BEGIN_PROTECTED
      && End(x) == sl.internalAddress + KeptSize(c, sl) <= End(sl) && sl.internalAddress < End(x)
      && (End(sl) - End(x)) % c.pageSize == 0
      && KB(sl.internalSize) == KB(sl.internalSize - KeptSize(c, sl)) + KB(x.internalSize)
  {
    KeptSizeMeans(c, sl);
    var keep := KeptSize(c, sl);
    MultipleSum(sl.internalSize, keep, c.pageSize);
    KBSum(sl.internalSize - keep, keep, c.pageSize);
  }

  lemma TrimStep(c: Config, s: State, i: nat)
    requires Sound(c, s) && i < |s.slots| && s.slots[i].state == ALL_PROTECTED
    ensures
      var s' := TrimSlot(c, s, i);
      Released(c, s, s', KB(s.slots[i].internalSize - KeptSize(c, s.slots[i])))
  {
    var sl := s.slots[i];
    var x := Trimmed(c, sl);
    TrimmedOk(c, sl);
    DeleteTail(c, s, i, End(x), x);
    TrimSums(s.slots, i, x);
  }

  lemma TrimSums(slots: seq<Slot>, i: nat, x: Slot)
    requires i < |slots| && slots[i].state == ALL_PROTECTED && x.state == BEGIN_PROTECTED
    ensures
      var t, kB := slots[i := x], KB(slots[i].internalSize) - KB(x.internalSize);
      && Sum(t, ProtectedKB) == Sum(slots, ProtectedKB) - kB
      && Sum(t, HeldKB) == Sum(slots, HeldKB) - kB
      && Sum(t, EmptyOne) == Sum(slots, EmptyOne)
  {
    SumUpdate(slots, i, x, ProtectedKB);
    SumUpdate(slots, i, x, HeldKB);
    SumUpdate(slots, i, x, EmptyOne);
  }

  /** Emptying a slot altogether. */
  lemma DropStep(c: Config, s: State, i: nat)
    requires Sound(c, s) && i < |s.slots| && s.slots[i].state != EMPTY
    ensures
      var s' := DropSlot(c, s, i);
      var sl := s.slots[i];
      && Sound(c, s')
      && s'.pages.open <= s.pages.open
      && (forall j :: 0 <= j < |s.slots| && j != i ==> Kept(true, s, s', j))
      && Sum(s'.slots, ProtectedKB) == Sum(s.slots, ProtectedKB) - ProtectedKB(sl)
      && Sum(s'.slots, HeldKB) == Sum(s.slots, HeldKB) - KB(sl.internalSize)
      && Sum(s'.slots, EmptyOne) == Sum(s.slots, EmptyOne) + 1
  {
    var sl := s.slots[i];
    DeleteTail(c, s, i, sl.internalAddress, Emptied(sl));
    SumUpdate(s.slots, i, Emptied(sl), ProtectedKB);
    SumUpdate(s.slots, i, Emptied(sl), HeldKB);
    SumUpdate(s.slots, i, Emptied(sl), EmptyOne);
  }

  lemma SelfReleased(c: Config, s: State)
    requires Sound(c, s)
    ensures Released(c, s, s, 0)
  {}

  lemma DropReleases(c: Config, s: State, i: nat)
    requires Sound(c, s) && i < |s.slots| && IsProtected(s.slots[i])
    ensures Released(c, s, DropSlot(c, s, i), KB(s.slots[i].internalSize))
  {
    DropStep(c, s, i);
  }

  lemma ReleasedTrans(c: Config, s: State, s1: State, s2: State, k1: int, k2: int)
    requires Released(c, s, s1, k1) && Released(c, s1, s2, k2)
    ensures Released(c, s, s2, k1 + k2)
  {
    ReducedTrans(c, s, s1, s2);
  }

  lemma {:induction false} Phase1Releases(c: Config, s: State, i: nat, done: nat, k: nat, s': State, done': nat)
    requires c.Valid() && Sound(c, s) && Phase1(c, s, i, done, k) == (s', done')
    ensures Released(c, s, s', done' - done) && done <= done'
    decreases |s.slots| - i
  {
    if i >= |s.slots| || done >= k {
      SelfReleased(c, s);
    } else if s.slots[i].state == ALL_PROTECTED {
      var s1 := TrimSlot(c, s, i);
      var kB := KB(s.slots[i].internalSize - KeptSize(c, s.slots[i]));
      TrimStep(c, s, i);
      Phase1Releases(c, s1, i + 1, done + kB, k, s', done');
      ReleasedTrans(c, s, s1, s', kB, done' - (done + kB));
    } else {
      Phase1Releases(c, s, i + 1, done, k, s', done');
    }
  }

  lemma {:induction false} Phase2Releases(c: Config, s: State, i: nat, done: nat, k: nat, s': State, done': nat)
    requires c.Valid() && Sound(c, s) && Phase2(c, s, i, done, k) == (s', done')
    ensures Released(c, s, s', done' - done) && done <= done'
    decreases |s.slots| - i
  {
    if i >= |s.slots| || done >= k {
      SelfReleased(c, s);
    } else if s.slots[i].state == BEGIN_PROTECTED {
      var s1 := DropSlot(c, s, i);
      var kB := KB(s.slots[i].internalSize);
      DropReleases(c, s, i);
      Phase2Releases(c, s1, i + 1, done + kB, k, s', done');
      ReleasedTrans(c, s, s1, s', kB, done' - (done + kB));
    } else {
      Phase2Releases(c, s, i + 1, done, k, s', done');
    }
  }

  /** Which records a phase 1 leaves: none emptied, and if it falls short no slot
      from i on is ALL_PROTECTED any more. */
  lemma {:induction false} Phase1States(c: Config, s: State, i: nat, done: nat, k: nat)
    requires c.Valid()
    ensures var (s', done') := Phase1(c, s, i, done, k);
            && (forall j :: 0 <= j < |s.slots| ==>
                  s'.slots[j] == s.slots[j] || s'.slots[j] == Trimmed(c, s.slots[j]))
            && (forall j :: 0 <= j < |s.slots| && j < i ==> s'.slots[j] == s.slots[j])
            && (forall j :: 0 <= j < |s.slots| && !IsProtected(s.slots[j]) ==> s'.slots[j] == s.slots[j])
            && (done' < k ==> forall j :: i <= j < |s.slots| ==> s'.slots[j].state != ALL_PROTECTED)
    decreases |s.slots| - i
  {
    if i >= |s.slots| || done >= k {
    } else if s.slots[i].state == ALL_PROTECTED {
      var s1 := TrimSlot(c, s, i);
      Phase1States(c, s1, i + 1, done + KB(s.slots[i].internalSize - KeptSize(c, s.slots[i])), k);
      assert s1.slots[i] == Trimmed(c, s.slots[i]);
    } else {
      Phase1States(c, s, i + 1, done, k);
    }
  }

  /** Phase 2 empties BEGIN_PROTECTED slots only, all of them from i on if it
      falls short. */
  lemma {:induction false} Phase2States(c: Config, s: State, i: nat, done: nat, k: nat)
    requires c.Valid()
    ensures var (s', done') := Phase2(c, s, i, done, k);
            && (forall j :: 0 <= j < |s.slots| ==>
                  s'.slots[j] == s.slots[j] ||
                  (s.slots[j].state == BEGIN_PROTECTED && s'.slots[j] == Emptied(s.slots[j])))
            && (forall j :: 0 <= j < |s.slots| && j < i ==> s'.slots[j] == s.slots[j])
            && (done' < k ==> forall j :: i <= j < |s.slots| ==> s'.slots[j].state != BEGIN_PROTECTED)
    decreases |s.slots| - i
  {
    if i >= |s.slots| || done >= k {
    } else if s.slots[i].state == BEGIN_PROTECTED {
      var s1 := DropSlot(c, s, i);
      Phase2States(c, s1, i + 1, done + KB(s.slots[i].internalSize), k);
      assert s1.slots[i] == Emptied(s.slots[i]);
    } else {
      Phase2States(c, s, i + 1, done, k);
    }
  }

  lemma SelfReduced(c: Config, s: State)
    ensures Reduced(c, s, s)
  {}

  /** What a whole reduction keeps: soundness, the supply, the books up to drift. */
  ghost predicate ReduceOk(c: Config, s: State, s': State) {
    && Sound(c, s') && Reduced(c, s, s')
    && Sum(s'.slots, EmptyOne) >= Sum(s.slots, EmptyOne)
    && BooksFollow(s, s')
  }

  lemma ReducedBooked(c: Config, s: State, s': State, done: nat)
    requires Released(c, s, s', done)
    ensures ReduceOk(c, s, Booked(s', done)) && ReduceOk(c, s, s'.(lost := s'.lost + done))
  {
    ReducedSame(c, s, s', Booked(s', done));
    ReducedSame(c, s, s', s'.(lost := s'.lost + done));
  }

  lemma ReducedSame(c: Config, s: State, s': State, t: State)
    requires Sound(c, s') && Reduced(c, s, s')
    requires t == s'.(sumProtectedMem := t.sumProtectedMem, sumAllocatedMem := t.sumAllocatedMem, lost := t.lost)
    ensures Sound(c, t) && Reduced(c, s, t)
  {
    assert Arena(c, t, 0, 0) == Arena(c, s', 0, 0);
    forall i | 0 <= i < |s.slots| && !IsProtected(s.slots[i]) ensures Kept(true, s, t, i) {
      assert Kept(true, s, s', i);
    }
  }

  lemma ReduceKeeps(c: Config, s: State, k: nat)
    requires Sound(c, s)
    ensures ReduceOk(c, s, Reduce(c, s, k).0)
  {
    var s' := ReduceTo(c, s, k);
  }

  lemma ReduceTo(c: Config, s: State, k: nat) returns (s': State)
    requires Sound(c, s)
    ensures s' == Reduce(c, s, k).0 && ReduceOk(c, s, s')
  {
    SelfReduced(c, s);
    if k == 0 {
      s' := s;
    } else {
      var (s1, done1) := Phase1(c, s, 0, 0, k);
      Phase1Releases(c, s, 0, 0, k, s1, done1);
      if done1 >= k {
        ReducedBooked(c, s, s1, done1);
        s' := Booked(s1, done1);
      } else {
        var (s2, done2) := Phase2(c, s1, 0, done1, k);
        Phase2Releases(c, s1, 0, done1, k, s2, done2);
        ReleasedTrans(c, s, s1, s2, done1, done2 - done1);
        ReducedBooked(c, s, s2, done2);
        s' := if done2 >= k then Booked(s2, done2) else s2.(lost := s2.lost + done2);
      }
    }
  }

  /** The return value of a reduction by k > 0 kB: 1 exactly when at least k kB of
      protected memory were released, and then the books follow exactly; 0 means
      no protected slot is left, and then nothing released was booked. Slots that
      are not protected are untouched; while phase 1 suffices, every protected
      slot still holds its user address. */
  lemma ReduceResult(c: Config, s: State, k: nat)
    requires Sound(c, s) && k > 0
    ensures
      var (s', more) := Reduce(c, s, k);
      var released := Sum(s.slots, ProtectedKB) - Sum(s'.slots, ProtectedKB);
      && (more <==> released >= k)
      && released == Sum(s.slots, HeldKB) - Sum(s'.slots, HeldKB)
      && (more ==> Drift(s') == Drift(s) && s'.lost == s.lost && s'.sumProtectedMem == s.sumProtectedMem - released
                   && s'.sumAllocatedMem == s.sumAllocatedMem - released)
      && (!more ==> Drift(s') == Drift(s) + released
                    && s'.lost == s.lost + released
                    && forall j :: 0 <= j < |s'.slots| ==> !IsProtected(s'.slots[j]))
      && Reduced(c, s, s')
      && (Phase1(c, s, 0, 0, k).1 >= k ==>
            forall j :: 0 <= j < |s.slots| && IsProtected(s.slots[j]) ==>
              IsProtected(s'.slots[j]) && s'.slots[j].userAddress == s.slots[j].userAddress)
  {
    ReduceKeeps(c, s, k);
    var (s1, done1) := Phase1(c, s, 0, 0, k);
    Phase1Releases(c, s, 0, 0, k, s1, done1);
    Phase1States(c, s, 0, 0, k);
    var (s2, done2) := Phase2(c, s1, 0, done1, k);
    Phase2Releases(c, s1, 0, done1, k, s2, done2);
    Phase2States(c, s1, 0, done1, k);
  }

  /** When a reduction succeeds, decided before the call: exactly if that much memory
      is protected. It leaves released memory in the books exactly if some, but less
      than asked for, is protected. */
  lemma ReduceSucceeds(c: Config, s: State, k: nat)
    requires Sound(c, s) && k > 0
    ensures
      var (s', more) := Reduce(c, s, k);
      var held := Sum(s.slots, ProtectedKB);
      && (more <==> held >= k)
      && s'.lost == s.lost + (if held < k then held else 0)
      && (Drift(s') > Drift(s) <==> 0 < held < k)
  {
    ReduceResult(c, s, k);
    var (s', more) := Reduce(c, s, k);
    SumBounds(s'.slots, |s'.slots|, ProtectedKB);
    SumBounds(s.slots, |s.slots|, ProtectedKB);
    if !more { SumConstant(s'.slots, |s'.slots|, ProtectedKB, 0); }
  }
}
