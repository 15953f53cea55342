/**
 The allocator as the program it is: global counters, a slot table in an array,
 and loops. Every method is proved against the function of module `Heap` that
 says what it does, so all the invariants proved there hold of it.
 */
module Duma {
  import opened Bits
  import opened Placement
  import opened Wrappers
  import opened Pages
  import opened Slots
  import opened Heap

  /** A method that ends with `out` in state `now` did what `spec` says; what a
      stopped process leaves behind does not matter. */
  predicate Meets(spec: Outcome<State>, out: Outcome<()>, now: State) {
    match spec
    case Done(s) => out == Done(()) && now == s
    case Abort(r) => out == Abort(r)
  }

  predicate Gives(spec: Outcome<(State, nat)>, out: Outcome<nat>, now: State) {
    match spec
    case Done(p) => out == Done(p.1) && now == p.0
    case Abort(r) => out == Abort(r)
  }

  predicate Arranged(spec: Outcome<Pages>, spot: Spot, out: Outcome<Spot>, now: Pages) {
    match spec
    case Done(p) => out == Done(spot) && now == p
    case Abort(r) => out == Abort(r)
  }

  /** The globals of duma.c: `_duma_g.allocList` and the counters of `_duma_s`. The
      array holds the records; the bytes of the table behind them are in `pages`. */
  class Duma {
    const c: Config
    var allocList: array<Slot>
    var slotCount: nat
    var tableAddress: nat
    var allocListSize: nat
    var unUsedSlots: nat
    var sumAllocatedMem: int
    var sumProtectedMem: int
    var checkFreqCounter: int
    var nullBlock: nat
    var pages: Pages
    ghost var lost: nat

    ghost predicate Valid()
      reads this, allocList
    {
      c.Valid() && slotCount == allocList.Length
    }

    ghost function View(): State
      requires slotCount <= allocList.Length
      reads this, allocList
    {
      State(allocList[..slotCount], tableAddress, allocListSize, unUsedSlots, sumAllocatedMem,
            sumProtectedMem, checkFreqCounter, nullBlock, pages, lost)
    }

    // ---- paging.h ----

    method PageCreate(size: nat) returns (a: nat)
      requires Valid()
      modifies this`pages
      ensures Valid() && (View(), a) == CreatePages(c, old(View()), size)
    {
      var (p, start) := Create(pages, c.pageSize, size);
      pages, a := p, start;
    }

    method PageAllowAccess(address: nat, size: int) returns (o: Outcome<()>)
      requires Valid()
      modifies this`pages
      ensures Valid() && View() == old(View()).(pages := pages)
      ensures
        match Allow(old(pages), c.pageSize, address, size)
        case Done(p) => o == Done(()) && pages == p
        case Abort(r) => o == Abort(r)
    {
      var p :- Allow(pages, c.pageSize, address, size);
      pages := p;
      o := Done(());
    }

    method PageDenyAccess(address: nat, size: int) returns (o: Outcome<()>)
      requires Valid()
      modifies this`pages
      ensures Valid() && View() == old(View()).(pages := pages)
      ensures
        match Deny(old(pages), c.pageSize, address, size)
        case Done(p) => o == Done(()) && pages == p
        case Abort(r) => o == Abort(r)
    {
      var p :- Deny(pages, c.pageSize, address, size);
      pages := p;
      o := Done(());
    }

    method PageDelete(address: nat, size: nat)
      requires Valid()
      modifies this`pages
      ensures Valid() && View() == old(View()).(pages := Delete(old(pages), c.pageSize, address, size))
    {
      pages := Delete(pages, c.pageSize, address, size);
    }

    method SetSlot(i: nat, sl: Slot)
      requires Valid() && i < slotCount
      modifies allocList
      ensures Valid() && View() == old(View()).(slots := old(View()).slots[i := sl])
    {
      allocList[i] := sl;
      assert allocList[..slotCount] == old(allocList[..slotCount])[i := sl];
    }

    // ---- duma_hlp.h ----

    method SlotForUserAddress(address: nat) returns (r: Option<nat>)
      requires Valid()
      ensures r == SlotForUser(View().slots, address)
    {
      for slot := 0 to slotCount
        invariant forall i :: 0 <= i < slot ==> allocList[i].userAddress != address
      {
        if allocList[slot].userAddress == address {
          return Some(slot);
        }
      }
      return None;
    }

    method NearestSlotForUserAddress(address: nat) returns (r: Option<nat>)
      requires Valid()
      ensures r == NearestSlot(View().slots, address)
    {
      for slot := 0 to slotCount
        invariant forall i :: 0 <= i < slot ==> !Near(allocList[i], address)
      {
        if allocList[slot].internalAddress <= address <= allocList[slot].internalAddress + allocList[slot].internalSize {
          return Some(slot);
        }
      }
      return None;
    }

    /** Write the fill byte upwards from begin, one byte at a time. */
    method FillUp(begin: nat, end: int, fill: Byte) returns (o: Outcome<()>)
      modifies this`pages
      ensures o == if AllOpen(old(pages), begin, end) then Done(()) else Abort(SegFault)
      ensures o.Done? ==> pages == old(pages).(mem := FillRange(old(pages.mem), begin, end, fill))
    {
      var cur := begin;
      assert pages.mem == FillRange(pages.mem, begin, begin, fill);
      while cur < end
        invariant begin <= cur && (cur <= end || cur == begin)
        invariant AllOpen(old(pages), begin, cur)
        invariant pages == old(pages).(mem := FillRange(old(pages.mem), begin, cur, fill))
      {
        if cur !in pages.open || cur !in pages.mem {
          return Abort(SegFault);
        }
        pages := pages.(mem := pages.mem[cur := fill]);
        cur := cur + 1;
        assert pages.mem == FillRange(old(pages.mem), begin, cur, fill);
      }
      if end < begin { assert pages.mem == FillRange(old(pages.mem), begin, end, fill); }
      o := Done(());
    }

    method InitSlack(slot: nat) returns (o: Outcome<()>)
      requires Valid() && slot < slotCount
      modifies this`pages
      ensures Valid() && View() == old(View()).(pages := pages)
      ensures o == if SlackOpen(old(pages), allocList[slot]) then Done(()) else Abort(SegFault)
      ensures o.Done? ==> pages == old(pages).(mem := Heap.InitSlack(c, old(pages.mem), allocList[slot]))
    {
      var sl := allocList[slot];
      if sl.userSize == 0 {
        return Done(());
      }
      var accBegAddr, accEndAddr: int;
      if sl.protAddress < sl.userAddress {
        accBegAddr, accEndAddr := sl.userAddress, sl.internalAddress + sl.internalSize;
      } else {
        accBegAddr, accEndAddr := sl.internalAddress, sl.protAddress;
      }
      var _ :- FillUp(accBegAddr, sl.userAddress, c.slackFill);
      o := FillUp(sl.userAddress + sl.userSize, accEndAddr, c.slackFill);
    }

    /** Read upwards from begin and stop at the first byte that is not the fill byte. */
    method ScanUp(begin: nat, end: int, fill: Byte, bad: Reason) returns (r: Option<Reason>)
      ensures r == Scan(pages, begin, end, fill, bad)
    {
      var cur := begin;
      while cur < end
        invariant begin <= cur
        invariant Scan(pages, begin, end, fill, bad) == Scan(pages, cur, end, fill, bad)
      {
        if cur !in pages.open || cur !in pages.mem {
          return Some(SegFault);
        }
        if pages.mem[cur] != fill {
          return Some(bad);
        }
        cur := cur + 1;
      }
      return None;
    }

    method CheckSlack(slot: nat) returns (r: Option<Reason>)
      requires Valid() && slot < slotCount
      ensures r == Heap.CheckSlack(c, pages, allocList[slot])
    {
      var sl := allocList[slot];
      if sl.userSize == 0 || sl.internalAddress == 0 {
        return None;
      }
      var accBegAddr, accEndAddr: int;
      if sl.protAddress < sl.userAddress {
        accBegAddr, accEndAddr := sl.userAddress, sl.internalAddress + sl.internalSize;
      } else {
        accBegAddr, accEndAddr := sl.internalAddress, sl.protAddress;
      }
      r := ScanUp(accBegAddr, sl.userAddress, c.slackFill, SlackBelow);
      if r.None? {
        r := ScanUp(sl.userAddress + sl.userSize, accEndAddr, c.slackFill, SlackAbove);
      }
    }

    method CheckAllSlacks() returns (r: Option<Reason>)
      requires Valid()
      ensures r == Heap.CheckAllSlacks(c, View(), 0)
    {
      var slot := 0;
      while slot < slotCount
        invariant slot <= slotCount
        invariant Heap.CheckAllSlacks(c, View(), 0) == Heap.CheckAllSlacks(c, View(), slot)
      {
        if allocList[slot].state == IN_USE && allocList[slot].userSize > 0 {
          r := CheckSlack(slot);
          if r.Some? {
            return;
          }
        }
        slot := slot + 1;
      }
      return None;
    }

    /** The periodic check that opens every allocation and deallocation. */
    method CheckFreq() returns (o: Outcome<()>)
      requires Valid()
      modifies this`checkFreqCounter
      ensures Valid() && Meets(Heap.CheckFreq(c, old(View())), o, View())
    {
      if c.checkFreq > 0 {
        checkFreqCounter := checkFreqCounter + 1;
        if checkFreqCounter == c.checkFreq {
          CheckIgnoresCounter(c, old(View()), View(), 0);
          var bad := CheckAllSlacks();
          if bad.Some? {
            return Abort(bad.value);
          }
          checkFreqCounter := 0;
        }
      }
      o := Done(());
    }

    /** Phase 1 on one slot: only the page with the user address is kept. */
    method KeepUserPage(slot: nat) returns (kB: nat)
      requires Valid() && slot < slotCount
      modifies allocList, this`pages
      ensures Valid() && View() == TrimSlot(c, old(View()), slot)
      ensures kB == KB(old(allocList[slot].internalSize) - KeptSize(c, old(allocList[slot])))
    {
      var sl := allocList[slot];
      var newSize := KeptSize(c, sl);
      var delSize := sl.internalSize - newSize;
      PageDelete(sl.internalAddress + newSize, delSize);
      SetSlot(slot, sl.(state := BEGIN_PROTECTED, internalSize := newSize));
      kB := KB(delSize);
    }

    /** Free all the memory, the slot and its user address. */
    method EmptySlot(slot: nat)
      requires Valid() && slot < slotCount
      modifies allocList, this`pages
      ensures Valid() && View() == DropSlot(c, old(View()), slot)
    {
      var sl := allocList[slot];
      PageDelete(sl.internalAddress, sl.internalSize);
      SetSlot(slot, Slot(0, 0, sl.protAddress, 0, 0, EMPTY, EFA_INT_ALLOC, NoSource, NO_SITE));
    }

    /** 1- try reducing memory to just keep the pages with a user address. */
    method KeepUserPages(goal: nat) returns (done: nat)
      requires Valid()
      modifies allocList, this`pages
      ensures Valid() && (View(), done) == Phase1(c, old(View()), 0, 0, goal)
    {
      done := 0;
      var slot := 0;
      while slot < slotCount && done < goal
        invariant Valid() && slot <= slotCount && |View().slots| == slotCount
        invariant Phase1(c, old(View()), 0, 0, goal) == Phase1(c, View(), slot, done, goal)
      {
        if allocList[slot].state == ALL_PROTECTED {
          var kB := KeepUserPage(slot);
          done := done + kB;
        }
        slot := slot + 1;
      }
    }

    /** 2- deallocate the pages with a user address, empty whole slots. */
    method EmptySlots(already: nat, goal: nat) returns (done: nat)
      requires Valid()
      modifies allocList, this`pages
      ensures Valid() && (View(), done) == Phase2(c, old(View()), 0, already, goal)
    {
      done := already;
      var slot := 0;
      while slot < slotCount && done < goal
        invariant Valid() && slot <= slotCount && |View().slots| == slotCount
        invariant Phase2(c, old(View()), 0, already, goal) == Phase2(c, View(), slot, done, goal)
      {
        if allocList[slot].state == BEGIN_PROTECTED {
          done := done + KB(allocList[slot].internalSize);
          EmptySlot(slot);
        }
        slot := slot + 1;
      }
    }

    method Book(done: nat)
      requires Valid()
      modifies this`sumProtectedMem, this`sumAllocatedMem
      ensures Valid() && View() == Booked(old(View()), done)
    {
      sumProtectedMem := sumProtectedMem - done;
      sumAllocatedMem := sumAllocatedMem - done;
    }

    /** reduceProtectedMemory */
    method ReduceProtectedMemory(reductionSizekB: nat) returns (more: bool)
      requires Valid()
      modifies allocList, this`pages, this`sumProtectedMem, this`lost, this`sumAllocatedMem
      ensures Valid() && (View(), more) == Reduce(c, old(View()), reductionSizekB)
    {
      if reductionSizekB == 0 {
        return false;
      }
      var alreadyReducekB := KeepUserPages(reductionSizekB);
      if alreadyReducekB >= reductionSizekB {
        Book(alreadyReducekB);
        return true;
      }
      alreadyReducekB := EmptySlots(alreadyReducekB, reductionSizekB);
      if alreadyReducekB >= reductionSizekB {
        Book(alreadyReducekB);
        return true;
      }
      lost := lost + alreadyReducekB;
      return false;
    }

    // ---- `_duma_allocate` ----

    /** do { reduce; create } while (reduce_more && failed) */
    method CreateAfterReducing(size: nat, kB: nat) returns (a: nat)
      requires Valid()
      modifies allocList, this`pages, this`sumProtectedMem, this`lost, this`sumAllocatedMem
      ensures Valid() && (View(), a) == CreateRetry(c, old(View()), size, kB)
    {
      var reduceMore := true;
      a := 0;
      while reduceMore && a == 0
        invariant Valid()
        invariant CreateRetry(c, old(View()), size, kB) ==
                  if reduceMore && a == 0 then CreateRetry(c, View(), size, kB) else (View(), a)
        decreases Sum(View().slots, Rank), reduceMore
      {
        ReduceRank(c, View(), kB);
        reduceMore := ReduceProtectedMemory(kB);
        a := PageCreate(size);
      }
    }

    /** The pages of a new chunk, with everything that is tried to get them. */
    method ObtainChunk(chunkSize: nat, total: nat, failEnv: bool) returns (o: Outcome<nat>)
      requires Valid()
      modifies allocList, this`pages, this`sumProtectedMem, this`lost, this`sumAllocatedMem
      ensures Valid() && Gives(Obtain(c, old(View()), chunkSize, total, failEnv), o, View())
    {
      var kB := KB(chunkSize);
      if c.maxAlloc > 0 && sumAllocatedMem + kB > c.maxAlloc {
        var _ := ReduceProtectedMemory(kB);
      }
      var a := PageCreate(total);
      if a == 0 && c.protectFree != 0 {
        a := CreateAfterReducing(total, kB);
        if a == 0 && failEnv {
          a := PageCreate(total);
          if a == 0 && c.mallocFailExit {
            return Abort(MmapFailed);
          }
        }
      }
      o := Done(a);
    }

    /** One pass over the table: the best fitting free slot and two empty ones. It
        stops early at a slot of exactly the right size. */
    method FindSlots(need: nat) returns (full: Option<nat>, empty0: Option<nat>, empty1: Option<nat>)
      requires Valid()
      ensures full == BestFit(View().slots, need)
      ensures full.Some? ==> allocList[full.value].internalSize == need || empty0 == FirstEmpty(View().slots, 0)
      ensures full.None? ==> empty0 == FirstEmpty(View().slots, 0)
      ensures full.None? && empty0.Some? ==> empty1 == FirstEmpty(View().slots, empty0.value + 1)
      ensures empty0.Some? ==> empty0.value < slotCount
    {
      full, empty0, empty1 := None, None, None;
      for slot := 0 to slotCount
        invariant BestSoFar(allocList[..slotCount], slot, need, full)
        invariant full.Some? ==> allocList[full.value].internalSize != need
        invariant EmptySoFar(allocList[..slotCount], slot, empty0, empty1)
      {
        var sl := allocList[slot];
        if sl.state == FREE && sl.internalSize >= need {
          if full.None? || sl.internalSize < allocList[full.value].internalSize {
            full := Some(slot);
            if sl.internalSize == need {
              BestIsFinal(allocList[..slotCount], slot, need);
              return;
            }
          }
        } else if sl.state == EMPTY {
          if empty0.None? {
            empty0 := Some(slot);
          } else if empty1.None? {
            empty1 := Some(slot);
          }
        }
      }
      BestFitUnique(allocList[..slotCount], need, full);
      EmptiesFound(allocList[..slotCount], empty0, empty1);
    }

    /** Enter a chunk in the table as one free slot. */
    method EnterChunk(full: nat, address: nat, chunkSize: nat, numChunks: nat)
      requires Valid() && full < slotCount
      modifies allocList, this`unUsedSlots, this`sumAllocatedMem
      ensures Valid()
      ensures View() == AddChunk(old(View()), full, address, chunkSize, TotalSize(chunkSize, numChunks), numChunks)
    {
      sumAllocatedMem := sumAllocatedMem + KB(chunkSize) * numChunks;
      SetSlot(full, allocList[full].(internalAddress := address, internalSize := chunkSize * numChunks, state := FREE));
      unUsedSlots := Take(unUsedSlots, 1);
    }

    /** Cut the slot down to `need` bytes; the EMPTY slot takes the surplus. */
    method Split(full: nat, empty: Option<nat>, need: nat) returns (o: Outcome<()>)
      requires Valid() && full < slotCount && (empty.Some? ==> empty.value < slotCount)
      modifies allocList, this`unUsedSlots
      ensures Valid() && Meets(SplitSlot(old(View()), full, empty, need), o, View())
    {
      var sl := allocList[full];
      if sl.internalSize > need {
        if empty.None? {
          return Abort(NullSlotWrite);
        }
        var address, size := sl.internalAddress + need, sl.internalSize - need;
        SetSlot(empty.value, sl.(internalAddress := address, internalSize := size, userAddress := address, userSize := size));
        SetSlot(full, sl.(internalSize := need));
        unUsedSlots := Take(unUsedSlots, 1);
      }
      o := Done(());
    }

    /** Set up the "live" pages, then the "dead" pages. */
    method LiveThenDead(live: nat, liveSize: int, dead: nat, deadSize: int) returns (o: Outcome<()>)
      requires Valid()
      modifies this`pages
      ensures Valid() && View() == old(View()).(pages := pages)
      ensures
        match Allow(old(pages), c.pageSize, live, liveSize)
        case Abort(r) => o == Abort(r)
        case Done(p) =>
          match Deny(p, c.pageSize, dead, deadSize)
          case Abort(r) => o == Abort(r)
          case Done(q) => o == Done(()) && pages == q
    {
      var _ :- PageAllowAccess(live, liveSize);
      o := PageDenyAccess(dead, deadSize);
    }

    method ArrangeAbove(intAddr: nat, need: nat, alignment: pos, r: Request) returns (o: Outcome<Spot>)
      requires Valid() && r.size > 0 && !r.protectBelow
      modifies this`pages
      ensures Valid() && View() == old(View()).(pages := pages)
      ensures Arranged(Protect(c, old(pages), intAddr, need, Place(c, intAddr, need, alignment, r), r),
                       Place(c, intAddr, need, alignment, r), o, pages)
    {
      var userAddr := UserAbove(c.pageSize, alignment, intAddr, need, r.size);
      var protAddr := AlignUp(userAddr + r.size, c.pageSize);
      var _ :- LiveThenDead(intAddr, protAddr - intAddr, protAddr, intAddr + need - protAddr);
      o := Done(Spot(userAddr, protAddr));
    }

    method ArrangeBelow(intAddr: nat, need: nat, alignment: pos, r: Request) returns (o: Outcome<Spot>)
      requires Valid() && r.size > 0 && r.protectBelow
      modifies this`pages
      ensures Valid() && View() == old(View()).(pages := pages)
      ensures Arranged(Protect(c, old(pages), intAddr, need, Place(c, intAddr, need, alignment, r), r),
                       Place(c, intAddr, need, alignment, r), o, pages)
    {
      var userAddr := AlignUp(intAddr + c.pageSize, alignment);
      var protAddr := AlignDown(userAddr, c.pageSize) - c.pageSize;
      var _ :- LiveThenDead(userAddr, need - (userAddr - protAddr), intAddr, userAddr - intAddr);
      o := Done(Spot(userAddr, protAddr));
    }

    /** Choose the block's address and set up its live and dead pages. */
    method ArrangePages(intAddr: nat, need: nat, alignment: pos, r: Request) returns (o: Outcome<Spot>)
      requires Valid()
      modifies this`pages
      ensures Valid() && View() == old(View()).(pages := pages)
      ensures Arranged(Protect(c, old(pages), intAddr, need, Place(c, intAddr, need, alignment, r), r),
                       Place(c, intAddr, need, alignment, r), o, pages)
    {
      if r.size == 0 {
        var _ :- PageDenyAccess(intAddr, need);
        o := Done(Spot(intAddr + c.pageSize / 2, intAddr));
      } else if !r.protectBelow {
        o := ArrangeAbove(intAddr, need, alignment, r);
      } else {
        o := ArrangeBelow(intAddr, need, alignment, r);
      }
    }

    /** Put the block into the slot and fill its no man's land. */
    method PlaceBlock(full: nat, need: nat, alignment: pos, r: Request) returns (o: Outcome<nat>)
      requires Valid() && full < slotCount
      modifies allocList, this`pages
      ensures Valid() && Gives(PlaceSlot(c, old(View()), full, need, alignment, r), o, View())
    {
      var spot :- ArrangePages(allocList[full].internalAddress, need, alignment, r);
      SetSlot(full, allocList[full].(
        userAddress := spot.user, protAddress := spot.prot, userSize := r.size, state := IN_USE,
        allocator := r.allocator, fileSource := AllocationSource, site := r.site));
      var _ :- InitSlack(full);
      o := Done(spot.user);
    }

    method CarveBlock(full: nat, empty: Option<nat>, need: nat, alignment: pos, r: Request) returns (o: Outcome<nat>)
      requires Valid() && full < slotCount && (empty.Some? ==> empty.value < slotCount)
      modifies allocList, this`pages, this`unUsedSlots
      ensures Valid() && Gives(Carve(c, old(View()), full, empty, need, alignment, r), o, View())
    {
      var _ :- Split(full, empty, need);
      o := PlaceBlock(full, need, alignment, r);
    }

    method CarveNewChunk(empty0: nat, empty1: nat, address: nat, chunkSize: nat, numChunks: nat, need: nat,
                         alignment: pos, r: Request)
      returns (o: Outcome<nat>)
      requires Valid() && empty0 < slotCount && empty1 < slotCount
      modifies allocList, this`pages, this`unUsedSlots, this`sumAllocatedMem
      ensures Valid()
      ensures
        var s := AddChunk(old(View()), empty0, address, chunkSize, TotalSize(chunkSize, numChunks), numChunks);
        Gives(Carve(c, s, empty0, Some(empty1), need, alignment, r), o, View())
    {
      EnterChunk(empty0, address, chunkSize, numChunks);
      o := CarveBlock(empty0, Some(empty1), need, alignment, r);
    }

    method ObtainAndCarve(empty0: nat, empty1: nat, chunkSize: nat, numChunks: nat, need: nat, alignment: pos, r: Request)
      returns (o: Outcome<nat>)
      requires Valid() && empty0 < slotCount && empty1 < slotCount
      modifies allocList, this`pages, this`unUsedSlots, this`sumProtectedMem, this`lost, this`sumAllocatedMem
      ensures Valid()
      ensures
        var got := Obtain(c, old(View()), chunkSize, TotalSize(chunkSize, numChunks), r.failEnv);
        && (got.Done? ==> |got.value.0.slots| == |old(View()).slots|)
        && Gives(Obtained(c, got, empty0, empty1, chunkSize, numChunks, need, alignment, r), o, View())
    {
      ObtainLength(c, View(), chunkSize, TotalSize(chunkSize, numChunks), r.failEnv);
      var address :- ObtainChunk(chunkSize, chunkSize * numChunks, r.failEnv);
      if address == 0 {
        return Done(0);
      }
      o := CarveNewChunk(empty0, empty1, address, chunkSize, numChunks, need, alignment, r);
    }

    /** A block out of a new chunk. */
    method CarveFromChunk(empty0: nat, empty1: nat, need: nat, alignment: pos, r: Request) returns (o: Outcome<nat>)
      requires Valid() && empty0 < slotCount && empty1 < slotCount && need > 0
      modifies allocList, this`pages, this`unUsedSlots, this`sumProtectedMem, this`lost, this`sumAllocatedMem
      ensures Valid() && Gives(CarveChunk(c, old(View()), empty0, empty1, need, alignment, r), o, View())
    {
      CarveChunkSteps(c, View(), empty0, empty1, need, alignment, r);
      var chunkSize := ChunkSize(c, need);
      var numChunks := NumChunks(r.size, chunkSize);
      o := ObtainAndCarve(empty0, empty1, chunkSize, numChunks, need, alignment, r);
    }

    /** From the scan of the table to the placed block. */
    method Serve(need: nat, alignment: pos, r: Request) returns (o: Outcome<nat>)
      requires Valid() && need > 0
      modifies allocList, this`pages, this`unUsedSlots, this`sumProtectedMem, this`lost, this`sumAllocatedMem
      ensures Valid() && Gives(Core(c, old(View()), need, alignment, r), o, View())
    {
      var full, empty0, empty1 := FindSlots(need);
      if full.None? {
        if empty0.None? || empty1.None? {
          return Abort(NoEmptySlot);
        }
        o := CarveFromChunk(empty0.value, empty1.value, need, alignment, r);
      } else {
        ExactNeedsNoEmpty(c, View(), full.value, empty0, FirstEmpty(View().slots, 0), need, alignment, r);
        o := CarveBlock(full.value, empty0, need, alignment, r);
      }
    }

    // ---- `_duma_deallocate` ----

    /** The pointer checks; the result is the slot to free. */
    method FindToFree(address: nat, allocator: Allocator) returns (o: Outcome<nat>)
      requires Valid()
      ensures o == FreeTarget(View(), address, allocator)
    {
      var slot := SlotForUserAddress(address);
      if slot.None? {
        var nearest := NearestSlotForUserAddress(address);
        return Abort(NotFromDuma(nearest));
      }
      var sl := allocList[slot.value];
      if sl.state == ALL_PROTECTED || sl.state == BEGIN_PROTECTED {
        return Abort(AlreadyFreed);
      } else if TypeOf(sl.allocator) != TypeOf(allocator) {
        return Abort(FreeMismatch);
      }
      o := Done(slot.value);
    }

    method ProtectFreed(slot: nat, kB: nat, site: Site) returns (o: Outcome<()>)
      requires Valid() && slot < slotCount
      modifies allocList, this`pages, this`sumProtectedMem, this`lost
      ensures Valid() && Meets(Protecting(c, old(View()), slot, kB, site), o, View())
    {
      var sl := allocList[slot].(state := ALL_PROTECTED);
      SetSlot(slot, sl);
      var _ :- PageDenyAccess(sl.internalAddress, sl.internalSize);
      sumProtectedMem := sumProtectedMem + kB;
      if site.line != 0 {
        SetSlot(slot, sl.(fileSource := DeallocationSource, site := site));
      }
      o := Done(());
    }

    method FreeAll(slot: nat, kB: nat)
      requires Valid() && slot < slotCount
      modifies allocList, this`pages, this`sumAllocatedMem, this`unUsedSlots
      ensures Valid() && View() == Dropping(c, old(View()), slot, kB)
    {
      EmptySlot(slot);
      sumAllocatedMem := sumAllocatedMem - kB;
      unUsedSlots := Give(unUsedSlots, 1);
    }

    /** Make room under PROTECT_FREE, then protect the memory or give it back. */
    method ReleaseSlot(slot: nat, site: Site) returns (o: Outcome<()>)
      requires Valid() && slot < slotCount
      modifies allocList, this`pages, this`sumAllocatedMem, this`sumProtectedMem, this`lost, this`unUsedSlots
      ensures Valid() && Meets(Release(c, old(View()), slot, site), o, View())
    {
      var kB := KB(allocList[slot].internalSize);
      if c.protectFree > 0 && sumProtectedMem + kB > c.protectFree && kB < c.protectFree && sumProtectedMem >= kB {
        var _ := ReduceProtectedMemory(kB);
      }
      if allocList[slot].allocator != EFA_INT_ALLOC &&
         (c.protectFree < 0 || (c.protectFree > 0 && sumProtectedMem + kB <= c.protectFree)) {
        o := ProtectFreed(slot, kB, site);
      } else {
        FreeAll(slot, kB);
        o := Done(());
      }
    }

    /** With the table open: the periodic check, the pointer checks, the slack check,
        the release. */
    method CheckAndRelease(address: nat, allocator: Allocator, site: Site) returns (o: Outcome<()>)
      requires Valid()
      modifies allocList, this`pages, this`sumAllocatedMem, this`sumProtectedMem, this`lost, this`unUsedSlots, this`checkFreqCounter
      ensures Valid() && Meets(DeallocateOpen(c, old(View()), address, allocator, site), o, View())
    {
      var _ :- CheckFreq();
      var slot :- FindToFree(address, allocator);
      var bad := CheckSlack(slot);
      if bad.Some? {
        return Abort(bad.value);
      }
      o := ReleaseSlot(slot, site);
    }

    method OpenIf(protectAllocList: bool) returns (o: Outcome<()>)
      requires Valid()
      modifies this`pages
      ensures Valid()
      ensures Meets(if protectAllocList then OpenTable(c, old(View())) else Done(old(View())), o, View())
    {
      o := Done(());
      if protectAllocList {
        o := PageAllowAccess(tableAddress, allocListSize);
      }
    }

    method CloseIf(protectAllocList: bool) returns (o: Outcome<()>)
      requires Valid()
      modifies this`pages
      ensures Valid()
      ensures Meets(if protectAllocList then CloseTable(c, old(View())) else Done(old(View())), o, View())
    {
      o := Done(());
      if protectAllocList {
        o := PageDenyAccess(tableAddress, allocListSize);
      }
    }

    /** `_duma_deallocate` */
    method Deallocate(address: nat, protectAllocList: bool, allocator: Allocator, site: Site) returns (o: Outcome<()>)
      requires Valid()
      modifies allocList, this`pages, this`sumAllocatedMem, this`sumProtectedMem, this`lost, this`unUsedSlots, this`checkFreqCounter
      ensures Valid()
      ensures protectAllocList ==> Meets(Heap.Deallocate(c, old(View()), address, allocator, site), o, View())
      ensures !protectAllocList ==> Meets(DeallocateAny(c, old(View()), address, allocator, site), o, View())
    {
      if address == 0 || address == nullBlock + c.pageSize {
        return Done(());
      }
      var _ :- OpenIf(protectAllocList);
      var _ :- CheckAndRelease(address, allocator, site);
      o := CloseIf(protectAllocList);
    }

    // ---- allocateMoreSlots and `_duma_allocate` ----

    /** The new block becomes the table: the old bytes are copied, one page of zeros
        follows, and there are slotsPerPage more slots, which hold what is there. */
    method UseTable(newAllocation: nat, newSize: nat) returns (o: Outcome<()>)
      requires Valid() && newSize == allocListSize + c.pageSize
      modifies this`allocList, this`tableAddress, this`allocListSize, this`slotCount, this`unUsedSlots, this`pages
      ensures Valid() && (allocList == old(allocList) || fresh(allocList))
      ensures Meets(SwitchTable(c, old(View()), newAllocation, newSize), o, View())
    {
      if !AllOpen(pages, tableAddress, tableAddress + allocListSize)
         || !AllOpen(pages, newAllocation, newAllocation + allocListSize + c.pageSize)
      {
        return Abort(SegFault);
      }
      TakeTable(newAllocation, newSize);
      o := Done(());
    }

    method TakeTable(newAllocation: nat, newSize: nat)
      requires Valid() && AllOpen(pages, tableAddress, tableAddress + allocListSize)
      modifies this`allocList, this`tableAddress, this`allocListSize, this`slotCount, this`unUsedSlots, this`pages
      ensures Valid() && fresh(allocList)
      ensures View() == Switched(c, old(View()), MovedBytes(c, old(View()), newAllocation), newAllocation, newSize)
    {
      MoveBytes(newAllocation);
      ReadTable(newAllocation, newSize);
    }

    method MoveBytes(newAllocation: nat)
      requires Valid() && AllOpen(pages, tableAddress, tableAddress + allocListSize)
      modifies this`pages
      ensures Valid()
      ensures View() == old(View()).(pages := old(pages).(mem := MovedBytes(c, old(View()), newAllocation)))
    {
      CopyBytes(newAllocation, tableAddress, allocListSize);
      FillBytes(newAllocation + allocListSize, newAllocation + allocListSize + c.pageSize, 0);
    }

    /** Point the globals to the new table. */
    method ReadTable(newAllocation: nat, newSize: nat)
      requires Valid()
      modifies this`allocList, this`tableAddress, this`allocListSize, this`slotCount, this`unUsedSlots
      ensures Valid() && fresh(allocList)
      ensures View() == Switched(c, old(View()), pages.mem, newAllocation, newSize)
    {
      allocList := ReadRecords(newAllocation + slotCount * c.slotSize);
      tableAddress := newAllocation;
      allocListSize := newSize;
      slotCount := slotCount + c.SlotsPerPage();
      unUsedSlots := Give(unUsedSlots, c.SlotsPerPage());
    }

    /** The records so far, and those at `from`. */
    method ReadRecords(from: nat) returns (table: array<Slot>)
      requires Valid()
      ensures fresh(table)
      ensures table[..] == allocList[..] + RecordsAt(pages.mem, from, c.SlotsPerPage(), c.slotSize)
    {
      table := new Slot[slotCount + c.SlotsPerPage()];
      forall i | 0 <= i < slotCount {
        table[i] := allocList[i];
      }
      assert table[..slotCount] == allocList[..];
      ReadBehind(table, slotCount, from);
      assert table[..] == table[..slotCount] + table[slotCount..];
    }

    method ReadBehind(table: array<Slot>, n: nat, from: nat)
      requires n <= table.Length
      modifies table
      ensures table[..n] == old(table[..n])
      ensures table[n..] == RecordsAt(pages.mem, from, table.Length - n, c.slotSize)
    {
      var address: nat := from;
      ghost var mem, first := pages.mem, table[..n];
      ghost var all := RecordsAt(mem, from, table.Length - n, c.slotSize);
      for i := n to table.Length
        invariant pages.mem == mem && table[..n] == first
        invariant all == table[n..i] + RecordsAt(mem, address, table.Length - i, c.slotSize)
      {
        ghost var before := table[n..i];
        table[i] := RecordAt(pages.mem, address, c.slotSize);
        address := address + c.slotSize;
        assert table[n..i + 1] == before + [table[i]];
      }
    }

    method SwitchTables(newAllocation: nat, oldAllocation: nat, newSize: nat) returns (o: Outcome<()>)
      requires Valid() && newSize == allocListSize + c.pageSize
      modifies this, allocList
      ensures Valid() && (allocList == old(allocList) || fresh(allocList))
      ensures Meets(GrowSwitch(c, old(View()), newAllocation, oldAllocation, newSize), o, View())
    {
      if newAllocation == 0 {
        return Done(());
      }
      var _ :- UseTable(newAllocation, newSize);
      o := Deallocate(oldAllocation, false, EFA_INT_DEALLOC, GROW_SITE);
    }

    method MoveTable(t: Tls, oldAllocation: nat, newSize: nat) returns (o: Outcome<()>)
      requires Valid() && newSize == allocListSize + c.pageSize
      modifies this, allocList
      ensures Valid() && (allocList == old(allocList) || fresh(allocList))
      ensures
        var got := Heap.Allocate(c, old(View()), t, GrowRequest(newSize), false);
        Meets(GrowRest(c, got, oldAllocation, newSize), o, View())
      decreases 1, 0
    {
      var newAllocation :- Allocate(t, GrowRequest(newSize), false);
      o := SwitchTables(newAllocation, oldAllocation, newSize);
    }

    /** allocateMoreSlots */
    method AllocateMoreSlots(t: Tls) returns (o: Outcome<()>)
      requires Valid()
      modifies this, allocList
      ensures Valid() && (allocList == old(allocList) || fresh(allocList))
      ensures Meets(Grow(c, old(View())), o, View())
      decreases 1, 1
    {
      var newSize := allocListSize + c.pageSize;
      InternalAllocation(c, View(), t, newSize);
      o := MoveTable(t, tableAddress, newSize);
    }

    /** With size and alignment settled and the table open: the periodic check, growth
        if slots run short, the block. */
    method CheckAndServe(t: Tls, alignment: pos, r: Request) returns (o: Outcome<nat>)
      requires Valid()
      modifies this, allocList
      ensures Valid() && (allocList == old(allocList) || fresh(allocList))
      ensures Gives(AllocateOpen(c, old(View()), alignment, r), o, View())
      ensures TypeOf(r.allocator) == Internal ==> allocListSize == old(allocListSize)
      decreases if TypeOf(r.allocator) == Internal then 0 else 2, 0
    {
      var _ :- CheckFreq();
      if TypeOf(r.allocator) != Internal && unUsedSlots < 7 {
        var _ :- AllocateMoreSlots(t);
      }
      o := Serve(SlotBytes(c, alignment, r.size), alignment, r);
    }

    method AllocateAligned(t: Tls, alignment: pos, r: Request, protectAllocList: bool) returns (o: Outcome<nat>)
      requires Valid()
      modifies this, allocList
      ensures Valid() && (allocList == old(allocList) || fresh(allocList))
      ensures Gives(AllocateWith(c, old(View()), alignment, r, protectAllocList), o, View())
      ensures TypeOf(r.allocator) == Internal ==> allocListSize == old(allocListSize)
      decreases if TypeOf(r.allocator) == Internal then 0 else 2, 1
    {
      var _ :- OpenIf(protectAllocList);
      var user :- CheckAndServe(t, alignment, r);
      var _ :- CloseIf(protectAllocList);
      var _ :- FillNewBlock(user, r);
      o := Done(user);
    }

    method FillNewBlock(user: nat, r: Request) returns (o: Outcome<()>)
      requires Valid()
      modifies this`pages
      ensures Valid() && Meets(FillBlock(old(View()), user, r), o, View())
    {
      if user != 0 && r.fill.Some? && r.size > 0 {
        if !AllOpen(pages, user, user + r.size) {
          return Abort(SegFault);
        }
        FillBytes(user, user + r.size, r.fill.value);
      }
      o := Done(());
    }

    /** The alignment the request gets. */
    method ChooseAlignment(t: Tls, r: Request) returns (alignment: pos)
      ensures alignment == ChosenAlignment(t, r)
    {
      if r.alignment != 0 {
        return r.alignment;
      }
      alignment := t.alignment;
      if 0 < r.size < alignment {
        alignment := NextLowerPowerOf2(r.size);
      }
    }

    /** `_duma_allocate` */
    method Allocate(t: Tls, r: Request, protectAllocList: bool) returns (o: Outcome<nat>)
      requires Valid()
      modifies this, allocList
      ensures Valid() && (allocList == old(allocList) || fresh(allocList))
      ensures Gives(Heap.Allocate(c, old(View()), t, r, protectAllocList), o, View())
      ensures TypeOf(r.allocator) == Internal ==> allocListSize == old(allocListSize)
      decreases if TypeOf(r.allocator) == Internal then 0 else 2, 2
    {
      if r.size == 0 {
        var strategy := ZeroStrategy(c, r.allocator);
        if strategy == 0 {
          return Abort(ZeroSize);
        } else if strategy == 1 {
          return Done(0);
        } else if strategy != 3 {
          return Done(nullBlock + c.pageSize);
        }
      }
      var alignment := ChooseAlignment(t, r);
      if r.size > 0 && alignment != LowestBit(alignment) {
        return Abort(BadAlignment);
      }
      o := AllocateAligned(t, alignment, r, protectAllocList);
    }

    // ---- `_duma_realloc` ----

    /** Copy what fits, zero the growth, free the old block. */
    method MoveBlock(oldBuffer: nat, ptr: nat, newSize: nat, site: Site) returns (o: Outcome<()>)
      requires Valid()
      modifies allocList, this`pages, this`sumAllocatedMem, this`sumProtectedMem, this`lost, this`unUsedSlots, this`checkFreqCounter
      ensures Valid() && Meets(ReallocMove(c, old(View()), oldBuffer, ptr, newSize, site), o, View())
    {
      var slot := SlotForUserAddress(oldBuffer);
      if slot.None? {
        return Abort(NotFromMalloc);
      }
      var _ :- CopyBlock(oldBuffer, allocList[slot.value].userSize, ptr, newSize);
      o := Deallocate(oldBuffer, false, EFA_REALLOC, site);
    }

    method CopyBlock(oldBuffer: nat, oldSize: nat, ptr: nat, newSize: nat) returns (o: Outcome<()>)
      requires Valid()
      modifies this`pages
      ensures Valid() && Meets(MoveContents(old(View()), oldBuffer, oldSize, ptr, newSize), o, View())
    {
      var kept := if newSize > oldSize then oldSize else newSize;
      if !AllOpen(pages, oldBuffer, oldBuffer + kept) || !AllOpen(pages, ptr, ptr + newSize) {
        return Abort(SegFault);
      }
      CopyBytes(ptr, oldBuffer, kept);
      FillBytes(ptr + kept, ptr + newSize, 0);
      o := Done(());
    }

    /** memcpy and memset of the C library. */
    method CopyBytes(dest: nat, src: nat, n: nat)
      requires Valid() && AllOpen(pages, src, src + n)
      modifies this`pages
      ensures Valid() && View() == old(View()).(pages := old(pages).(mem := CopyRange(old(pages.mem), dest, src, n)))
    {
      pages := pages.(mem := CopyRange(pages.mem, dest, src, n));
    }

    method FillBytes(begin: nat, end: nat, fill: Byte)
      requires Valid()
      modifies this`pages
      ensures Valid() && View() == old(View()).(pages := old(pages).(mem := FillRange(old(pages.mem), begin, end, fill)))
    {
      pages := pages.(mem := FillRange(pages.mem, begin, end, fill));
    }

    method ReallocateOpen(t: Tls, oldBuffer: nat, newSize: nat, site: Site) returns (o: Outcome<nat>)
      requires Valid()
      modifies this, allocList
      ensures Valid() && (allocList == old(allocList) || fresh(allocList))
      ensures Gives(ReallocOpen(c, old(View()), t, oldBuffer, newSize, site), o, View())
    {
      if oldBuffer == 0 {
        o := Allocate(t, ReallocRequest(t, newSize, t.fill, site), false);
      } else if newSize == 0 {
        var _ :- Deallocate(oldBuffer, false, EFA_REALLOC, site);
        o := Done(0);
      } else {
        var ptr :- Allocate(t, ReallocRequest(t, newSize, None, site), false);
        if ptr != 0 {
          var _ :- MoveBlock(oldBuffer, ptr, newSize, site);
        }
        o := Done(ptr);
      }
    }

    /** `_duma_realloc` */
    method Reallocate(t: Tls, oldBuffer: nat, newSize: nat, site: Site) returns (o: Outcome<nat>)
      requires Valid()
      modifies this, allocList
      ensures Valid() && (allocList == old(allocList) || fresh(allocList))
      ensures Gives(Realloc(c, old(View()), t, oldBuffer, newSize, site), o, View())
    {
      var _ :- PageAllowAccess(tableAddress, allocListSize);
      var ptr :- ReallocateOpen(t, oldBuffer, newSize, site);
      var _ :- PageDenyAccess(tableAddress, allocListSize);
      o := Done(ptr);
    }

    // ---- duma_check and duma_checkAll ----

    method CheckBlock(address: nat) returns (o: Outcome<()>)
      requires Valid()
      ensures Meets(CheckOpen(c, View(), address), o, View())
    {
      var slot := SlotForUserAddress(address);
      if slot.None? {
        var nearest := NearestSlotForUserAddress(address);
        return Abort(NotFromDuma(nearest));
      }
      if allocList[slot.value].state == ALL_PROTECTED || allocList[slot.value].state == BEGIN_PROTECTED {
        return Abort(AlreadyFreed);
      }
      var bad := CheckSlack(slot.value);
      o := if bad.Some? then Abort(bad.value) else Done(());
    }

    method Check(address: nat) returns (o: Outcome<()>)
      requires Valid()
      modifies this`pages
      ensures Valid() && Meets(Heap.Check(c, old(View()), address), o, View())
    {
      if address == 0 {
        return Done(());
      }
      var _ :- PageAllowAccess(tableAddress, allocListSize);
      var _ :- CheckBlock(address);
      o := PageDenyAccess(tableAddress, allocListSize);
    }

    method CheckAll() returns (o: Outcome<()>)
      requires Valid()
      modifies this`pages
      ensures Valid() && Meets(Heap.CheckAll(c, old(View())), o, View())
    {
      var _ :- PageAllowAccess(tableAddress, allocListSize);
      var bad := CheckAllSlacks();
      if bad.Some? {
        return Abort(bad.value);
      }
      o := PageDenyAccess(tableAddress, allocListSize);
    }

    // ---- `_duma_init` ----

    /** The zeroed globals before `_duma_init`. */
    constructor (c: Config, answers: seq<nat>)
      requires c.Valid()
      ensures Valid() && this.c == c && fresh(allocList)
      ensures View() == State([], 0, 0, 0, 0, 0, 0, 0, Pages(map[], {}, answers, 0), 0)
    {
      this.c := c;
      allocList := new Slot[0];
      slotCount, tableAddress, allocListSize, unUsedSlots := 0, 0, 0, 0;
      sumAllocatedMem, sumProtectedMem, checkFreqCounter, nullBlock := 0, 0, 0, 0;
      pages, lost := Pages(map[], {}, answers, 0), 0;
    }

    /** The first table: one record for the table itself, one for the rest of the chunk. */
    method FirstTable(address: nat, size: nat) returns (table: array<Slot>)
      requires Valid() && size == InitSize(c)
      ensures fresh(table) && table[..] == InitSlots(c, address)
      ensures table.Length == c.SlotsPerPage() >= 2 && table[1] == SecondSlot(c, address)
    {
      TwoSlots(c);
      table := new Slot[c.SlotsPerPage()];
      forall i | 0 <= i < table.Length {
        table[i] := ZERO_SLOT;
      }
      table[0] := TableSlot(address, c.pageSize);
      if size > c.pageSize {
        table[1] := FreeSlot(address + c.pageSize, size - c.pageSize);
      }
    }

    method EnterTable(address: nat, size: nat)
      requires Valid() && size == InitSize(c) && View() == State([], 0, 0, 0, 0, 0, 0, nullBlock, pages, 0)
      modifies this`allocList, this`slotCount, this`tableAddress, this`allocListSize, this`unUsedSlots
      ensures Valid() && fresh(allocList) && View() == FirstState(c, address, nullBlock, pages)
      ensures slotCount >= 2 && allocList[1] == SecondSlot(c, address)
    {
      allocList := FirstTable(address, size);
      slotCount := allocList.Length;
      tableAddress, allocListSize, unUsedSlots := address, c.pageSize, slotCount - 2;
      assert allocList[..slotCount] == allocList[..];
    }

    method EnterFirstChunk(address: nat, size: nat) returns (o: Outcome<()>)
      requires Valid() && size == InitSize(c) && View() == State([], 0, 0, 0, 0, 0, 0, nullBlock, pages, 0)
      modifies this
      ensures Valid() && fresh(allocList)
      ensures Meets(Heap.EnterChunk(c, old(pages), old(nullBlock), address), o, View())
    {
      FillBytes(address, address + c.pageSize, 0);
      EnterTable(address, size);
      o := PageDenyAccess(allocList[1].internalAddress, allocList[1].internalSize);
    }

    /** The null block: two pages nobody can access. */
    method CreateNullBlock() returns (o: Outcome<()>)
      requires Valid()
      modifies this`nullBlock, this`pages
      ensures Valid() && View() == old(View()).(nullBlock := nullBlock, pages := pages)
      ensures
        var (p, zero) := Create(old(pages), c.pageSize, 2 * c.pageSize);
        if zero == 0 then o == Abort(MmapFailed)
        else
          match Deny(p, c.pageSize, zero, 2 * c.pageSize)
          case Done(q) => o == Done(()) && nullBlock == zero && pages == q
          case Abort(r) => o == Abort(r)
    {
      nullBlock := PageCreate(2 * c.pageSize);
      if nullBlock == 0 {
        return Abort(MmapFailed);
      }
      o := PageDenyAccess(nullBlock, 2 * c.pageSize);
    }

    /** The first chunk: the table and the free rest. */
    method CreateFirstChunk() returns (o: Outcome<()>)
      requires Valid() && View() == State([], 0, 0, 0, 0, 0, 0, nullBlock, pages, 0)
      modifies this
      ensures Valid() && (allocList == old(allocList) || fresh(allocList))
      ensures Meets(InitChunk(c, old(pages), old(nullBlock)), o, View())
    {
      var size := AlignUp(if MEMORY_CREATION_SIZE < c.pageSize then c.pageSize else MEMORY_CREATION_SIZE, c.pageSize);
      var address := PageCreate(size);
      if address == 0 {
        return Abort(MmapFailed);
      }
      o := EnterFirstChunk(address, size);
    }

    /** `_duma_init` */
    method Initialise() returns (o: Outcome<()>)
      requires Valid() && View() == State([], 0, 0, 0, 0, 0, 0, 0, Pages(map[], {}, pages.answers, 0), 0)
      modifies this
      ensures Valid() && (allocList == old(allocList) || fresh(allocList))
      ensures Meets(Init(c, old(pages.answers)), o, View())
    {
      var _ :- CreateNullBlock();
      o := CreateFirstChunk();
    }
  }

  /** The allocation of a new table goes straight to the core. */
  lemma InternalAllocation(c: Config, s: State, t: Tls, newSize: nat)
    requires c.Valid() && newSize > 0
    ensures GrowTo(c, s, newSize) == GrowRest(c, Heap.Allocate(c, s, t, GrowRequest(newSize), false), s.allocList, newSize)
  {
    CheckedIsRest(c, CheckFreq(c, s), s.allocList, newSize);
    AllocateInternal(c, s, t, newSize);
  }

  lemma CheckedIsRest(c: Config, o: Outcome<State>, prev: nat, newSize: nat)
    requires c.Valid()
    ensures GrowChecked(c, o, prev, newSize) == GrowRest(c, TableBlock(c, o, newSize), prev, newSize)
  {}

  lemma AllocateInternal(c: Config, s: State, t: Tls, newSize: nat)
    requires c.Valid() && newSize > 0
    ensures Heap.Allocate(c, s, t, GrowRequest(newSize), false) == TableBlock(c, CheckFreq(c, s), newSize)
  {
    assert LowestBit(1) == 1;
  }

  /** What follows the attempt to get a new chunk. */
  function Obtained(c: Config, got: Outcome<(State, nat)>, e0: nat, e1: nat, chunk: nat, num: nat, need: nat, A: pos, r: Request)
    : Outcome<(State, nat)>
    requires c.Valid() && (got.Done? ==> e0 < |got.value.0.slots| && e1 < |got.value.0.slots|)
  {
    var (s, a) :- got;
    if a == 0 then Done((s, 0))
    else Carve(c, AddChunk(s, e0, a, chunk, TotalSize(chunk, num), num), e0, Some(e1), need, A, r)
  }

  lemma CarveChunkSteps(c: Config, s: State, e0: nat, e1: nat, need: nat, A: pos, r: Request)
    requires c.Valid() && e0 < |s.slots| && e1 < |s.slots| && need > 0
    ensures
      var chunk := ChunkSize(c, need);
      chunk > 0 &&
      var num := NumChunks(r.size, chunk);
      var got := Obtain(c, s, chunk, TotalSize(chunk, num), r.failEnv);
      && (got.Done? ==> |got.value.0.slots| == |s.slots|)
      && CarveChunk(c, s, e0, e1, need, A, r) == Obtained(c, got, e0, e1, chunk, num, need, A, r)
  {
    ChunkPositive(c, need);
    var chunk := ChunkSize(c, need);
    ObtainLength(c, s, chunk, TotalSize(chunk, NumChunks(r.size, chunk)), r.failEnv);
  }

  lemma ExactNeedsNoEmpty(c: Config, s: State, k: nat, e: Option<nat>, e': Option<nat>, need: nat, A: pos, r: Request)
    requires c.Valid() && k < |s.slots| && (e.Some? ==> e.value < |s.slots|) && (e'.Some? ==> e'.value < |s.slots|)
    requires s.slots[k].internalSize <= need || e == e'
    ensures Carve(c, s, k, e, need, A, r) == Carve(c, s, k, e', need, A, r)
  {}

  /** The best of the first n slots. */
  predicate BestSoFar(slots: seq<Slot>, n: nat, need: nat, full: Option<nat>)
    requires n <= |slots|
  {
    match full
    case None => forall i :: 0 <= i < n ==> !Fits(slots[i], need)
    case Some(k) =>
      && k < n && Fits(slots[k], need)
      && (forall i :: 0 <= i < n && Fits(slots[i], need) ==> slots[k].internalSize <= slots[i].internalSize)
      && (forall i :: 0 <= i < k && Fits(slots[i], need) ==> slots[k].internalSize < slots[i].internalSize)
  }

  /** The first two EMPTY ones of the first n slots. */
  predicate EmptySoFar(slots: seq<Slot>, n: nat, empty0: Option<nat>, empty1: Option<nat>)
    requires n <= |slots|
  {
    match empty0
    case None => empty1.None? && forall i :: 0 <= i < n ==> slots[i].state != EMPTY
    case Some(e0) =>
      && e0 < n && slots[e0].state == EMPTY
      && (forall i :: 0 <= i < e0 ==> slots[i].state != EMPTY)
      && match empty1
         case None => forall i :: e0 < i < n ==> slots[i].state != EMPTY
         case Some(e1) =>
           e0 < e1 < n && slots[e1].state == EMPTY && forall i :: e0 < i < e1 ==> slots[i].state != EMPTY
  }

  lemma BestFitUnique(slots: seq<Slot>, need: nat, full: Option<nat>)
    requires BestSoFar(slots, |slots|, need, full)
    ensures full == BestFit(slots, need)
  {
    var r := BestFit(slots, need);
    if full.Some? {
      assert r.Some?;
      if full.value < r.value { assert false; }
    }
  }

  /** An exact fit that beats everything before it is the answer. */
  lemma BestIsFinal(slots: seq<Slot>, k: nat, need: nat)
    requires k < |slots| && Fits(slots[k], need) && slots[k].internalSize == need
    requires forall i :: 0 <= i < k && Fits(slots[i], need) ==> need < slots[i].internalSize
    ensures BestFit(slots, need) == Some(k)
  {
    assert BestSoFar(slots, |slots|, need, Some(k));
    BestFitUnique(slots, need, Some(k));
  }

  lemma EmptiesFound(slots: seq<Slot>, empty0: Option<nat>, empty1: Option<nat>)
    requires EmptySoFar(slots, |slots|, empty0, empty1)
    ensures empty0 == FirstEmpty(slots, 0)
    ensures empty0.Some? ==> empty1 == FirstEmpty(slots, empty0.value + 1)
  {
    var r := FirstEmpty(slots, 0);
    if empty0.Some? {
      assert r == empty0;
      var r1 := FirstEmpty(slots, empty0.value + 1);
      assert r1 == empty1;
    }
  }

  /** The slack check does not depend on the counters. */
  lemma {:induction false} CheckIgnoresCounter(c: Config, s: State, s': State, i: nat)
    requires s'.slots == s.slots && s'.pages == s.pages
    ensures CheckAllSlacks(c, s, i) == CheckAllSlacks(c, s', i)
    decreases |s.slots| - i
  {
    if i < |s.slots| { CheckIgnoresCounter(c, s, s', i + 1); }
  }
}
