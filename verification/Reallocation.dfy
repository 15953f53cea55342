/**
 `_duma_realloc`: allocate, copy, free, and what C promises about it.
 */
module Reallocation {
  import opened Wrappers
  import opened Slots
  import opened Heap
  import opened Invariants
  import opened Placing
  import opened Deallocation
  import opened Calls
  import opened Growth
  import opened Operations

  // ---- `_duma_realloc` ----

  /** Byte j of the new block: byte j of the old one, or 0 beyond its end. */
  predicate MovedByte(s: State, s': State, prev: nat, prevSize: nat, block: nat, j: nat) {
    && block + j in s'.pages.mem
    && (j < prevSize ==> prev + j in s.pages.mem && s'.pages.mem[block + j] == s.pages.mem[prev + j])
    && (j >= prevSize ==> s'.pages.mem[block + j] == 0)
  }

  ghost predicate Reallocated(s: State, s': State, prev: nat, prevSize: nat, block: nat, newSize: nat) {
    forall j: nat :: j < newSize ==> MovedByte(s, s', prev, prevSize, block, j)
  }

  /** Copying gives the new bytes the contents C promises, and writes nothing else. */
  lemma CopyMeans(s: State, prev: nat, prevSize: nat, block: nat, newSize: nat)
    requires MoveContents(s, prev, prevSize, block, newSize).Done?
    requires forall b: nat :: block <= b < block + newSize ==> b in s.pages.mem
    ensures
      var s' := MoveContents(s, prev, prevSize, block, newSize).value;
      && s' == s.(pages := s.pages.(mem := s'.pages.mem)) && s'.pages.mem.Keys == s.pages.mem.Keys
      && (forall b: nat :: b in s.pages.mem && !(block <= b < block + newSize) ==> s'.pages.mem[b] == s.pages.mem[b])
      && Reallocated(s, s', prev, prevSize, block, newSize)
  {
    var s' := MoveContents(s, prev, prevSize, block, newSize).value;
    forall j: nat | j < newSize ensures MovedByte(s, s', prev, prevSize, block, j) {
      assert j < prevSize ==> prev + j in s.pages.open && prev + j in s.pages.mem;
    }
  }

  lemma MoveContentsMeans(c: Config, s: State, prev: nat, prevSize: nat, k: nat, newSize: nat)
    requires Struct(c, s) && k < |s.slots| && IsLive(s.slots[k]) && s.slots[k].userSize == newSize
    requires MoveContents(s, prev, prevSize, s.slots[k].userAddress, newSize).Done?
    ensures
      var s' := MoveContents(s, prev, prevSize, s.slots[k].userAddress, newSize).value;
      && Written(s, s', k)
      && Reallocated(s, s', prev, prevSize, s.slots[k].userAddress, newSize)
  {
    UserBytesInside(c, s.slots[k]);
    SlotMapped(c, s, k);
    var block := s.slots[k].userAddress;
    forall b: nat | block <= b < block + newSize ensures b in s.pages.mem {
      assert InUserBytes(s.slots[k], b);
    }
    CopyMeans(s, prev, prevSize, block, newSize);
  }

  /** What any completed realloc keeps: slot i was freed, slot k holds the result. */
  ghost predicate ReallocOk(c: Config, s: State, s': State, i: int, k: int, m: Mode) {
    && Struct(c, s')
    && CallOk(c, s, s', m, i, k)
    && (Supplied(c, s) && s'.pages.failed == s.pages.failed ==> Supplied(c, s'))
  }

  /** A move that succeeded: the new block has the old contents, the old block is
      freed. */
  ghost predicate MovedOk(c: Config, s: State, s': State, user: nat, i: nat, k: nat, A: pos, r: Request, m: Mode) {
    && ReallocOk(c, s, s', i, k, m) && i != k && i < |s.slots| <= |s'.slots|
    && NewBlock(c, s', k, A, r) && user == s'.slots[k].userAddress != 0
    && user != NullAddr(c, s) && (k < |s.slots| ==> !Owned(m, s.slots[k]))
    && Unused(s, m, user)
    && Reallocated(s, s', s.slots[i].userAddress, s.slots[i].userSize, user, r.size)
    && Freed(s.slots[i], s'.slots[i])
    && (c.protectFree < 0 ==> s'.slots[i].state == ALL_PROTECTED)
  }

  lemma ReallocCall(c: Config, s: State, s1: State, s2: State, s3: State, user: nat, i: nat, k: nat, A: pos, r: Request, m: Mode)
    requires AllocOk(c, s, s1, user, k, A, r, m) && user != 0 && UserRequest(r)
    requires Written(s1, s2, k) && FreeOk(c, s2, s3, i, m)
    ensures ReallocOk(c, s, s3, i, k, m)
  {
    WrittenAlloc(c, s, s1, s2, user, k, A, r, m);
    CallTrans(c, s, s2, s3, m, -1, k, i, -1);
  }

  /** The block that is freed is the caller's old one. */
  lemma ReallocMoves(c: Config, s: State, s1: State, s2: State, s3: State, user: nat, i: nat, k: nat, A: pos, r: Request, m: Mode)
    requires Struct(c, s) && AllocOk(c, s, s1, user, k, A, r, m) && user != 0 && UserRequest(r)
    requires i < |s.slots| && IsLive(s.slots[i]) && i != k && user != NullAddr(c, s) && Unused(s, m, user)
    requires Written(s1, s2, k)
    requires Reallocated(s1, s2, s.slots[i].userAddress, s.slots[i].userSize, user, r.size)
    requires FreeOk(c, s2, s3, i, m) && FreeOk(c, s2, s3, i, Mode(true, m.prot))
    ensures MovedOk(c, s, s3, user, i, k, A, r, m)
  {
    assert AllocOk(c, s, s2, user, k, A, r, m) by { WrittenAlloc(c, s, s1, s2, user, k, A, r, m); }
    assert ReallocOk(c, s, s3, i, k, m) by { ReallocCall(c, s, s1, s2, s3, user, i, k, A, r, m); }
    assert Kept(m.strict, s, s1, i) && s2.slots[i] == s1.slots[i];
    assert Kept(true, s2, s3, k);
    assert Reallocated(s, s3, s.slots[i].userAddress, s.slots[i].userSize, user, r.size) by {
      ReallocatedFrom(c, s, s1, s2, s3, user, i, k, r.size, m.strict);
    }
    assert NewBlock(c, s3, k, A, r) by { StillNewBlock(c, s2, s3, k, A, r); }
  }

  lemma StillNewBlock(c: Config, s: State, s': State, k: nat, A: pos, r: Request)
    requires NewBlock(c, s, k, A, r) && Kept(true, s, s', k)
    ensures NewBlock(c, s', k, A, r)
  {}

  lemma ReallocatedFrom(c: Config, s: State, s1: State, s2: State, s3: State, user: nat, i: nat, k: nat, size: nat, strict: bool)
    requires Struct(c, s) && Struct(c, s2) && i < |s.slots| && k < |s2.slots|
    requires IsLive(s.slots[i]) && IsLive(s2.slots[k]) && Kept(strict, s, s1, i) && Kept(true, s2, s3, k)
    requires s2.slots[k].userAddress == user && s2.slots[k].userSize == size
    requires Reallocated(s1, s2, s.slots[i].userAddress, s.slots[i].userSize, user, size)
    ensures Reallocated(s, s3, s.slots[i].userAddress, s.slots[i].userSize, user, size)
  {
    var prev, prevSize := s.slots[i].userAddress, s.slots[i].userSize;
    UserBytesInside(c, s.slots[i]);
    UserBytesInside(c, s2.slots[k]);
    SlotMapped(c, s, i);
    forall j: nat | j < size ensures MovedByte(s, s3, prev, prevSize, user, j) {
      assert MovedByte(s1, s2, prev, prevSize, user, j);
      assert InUserBytes(s2.slots[k], user + j);
      if j < prevSize { assert InUserBytes(s.slots[i], prev + j); }
    }
  }

  /** No block, and with `prot` no protected slot, has that user address. */
  ghost predicate Unused(s: State, m: Mode, a: nat) {
    forall j :: 0 <= j < |s.slots| && Owned(m, s.slots[j]) ==> s.slots[j].userAddress != a
  }

  /** A pointer handed out is not one of the live ones. */
  lemma NewPointer(c: Config, s: State, s': State, user: nat, k: nat, A: pos, r: Request, m: Mode)
    requires AllocOk(c, s, s', user, k, A, r, m) && user != 0
    ensures Unused(s, m, user)
  {
    forall j | 0 <= j < |s.slots| && Owned(m, s.slots[j]) ensures s.slots[j].userAddress != user {
      assert Kept(m.strict, s, s', j);
      if s.slots[j].userAddress == user { UserAddressesDiffer(c, s', j, k); }
    }
  }

  lemma ReallocSteps(c: Config, s: State, prev: nat, block: nat, newSize: nat, site: Site)
    returns (i: nat, s2: State)
    requires Struct(c, s) && prev != 0 && ReallocMove(c, s, prev, block, newSize, site).Done?
    ensures i < |s.slots| && s.slots[i].userAddress == prev
    ensures MoveContents(s, prev, s.slots[i].userSize, block, newSize) == Done(s2)
    ensures ReallocMove(c, s, prev, block, newSize, site) == DeallocateOpen(c, s2, prev, EFA_REALLOC, site)
  {
    i := SlotForUser(s.slots, prev).value;
    s2 := MoveContents(s, prev, s.slots[i].userSize, block, newSize).value;
    NotNullAddr(c, s, i);
  }

  /** What the copy and the free of the second half do. */
  lemma ReallocHalf(c: Config, s1: State, prev: nat, size: nat, site: Site, k: nat, m: Mode)
    returns (i: nat, s2: State)
    requires Struct(c, s1) && k < |s1.slots| && IsLive(s1.slots[k]) && s1.slots[k].userSize == size
    requires prev != 0 && ReallocMove(c, s1, prev, s1.slots[k].userAddress, size, site).Done?
    requires m.prot ==> c.protectFree <= 0
    ensures i < |s1.slots| && Written(s1, s2, k) && LiveKey(s1, prev, EFA_REALLOC, i)
    ensures Reallocated(s1, s2, prev, s1.slots[i].userSize, s1.slots[k].userAddress, size)
    ensures
      var s3 := ReallocMove(c, s1, prev, s1.slots[k].userAddress, size, site).value;
      && FreeOk(c, s2, s3, i, m) && FreeOk(c, s2, s3, i, Mode(true, m.prot))
      && (TableOpen(s1) ==> TableOpen(s3))
  {
    var i0;
    i0, s2 := ReallocSteps(c, s1, prev, s1.slots[k].userAddress, size, site);
    MoveContentsMeans(c, s1, prev, s1.slots[i0].userSize, k, size);
    WrittenKeeps(c, s1, s2, k, m);
    var i1 := DeallocateOpenKeeps(c, s2, prev, EFA_REALLOC, site, Mode(true, m.prot));
    i := DeallocateOpenKeeps(c, s2, prev, EFA_REALLOC, site, m);
    UserAddressesDiffer(c, s2, i, i0);
    UserAddressesDiffer(c, s2, i, i1);
  }

  /** The pathological success: prev was no live pointer, but the address the new
      block happened to get. The block is freed again and its address returned. */
  ghost predicate OwnBlock(c: Config, s: State, s': State, user: nat, prev: nat, k: nat, m: Mode) {
    && user == prev && user != NullAddr(c, s) && k < |s'.slots| && (k < |s.slots| ==> !Owned(m, s.slots[k]))
    && !IsLive(s'.slots[k])
    && (c.protectFree < 0 ==> s'.slots[k].state == ALL_PROTECTED && s'.slots[k].userAddress == user)
    && Unused(s, m, prev)
  }

  /** The second half of a realloc: copy, then free the old pointer. */
  lemma ReallocMoveKeeps(c: Config, s: State, s1: State, user: nat, prev: nat, site: Site, k: nat, A: pos, r: Request, s3: State, m: Mode)
    returns (i: nat)
    requires Struct(c, s) && AllocOk(c, s, s1, user, k, A, r, m) && user != 0 && UserRequest(r)
    requires prev != 0 && ReallocMove(c, s1, prev, user, r.size, site) == Done(s3)
    requires m.prot ==> c.protectFree <= 0
    ensures ReallocOk(c, s, s3, i, k, m)
    ensures i != k ==> LiveKey(s, prev, EFA_REALLOC, i) && MovedOk(c, s, s3, user, i, k, A, r, m)
    ensures i == k ==> OwnBlock(c, s, s3, user, prev, k, m)
    ensures (TableOpen(s1) ==> TableOpen(s3)) && s3.pages.failed == s1.pages.failed
  {
    NewUserNotNull(c, s, s1, user, k, A, r, m);
    NewPointer(c, s, s1, user, k, A, r, m);
    var s2;
    i, s2 := ReallocHalf(c, s1, prev, r.size, site, k, m);
    if i == k {
      ReallocCall(c, s, s1, s2, s3, user, i, k, A, r, m);
    } else {
      assert SameUser(s.slots[i], s1.slots[i]);
      ReallocMoves(c, s, s1, s2, s3, user, i, k, A, r, m);
    }
  }

  /** realloc(prev, newSize) for a live prev and a positive size, when it returns:
      either no memory came and everything is untouched, or block i moved to k. */
  ghost predicate ReallocLive(c: Config, s: State, s': State, user: nat, i: nat, k: nat, t: Tls, r: Request, m: Mode) {
    if user == 0 then
      CallOk(c, s, s', m, -1, -1) && s.pages.failed < s'.pages.failed
    else
      MovedOk(c, s, s', user, i, k, ChosenAlignment(t, r), r, m)
  }

  /** Any realloc that returns. */
  ghost predicate ReallocResult(c: Config, s: State, s': State, user: nat, prev: nat, newSize: nat, t: Tls, site: Site, i: int, k: int, m: Mode) {
    && ReallocOk(c, s, s', i, k, m)
    && (prev == 0 && user != 0 && (newSize > 0 || user != NullAddr(c, s)) ==>
          var r := ReallocRequest(t, newSize, t.fill, site);
          i == -1 && k >= 0 && AllocOk(c, s, s', user, k, ChosenAlignment(t, r), r, m) && Filled(s', user, r))
    && (prev == 0 && (user == 0 || user == NullAddr(c, s)) ==> i == -1 && k == -1)
    && (prev != 0 && newSize == 0 ==>
          user == 0 && k == -1
          && (if prev == NullAddr(c, s) then i == -1
              else i >= 0 && LiveKey(s, prev, EFA_REALLOC, i) && i < |s'.slots| && Freed(s.slots[i], s'.slots[i])
                   && (c.protectFree < 0 ==> s'.slots[i].state == ALL_PROTECTED)))
    && (prev != 0 && newSize > 0 && user == 0 ==> i == -1 && k == -1 && s.pages.failed < s'.pages.failed)
    && (prev != 0 && newSize > 0 && user != 0 ==>
          && i >= 0 && k >= 0
          && (i != k ==> LiveKey(s, prev, EFA_REALLOC, i))
          && (i != k ==> ReallocLive(c, s, s', user, i, k, t, ReallocRequest(t, newSize, None, site), m))
          && (i == k ==> OwnBlock(c, s, s', user, prev, k, m)))
  }

  lemma AllocReallocOk(c: Config, s: State, s': State, user: nat, k: nat, A: pos, r: Request, m: Mode)
    requires AllocOk(c, s, s', user, k, A, r, m)
    ensures ReallocOk(c, s, s', -1, if user == 0 then -1 else k, m)
  {}

  lemma FreeReallocOk(c: Config, s: State, s': State, i: nat, m: Mode)
    requires FreeOk(c, s, s', i, m)
    ensures ReallocOk(c, s, s', i, -1, m)
  {}

  lemma NewUserNotNull(c: Config, s: State, s': State, user: nat, k: nat, A: pos, r: Request, m: Mode)
    requires AllocOk(c, s, s', user, k, A, r, m) && user != 0
    ensures user != NullAddr(c, s)
  {
    NotNullAddr(c, s', k);
  }

  lemma ReallocOpenNull(c: Config, s: State, t: Tls, newSize: nat, site: Site, m: Mode) returns (i: int, k: int)
    requires Struct(c, s) && (m.strict ==> StrictRequest(c, t, ReallocRequest(t, newSize, t.fill, site)))
    requires ReallocOpen(c, s, t, 0, newSize, site).Done?
    requires m.prot ==> Calm(c, s, ReallocOpen(c, s, t, 0, newSize, site).value.0)
    ensures
      var (s', user) := ReallocOpen(c, s, t, 0, newSize, site).value;
      ReallocResult(c, s, s', user, 0, newSize, t, site, i, k, m) && (TableOpen(s) ==> TableOpen(s'))
  {
    var r := ReallocRequest(t, newSize, t.fill, site);
    var k0 := AllocateKeeps(c, s, t, r, false, m);
    var (s', user) := Allocate(c, s, t, r, false).value;
    i, k := -1, -1;
    if newSize == 0 && ZeroStrategy(c, EFA_REALLOC) != 3 {
      CallSelf(c, s, m);
    } else {
      AllocReallocOk(c, s, s', user, k0, ChosenAlignment(t, r), r, m);
      if user != 0 {
        k := k0;
        NewUserNotNull(c, s, s', user, k0, ChosenAlignment(t, r), r, m);
      }
    }
  }

  lemma ReallocOpenFree(c: Config, s: State, t: Tls, prev: nat, site: Site, m: Mode) returns (i: int, k: int)
    requires Struct(c, s) && prev != 0
    requires ReallocOpen(c, s, t, prev, 0, site).Done?
    requires m.prot ==> c.protectFree <= 0
    ensures
      var (s', user) := ReallocOpen(c, s, t, prev, 0, site).value;
      ReallocResult(c, s, s', user, prev, 0, t, site, i, k, m) && (TableOpen(s) ==> TableOpen(s'))
  {
    i, k := -1, -1;
    if prev == NullAddr(c, s) {
      CallSelf(c, s, m);
    } else {
      var i0 := DeallocateOpenKeeps(c, s, prev, EFA_REALLOC, site, m);
      FreeReallocOk(c, s, DeallocateOpen(c, s, prev, EFA_REALLOC, site).value, i0, m);
      i := i0;
    }
  }

  lemma ReallocOpenMove(c: Config, s: State, t: Tls, prev: nat, newSize: nat, site: Site, m: Mode) returns (i: int, k: int)
    requires Struct(c, s) && prev != 0 && newSize > 0
    requires m.strict ==> StrictRequest(c, t, ReallocRequest(t, newSize, None, site))
    requires ReallocOpen(c, s, t, prev, newSize, site).Done?
    requires m.prot ==> Calm(c, s, ReallocOpen(c, s, t, prev, newSize, site).value.0)
    ensures
      var (s', user) := ReallocOpen(c, s, t, prev, newSize, site).value;
      ReallocResult(c, s, s', user, prev, newSize, t, site, i, k, m) && (TableOpen(s) ==> TableOpen(s'))
  {
    var r := ReallocRequest(t, newSize, None, site);
    var A := ChosenAlignment(t, r);
    var m0 := Mode(m.strict, false);
    var (s1, user) := Allocate(c, s, t, r, false).value;
    i, k := -1, -1;
    if user == 0 {
      var k0 := AllocateKeeps(c, s, t, r, false, m);
      AllocReallocOk(c, s, s1, user, k0, A, r, m);
    } else {
      var k0 := AllocateKeeps(c, s, t, r, false, m0);
      var s3 := ReallocMove(c, s1, prev, user, newSize, site).value;
      var i0 := ReallocMoveKeeps(c, s, s1, user, prev, site, k0, A, r, s3, m0);
      k0 := AllocateKeeps(c, s, t, r, false, m);
      i0 := ReallocMoveKeeps(c, s, s1, user, prev, site, k0, A, r, s3, m);
      i, k := i0, k0;
    }
  }

  lemma ReallocOpenKeeps(c: Config, s: State, t: Tls, prev: nat, newSize: nat, site: Site, m: Mode)
    returns (i: int, k: int)
    requires Struct(c, s)
    requires m.strict ==> StrictRequest(c, t, ReallocRequest(t, newSize, None, site))
    requires ReallocOpen(c, s, t, prev, newSize, site).Done?
    requires m.prot ==> Calm(c, s, ReallocOpen(c, s, t, prev, newSize, site).value.0)
    ensures
      var (s', user) := ReallocOpen(c, s, t, prev, newSize, site).value;
      ReallocResult(c, s, s', user, prev, newSize, t, site, i, k, m) && (TableOpen(s) ==> TableOpen(s'))
  {
    if prev == 0 {
      i, k := ReallocOpenNull(c, s, t, newSize, site, m);
    } else if newSize == 0 {
      i, k := ReallocOpenFree(c, s, t, prev, site, m);
    } else {
      i, k := ReallocOpenMove(c, s, t, prev, newSize, site, m);
    }
  }

  // ---- transport of the result over opening and closing the table ----

  lemma OpenMoved(c: Config, s: State, s1: State, s2: State, user: nat, i: nat, k: nat, A: pos, r: Request, m: Mode)
    requires CallOk(c, s, s1, m, -1, -1) && s1 == s.(pages := s.pages.(open := s1.pages.open))
    requires MovedOk(c, s1, s2, user, i, k, A, r, m)
    ensures MovedOk(c, s, s2, user, i, k, A, r, m)
  {
    CallTrans(c, s, s1, s2, m, -1, -1, i, k);
    forall j: nat | j < r.size
      ensures MovedByte(s, s2, s.slots[i].userAddress, s.slots[i].userSize, user, j)
    {
      assert MovedByte(s1, s2, s.slots[i].userAddress, s.slots[i].userSize, user, j);
    }
  }

  lemma CloseMoved(c: Config, s: State, s1: State, user: nat, i: nat, k: nat, A: pos, r: Request, m: Mode)
    requires MovedOk(c, s, s1, user, i, k, A, r, m) && UserRequest(r)
    ensures CloseTable(c, s1).Done? && MovedOk(c, s, CloseTable(c, s1).value, user, i, k, A, r, m)
  {
    CloseKeeps(c, s1, m);
    CloseKeeps(c, s1, Mode(true, m.prot));
    var s2 := CloseTable(c, s1).value;
    CallTrans(c, s, s1, s2, m, i, k, -1, -1);
    assert Kept(true, s1, s2, k);
    StillNewBlock(c, s1, s2, k, A, r);
    forall j: nat | j < r.size
      ensures MovedByte(s, s2, s.slots[i].userAddress, s.slots[i].userSize, user, j)
    {
      assert MovedByte(s, s1, s.slots[i].userAddress, s.slots[i].userSize, user, j);
    }
  }

  lemma OpenRealloc(c: Config, s: State, s1: State, s2: State, user: nat, prev: nat, newSize: nat, t: Tls, site: Site, i: int, k: int, m: Mode)
    requires CallOk(c, s, s1, m, -1, -1) && s1 == s.(pages := s.pages.(open := s1.pages.open))
    requires ReallocResult(c, s1, s2, user, prev, newSize, t, site, i, k, m)
    ensures ReallocResult(c, s, s2, user, prev, newSize, t, site, i, k, m)
  {
    assert ReallocOk(c, s, s2, i, k, m) by { CallTrans(c, s, s1, s2, m, -1, -1, i, k); }
    if prev == 0 && user != 0 && (newSize > 0 || user != NullAddr(c, s)) {
      var r := ReallocRequest(t, newSize, t.fill, site);
      OpenAlloc(c, s, s1, s2, user, k, ChosenAlignment(t, r), r, m);
    }
    if prev != 0 && newSize > 0 && user != 0 && i != k {
      var r := ReallocRequest(t, newSize, None, site);
      OpenMoved(c, s, s1, s2, user, i, k, ChosenAlignment(t, r), r, m);
    }
  }

  lemma CloseRealloc(c: Config, s: State, s1: State, user: nat, prev: nat, newSize: nat, t: Tls, site: Site, i: int, k: int, m: Mode)
    requires ReallocResult(c, s, s1, user, prev, newSize, t, site, i, k, m)
    ensures CloseTable(c, s1).Done? && TableClosed(CloseTable(c, s1).value)
    ensures ReallocResult(c, s, CloseTable(c, s1).value, user, prev, newSize, t, site, i, k, m)
  {
    CloseKeeps(c, s1, m);
    var s2 := CloseTable(c, s1).value;
    assert ReallocOk(c, s, s2, i, k, m) by { CallTrans(c, s, s1, s2, m, i, k, -1, -1); }
    if prev == 0 && user != 0 && (newSize > 0 || user != NullAddr(c, s)) {
      var r := ReallocRequest(t, newSize, t.fill, site);
      CloseAlloc(c, s, s1, user, k, ChosenAlignment(t, r), r, m);
    }
    if prev != 0 && newSize > 0 && user != 0 && i != k {
      var r := ReallocRequest(t, newSize, None, site);
      CloseMoved(c, s, s1, user, i, k, ChosenAlignment(t, r), r, m);
    }
  }

  lemma ReallocKeeps(c: Config, s: State, t: Tls, prev: nat, newSize: nat, site: Site, m: Mode)
    returns (i: int, k: int)
    requires Struct(c, s)
    requires m.strict ==> StrictRequest(c, t, ReallocRequest(t, newSize, None, site))
    requires Realloc(c, s, t, prev, newSize, site).Done?
    requires m.prot ==> Calm(c, s, Realloc(c, s, t, prev, newSize, site).value.0)
    ensures
      var (s', user) := Realloc(c, s, t, prev, newSize, site).value;
      ReallocResult(c, s, s', user, prev, newSize, t, site, i, k, m) && TableClosed(s')
  {
    OpenKeeps(c, s, m);
    var s1 := OpenTable(c, s).value;
    var (s2, user) := ReallocOpen(c, s1, t, prev, newSize, site).value;
    i, k := ReallocOpenKeeps(c, s1, t, prev, newSize, site, m);
    OpenRealloc(c, s, s1, s2, user, prev, newSize, t, site, i, k, m);
    CloseRealloc(c, s, s2, user, prev, newSize, t, site, i, k, m);
  }
}
