/**
 Programs running on the allocator: any sequence of calls and stores. The slot
 table refines a plain map from pointers to blocks, and the invariants hold in
 every reachable state.
 */
module Runs {
  import opened Wrappers
  import opened Pages
  import opened Slots
  import opened Tiling
  import opened Heap
  import opened Invariants
  import opened Placing
  import opened Deallocation
  import opened Calls
  import opened Operations
  import opened Reallocation

  /** What a program can do. `Store` writes one byte anywhere: the hardware stops it
      on a page that is not accessible. */
  datatype Op =
    | DoAllocate(t: Tls, r: Request)
    | DoFree(a: nat, allocator: Allocator, site: Site)
    | DoRealloc(t: Tls, prev: nat, size: nat, site: Site)
    | DoCheck(a: nat)
    | DoCheckAll
    | Store(a: nat, v: Byte)

  /** Public entry points never use the internal family. */
  predicate UserOp(op: Op) {
    match op
    case DoAllocate(t, r) => TypeOf(r.allocator) != Internal
    case DoFree(a, allocator, site) => TypeOf(allocator) != Internal
    case _ => true
  }

  function StoreByte(s: State, a: nat, v: Byte): Outcome<State> {
    if a in s.pages.open && a in s.pages.mem then Done(s.(pages := s.pages.(mem := s.pages.mem[a := v])))
    else Abort(SegFault)
  }

  /** The new state and the pointer returned (0 if the call returns none). */
  function Step(c: Config, s: State, op: Op): Outcome<(State, nat)>
    requires c.Valid()
  {
    match op
    case DoAllocate(t, r) => Allocate(c, s, t, r, true)
    case DoFree(a, allocator, site) =>
      var s1 :- Deallocate(c, s, a, allocator, site);
      Done((s1, 0))
    case DoRealloc(t, prev, size, site) => Realloc(c, s, t, prev, size, site)
    case DoCheck(a) =>
      var s1 :- Check(c, s, a);
      Done((s1, 0))
    case DoCheckAll =>
      var s1 :- CheckAll(c, s);
      Done((s1, 0))
    case Store(a, v) =>
      var s1 :- StoreByte(s, a, v);
      Done((s1, 0))
  }

  /** Running a program; the second component lists the pointers returned. */
  function Run(c: Config, s: State, ops: seq<Op>): Outcome<(State, seq<nat>)>
    requires c.Valid()
    decreases |ops|
  {
    if ops == [] then Done((s, []))
    else
      var (s1, p) :- Step(c, s, ops[0]);
      var (s2, ps) :- Run(c, s1, ops[1..]);
      Done((s2, [p] + ps))
  }

  // ---- the start: _duma_init, then the first malloc and free of duma_init ----

  const UNKNOWN_SITE := Site("UNKNOWN (use #include \"duma.h\")", 0)

  function FirstRequest(t: Tls): Request {
    Request(0, 123, t.protectBelow, t.fill, EFA_MALLOC, true, UNKNOWN_SITE)
  }

  function FirstCalls(c: Config, s: State, t: Tls, r: Request): Outcome<State>
    requires c.Valid()
  {
    var (s1, p) :- Allocate(c, s, t, r, true);
    Deallocate(c, s1, p, EFA_FREE, UNKNOWN_SITE)
  }

  function BootWith(c: Config, t: Tls, r: Request, answers: seq<nat>): Outcome<State>
    requires c.Valid()
  {
    var s :- Init(c, answers);
    FirstCalls(c, s, t, r)
  }

  function Boot(c: Config, t: Tls, answers: seq<nat>): Outcome<State>
    requires c.Valid()
  {
    BootWith(c, t, FirstRequest(t), answers)
  }

  /** The steps of a start that returns: r is the first request. */
  predicate BootStep(c: Config, t: Tls, answers: seq<nat>, s0: State, r: Request, s: State)
    requires c.Valid()
  {
    && UserRequest(r) && r.size > 0
    && (StrictRequest(c, t, FirstRequest(t)) ==> StrictRequest(c, t, r))
    && Init(c, answers) == Done(s0)
    && FirstCalls(c, s0, t, r) == Done(s)
  }

  ghost predicate Boots(c: Config, t: Tls, answers: seq<nat>, s: State)
    requires c.Valid()
  {
    exists s0, r :: BootStep(c, t, answers, s0, r, s)
  }

  lemma BootBoots(c: Config, t: Tls, answers: seq<nat>)
    requires c.Valid() && Boot(c, t, answers).Done?
    ensures Boots(c, t, answers, Boot(c, t, answers).value)
  {
    FirstIsUser(t);
    WithBoots(c, t, FirstRequest(t), answers);
  }

  lemma FirstIsUser(t: Tls)
    ensures UserRequest(FirstRequest(t)) && FirstRequest(t).size > 0
  {}

  lemma WithBoots(c: Config, t: Tls, r: Request, answers: seq<nat>)
    requires c.Valid() && BootWith(c, t, r, answers).Done?
    requires UserRequest(r) && r.size > 0 && (StrictRequest(c, t, FirstRequest(t)) ==> StrictRequest(c, t, r))
    ensures Boots(c, t, answers, BootWith(c, t, r, answers).value)
  {
    assert BootStep(c, t, answers, Init(c, answers).value, r, BootWith(c, t, r, answers).value);
  }

  lemma CallsReturn(c: Config, s: State, t: Tls, r: Request, s': State) returns (s1: State, p: nat)
    requires c.Valid() && FirstCalls(c, s, t, r) == Done(s')
    ensures Allocate(c, s, t, r, true) == Done((s1, p))
    ensures Deallocate(c, s1, p, EFA_FREE, UNKNOWN_SITE) == Done(s')
  {
    var o := Allocate(c, s, t, r, true).value;
    s1, p := o.0, o.1;
  }

  // ---- the abstract map ----

  datatype Block = Block(size: nat, family: AllocType)

  ghost function LiveKeys(s: State): set<nat> {
    set i | 0 <= i < |s.slots| && IsLive(s.slots[i]) :: s.slots[i].userAddress
  }

  /** The live blocks by pointer, as the allocator's own lookup finds them. */
  ghost function LiveMap(s: State): map<nat, Block> {
    map a | a in LiveKeys(s) :: BlockAt(s, a)
  }

  ghost function BlockAt(s: State, a: nat): Block {
    var r := SlotForUser(s.slots, a);
    if r.None? then Block(0, Internal) else Block(s.slots[r.value].userSize, TypeOf(s.slots[r.value].allocator))
  }

  predicate Holds(s: State, a: nat, b: Block, i: nat) {
    && i < |s.slots| && IsLive(s.slots[i]) && s.slots[i].userAddress == a
    && b == Block(s.slots[i].userSize, TypeOf(s.slots[i].allocator))
  }

  lemma LiveUserNonzero(c: Config, s: State, i: nat)
    requires Sound(c, s) && i < |s.slots| && IsLive(s.slots[i])
    ensures s.slots[i].userAddress != 0
  {
    assert SlotOk(c, s.slots[i]);
  }

  lemma LiveMapAt(c: Config, s: State, i: nat)
    requires Sound(c, s) && i < |s.slots| && IsLive(s.slots[i])
    ensures
      var a := s.slots[i].userAddress;
      a in LiveMap(s) && Holds(s, a, LiveMap(s)[a], i)
  {
    LiveUserNonzero(c, s, i);
    LookupFinds(c, s, i);
  }

  lemma LiveMapSlot(c: Config, s: State, a: nat) returns (i: nat)
    requires Sound(c, s) && a in LiveMap(s)
    ensures Holds(s, a, LiveMap(s)[a], i)
  {
    i :| 0 <= i < |s.slots| && IsLive(s.slots[i]) && s.slots[i].userAddress == a;
    LiveMapAt(c, s, i);
  }

  /** The pointer checks of free, on the map: they pass exactly for the keys of the
      same family. Anything else (a freed, interior, never issued, free or internal
      address) aborts. */
  lemma FreeChecksRefine(c: Config, s: State, a: nat, allocator: Allocator)
    requires Sound(c, s) && a != 0 && TypeOf(allocator) != Internal
    ensures FreeTarget(s, a, allocator).Done? <==>
              a in LiveMap(s) && LiveMap(s)[a].family == TypeOf(allocator)
  {
    FreeVerdict(c, s, a, allocator);
    if FreeTarget(s, a, allocator).Done? {
      LiveMapAt(c, s, FreeTarget(s, a, allocator).value);
    }
    if a in LiveMap(s) && LiveMap(s)[a].family == TypeOf(allocator) {
      var i := LiveMapSlot(c, s, a);
      assert LiveKey(s, a, allocator, i);
    }
  }

  /** Slot by slot, the blocks of s' other than at `add` are those of s other than
      at `drop`. */
  ghost predicate SameBlocks(s: State, s': State, drop: int, add: int) {
    && (forall i :: 0 <= i < |s.slots| && i != drop && IsLive(s.slots[i]) ==> i < |s'.slots| && s'.slots[i] == s.slots[i])
    && (forall i :: 0 <= i < |s'.slots| && i != add && IsLive(s'.slots[i]) ==>
          i < |s.slots| && i != drop && s.slots[i] == s'.slots[i])
  }

  lemma CallBlocks(c: Config, s: State, s': State, m: Mode, drop: int, add: int)
    requires CallOk(c, s, s', m, drop, add)
    requires 0 <= drop < |s'.slots| && drop != add ==> !IsLive(s'.slots[drop])
    requires 0 <= add < |s.slots| ==> !IsLive(s.slots[add])
    ensures SameBlocks(s, s', drop, add)
  {
    forall i | 0 <= i < |s.slots| && i != drop && IsLive(s.slots[i]) ensures i < |s'.slots| && s'.slots[i] == s.slots[i] {
      assert Kept(m.strict, s, s', i);
    }
    forall i | 0 <= i < |s'.slots| && i != add && IsLive(s'.slots[i])
      ensures i < |s.slots| && i != drop && s.slots[i] == s'.slots[i]
    {
      if i < |s.slots| { assert SameUser(s.slots[i], s'.slots[i]); }
    }
  }

  predicate AtSlot(s: State, i: int, a: nat) {
    0 <= i < |s.slots| && IsLive(s.slots[i]) && s.slots[i].userAddress == a
  }

  /** A pointer not at `drop` stays, with its block. */
  lemma PointerStays(c: Config, s: State, s': State, drop: int, add: int, a: nat)
    requires Sound(c, s) && Sound(c, s') && SameBlocks(s, s', drop, add)
    requires a in LiveMap(s) && !AtSlot(s, drop, a)
    requires 0 <= add < |s.slots| ==> !IsLive(s.slots[add])
    ensures a in LiveMap(s') && LiveMap(s')[a] == LiveMap(s)[a] && !AtSlot(s', add, a)
  {
    var i := LiveMapSlot(c, s, a);
    LiveMapAt(c, s', i);
    if AtSlot(s', add, a) {
      LiveUserNonzero(c, s', add);
      UserAddressesDiffer(c, s', i, add);
    }
  }

  /** A pointer not at `add` was there before, and not at `drop`. */
  lemma PointerWasThere(c: Config, s: State, s': State, drop: int, add: int, a: nat)
    requires Sound(c, s) && Sound(c, s') && SameBlocks(s, s', drop, add)
    requires a in LiveMap(s') && !AtSlot(s', add, a)
    ensures a in LiveMap(s) && !AtSlot(s, drop, a)
  {
    var i := LiveMapSlot(c, s', a);
    LiveMapAt(c, s, i);
    if AtSlot(s, drop, a) {
      LiveUserNonzero(c, s, drop);
      UserAddressesDiffer(c, s, i, drop);
    }
  }

  ghost function BlockOf(sl: Slot): Block {
    Block(sl.userSize, TypeOf(sl.allocator))
  }

  lemma ExtendedMap(m: map<nat, Block>, m': map<nat, Block>, p: nat, b: Block)
    requires p in m' && m'[p] == b
    requires forall a :: a in m ==> a in m' && m'[a] == m[a] && a != p
    requires forall a :: a in m' && a != p ==> a in m
    ensures p !in m && m' == m[p := b]
  {}

  lemma ShrunkMap(m: map<nat, Block>, m': map<nat, Block>, p: nat)
    requires forall a :: a in m && a != p ==> a in m' && m'[a] == m[a]
    requires forall a :: a in m' ==> a in m && a != p
    ensures m' == m - {p}
  {}

  lemma MapSame(c: Config, s: State, s': State)
    requires Sound(c, s) && Sound(c, s') && SameBlocks(s, s', -1, -1)
    ensures LiveMap(s') == LiveMap(s)
  {
    forall a | a in LiveMap(s) ensures a in LiveMap(s') && LiveMap(s')[a] == LiveMap(s)[a] {
      PointerStays(c, s, s', -1, -1, a);
    }
    forall a | a in LiveMap(s') ensures a in LiveMap(s) {
      PointerWasThere(c, s, s', -1, -1, a);
    }
  }

  lemma MapRemove(c: Config, s: State, s': State, i: nat)
    requires Sound(c, s) && Sound(c, s') && SameBlocks(s, s', i, -1)
    requires i < |s.slots| && IsLive(s.slots[i])
    ensures LiveMap(s') == LiveMap(s) - {s.slots[i].userAddress}
  {
    var p := s.slots[i].userAddress;
    forall a | a in LiveMap(s) && a != p ensures a in LiveMap(s') && LiveMap(s')[a] == LiveMap(s)[a] {
      PointerStays(c, s, s', i, -1, a);
    }
    forall a | a in LiveMap(s') ensures a in LiveMap(s) && a != p {
      PointerWasThere(c, s, s', i, -1, a);
    }
    ShrunkMap(LiveMap(s), LiveMap(s'), p);
  }

  lemma MapAdd(c: Config, s: State, s': State, k: nat)
    requires Sound(c, s) && Sound(c, s') && SameBlocks(s, s', -1, k)
    requires k < |s'.slots| && IsLive(s'.slots[k]) && (k < |s.slots| ==> !IsLive(s.slots[k]))
    ensures s'.slots[k].userAddress !in LiveMap(s)
    ensures LiveMap(s') == LiveMap(s)[s'.slots[k].userAddress := BlockOf(s'.slots[k])]
  {
    var p := s'.slots[k].userAddress;
    LiveMapAt(c, s', k);
    forall a | a in LiveMap(s) ensures a in LiveMap(s') && LiveMap(s')[a] == LiveMap(s)[a] && a != p {
      PointerStays(c, s, s', -1, k, a);
    }
    forall a | a in LiveMap(s') && a != p ensures a in LiveMap(s) {
      PointerWasThere(c, s, s', -1, k, a);
    }
    ExtendedMap(LiveMap(s), LiveMap(s'), p, BlockOf(s'.slots[k]));
  }

  lemma MovedMap(m: map<nat, Block>, m': map<nat, Block>, q: nat, p: nat, b: Block)
    requires p in m' && m'[p] == b
    requires forall a :: a in m && a != q ==> a in m' && m'[a] == m[a] && a != p
    requires forall a :: a in m' && a != p ==> a in m && a != q
    ensures m' == (m - {q})[p := b]
  {}

  lemma MapMove(c: Config, s: State, s': State, i: nat, k: nat)
    requires Sound(c, s) && Sound(c, s') && SameBlocks(s, s', i, k) && i != k
    requires i < |s.slots| && IsLive(s.slots[i])
    requires k < |s'.slots| && IsLive(s'.slots[k]) && (k < |s.slots| ==> !IsLive(s.slots[k]))
    ensures LiveMap(s') ==
            (LiveMap(s) - {s.slots[i].userAddress})[s'.slots[k].userAddress := BlockOf(s'.slots[k])]
  {
    var p, q := s'.slots[k].userAddress, s.slots[i].userAddress;
    LiveMapAt(c, s', k);
    forall a | a in LiveMap(s) && a != q ensures a in LiveMap(s') && LiveMap(s')[a] == LiveMap(s)[a] && a != p {
      PointerStays(c, s, s', i, k, a);
    }
    forall a | a in LiveMap(s') && a != p ensures a in LiveMap(s) && a != q {
      PointerWasThere(c, s, s', i, k, a);
    }
    MovedMap(LiveMap(s), LiveMap(s'), q, p, BlockOf(s'.slots[k]));
  }

  // ---- one step ----

  /** The invariant between calls: structure, books, a closed table, and every live
      byte accessible. */
  ghost predicate Between(c: Config, s: State) {
    Struct(c, s) && TableClosed(s) && AllLiveOpen(s)
  }

  lemma CallLiveOpen(c: Config, s: State, s': State, m: Mode, drop: int, add: int)
    requires CallOk(c, s, s', m, drop, add) && AllLiveOpen(s)
    requires 0 <= add < |s'.slots| ==> LiveOpen(s', add)
    requires 0 <= drop < |s'.slots| ==> LiveOpen(s', drop)
    requires Struct(c, s)
    ensures AllLiveOpen(s')
  {
    forall i | 0 <= i < |s'.slots| ensures LiveOpen(s', i) {
      if i != add && i != drop && IsLive(s'.slots[i]) {
        assert i < |s.slots| && SameUser(s.slots[i], s'.slots[i]) && LiveOpen(s, i);
        assert Kept(m.strict, s, s', i);
        LivePartCovered(c, s.slots[i]);
      }
    }
  }

  lemma LivePartCovered(c: Config, sl: Slot)
    requires c.Valid() && SlotOk(c, sl) && IsLive(sl)
    ensures forall b: nat :: sl.userSize > 0 && AccBegin(sl) <= b < AccEnd(sl) ==> Covers(sl, b)
  {}

  lemma NewBlockOpen(c: Config, s: State, k: nat, A: pos, r: Request)
    requires c.Valid() && NewBlock(c, s, k, A, r) && SlotOk(c, s.slots[k]) && TypeOf(r.allocator) != Internal
    ensures LiveOpen(s, k) && SlackOk(c, s, k)
  {
    LivePartCovered(c, s.slots[k]);
  }

  /** How a step that is not a store changed the user's slots: `drop` was freed, `add`
      was handed out with address p. */
  ghost predicate Changed(c: Config, s: State, s': State, p: nat, m: Mode, drop: int, add: int) {
    && CallOk(c, s, s', m, drop, add)
    && (drop != -1 ==>
          && 0 <= drop < |s'.slots| && !IsLive(s'.slots[drop])
          && (c.protectFree < 0 ==> s'.slots[drop].state == ALL_PROTECTED)
          && (drop != add ==> drop < |s.slots| && IsLive(s.slots[drop]) && Freed(s.slots[drop], s'.slots[drop])))
    && (add != -1 ==>
          && 0 <= add < |s'.slots| && (add < |s.slots| ==> !Owned(m, s.slots[add]))
          && p != 0 && p != NullAddr(c, s) && Unused(s, m, p)
          && (drop != add ==> IsLive(s'.slots[add]) && LiveOpen(s', add) && SlackOk(c, s', add)
                              && s'.slots[add].userAddress == p)
          && (drop == add ==> c.protectFree < 0 ==> s'.slots[add].userAddress == p))
    && (add == -1 ==> p == 0 || p == NullAddr(c, s))
  }

  /** What every completed step keeps. */
  ghost predicate StepOk(c: Config, s: State, s': State) {
    && Struct(c, s') && TableClosed(s')
    && s'.nullBlock == s.nullBlock && s.pages.failed <= s'.pages.failed
    && (Supplied(c, s) && s'.pages.failed == s.pages.failed ==> Supplied(c, s'))
  }

  /** The effect on the abstract map. */
  ghost predicate AbstractStep(zero: nat, m: map<nat, Block>, op: Op, p: nat, m': map<nat, Block>) {
    match op
    case DoAllocate(t, r) => AbstractAllocate(zero, m, r.size, TypeOf(r.allocator), p, m')
    case DoFree(a, allocator, site) => p == 0 && AbstractFree(zero, m, a, TypeOf(allocator), m')
    case DoRealloc(t, prev, size, site) =>
      if prev == 0 then AbstractAllocate(zero, m, size, CFamily, p, m')
      else if size == 0 then p == 0 && AbstractFree(zero, m, prev, CFamily, m')
      else if p == 0 then m' == m
      else if prev in m then
        && m[prev].family == CFamily && p !in m
        && m' == (m - {prev})[p := Block(size, CFamily)]
      else
        p == prev && m' == m
    case _ => p == 0 && m' == m
  }

  /** Either nothing is handed out, or a pointer that is not live becomes live. */
  ghost predicate AbstractAllocate(zero: nat, m: map<nat, Block>, size: nat, family: AllocType, p: nat, m': map<nat, Block>) {
    if p == 0 || p == zero then m' == m
    else p !in m && m' == m[p := Block(size, family)]
  }

  /** Freeing 0 or null_addr does nothing; anything else must be a live pointer of
      the family, which is live no more. */
  ghost predicate AbstractFree(zero: nat, m: map<nat, Block>, a: nat, family: AllocType, m': map<nat, Block>) {
    if a == 0 || a == zero then m' == m
    else a in m && m[a].family == family && m' == m - {a}
  }

  /** A modest operation never opens pages outside the slot it is given. */
  predicate ModestOp(c: Config, op: Op) {
    match op
    case DoAllocate(t, r) => StrictRequest(c, t, r)
    case DoRealloc(t, prev, size, site) => StrictRequest(c, t, ReallocRequest(t, size, None, site))
    case _ => true
  }

  lemma StepAllocate(c: Config, s: State, t: Tls, r: Request, m: Mode) returns (add: int)
    requires Between(c, s) && TypeOf(r.allocator) != Internal && (m.strict ==> StrictRequest(c, t, r))
    requires Allocate(c, s, t, r, true).Done?
    requires m.prot ==> Calm(c, s, Allocate(c, s, t, r, true).value.0)
    ensures
      var (s', p) := Allocate(c, s, t, r, true).value;
      && StepOk(c, s, s') && Changed(c, s, s', p, m, -1, add)
      && (add != -1 ==> BlockOf(s'.slots[add]) == Block(r.size, TypeOf(r.allocator)))
  {
    var k := AllocateKeeps(c, s, t, r, true, m);
    var (s', p) := Allocate(c, s, t, r, true).value;
    add := -1;
    if r.size == 0 && ZeroStrategy(c, r.allocator) != 3 {
      CallSelf(c, s, m);
    } else if p != 0 {
      add := k;
      var A := ChosenAlignment(t, r);
      NewBlockOpen(c, s', k, A, r);
      NewUserNotNull(c, s, s', p, k, A, r, m);
      NewPointer(c, s, s', p, k, A, r, m);
    }
  }

  lemma StepFree(c: Config, s: State, a: nat, allocator: Allocator, site: Site, m: Mode) returns (drop: int)
    requires Between(c, s) && TypeOf(allocator) != Internal
    requires Deallocate(c, s, a, allocator, site).Done?
    requires m.prot ==> c.protectFree <= 0
    ensures
      var s' := Deallocate(c, s, a, allocator, site).value;
      && StepOk(c, s, s') && Changed(c, s, s', 0, m, drop, -1)
      && (if a == 0 || a == NullAddr(c, s) then drop == -1 else drop >= 0 && LiveKey(s, a, allocator, drop))
  {
    var i := DeallocateKeeps(c, s, a, allocator, site, m);
    drop := -1;
    if a == 0 || a == NullAddr(c, s) {
      CallSelf(c, s, m);
    } else {
      drop := i;
    }
  }

  lemma StepRealloc(c: Config, s: State, t: Tls, prev: nat, size: nat, site: Site, m: Mode) returns (drop: int, add: int)
    requires Between(c, s) && (m.strict ==> StrictRequest(c, t, ReallocRequest(t, size, None, site)))
    requires Realloc(c, s, t, prev, size, site).Done?
    requires m.prot ==> Calm(c, s, Realloc(c, s, t, prev, size, site).value.0)
    ensures
      var (s', p) := Realloc(c, s, t, prev, size, site).value;
      && StepOk(c, s, s') && Changed(c, s, s', p, m, drop, add)
      && ReallocResult(c, s, s', p, prev, size, t, site, drop, add, m)
  {
    drop, add := ReallocKeeps(c, s, t, prev, size, site, m);
    var (s', p) := Realloc(c, s, t, prev, size, site).value;
    if prev == 0 && p != 0 && p != NullAddr(c, s) {
      var r := ReallocRequest(t, size, t.fill, site);
      NewBlockOpen(c, s', add, ChosenAlignment(t, r), r);
      NewPointer(c, s, s', p, add, ChosenAlignment(t, r), r, m);
    }
    if prev != 0 && size > 0 && p != 0 {
      ReallocMoveChanged(c, s, s', p, prev, size, t, site, drop, add, m);
    }
  }

  lemma ReallocMoveChanged(c: Config, s: State, s': State, p: nat, prev: nat, size: nat, t: Tls, site: Site, i: nat, k: nat, m: Mode)
    requires Struct(c, s) && prev != 0 && size > 0 && p != 0
    requires ReallocResult(c, s, s', p, prev, size, t, site, i, k, m)
    ensures Changed(c, s, s', p, m, i, k)
  {
    var r := ReallocRequest(t, size, None, site);
    if i != k { NewBlockOpen(c, s', k, ChosenAlignment(t, r), r); }
  }

  /** duma_check and duma_checkAll only open and close the table. */
  lemma OpenClose(c: Config, s: State, m: Mode)
    requires Between(c, s) && OpenTable(c, s).Done? && CloseTable(c, OpenTable(c, s).value).Done?
    ensures
      var s' := CloseTable(c, OpenTable(c, s).value).value;
      StepOk(c, s, s') && Changed(c, s, s', 0, m, -1, -1)
  {
    OpenKeeps(c, s, m);
    var s1 := OpenTable(c, s).value;
    CloseKeeps(c, s1, m);
    CallTrans(c, s, s1, CloseTable(c, s1).value, m, -1, -1, -1, -1);
  }

  lemma StepCheck(c: Config, s: State, a: nat, m: Mode)
    requires Between(c, s) && Check(c, s, a).Done?
    ensures
      var s' := Check(c, s, a).value;
      StepOk(c, s, s') && Changed(c, s, s', 0, m, -1, -1)
  {
    if a == 0 {
      CallSelf(c, s, m);
    } else {
      OpenClose(c, s, m);
    }
  }

  /** One accessible byte is overwritten. */
  predicate Stored(s: State, s': State, a: nat, v: Byte) {
    a in s.pages.open && a in s.pages.mem && s' == s.(pages := s.pages.(mem := s.pages.mem[a := v]))
  }

  lemma StoreStruct(c: Config, s: State, s': State, a: nat, v: Byte)
    requires Struct(c, s) && TableClosed(s) && Stored(s, s', a, v)
    ensures Struct(c, s')
  {
    assert Arena(c, s', 0, 0) == Arena(c, s, 0, 0);
    SameTableSlots(c, s, s');
    StoreTail(c, s, s', a, v);
  }

  lemma StoreTail(c: Config, s: State, s': State, a: nat, v: Byte)
    requires ZeroTail(c, s) && TableClosed(s) && Stored(s, s', a, v)
    ensures ZeroTail(c, s')
  {}

  lemma StoreDead(c: Config, s: State, s': State, a: nat, v: Byte)
    requires Stored(s, s', a, v) && AllDead(c, s)
    ensures AllDead(c, s')
  {
    forall i, b: nat | 0 <= i < |s'.slots| && MustBeDead(s'.slots[i], b) ensures b !in s'.pages.open {
      assert MustBeDead(s.slots[i], b);
    }
  }

  /** A store changes one accessible byte, so no record, no permission, nothing of
      the table, and nothing of protected memory. */
  lemma StepStore(c: Config, s: State, a: nat, v: Byte)
    requires Between(c, s) && StoreByte(s, a, v).Done?
    ensures
      var s' := StoreByte(s, a, v).value;
      && StepOk(c, s, s') && Between(c, s') && (AllDead(c, s) ==> AllDead(c, s'))
      && s'.slots == s.slots && s'.pages.open == s.pages.open
      && s'.pages.mem == s.pages.mem[a := v] && a in s.pages.mem
      && !(s.allocList <= a < s.allocList + s.allocListSize)
  {
    var s' := StoreByte(s, a, v).value;
    StoreStruct(c, s, s', a, v);
    forall i | 0 <= i < |s'.slots| ensures LiveOpen(s', i) { assert LiveOpen(s, i); }
    if AllDead(c, s) { StoreDead(c, s, s', a, v); }
  }

  /** Any step but a store: which slots it freed and handed out. */
  lemma StepCall(c: Config, s: State, op: Op, m: Mode) returns (drop: int, add: int)
    requires Between(c, s) && UserOp(op) && (m.strict ==> ModestOp(c, op)) && !op.Store?
    requires Step(c, s, op).Done?
    requires m.prot ==> Calm(c, s, Step(c, s, op).value.0)
    ensures
      var (s', p) := Step(c, s, op).value;
      StepOk(c, s, s') && Changed(c, s, s', p, m, drop, add)
  {
    drop, add := -1, -1;
    match op
    case DoAllocate(t, r) => add := StepAllocate(c, s, t, r, m);
    case DoFree(a, allocator, site) => drop := StepFree(c, s, a, allocator, site, m);
    case DoRealloc(t, prev, size, site) => drop, add := StepRealloc(c, s, t, prev, size, site, m);
    case DoCheck(a) => StepCheck(c, s, a, m);
    case DoCheckAll => OpenClose(c, s, m);
  }

  lemma ChangedBetween(c: Config, s: State, s': State, p: nat, m: Mode, drop: int, add: int)
    requires Between(c, s) && StepOk(c, s, s') && Changed(c, s, s', p, m, drop, add)
    ensures Between(c, s')
  {
    CallLiveOpen(c, s, s', m, drop, add);
  }

  lemma ChangedBlocks(c: Config, s: State, s': State, p: nat, m: Mode, drop: int, add: int)
    requires Changed(c, s, s', p, m, drop, add)
    ensures SameBlocks(s, s', drop, add) || (drop == add && SameBlocks(s, s', -1, -1))
    ensures drop != add ==> SameBlocks(s, s', drop, add)
  {
    if drop != add {
      CallBlocks(c, s, s', m, drop, add);
    } else {
      OwnBlocks(c, s, s', m, drop);
    }
  }

  lemma OwnBlocks(c: Config, s: State, s': State, m: Mode, k: int)
    requires CallOk(c, s, s', m, k, k)
    requires k == -1 || (0 <= k < |s'.slots| && !IsLive(s'.slots[k]) && (k < |s.slots| ==> !IsLive(s.slots[k])))
    ensures SameBlocks(s, s', -1, -1)
  {
    forall i | 0 <= i < |s.slots| && IsLive(s.slots[i]) ensures i < |s'.slots| && s'.slots[i] == s.slots[i] {
      assert Kept(m.strict, s, s', i);
    }
    forall i | 0 <= i < |s'.slots| && IsLive(s'.slots[i]) ensures i < |s.slots| && s.slots[i] == s'.slots[i] {
      if i < |s.slots| { assert SameUser(s.slots[i], s'.slots[i]); }
    }
  }

  /** The map after a change. */
  lemma ChangedMap(c: Config, s: State, s': State, p: nat, m: Mode, drop: int, add: int)
    requires Between(c, s) && StepOk(c, s, s') && Changed(c, s, s', p, m, drop, add)
    ensures drop == add ==> LiveMap(s') == LiveMap(s)
    ensures drop != add && add == -1 ==> LiveMap(s') == LiveMap(s) - {s.slots[drop].userAddress}
    ensures drop != add && drop == -1 ==>
              p !in LiveMap(s) && LiveMap(s') == LiveMap(s)[p := BlockOf(s'.slots[add])]
    ensures drop != add && drop != -1 && add != -1 ==>
              LiveMap(s') == (LiveMap(s) - {s.slots[drop].userAddress})[p := BlockOf(s'.slots[add])]
  {
    ChangedBlocks(c, s, s', p, m, drop, add);
    if drop == add {
      MapSame(c, s, s');
    } else if add == -1 {
      MapRemove(c, s, s', drop);
    } else if drop == -1 {
      MapAdd(c, s, s', add);
    } else {
      MapMove(c, s, s', drop, add);
    }
  }

  lemma UnusedPointer(c: Config, s: State, m: Mode, p: nat)
    requires Sound(c, s) && Unused(s, m, p)
    ensures p !in LiveMap(s)
  {
    if p in LiveMap(s) { var i := LiveMapSlot(c, s, p); }
  }

  lemma RefineRealloc(c: Config, s: State, t: Tls, prev: nat, size: nat, site: Site)
    requires Between(c, s) && Realloc(c, s, t, prev, size, site).Done?
    ensures
      var (s', p) := Realloc(c, s, t, prev, size, site).value;
      AbstractStep(NullAddr(c, s), LiveMap(s), DoRealloc(t, prev, size, site), p, LiveMap(s'))
  {
    var m := Mode(false, false);
    var drop, add := StepRealloc(c, s, t, prev, size, site, m);
    var (s', p) := Realloc(c, s, t, prev, size, site).value;
    ChangedMap(c, s, s', p, m, drop, add);
    if drop != -1 && drop != add { LiveMapAt(c, s, drop); }
    if add != -1 { UnusedPointer(c, s, m, p); }
  }

  /** Refinement: on the map from live pointers to (size, family), every completed
      operation is the abstract one. */
  lemma StepRefines(c: Config, s: State, op: Op)
    requires Between(c, s) && UserOp(op) && Step(c, s, op).Done?
    ensures
      var (s', p) := Step(c, s, op).value;
      && Between(c, s') && StepOk(c, s, s')
      && AbstractStep(NullAddr(c, s), LiveMap(s), op, p, LiveMap(s'))
  {
    var m := Mode(false, false);
    var (s', p) := Step(c, s, op).value;
    match op
    case Store(a, v) =>
      StepStore(c, s, a, v);
      MapSame(c, s, s');
    case DoRealloc(t, prev, size, site) =>
      RefineRealloc(c, s, t, prev, size, site);
      var drop, add := StepRealloc(c, s, t, prev, size, site, m);
      ChangedBetween(c, s, s', p, m, drop, add);
    case _ =>
      RefineCall(c, s, op);
  }

  lemma RefineCall(c: Config, s: State, op: Op)
    requires Between(c, s) && UserOp(op) && Step(c, s, op).Done? && !op.Store? && !op.DoRealloc?
    ensures
      var (s', p) := Step(c, s, op).value;
      && Between(c, s') && StepOk(c, s, s')
      && AbstractStep(NullAddr(c, s), LiveMap(s), op, p, LiveMap(s'))
  {
    var m := Mode(false, false);
    var (s', p) := Step(c, s, op).value;
    var drop, add := -1, -1;
    match op {
      case DoAllocate(t, r) => add := StepAllocate(c, s, t, r, m);
      case DoFree(a, allocator, site) => drop := StepFree(c, s, a, allocator, site, m);
      case DoCheck(a) => StepCheck(c, s, a, m);
      case DoCheckAll => OpenClose(c, s, m);
    }
    ChangedMap(c, s, s', p, m, drop, add);
    ChangedBetween(c, s, s', p, m, drop, add);
    if drop != -1 { LiveMapAt(c, s, drop); }
  }
}
