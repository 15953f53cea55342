/**
 What calls keep as far as users can tell, and the steps they are made of:
 the periodic check, opening and closing the table, serving a request.
 */
module Calls {
  import opened Pages
  import opened Slots
  import opened Tiling
  import opened Heap
  import opened Invariants
  import opened Placing
  import opened Allocation

  /** The user's side of a slot: a block, or (with `prot`) protected memory. */
  predicate Owned(m: Mode, sl: Slot) {
    IsLive(sl) || (m.prot && IsProtected(sl))
  }

  /** What a call does, as far as users can tell: every user slot except `drop`
      keeps its record, pages and contents, and no slot except `add` becomes a user
      slot; exact books stay exact without a limit and while mmap gives memory. -1 stands
      for no slot. */
  ghost predicate CallOk(c: Config, s: State, s': State, m: Mode, drop: int, add: int) {
    && |s.slots| <= |s'.slots| && s'.nullBlock == s.nullBlock
    && s.pages.failed <= s'.pages.failed && s.lost <= s'.lost
    && (forall i :: 0 <= i < |s.slots| && i != drop && Owned(m, s.slots[i]) ==> Kept(m.strict, s, s', i))
    && (forall i :: 0 <= i < |s.slots| && i != drop && i != add ==> SameUser(s.slots[i], s'.slots[i]))
    && (forall i :: |s.slots| <= i < |s'.slots| && i != add && i != drop ==> NoUser(s'.slots[i]))
    && (m.strict && AllDead(c, s) ==> AllDead(c, s'))
    && (Unlimited(c, s, s') && Drift(s) == 0 ==> Drift(s') == 0)
  }

  /** y is a block or protected only if x was, with the same user address. */
  predicate SameUser(x: Slot, y: Slot) {
    && (IsLive(y) ==> y == x)
    && (IsProtected(y) ==> IsProtected(x) && y.userAddress == x.userAddress)
  }

  predicate NoUser(sl: Slot) {
    !IsLive(sl) && !IsProtected(sl)
  }

  /** One call after the other; at most one of them frees and one hands out a block. */
  lemma CallTrans(c: Config, s: State, s1: State, s2: State, m: Mode, drop1: int, add1: int, drop2: int, add2: int)
    requires CallOk(c, s, s1, m, drop1, add1) && CallOk(c, s1, s2, m, drop2, add2)
    requires (drop1 == -1 || drop2 == -1) && (add1 == -1 || add2 == -1)
    ensures CallOk(c, s, s2, m, if drop1 == -1 then drop2 else drop1, if add1 == -1 then add2 else add1)
  {}

  lemma CallSelf(c: Config, s: State, m: Mode)
    ensures CallOk(c, s, s, m, -1, -1)
  {}

  // ---- the periodic check ----

  lemma CounterSound(c: Config, s: State, n: int)
    requires Sound(c, s)
    ensures Sound(c, s.(checkFreqCounter := n))
  {
    assert Arena(c, s.(checkFreqCounter := n), 0, 0) == Arena(c, s, 0, 0);
  }

  lemma CounterKeeps(c: Config, s: State, n: int, m: Mode)
    requires Struct(c, s)
    ensures Struct(c, s.(checkFreqCounter := n)) && CallOk(c, s, s.(checkFreqCounter := n), m, -1, -1)
  {
    var s' := s.(checkFreqCounter := n);
    CounterSound(c, s, n);
    SameTableSlots(c, s, s');
  }

  /** The table's slot depends on the records and the table's address only. */
  lemma SameTableSlots(c: Config, s: State, s': State)
    requires c.pageSize > 0 && HasTable(c, s) && s'.slots == s.slots
    requires s'.allocList == s.allocList && s'.allocListSize == s.allocListSize
    ensures HasTable(c, s')
  {
    var t :| IsTableSlot(s, t);
    assert IsTableSlot(s', t);
    forall i | 0 <= i < |s'.slots| && IsTable(s'.slots[i]) ensures IsTableSlot(s', i) {
      assert IsTableSlot(s, i);
    }
  }

  // ---- opening and closing the table ----

  lemma TableMapped(c: Config, s: State, t: nat)
    requires Struct(c, s) && IsTableSlot(s, t)
    ensures CanProtect(s.pages, c.pageSize, s.allocList, s.allocListSize)
    ensures Region(c.pageSize, s.allocList, s.allocListSize) == Span(s.allocList, s.allocList + s.allocListSize)
    ensures forall b :: b in Span(s.allocList, s.allocList + s.allocListSize) ==> Covers(s.slots[t], b)
  {
    WholePages(c.pageSize, s.allocList, s.allocListSize);
    SlotMapped(c, s, t);
  }

  /** Changing only permissions inside the table's own slot. */
  lemma TablePages(c: Config, s: State, s': State, t: nat, m: Mode)
    requires Struct(c, s) && IsTableSlot(s, t)
    requires s' == s.(pages := s.pages.(open := s'.pages.open))
    requires s'.pages.open <= s.pages.mem.Keys
    requires SameOutside(s.pages, s'.pages, s.slots[t])
    ensures Struct(c, s') && CallOk(c, s, s', m, -1, -1)
  {
    assert Arena(c, s', 0, 0) == Arena(c, s, 0, 0);
    SameTableSlots(c, s, s');
    forall i | 0 <= i < |s.slots| && Owned(m, s.slots[i]) ensures Kept(m.strict, s, s', i) {
      KeptOthers(s, s', t, i);
    }
    if AllDead(c, s) { TableDead(c, s, s', t); }
  }

  lemma TableDead(c: Config, s: State, s': State, t: nat)
    requires Sound(c, s) && AllDead(c, s) && t < |s.slots| && IsTable(s.slots[t])
    requires s'.slots == s.slots && s'.nullBlock == s.nullBlock
    requires SameOutside(s.pages, s'.pages, s.slots[t])
    ensures AllDead(c, s')
  {
    SlotMapped(c, s, t);
    forall i, b: nat | 0 <= i < |s'.slots| && MustBeDead(s'.slots[i], b) ensures b !in s'.pages.open {
      assert MustBeDead(s.slots[i], b);
      CoverApart(s.slots, i, t, b);
    }
  }

  lemma OpenKeeps(c: Config, s: State, m: Mode)
    requires Struct(c, s)
    ensures OpenTable(c, s).Done? && Struct(c, OpenTable(c, s).value)
    ensures CallOk(c, s, OpenTable(c, s).value, m, -1, -1)
    ensures TableOpen(OpenTable(c, s).value)
    ensures OpenTable(c, s).value == s.(pages := s.pages.(open := OpenTable(c, s).value.pages.open))
  {
    var t :| IsTableSlot(s, t);
    TableMapped(c, s, t);
    TablePages(c, s, OpenTable(c, s).value, t, m);
  }

  lemma CloseKeeps(c: Config, s: State, m: Mode)
    requires Struct(c, s)
    ensures CloseTable(c, s).Done? && Struct(c, CloseTable(c, s).value)
    ensures CallOk(c, s, CloseTable(c, s).value, m, -1, -1)
    ensures TableClosed(CloseTable(c, s).value)
    ensures CloseTable(c, s).value == s.(pages := s.pages.(open := CloseTable(c, s).value.pages.open))
  {
    var t :| IsTableSlot(s, t);
    TableMapped(c, s, t);
    TablePages(c, s, CloseTable(c, s).value, t, m);
  }

  // ---- the core for users ----

  lemma MovedTable(c: Config, s: State, s': State, k: int, m: Mode)
    requires Struct(c, s) && Moved(c, s, s', k, m)
    requires 0 <= k < |s'.slots| ==> !IsTable(s'.slots[k])
    ensures HasTable(c, s') && ZeroTail(c, s') && (TableOpen(s) ==> TableOpen(s'))
  {
    var t :| IsTableSlot(s, t);
    assert IsTableSlot(s', t) by { assert Kept(m.strict, s, s', t); }
    forall i | 0 <= i < |s'.slots| && IsTable(s'.slots[i]) ensures IsTableSlot(s', i) {
      assert NoOther(s.slots[i], s'.slots[i]);
      assert IsTableSlot(s, i);
    }
    if TableOpen(s) { TableStaysOpen(c, s, s', t, m); }
    TailStays(c, s, s', t, m);
  }

  /** What is behind the table's records stays 0 while the table's slot is kept. */
  lemma TailStays(c: Config, s: State, s': State, t: nat, m: Mode)
    requires Struct(c, s) && IsTableSlot(s, t) && Kept(m.strict, s, s', t) && |s'.slots| == |s.slots|
    requires s'.allocList == s.allocList && s'.allocListSize == s.allocListSize
    ensures Supply(c, s')
  {
    TableMapped(c, s, t);
    forall b: nat | s.allocList + |s.slots| * c.slotSize <= b < s.allocList + s.allocListSize
      ensures b in s'.pages.mem && s'.pages.mem[b] == 0
    {
      assert b in Span(s.allocList, s.allocList + s.allocListSize);
      assert Covers(s.slots[t], b) && b in s.pages.mem;
    }
  }

  lemma TableStaysOpen(c: Config, s: State, s': State, t: nat, m: Mode)
    requires Struct(c, s) && IsTableSlot(s, t) && TableOpen(s) && Kept(m.strict, s, s', t)
    requires s'.allocList == s.allocList && s'.allocListSize == s.allocListSize
    ensures TableOpen(s')
  {
    TableMapped(c, s, t);
    forall b: nat | s.allocList <= b < s.allocList + s.allocListSize ensures b in s'.pages.open {
      assert b in Span(s.allocList, s.allocList + s.allocListSize);
      assert Covers(s.slots[t], b);
    }
  }

  lemma MovedCall(c: Config, s: State, s': State, k: int, m: Mode)
    requires Moved(c, s, s', k, m) && s.lost <= s'.lost && (Unlimited(c, s, s') && Drift(s) == 0 ==> Drift(s') == 0)
    ensures CallOk(c, s, s', m, -1, k)
  {
    forall i | 0 <= i < |s.slots| && i != k ensures SameUser(s.slots[i], s'.slots[i]) {
      assert NoOther(s.slots[i], s'.slots[i]);
    }
  }

  /** A user request served by the core. */
  ghost predicate ServedOk(c: Config, s: State, s': State, user: nat, k: nat, A: pos, r: Request, m: Mode, taken: nat) {
    && Struct(c, s') && CallOk(c, s, s', m, -1, if user == 0 then -1 else k)
    && (TableOpen(s) ==> TableOpen(s'))
    && CountsKept(c, s, s', taken) && taken <= 2
    && (user == 0 ==> taken == 0 && s.pages.failed < s'.pages.failed)
    && (user != 0 ==> NewBlock(c, s', k, A, r) && user == s'.slots[k].userAddress
                      && (k < |s.slots| ==> NoUser(s.slots[k])))
  }

  lemma CoreServes(c: Config, s: State, need: nat, A: pos, r: Request, m: Mode) returns (k: nat, taken: nat)
    requires c.Valid() && Struct(c, s) && TypeOf(r.allocator) != Internal
    requires WellPosed(c, A, r) && (m.strict ==> Modest(c, A, r))
    requires need == SlotBytes(c, A, r.size) && Core(c, s, need, A, r).Done?
    requires m.prot ==>
      c.maxAlloc <= 0 &&
      Core(c, s, need, A, r).value.0.pages.failed == s.pages.failed
    ensures
      var (s', user) := Core(c, s, need, A, r).value;
      && ServedOk(c, s, s', user, k, A, r, m, taken)
      && taken == (if user == 0 then 0 else RecordsTaken(c, s.slots, need))
  {
    k, taken := CoreKeeps(c, s, need, A, r, m);
    var (s', user) := Core(c, s, need, A, r).value;
    CoreCall(c, s, s', user, k, A, r, m, taken);
  }

  lemma CoreCall(c: Config, s: State, s': State, user: nat, k: nat, A: pos, r: Request, m: Mode, taken: nat)
    requires Struct(c, s) && TypeOf(r.allocator) != Internal
    requires CoreOk(c, s, s', user, k, A, r, m, taken) && taken <= 2
    ensures ServedOk(c, s, s', user, k, A, r, m, taken)
  {
    CountsAccounts(c, s, s', taken);
    if user == 0 {
      MovedTable(c, s, s', -1, m);
      MovedCall(c, s, s', -1, m);
    } else {
      MovedTable(c, s, s', k, m);
      MovedCall(c, s, s', k, m);
    }
  }
}
