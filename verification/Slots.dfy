/** The slot record and the families of allocators. */
module Slots {
  import opened Placement

  datatype SlotState = EMPTY | FREE | IN_USE | ALL_PROTECTED | BEGIN_PROTECTED

  datatype Allocator =
    | EFA_INT_ALLOC | EFA_INT_DEALLOC
    | EFA_MALLOC | EFA_CALLOC | EFA_FREE | EFA_MEMALIGN | EFA_POSIX_MEMALIGN | EFA_REALLOC | EFA_VALLOC | EFA_STRDUP
    | EFA_NEW_ELEM | EFA_DEL_ELEM | EFA_NEW_ARRAY | EFA_DEL_ARRAY
    | EFA_MEMBER_NEW_ELEM | EFA_MEMBER_DEL_ELEM | EFA_MEMBER_NEW_ARRAY | EFA_MEMBER_DEL_ARRAY

  datatype AllocType = Internal | CFamily | NewElemFamily | NewArrayFamily | MemberElemFamily | MemberArrayFamily

  function TypeOf(a: Allocator): AllocType {
    match a
    case EFA_INT_ALLOC => Internal
    case EFA_INT_DEALLOC => Internal
    case EFA_NEW_ELEM => NewElemFamily
    case EFA_DEL_ELEM => NewElemFamily
    case EFA_NEW_ARRAY => NewArrayFamily
    case EFA_DEL_ARRAY => NewArrayFamily
    case EFA_MEMBER_NEW_ELEM => MemberElemFamily
    case EFA_MEMBER_DEL_ELEM => MemberElemFamily
    case EFA_MEMBER_NEW_ARRAY => MemberArrayFamily
    case EFA_MEMBER_DEL_ARRAY => MemberArrayFamily
    case _ => CFamily
  }

  predicate IsCpp(a: Allocator) {
    !TypeOf(a).Internal? && !TypeOf(a).CFamily?
  }

  datatype FileSource = NoSource | AllocationSource | DeallocationSource

  /** A source position; line 0 means unknown. */
  datatype Site = Site(file: string, line: int)

  datatype Slot = Slot(
    internalAddress: nat,
    userAddress: nat,
    protAddress: int,
    internalSize: nat,
    userSize: nat,
    state: SlotState,
    allocator: Allocator,
    fileSource: FileSource,
    site: Site)

  const NO_SITE := Site("", 0)

  /** The record of zeroed table memory. */
  const ZERO_SLOT := Slot(0, 0, 0, 0, 0, EMPTY, EFA_INT_ALLOC, NoSource, NO_SITE)

  /** What becomes of a record when its memory is given back; `protAddress` stays. */
  function Emptied(sl: Slot): Slot {
    ZERO_SLOT.(protAddress := sl.protAddress)
  }

  function End(sl: Slot): nat {
    sl.internalAddress + sl.internalSize
  }

  predicate IsProtected(sl: Slot) {
    sl.state == ALL_PROTECTED || sl.state == BEGIN_PROTECTED
  }

  predicate IsLive(sl: Slot) {
    sl.state == IN_USE && TypeOf(sl.allocator) != Internal
  }

  predicate IsTable(sl: Slot) {
    sl.state == IN_USE && TypeOf(sl.allocator) == Internal
  }

  // ---- no man's land (duma_hlp.h) ----

  /** The accessible part of a slot, recovered from protAddress and userAddress. */
  function AccBegin(sl: Slot): nat {
    if sl.protAddress < sl.userAddress then sl.userAddress else sl.internalAddress
  }

  function AccEnd(sl: Slot): int {
    if sl.protAddress < sl.userAddress then End(sl) else sl.protAddress
  }

  predicate InUserBytes(sl: Slot, b: nat) {
    sl.userAddress <= b < sl.userAddress + sl.userSize
  }

  predicate InSlack(sl: Slot, b: nat) {
    sl.userSize > 0 &&
    (AccBegin(sl) <= b < sl.userAddress || sl.userAddress + sl.userSize <= b < AccEnd(sl))
  }

  // ---- sums over the table ----

  /** f over the first n slots. */
  function SumTo(slots: seq<Slot>, n: nat, f: Slot -> int): int
    requires n <= |slots|
  {
    if n == 0 then 0 else SumTo(slots, n - 1, f) + f(slots[n - 1])
  }

  function Sum(slots: seq<Slot>, f: Slot -> int): int {
    SumTo(slots, |slots|, f)
  }

  function EmptyOne(sl: Slot): int { if sl.state == EMPTY then 1 else 0 }

  function ProtectedOne(sl: Slot): int { if IsProtected(sl) then 1 else 0 }

  function HeldKB(sl: Slot): int { if sl.state == EMPTY then 0 else KB(sl.internalSize) }

  function ProtectedKB(sl: Slot): int { if IsProtected(sl) then KB(sl.internalSize) else 0 }

  /** How many more times a reduction can shrink the slot. */
  function Rank(sl: Slot): int {
    if sl.state == ALL_PROTECTED then 2 else if sl.state == BEGIN_PROTECTED then 1 else 0
  }

  lemma {:induction false} SumToSame(a: seq<Slot>, b: seq<Slot>, n: nat, f: Slot -> int)
    requires n <= |a| && n <= |b|
    requires forall i :: 0 <= i < n ==> a[i] == b[i]
    ensures SumTo(a, n, f) == SumTo(b, n, f)
  {
    if n > 0 { SumToSame(a, b, n - 1, f); }
  }

  lemma {:induction false} SumToUpdate(slots: seq<Slot>, n: nat, k: nat, x: Slot, f: Slot -> int)
    requires k < n <= |slots|
    ensures SumTo(slots[k := x], n, f) == SumTo(slots, n, f) - f(slots[k]) + f(x)
  {
    if k == n - 1 {
      SumToSame(slots[k := x], slots, n - 1, f);
    } else {
      SumToUpdate(slots, n - 1, k, x, f);
    }
  }

  lemma SumUpdate(slots: seq<Slot>, k: nat, x: Slot, f: Slot -> int)
    requires k < |slots|
    ensures Sum(slots[k := x], f) == Sum(slots, f) - f(slots[k]) + f(x)
  {
    SumToUpdate(slots, |slots|, k, x, f);
  }

  lemma {:induction false} SumAppend(a: seq<Slot>, b: seq<Slot>, n: nat, f: Slot -> int)
    requires n <= |b|
    ensures SumTo(a + b, |a| + n, f) == Sum(a, f) + SumTo(b, n, f)
  {
    if n == 0 {
      SumToSame(a + b, a, |a|, f);
    } else {
      SumAppend(a, b, n - 1, f);
    }
  }

  lemma {:induction false} SumConstant(a: seq<Slot>, n: nat, f: Slot -> int, v: int)
    requires n <= |a| && forall i :: 0 <= i < n ==> f(a[i]) == v
    ensures SumTo(a, n, f) == n * v
  {
    if n > 0 { SumConstant(a, n - 1, f, v); }
  }

  lemma {:induction false} SumBounds(a: seq<Slot>, n: nat, f: Slot -> int)
    requires n <= |a| && forall i :: 0 <= i < n ==> f(a[i]) >= 0
    ensures SumTo(a, n, f) >= 0
    ensures forall i :: 0 <= i < n ==> f(a[i]) <= SumTo(a, n, f)
  {
    if n > 0 { SumBounds(a, n - 1, f); }
  }

  /** If all slots hold more EMPTY ones than the first `from`, one lies beyond. */
  lemma {:induction false} EmptyExists(a: seq<Slot>, from: nat, n: nat)
    requires from <= n <= |a| && SumTo(a, from, EmptyOne) < SumTo(a, n, EmptyOne)
    ensures exists i :: from <= i < n && a[i].state == EMPTY
  {
    if a[n - 1].state != EMPTY { EmptyExists(a, from, n - 1); }
  }
}
