/**
 Where a block is put inside its slot: the address arithmetic of
 `_duma_allocate`, with the page size P and the alignment A powers of two.
 */
module Placement {
  import opened Bits

  /** Slot bytes needed for a block of `size` > 0 bytes. */
  function InternalSize(P: nat, A: nat, size: nat): nat
    requires P > 0
  {
    AlignUp(size, P) + P + (if A > P then A - P else 0)
  }

  /** Protect-above mode: the block ends as close to the dead page as A allows. */
  function UserAbove(P: nat, A: nat, start: nat, need: nat, size: nat): nat
    requires A > 0
  {
    if start + need >= P + size then AlignDown(start + need - P - size, A) else 0
  }

  function ProtAbove(P: nat, user: nat, size: nat): nat
    requires P > 0
  {
    AlignUp(user + size, P)
  }

  /** Protect-below mode: the block starts on the first aligned byte after a page. */
  function UserBelow(P: nat, A: nat, start: nat): nat
    requires A > 0
  {
    AlignUp(start + P, A)
  }

  function ProtBelow(P: nat, user: nat): int
    requires P > 0
  {
    AlignDown(user, P) - P
  }

  lemma InternalSizeMeans(P: nat, A: nat, size: nat)
    requires IsPow2(P) && IsPow2(A)
    ensures InternalSize(P, A, size) % P == 0
    ensures size + P <= InternalSize(P, A, size)
    ensures A <= P ==> InternalSize(P, A, size) < size + 2 * P
    ensures A > P ==> size + A <= InternalSize(P, A, size) < size + A + P
  {
    AlignUpMeans(size, P);
    DivModUnique(P, P, 1, 0);
    MultipleSum(AlignUp(size, P), P, P);
    if A > P {
      Pow2Divides(P, A);
      MultipleSum(AlignUp(size, P), A, P);
    }
  }

  /** Protect-above placement, every power-of-two alignment: aligned, inside the
      slot, and followed by at least one whole dead page with a gap under P. */
  lemma AbovePlacement(P: nat, A: nat, start: nat, size: nat)
    requires IsPow2(P) && IsPow2(A) && start % P == 0 && size > 0
    ensures
      var need := InternalSize(P, A, size);
      var user := UserAbove(P, A, start, need, size);
      var prot := ProtAbove(P, user, size);
      && user % A == 0 && prot % P == 0
      && start <= user && user + size <= prot <= start + need - P
      && prot - (user + size) < P
  {
    var need := InternalSize(P, A, size);
    var user := UserAbove(P, A, start, need, size);
    assert user % A == 0 && user + size <= start + need - P && (start + need - P) % P == 0 by {
      InternalSizeMeans(P, A, size);
      AlignDownMeans(start + need - P - size, A);
      PageMultiple(P, start, need);
    }
    AboveNotBeforeStart(P, A, start, size);
    AlignUpMeans(user + size, P);
    NotPast(P, user + size, ProtAbove(P, user, size), start + need - P);
  }

  lemma PageMultiple(P: nat, start: nat, need: nat)
    requires P > 0 && start % P == 0 && need % P == 0 && need >= P
    ensures (start + need - P) % P == 0
  {
    DivModUnique(P, P, 1, 0);
    MultipleSum(start, need, P);
    MultipleSum(start + need, P, P);
  }

  /** Rounding up does not pass a multiple. */
  lemma NotPast(P: nat, x: nat, up: nat, end: nat)
    requires P > 0 && up % P == 0 && end % P == 0 && x <= end && x <= up < x + P
    ensures up <= end
  {
    if end < up { MultipleGap(end, up, P); }
  }

  lemma AboveNotBeforeStart(P: nat, A: nat, start: nat, size: nat)
    requires IsPow2(P) && IsPow2(A) && start % P == 0 && size > 0
    ensures start <= UserAbove(P, A, start, InternalSize(P, A, size), size)
  {
    var need := InternalSize(P, A, size);
    InternalSizeMeans(P, A, size);
    AlignUpMeans(size, P);
    var x := start + need - P - size;
    AlignDownMeans(x, A);
    var user := AlignDown(x, A);
    if A <= P {
      Pow2Divides(A, P);
      MultipleTrans(start, A, P);
      if user < start { MultipleGap(user, start, A); }
    } else {
      Pow2Divides(P, A);
      MultipleTrans(user, P, A);
      if user < start { MultipleGap(user, start, P); }
    }
  }

  lemma AboveUser(P: nat, A: nat, start: nat, size: nat)
    requires IsPow2(P) && IsPow2(A) && start % P == 0 && size > 0
    ensures
      var end := start + InternalSize(P, A, size) - P;
      && end % P == 0 && size <= end
      && UserAbove(P, A, start, InternalSize(P, A, size), size) == end - size - (end - size) % A
  {
    InternalSizeMeans(P, A, size);
    PageMultiple(P, start, InternalSize(P, A, size));
    AlignDownMeans(start + InternalSize(P, A, size) - P - size, A);
  }

  /** For A <= P the dead page is the last page of the slot, and the undetected
      tail is exactly (-size) mod A; sizes divisible by A leave no tail. */
  lemma AboveTail(P: nat, A: nat, start: nat, size: nat)
    requires IsPow2(P) && IsPow2(A) && A <= P && start % P == 0 && size > 0
    ensures
      var need := InternalSize(P, A, size);
      var user := UserAbove(P, A, start, need, size);
      var prot := ProtAbove(P, user, size);
      && prot == start + need - P
      && prot - (user + size) == (if size % A == 0 then 0 else A - size % A)
  {
    AboveUser(P, A, start, size);
    var need := InternalSize(P, A, size);
    TailAt(P, A, start + need - P, UserAbove(P, A, start, need, size), size);
  }

  lemma TailAt(P: nat, A: nat, end: nat, user: nat, size: nat)
    requires IsPow2(P) && IsPow2(A) && A <= P && end % P == 0 && size <= end
    requires user == end - size - (end - size) % A
    ensures
      var prot := ProtAbove(P, user, size);
      prot == end && prot - (user + size) == (if size % A == 0 then 0 else A - size % A)
  {
    TailFromEnd(P, A, end, size);
    assert user + size == end - (end - size) % A;
  }

  lemma TailFromEnd(P: nat, A: nat, end: nat, size: nat)
    requires IsPow2(P) && IsPow2(A) && A <= P && end % P == 0 && size <= end
    ensures
      var rest := (end - size) % A;
      && 0 <= rest <= end - size
      && AlignUp(end - rest, P) == end
      && rest == (if size % A == 0 then 0 else A - size % A)
  {
    var rest := (end - size) % A;
    AlignDownMeans(end - size, A);
    UpToEnd(P, end - rest, end);
    Pow2Divides(A, P);
    MultipleTrans(end, A, P);
    Complement(end, size, A);
  }

  /** The last page boundary at or after x. */
  lemma UpToEnd(P: nat, x: nat, end: nat)
    requires IsPow2(P) && end % P == 0 && end - P < x <= end
    ensures AlignUp(x, P) == end
  {
    AlignUpMeans(x, P);
    if AlignUp(x, P) < end { MultipleGap(AlignUp(x, P), end, P); }
    if AlignUp(x, P) > end { MultipleGap(end, AlignUp(x, P), P); }
  }

  lemma Complement(end: nat, size: nat, A: nat)
    requires A > 0 && end % A == 0 && size <= end
    ensures (end - size) % A == (if size % A == 0 then 0 else A - size % A)
  {
    var q, r := size / A, size % A;
    var e := end / A;
    assert end == e * A && size == q * A + r;
    if r == 0 {
      Factor(e, q, A);
      DivModUnique(end - size, A, e - q, 0);
    } else {
      Factor(e, q, A);
      Factor(e - q, 1, A);
      DivModUnique(end - size, A, e - q - 1, A - r);
    }
  }

  /** Protect-below placement, every power-of-two alignment: aligned, inside the
      slot, preceded by a whole page that starts at protAddr. */
  lemma BelowPlacement(P: nat, A: nat, start: nat, size: nat)
    requires IsPow2(P) && IsPow2(A) && start % P == 0
    ensures
      var need := InternalSize(P, A, size);
      var user := UserBelow(P, A, start);
      var prot := ProtBelow(P, user);
      && user % A == 0 && user % P == 0 && prot % P == 0
      && start <= prot == user - P && user + size <= start + need
      && (A <= P ==> user == start + P)
  {
    BelowUser(P, A, start);
    var user := UserBelow(P, A, start);
    AlignDownMeans(user, P);
    DivModUnique(P, P, 1, 0);
    MultipleSum(user, P, P);
    MultipleSum(start, P, P);
    if user - P < start { MultipleGap(user, start + P, P); }
    if A <= P {
      AlignUpMeans(size, P);
    } else {
      BelowFits(P, A, start, size);
    }
  }

  lemma BelowUser(P: nat, A: nat, start: nat)
    requires IsPow2(P) && IsPow2(A) && start % P == 0
    ensures
      var user := UserBelow(P, A, start);
      && user % A == 0 && user % P == 0 && start + P <= user
      && (A <= P ==> user == start + P)
  {
    DivModUnique(P, P, 1, 0);
    MultipleSum(start, P, P);
    FirstAligned(P, A, start + P, UserBelow(P, A, start));
  }

  /** The first aligned byte at or behind a page boundary. */
  lemma FirstAligned(P: nat, A: nat, first: nat, user: nat)
    requires IsPow2(P) && IsPow2(A) && first % P == 0 && user == AlignUp(first, A)
    ensures user % A == 0 && user % P == 0 && first <= user
    ensures user == first <==> first % A == 0
    ensures A <= P ==> user == first
  {
    AlignUpMeans(first, A);
    if first % A == 0 { AlignUpFixed(first, A); }
    if A <= P {
      Pow2Divides(A, P);
      MultipleTrans(first, A, P);
    } else {
      Pow2Divides(P, A);
      MultipleTrans(user, P, A);
    }
  }

  lemma BelowFits(P: nat, A: nat, start: nat, size: nat)
    requires IsPow2(P) && IsPow2(A) && start % P == 0 && A > P
    ensures UserBelow(P, A, start) + size <= start + InternalSize(P, A, size)
  {
    AlignUpMeans(size, P);
    AlignUpMeans(start + P, A);
    var user := UserBelow(P, A, start);
    DivModUnique(P, P, 1, 0);
    MultipleSum(start, P, P);
    Pow2Divides(P, A);
    MultipleTrans(user, P, A);
    MultipleSum(start + P, A, P);
    // user < start + P + A and both are multiples of P
    if start + A < user { MultipleSum(start, A, P); MultipleGap(start + A, user, P); }
  }

  /** The bytes protect-below mode makes accessible are `need - P` bytes from the
      block's start; they stay inside the slot exactly when the byte after the
      slot's first page is already aligned. */
  lemma BelowLiveRangeInSlot(P: nat, A: nat, start: nat, size: nat)
    requires IsPow2(P) && IsPow2(A) && start % P == 0
    ensures
      var need := InternalSize(P, A, size);
      var user := UserBelow(P, A, start);
      (user + (need - (user - ProtBelow(P, user))) <= start + need) <==> ((start + P) % A == 0)
  {
    BelowPlacement(P, A, start, size);
    AlignedItself(start + P, A);
    var user := UserBelow(P, A, start);
    assert user - ProtBelow(P, user) == P && start + P <= user;
    assert user == start + P <==> (start + P) % A == 0;
  }

  lemma AlignedItself(x: nat, m: nat)
    requires IsPow2(m)
    ensures AlignUp(x, m) == x <==> x % m == 0
  {
    AlignUpMeans(x, m);
    if x % m == 0 { AlignUpFixed(x, m); }
  }

  /** Witnesses that it can leave the slot, for every page size: alignment 2P in
      a slot that starts at an even page. */
  lemma BelowLiveRangeCanLeaveSlot(P: nat, size: nat)
    requires IsPow2(P)
    ensures
      var need := InternalSize(P, 2 * P, size);
      var user := UserBelow(P, 2 * P, 2 * P);
      user + (need - (user - ProtBelow(P, user))) > 2 * P + need
  {
    assert IsPow2(2 * P) by { assert (2 * P) / 2 == P; }
    DivModUnique(2 * P, P, 2, 0);
    DivModUnique(2 * P + P, 2 * P, 1, P);
    BelowLiveRangeInSlot(P, 2 * P, 2 * P, size);
  }

  /** One chunk always suffices: the request never needs a second one. */
  lemma OneChunk(size: nat, chunk: nat)
    requires 0 < size < chunk
    ensures (size + (chunk - 1)) / chunk == 1
  {
    DivModUnique(size + chunk - 1, chunk, 1, size - 1);
  }

  /** kB of a page-granular size. */
  function KB(bytes: nat): nat {
    (bytes + 1023) / 1024
  }

  lemma KBSum(a: nat, b: nat, P: nat)
    requires P > 0 && P % 1024 == 0 && a % P == 0 && b % P == 0
    ensures KB(a + b) == KB(a) + KB(b)
    ensures KB(a) * 1024 == a && KB(b) * 1024 == b
  {
    MultipleTrans(a, 1024, P);
    MultipleTrans(b, 1024, P);
  }
}
