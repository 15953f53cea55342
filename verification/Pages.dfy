/**
 The process memory as the allocator sees it through paging.h: which bytes are
 mapped, which of them are accessible, and what they hold.
 */
module Pages {
  import opened Bits
  import opened Wrappers

  type Byte = x: nat | x < 256

  /** The largest size_t, and the end of the address space. */
  const SIZE_MAX: nat := 0xFFFF_FFFF_FFFF_FFFF

  /** `mem` is defined exactly on the mapped bytes; `open` are the accessible
      ones. `answers` scripts the kernel: the addresses the next mmap calls would
      return (an answer that is not a fresh page-aligned region counts as failure,
      and so does an empty script), so quantifying over scripts covers every
      behaviour of mmap. `failed` counts the failures so far. */
  datatype Pages = Pages(mem: map<nat, Byte>, open: set<nat>, answers: seq<nat>, failed: nat)

  /** The bytes of the pages touched by a page-aligned range. */
  function Region(P: nat, a: nat, n: nat): set<nat>
    requires P > 0
  {
    Span(a, a + AlignUp(n, P))
  }

  /** The bytes of [lo, hi). */
  function Span(lo: nat, hi: nat): set<nat> {
    set b: nat | lo <= b < hi && InSpan(lo, b, hi)
  }

  predicate InSpan(lo: nat, b: nat, hi: nat) {
    lo <= b < hi
  }

  /** Page_Create: 0, or the address of a fresh, zeroed, accessible region. */
  function Create(p: Pages, P: nat, n: nat): (Pages, nat)
    requires P > 0
  {
    if p.answers == [] then (p.(failed := p.failed + 1), 0)
    else
      var a := p.answers[0];
      var region := Region(P, a, n);
      if a > 0 && a % P == 0 && a + AlignUp(n, P) <= SIZE_MAX && region !! p.mem.Keys then
        (Pages(p.mem + (map b | b in region :: 0), p.open + region, p.answers[1..], p.failed), a)
      else
        (p.(answers := p.answers[1..], failed := p.failed + 1), 0)
  }

  /** mprotect fails on a misaligned address and on unmapped bytes. */
  predicate CanProtect(p: Pages, P: nat, a: nat, n: int)
    requires P > 0
  {
    a % P == 0 && n >= 0 && Region(P, a, n) <= p.mem.Keys
  }

  /** Page_AllowAccess */
  function Allow(p: Pages, P: nat, a: nat, n: int): Outcome<Pages>
    requires P > 0
  {
    if CanProtect(p, P, a, n) then Done(p.(open := p.open + Region(P, a, n))) else Abort(MprotectFailed)
  }

  /** Page_DenyAccess */
  function Deny(p: Pages, P: nat, a: nat, n: int): Outcome<Pages>
    requires P > 0
  {
    if CanProtect(p, P, a, n) then Done(p.(open := p.open - Region(P, a, n))) else Abort(MprotectFailed)
  }

  /** Page_Delete */
  function Delete(p: Pages, P: nat, a: nat, n: nat): Pages
    requires P > 0
  {
    p.(mem := p.mem - Region(P, a, n), open := p.open - Region(P, a, n))
  }

  /** The bytes of [lo, hi) overwritten with v. */
  function FillRange(mem: map<nat, Byte>, lo: int, hi: int, v: Byte): (r: map<nat, Byte>)
    ensures r.Keys == mem.Keys
  {
    map b | b in mem :: if lo <= b < hi then v else mem[b]
  }

  /** `n` bytes copied from `src` to `dest`. */
  function CopyRange(mem: map<nat, Byte>, dest: nat, src: nat, n: nat): (r: map<nat, Byte>)
    requires forall b :: src <= b < src + n ==> b in mem
    ensures r.Keys == mem.Keys
  {
    map b | b in mem :: if dest <= b < dest + n then mem[src + (b - dest)] else mem[b]
  }
}
