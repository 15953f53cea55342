/**
 Programs calling the allocator object: its runs are exactly the runs the theorems
 are about.
 */
module Program {
  import opened Wrappers
  import opened Pages
  import opened Slots
  import opened Heap
  import opened Invariants
  import opened Operations
  import opened Runs
  import opened Theorems
  import D = Duma

  predicate Returns(spec: Outcome<(State, seq<nat>)>, out: Outcome<seq<nat>>, now: State) {
    match spec
    case Done(p) => out == Done(p.1) && now == p.0
    case Abort(r) => out == Abort(r)
  }

  /** The byte store of a program. */
  method StoreTo(d: D.Duma, a: nat, v: Byte) returns (o: Outcome<()>)
    requires d.Valid()
    modifies d`pages
    ensures d.Valid() && D.Meets(StoreByte(old(d.View()), a, v), o, d.View())
  {
    if a !in d.pages.open || a !in d.pages.mem {
      return Abort(SegFault);
    }
    d.pages := d.pages.(mem := d.pages.mem[a := v]);
    o := Done(());
  }

  /** One operation of a program. */
  method Perform(d: D.Duma, op: Op) returns (o: Outcome<nat>)
    requires d.Valid()
    modifies d, d.allocList
    ensures d.Valid() && (d.allocList == old(d.allocList) || fresh(d.allocList))
    ensures D.Gives(Step(d.c, old(d.View()), op), o, d.View())
  {
    match op
    case DoAllocate(t, r) =>
      o := d.Allocate(t, r, true);
    case DoFree(a, allocator, site) =>
      var _ :- d.Deallocate(a, true, allocator, site);
      o := Done(0);
    case DoRealloc(t, prev, size, site) =>
      o := d.Reallocate(t, prev, size, site);
    case DoCheck(a) =>
      var _ :- d.Check(a);
      o := Done(0);
    case DoCheckAll =>
      var _ :- d.CheckAll();
      o := Done(0);
    case Store(a, v) =>
      var _ :- StoreTo(d, a, v);
      o := Done(0);
  }

  /** A whole program. */
  method Execute(d: D.Duma, ops: seq<Op>) returns (o: Outcome<seq<nat>>)
    requires d.Valid()
    modifies d, d.allocList
    ensures d.Valid() && (d.allocList == old(d.allocList) || fresh(d.allocList))
    ensures Returns(Run(d.c, old(d.View()), ops), o, d.View())
    decreases |ops|
  {
    if ops == [] {
      return Done([]);
    }
    var p :- Perform(d, ops[0]);
    var ps :- Execute(d, ops[1..]);
    o := Done([p] + ps);
  }

  /** duma_init: the first malloc and free follow `_duma_init`. */
  method Start(c: Config, t: Tls, answers: seq<nat>) returns (d: D.Duma, o: Outcome<()>)
    requires c.Valid()
    ensures d.Valid() && d.c == c && fresh(d) && fresh(d.allocList)
    ensures D.Meets(Boot(c, t, answers), o, d.View())
  {
    d := new D.Duma(c, answers);
    o := d.Initialise();
    if o.Abort? {
      return;
    }
    var p := d.Allocate(t, FirstRequest(t), true);
    if p.Abort? {
      o := Abort(p.reason);
      return;
    }
    o := d.Deallocate(p.value, true, EFA_FREE, UNKNOWN_SITE);
  }

  /** A whole program from the start, for every behaviour of mmap: if it was not
      stopped, the object is in a state with all the invariants; and if no request
      wants its dead page below at an alignment above a page, every live block has its
      red zone and all freed memory that is still held is dead. */
  method RunFromStart(c: Config, t: Tls, answers: seq<nat>, ops: seq<Op>) returns (d: D.Duma, o: Outcome<seq<nat>>)
    requires c.Valid() && UserOps(ops)
    ensures d.Valid() && d.c == c
    ensures o.Done? ==> Between(c, d.View()) && |o.value| == |ops|
    ensures o.Done? && ModestOps(c, ops) && StrictRequest(c, t, FirstRequest(t)) ==>
              AllDead(c, d.View()) && AllRedZones(c, d.View())
  {
    var started;
    d, started := Start(c, t, answers);
    if started.Abort? {
      o := Abort(started.reason);
      return;
    }
    ghost var s := d.View();
    BootKeeps(c, t, answers);
    o := Execute(d, ops);
    if o.Done? { RunSafe(c, s, ops, StrictRequest(c, t, FirstRequest(t))); }
  }

  ghost predicate AllRedZones(c: Config, s: State) {
    forall i :: 0 <= i < |s.slots| && IsLive(s.slots[i]) && s.slots[i].userSize > 0 ==> RedZone(c, s, i)
  }

  lemma RunSafe(c: Config, s: State, ops: seq<Op>, strict: bool)
    requires Between(c, s) && UserOps(ops) && Run(c, s, ops).Done? && (strict ==> AllDead(c, s))
    ensures
      var (s', ps) := Run(c, s, ops).value;
      && Between(c, s') && |ps| == |ops|
      && (strict && ModestOps(c, ops) ==> AllDead(c, s') && AllRedZones(c, s'))
  {
    RunKeeps(c, s, ops);
    if strict && ModestOps(c, ops) { RunRedZone(c, s, ops); }
  }
}
