/**
 The slots as a partition of memory: pairwise disjoint intervals whose union is
 a given set of bytes, and the five ways the allocator changes such a partition.
 */
module Tiling {
  import opened Slots

  predicate Covers(sl: Slot, b: nat) {
    sl.state != EMPTY && sl.internalAddress <= b < End(sl)
  }

  predicate Apart(x: Slot, y: Slot) {
    x.state == EMPTY || y.state == EMPTY || End(x) <= y.internalAddress || End(y) <= x.internalAddress
  }

  ghost predicate Disjoint(slots: seq<Slot>) {
    forall i, j :: 0 <= i < |slots| && 0 <= j < |slots| && i != j ==> Apart(slots[i], slots[j])
  }

  ghost predicate CoveredBy(slots: seq<Slot>, b: nat) {
    exists i :: 0 <= i < |slots| && Covers(slots[i], b)
  }

  /** Disjoint intervals whose union is exactly `arena`. */
  ghost predicate Tiles(slots: seq<Slot>, arena: set<nat>) {
    && Disjoint(slots)
    && forall b: nat :: b in arena <==> CoveredBy(slots, b)
  }

  /** The record changes, its interval does not. */
  lemma Retag(slots: seq<Slot>, arena: set<nat>, k: nat, x: Slot)
    requires Tiles(slots, arena) && k < |slots|
    requires slots[k].state != EMPTY && x.state != EMPTY
    requires x.internalAddress == slots[k].internalAddress && x.internalSize == slots[k].internalSize
    ensures Tiles(slots[k := x], arena)
  {
    var t := slots[k := x];
    forall b: nat ensures CoveredBy(t, b) <==> CoveredBy(slots, b) {
      if CoveredBy(slots, b) {
        var i :| 0 <= i < |slots| && Covers(slots[i], b);
        assert Covers(t[i], b);
      }
      if CoveredBy(t, b) {
        var i :| 0 <= i < |t| && Covers(t[i], b);
        assert Covers(slots[i], b);
      }
    }
  }

  /** An EMPTY record takes a fresh interval. */
  lemma Add(slots: seq<Slot>, arena: set<nat>, k: nat, x: Slot, arena': set<nat>)
    requires Tiles(slots, arena) && k < |slots|
    requires slots[k].state == EMPTY && x.state != EMPTY
    requires x.internalSize > 0
    requires forall j :: 0 <= j < |slots| && slots[j].state != EMPTY ==> slots[j].internalSize > 0
    requires forall b: nat :: Covers(x, b) ==> b !in arena
    requires forall b: nat :: b in arena' <==> b in arena || Covers(x, b)
    ensures Tiles(slots[k := x], arena')
  {
    var t := slots[k := x];
    forall j | 0 <= j < |t| && j != k ensures Apart(x, t[j]) {
      if !Apart(x, t[j]) {
        var b := if x.internalAddress >= t[j].internalAddress then x.internalAddress else t[j].internalAddress;
        assert Covers(x, b) && Covers(slots[j], b);
        assert CoveredBy(slots, b);
      }
    }
    forall b: nat ensures CoveredBy(t, b) <==> b in arena' {
      if CoveredBy(slots, b) {
        var i :| 0 <= i < |slots| && Covers(slots[i], b);
        assert Covers(t[i], b);
      }
      if Covers(x, b) { assert Covers(t[k], b); }
      if CoveredBy(t, b) {
        var i :| 0 <= i < |t| && Covers(t[i], b);
        if i != k { assert Covers(slots[i], b); }
      }
    }
  }

  /** The interval shrinks to a prefix, possibly to nothing. */
  lemma Shrink(slots: seq<Slot>, arena: set<nat>, k: nat, x: Slot, arena': set<nat>)
    requires Tiles(slots, arena) && k < |slots|
    requires slots[k].state != EMPTY
    requires x.state == EMPTY ||
             (x.internalAddress == slots[k].internalAddress && x.internalSize <= slots[k].internalSize)
    requires forall b: nat :: b in arena' <==> b in arena && (Covers(slots[k], b) ==> Covers(x, b))
    ensures Tiles(slots[k := x], arena')
  {
    var t := slots[k := x];
    forall b: nat ensures CoveredBy(t, b) <==> b in arena' {
      if b in arena' {
        var i :| 0 <= i < |slots| && Covers(slots[i], b);
        assert Covers(t[i], b);
      }
      if CoveredBy(t, b) {
        var i :| 0 <= i < |t| && Covers(t[i], b);
        assert Covers(slots[i], b);
        assert CoveredBy(slots, b);
        if i != k { assert Apart(slots[i], slots[k]); }
      }
    }
  }

  /** One interval is cut in two. */
  lemma Split(slots: seq<Slot>, arena: set<nat>, k: nat, e: nat, x: Slot, y: Slot)
    requires Tiles(slots, arena) && k < |slots| && e < |slots| && k != e
    requires slots[k].state != EMPTY && slots[e].state == EMPTY
    requires x.state != EMPTY && y.state != EMPTY
    requires x.internalAddress == slots[k].internalAddress && End(x) == y.internalAddress
    requires End(y) == End(slots[k])
    ensures Tiles(slots[e := y][k := x], arena)
  {
    var t := slots[e := y][k := x];
    forall j | 0 <= j < |t| && j != k && j != e ensures Apart(t[j], x) && Apart(t[j], y) {
      assert Apart(slots[j], slots[k]);
    }
    forall i, j | 0 <= i < |t| && 0 <= j < |t| && i != j ensures Apart(t[i], t[j]) {
      if i != k && i != e && j != k && j != e { assert Apart(slots[i], slots[j]); }
    }
    forall b: nat ensures CoveredBy(t, b) <==> CoveredBy(slots, b) {
      if CoveredBy(slots, b) {
        var i :| 0 <= i < |slots| && Covers(slots[i], b);
        if i == k { assert Covers(t[k], b) || Covers(t[e], b); } else { assert Covers(t[i], b); }
      }
      if CoveredBy(t, b) {
        var i :| 0 <= i < |t| && Covers(t[i], b);
        if i == k || i == e { assert Covers(slots[k], b); } else { assert Covers(slots[i], b); }
      }
    }
  }

  /** Empty records at the end change nothing. */
  lemma Extend(slots: seq<Slot>, arena: set<nat>, more: seq<Slot>)
    requires Tiles(slots, arena)
    requires forall i :: 0 <= i < |more| ==> more[i].state == EMPTY
    ensures Tiles(slots + more, arena)
  {
    var t := slots + more;
    forall b: nat ensures CoveredBy(t, b) <==> CoveredBy(slots, b) {
      if CoveredBy(slots, b) {
        var i :| 0 <= i < |slots| && Covers(slots[i], b);
        assert Covers(t[i], b);
      }
      if CoveredBy(t, b) {
        var i :| 0 <= i < |t| && Covers(t[i], b);
        assert Covers(slots[i], b);
      }
    }
  }

  /** A byte lies in at most one slot. */
  lemma CoverUnique(slots: seq<Slot>, i: nat, j: nat, b: nat)
    requires Disjoint(slots) && i < |slots| && j < |slots|
    requires Covers(slots[i], b) && Covers(slots[j], b)
    ensures i == j
  {
    assert !Apart(slots[i], slots[j]);
  }

  lemma CoverApart(slots: seq<Slot>, i: nat, j: nat, b: nat)
    requires Disjoint(slots) && i < |slots| && j < |slots| && i != j
    requires Covers(slots[i], b)
    ensures !Covers(slots[j], b)
  {
    assert Apart(slots[i], slots[j]);
  }
}
