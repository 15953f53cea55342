/**
 The thread-safe `delete` macro of dumapp.h: a `for` loop around the real delete
 expression that takes the lock twice, releases it once per test of its condition,
 and keeps a stack of source positions for `operator delete` to report.
 */
module DeleteMacro {
  import opened Wrappers

  const DUMA_MAX_DEL_DEPTH := 256

  /** An object under deletion: where its `delete` stands, and the objects its
      destructor deletes, in that order. */
  datatype Object = Object(name: nat, file: string, line: int, members: seq<Object>)

  /** One call of `operator delete`: the object, the position it reports, and how
      often the thread holds the lock meanwhile. */
  datatype Report = Report(name: nat, file: string, line: int, held: nat)

  /** The reports of deleting o while the lock is held `held` times: those of the
      members, then its own. */
  function Reports(o: Object, held: nat): seq<Report>
    decreases o, 0
  {
    AllReports(o.members, |o.members|, held + 1) + [Report(o.name, o.file, o.line, held + 1)]
  }

  /** The reports of deleting the first n of os. */
  function AllReports(os: seq<Object>, n: nat, held: nat): seq<Report>
    requires n <= |os|
    decreases os, n
  {
    if n == 0 then [] else AllReports(os, n - 1, held) + Reports(os[n - 1], held)
  }

  /** How deep the deletes nest. */
  function Height(o: Object): nat
    decreases o, 0
  {
    1 + MaxHeight(o.members, |o.members|)
  }

  function MaxHeight(os: seq<Object>, n: nat): nat
    requires n <= |os|
    decreases os, n
  {
    if n == 0 then 0
    else
      var rest := MaxHeight(os, n - 1);
      if Height(os[n - 1]) > rest then Height(os[n - 1]) else rest
  }

  /** The macro's thread-local state, and the lock depth of the thread. */
  class Deleter {
    var DelPtr: int
    var Magic: int
    const DelFile: array<string>
    const DelLine: array<int>
    var semDepth: nat
    var log: seq<Report>

    ghost predicate Valid()
      reads this
    {
      0 <= DelPtr < DelFile.Length == DelLine.Length == DUMA_MAX_DEL_DEPTH
    }

    constructor ()
      ensures Valid() && DelPtr == 0 && semDepth == 0 && log == [] && fresh(DelFile) && fresh(DelLine)
    {
      DelPtr, Magic, semDepth, log := 0, 0, 0, [];
      DelFile := new string[DUMA_MAX_DEL_DEPTH](i => "UNKNOWN");
      DelLine := new int[DUMA_MAX_DEL_DEPTH](i => 0);
    }

    method GetSemaphore()
      modifies this`semDepth
      ensures semDepth == old(semDepth) + 1
    {
      semDepth := semDepth + 1;
    }

    method ReleaseSemaphore(retval: int) returns (r: int)
      requires semDepth > 0
      modifies this`semDepth
      ensures semDepth == old(semDepth) - 1 && r == retval
    {
      semDepth := semDepth - 1;
      r := retval;
    }

    /** `operator delete` of dumapp.cpp. */
    method OperatorDelete(name: nat)
      requires Valid()
      modifies this`log
      ensures log == old(log) + [Report(name, DelFile[DelPtr], DelLine[DelPtr], semDepth)]
    {
      log := log + [Report(name, DelFile[DelPtr], DelLine[DelPtr], semDepth)];
    }

    /** The destructor of o: it deletes what o holds. */
    method Destructor(o: Object) returns (out: Outcome<()>)
      requires Valid() && semDepth > 0
      modifies this, DelFile, DelLine
      ensures out == if old(DelPtr) + MaxHeight(o.members, |o.members|) < DUMA_MAX_DEL_DEPTH then Done(()) else Abort(DeleteTooDeep)
      ensures out.Done? ==> Valid() && DelPtr == old(DelPtr) && semDepth == old(semDepth)
      ensures out.Done? ==> log == old(log) + AllReports(o.members, |o.members|, semDepth)
      ensures out.Done? ==> forall k :: 0 <= k <= DelPtr ==> DelFile[k] == old(DelFile[k]) && DelLine[k] == old(DelLine[k])
      decreases o, 0
    {
      for i := 0 to |o.members|
        invariant Valid() && DelPtr == old(DelPtr) && semDepth == old(semDepth)
        invariant log == old(log) + AllReports(o.members, i, semDepth)
        invariant old(DelPtr) + MaxHeight(o.members, i) < DUMA_MAX_DEL_DEPTH
        invariant forall k :: 0 <= k <= DelPtr ==> DelFile[k] == old(DelFile[k]) && DelLine[k] == old(DelLine[k])
      {
        HeightGrows(o.members, i + 1, |o.members|);
        var _ :- Delete(o.members[i]);
      }
      out := Done(());
    }

    /** The delete expression itself: the destructor, then `operator delete`. */
    method Destroy(o: Object) returns (out: Outcome<()>)
      requires Valid() && semDepth > 0
      requires DelFile[DelPtr] == o.file && DelLine[DelPtr] == o.line
      modifies this, DelFile, DelLine
      ensures out == if old(DelPtr) + Height(o) - 1 < DUMA_MAX_DEL_DEPTH then Done(()) else Abort(DeleteTooDeep)
      ensures out.Done? ==> Valid() && DelPtr == old(DelPtr) && semDepth == old(semDepth)
      ensures out.Done? ==> log == old(log) + Reports(o, semDepth - 1)
      ensures out.Done? ==> DeletesTree(log[|old(log)|..], o, semDepth - 1)
      ensures out.Done? ==> forall k :: 0 <= k <= DelPtr ==> DelFile[k] == old(DelFile[k]) && DelLine[k] == old(DelLine[k])
      decreases o, 1
    {
      var _ :- Destructor(o);
      OperatorDelete(o.name);
      NewReports(old(log), log, o, semDepth - 1);
      out := Done(());
    }

    /** `delete`, the macro: it completes exactly when the nesting fits the stack of
        positions; then every object in the tree has been deleted once, members first,
        with the lock held once more per level, and reported with the position of its
        own delete; the lock, DelPtr and the positions of the deletes around it are as
        before. Otherwise it aborts. */
    method Delete(o: Object) returns (out: Outcome<()>)
      requires Valid()
      modifies this, DelFile, DelLine
      ensures out == if old(DelPtr) + Height(o) < DUMA_MAX_DEL_DEPTH then Done(()) else Abort(DeleteTooDeep)
      ensures out.Done? ==> Valid() && DelPtr == old(DelPtr) && semDepth == old(semDepth)
      ensures out.Done? ==> log == old(log) + Reports(o, semDepth)
      ensures out.Done? ==> DeletesTree(log[|old(log)|..], o, semDepth)
      ensures out.Done? ==> forall k :: 0 <= k <= DelPtr ==> DelFile[k] == old(DelFile[k]) && DelLine[k] == old(DelLine[k])
      decreases o, 2
    {
      GetSemaphore();
      GetSemaphore();
      DelPtr := DelPtr + 1;
      if !(DelPtr < DUMA_MAX_DEL_DEPTH) {
        return Abort(DeleteTooDeep);
      }
      Magic := 1;
      DelFile[DelPtr] := o.file;
      DelLine[DelPtr] := o.line;
      var continues := ReleaseSemaphore(Magic);
      while continues != 0
        invariant continues == 0 || continues == 1
        invariant continues == 1 ==>
                    && Valid() && DelPtr == old(DelPtr) + 1 && semDepth == old(semDepth) + 1 && log == old(log)
                    && DelFile[DelPtr] == o.file && DelLine[DelPtr] == o.line
        invariant continues == 0 ==>
                    && Valid() && DelPtr == old(DelPtr) && semDepth == old(semDepth)
                    && log == old(log) + Reports(o, semDepth)
                    && old(DelPtr) + Height(o) < DUMA_MAX_DEL_DEPTH
        invariant forall k :: 0 <= k <= old(DelPtr) ==> DelFile[k] == old(DelFile[k]) && DelLine[k] == old(DelLine[k])
        decreases continues
      {
        var _ :- Destroy(o);
        Magic := 0;
        DelPtr := DelPtr - 1;
        continues := ReleaseSemaphore(Magic);
      }
      NewReports(old(log), log, o, semDepth);
      out := Done(());
    }
  }

  lemma {:induction false} HeightGrows(os: seq<Object>, m: nat, n: nat)
    requires m <= n <= |os|
    ensures MaxHeight(os, m) <= MaxHeight(os, n)
    decreases n
  {
    if m < n { HeightGrows(os, m, n - 1); }
  }

  // ---- what the reports say ----

  /** The deletes of a tree: who is deleted where. */
  datatype Deletion = Deletion(name: nat, file: string, line: int)

  function Deletions(o: Object): multiset<Deletion>
    decreases o, 0
  {
    multiset{Deletion(o.name, o.file, o.line)} + AllDeletions(o.members, |o.members|)
  }

  function AllDeletions(os: seq<Object>, n: nat): multiset<Deletion>
    requires n <= |os|
    decreases os, n
  {
    if n == 0 then multiset{} else AllDeletions(os, n - 1) + Deletions(os[n - 1])
  }

  function Reported(rs: seq<Report>): multiset<Deletion> {
    if rs == [] then multiset{}
    else
      var r := rs[|rs| - 1];
      Reported(rs[..|rs| - 1]) + multiset{Deletion(r.name, r.file, r.line)}
  }

  lemma {:induction false} ReportedAppend(xs: seq<Report>, ys: seq<Report>)
    ensures Reported(xs + ys) == Reported(xs) + Reported(ys)
    decreases |ys|
  {
    if ys == [] {
      assert xs + ys == xs;
    } else {
      var n := |ys| - 1;
      var d := multiset{Deletion(ys[n].name, ys[n].file, ys[n].line)};
      assert Reported(xs + ys) == Reported(xs + ys[..n]) + d by {
        assert (xs + ys)[..|xs| + n] == xs + ys[..n];
      }
      ReportedAppend(xs, ys[..n]);
    }
  }

  lemma ReportedSum(xs: seq<Report>, ys: seq<Report>, x: multiset<Deletion>, y: multiset<Deletion>)
    requires Reported(xs) == x && Reported(ys) == y
    ensures Reported(xs + ys) == x + y
  {
    ReportedAppend(xs, ys);
  }

  /** Each delete of the tree is reported exactly once, with its own position. */
  lemma {:induction false} EachOnce(o: Object, held: nat)
    ensures Reported(Reports(o, held)) == Deletions(o)
    decreases o, 0
  {
    AllOnce(o.members, |o.members|, held + 1);
    var own := [Report(o.name, o.file, o.line, held + 1)];
    assert own[..0] == [];
    ReportedSum(AllReports(o.members, |o.members|, held + 1), own,
                   AllDeletions(o.members, |o.members|), multiset{Deletion(o.name, o.file, o.line)});
  }

  lemma {:induction false} AllOnce(os: seq<Object>, n: nat, held: nat)
    requires n <= |os|
    ensures Reported(AllReports(os, n, held)) == AllDeletions(os, n)
    decreases os, n
  {
    if n > 0 {
      AllOnce(os, n - 1, held);
      EachOnce(os[n - 1], held);
      ReportedSum(AllReports(os, n - 1, held), Reports(os[n - 1], held), AllDeletions(os, n - 1), Deletions(os[n - 1]));
    }
  }

  /** Every destructor and every `operator delete` runs under the lock, taken at
      most as often as the deletes nest. */
  lemma {:induction false} UnderLock(o: Object, held: nat)
    ensures forall i :: 0 <= i < |Reports(o, held)| ==> held < Reports(o, held)[i].held <= held + Height(o)
    decreases o, 0
  {
    AllUnderLock(o.members, |o.members|, held + 1);
  }

  lemma {:induction false} AllUnderLock(os: seq<Object>, n: nat, held: nat)
    requires n <= |os|
    ensures forall i :: 0 <= i < |AllReports(os, n, held)| ==>
              held < AllReports(os, n, held)[i].held <= held + MaxHeight(os, n)
    decreases os, n
  {
    if n > 0 {
      AllUnderLock(os, n - 1, held);
      UnderLock(os[n - 1], held);
    }
  }

  // ---- the order of the reports ----

  function Names(o: Object): set<nat>
    decreases o, 0
  {
    AllNames(o.members, |o.members|) + {o.name}
  }

  /** The names in the trees of the first n of os. */
  function AllNames(os: seq<Object>, n: nat): set<nat>
    requires n <= |os|
    decreases os, n
  {
    if n == 0 then {} else AllNames(os, n - 1) + Names(os[n - 1])
  }

  /** No two deletes of the tree are of objects with the same name. */
  predicate UniqueNames(o: Object)
    decreases o, 0
  {
    AllUnique(o.members, |o.members|) && o.name !in AllNames(o.members, |o.members|)
  }

  predicate AllUnique(os: seq<Object>, n: nat)
    requires n <= |os|
    decreases os, n
  {
    n == 0 || (AllUnique(os, n - 1) && UniqueNames(os[n - 1]) && AllNames(os, n - 1) !! Names(os[n - 1]))
  }

  /** x is deleted by the delete of o, d deletes deep: o itself if d is 1, else by the
      destructor of an object d - 1 deep. */
  ghost predicate Within(x: Object, o: Object, d: nat)
    decreases o
  {
    if d <= 1 then d == 1 && x == o
    else exists k :: 0 <= k < |o.members| && Within(x, o.members[k], d - 1)
  }

  predicate Absent(rs: seq<Report>, name: nat) {
    forall i :: 0 <= i < |rs| ==> rs[i].name != name
  }

  /** y is reported before x. */
  predicate Before(rs: seq<Report>, y: nat, x: nat) {
    forall i, j :: 0 <= i < |rs| && 0 <= j < |rs| && rs[i].name == y && rs[j].name == x ==> i < j
  }

  /** Whatever the destructor of x deletes, directly or not, is deleted before x. */
  ghost predicate MembersFirst(rs: seq<Report>, o: Object) {
    forall x, d, y :: Within(x, o, d) && y in AllNames(x.members, |x.members|) ==> Before(rs, y, x.name)
  }

  /** What the destructor of x deletes is deleted in the destructor's order. */
  ghost predicate DestructorOrder(rs: seq<Report>, o: Object) {
    forall x, d, p, q, y, z ::
      Within(x, o, d) && 0 <= p < q < |x.members| && y in Names(x.members[p]) && z in Names(x.members[q])
      ==> Before(rs, y, z)
  }

  /** Every report of x shows the position of the delete of x, and the lock held once
      more for each delete x is nested in. */
  ghost predicate OwnPositions(rs: seq<Report>, o: Object, held: nat) {
    forall x, d, i :: Within(x, o, d) && 0 <= i < |rs| && rs[i].name == x.name ==>
      rs[i] == Report(x.name, x.file, x.line, held + d)
  }

  /** What a completed delete of o, with the lock held `held` times around it, adds to
      the log: every delete of the tree once, o's own last; and if names are unique, in
      the order of the destructors, each with its own position. */
  ghost predicate DeletesTree(rs: seq<Report>, o: Object, held: nat) {
    && Reported(rs) == Deletions(o)
    && |rs| > 0 && rs[|rs| - 1] == Report(o.name, o.file, o.line, held + 1)
    && (UniqueNames(o) ==> MembersFirst(rs, o) && DestructorOrder(rs, o) && OwnPositions(rs, o, held))
  }

  lemma BeforeAppend(xs: seq<Report>, ys: seq<Report>, y: nat, x: nat)
    requires Before(xs, y, x) && Before(ys, y, x) && (Absent(xs, x) || Absent(ys, y))
    ensures Before(xs + ys, y, x)
  {}

  /** Only names of the tree are reported. */
  lemma {:induction false} ReportsNames(o: Object, held: nat, name: nat)
    requires name !in Names(o)
    ensures Absent(Reports(o, held), name)
    decreases o, 0
  {
    AllReportsNames(o.members, |o.members|, held + 1, name);
  }

  lemma {:induction false} AllReportsNames(os: seq<Object>, n: nat, held: nat, name: nat)
    requires n <= |os| && name !in AllNames(os, n)
    ensures Absent(AllReports(os, n, held), name)
    decreases os, n
  {
    if n > 0 {
      AllReportsNames(os, n - 1, held, name);
      ReportsNames(os[n - 1], held, name);
    }
  }

  lemma {:induction false} NamesOf(os: seq<Object>, n: nat, k: nat)
    requires k < n <= |os|
    ensures Names(os[k]) <= AllNames(os, n)
    decreases n
  {
    if k < n - 1 { NamesOf(os, n - 1, k); }
  }

  lemma {:induction false} UniqueOf(os: seq<Object>, n: nat, k: nat)
    requires k < n <= |os| && AllUnique(os, n)
    ensures UniqueNames(os[k])
    decreases n
  {
    if k < n - 1 { UniqueOf(os, n - 1, k); }
  }

  lemma {:induction false} WithinNames(x: Object, o: Object, d: nat)
    requires Within(x, o, d)
    ensures Names(x) <= Names(o)
    decreases o
  {
    if d > 1 {
      var k :| 0 <= k < |o.members| && Within(x, o.members[k], d - 1);
      WithinNames(x, o.members[k], d - 1);
      NamesOf(o.members, |o.members|, k);
    }
  }

  /** An order within one member's reports is the order within all. */
  lemma {:induction false} MemberOrder(os: seq<Object>, n: nat, k: nat, held: nat, y: nat, x: nat)
    requires k < n <= |os| && AllUnique(os, n) && y in Names(os[k]) && x in Names(os[k])
    requires Before(Reports(os[k], held), y, x)
    ensures Before(AllReports(os, n, held), y, x)
    decreases n
  {
    var rest := AllReports(os, n - 1, held);
    if k == n - 1 {
      AllReportsNames(os, n - 1, held, y);
      AllReportsNames(os, n - 1, held, x);
    } else {
      MemberOrder(os, n - 1, k, held, y, x);
      NamesOf(os, n - 1, k);
      ReportsNames(os[n - 1], held, y);
      ReportsNames(os[n - 1], held, x);
    }
    BeforeAppend(rest, Reports(os[n - 1], held), y, x);
  }

  /** Earlier members are reported before later ones. */
  lemma {:induction false} SiblingOrder(os: seq<Object>, n: nat, p: nat, q: nat, held: nat, y: nat, z: nat)
    requires p < q < n <= |os| && AllUnique(os, n) && y in Names(os[p]) && z in Names(os[q])
    ensures Before(AllReports(os, n, held), y, z)
    decreases n
  {
    NamesOf(os, n - 1, p);
    ReportsNames(os[n - 1], held, y);
    if q == n - 1 {
      AllReportsNames(os, n - 1, held, z);
    } else {
      SiblingOrder(os, n - 1, p, q, held, y, z);
      NamesOf(os, n - 1, q);
      ReportsNames(os[n - 1], held, z);
    }
    BeforeAppend(AllReports(os, n - 1, held), Reports(os[n - 1], held), y, z);
  }

  /** From a member's reports to those of the whole tree. */
  lemma TreeOrder(o: Object, held: nat, k: nat, y: nat, x: nat)
    requires UniqueNames(o) && k < |o.members| && y in Names(o.members[k]) && x in Names(o.members[k])
    requires Before(Reports(o.members[k], held + 1), y, x)
    ensures Before(Reports(o, held), y, x)
  {
    MemberOrder(o.members, |o.members|, k, held + 1, y, x);
    NamesOf(o.members, |o.members|, k);
    BeforeAppend(AllReports(o.members, |o.members|, held + 1), [Report(o.name, o.file, o.line, held + 1)], y, x);
  }

  lemma {:induction false} MembersAreFirst(o: Object, held: nat, x: Object, d: nat, y: nat)
    requires UniqueNames(o) && Within(x, o, d) && y in AllNames(x.members, |x.members|)
    ensures Before(Reports(o, held), y, x.name)
    decreases o
  {
    if d == 1 {
      AllReportsNames(o.members, |o.members|, held + 1, o.name);
      BeforeAppend(AllReports(o.members, |o.members|, held + 1), [Report(o.name, o.file, o.line, held + 1)], y, o.name);
    } else {
      var k :| 0 <= k < |o.members| && Within(x, o.members[k], d - 1);
      UniqueOf(o.members, |o.members|, k);
      MembersAreFirst(o.members[k], held + 1, x, d - 1, y);
      WithinNames(x, o.members[k], d - 1);
      TreeOrder(o, held, k, y, x.name);
    }
  }

  lemma {:induction false} MembersInOrder(o: Object, held: nat, x: Object, d: nat, p: nat, q: nat, y: nat, z: nat)
    requires UniqueNames(o) && Within(x, o, d) && p < q < |x.members|
    requires y in Names(x.members[p]) && z in Names(x.members[q])
    ensures Before(Reports(o, held), y, z)
    decreases o
  {
    NamesOf(x.members, |x.members|, p);
    NamesOf(x.members, |x.members|, q);
    if d == 1 {
      SiblingOrder(o.members, |o.members|, p, q, held + 1, y, z);
      BeforeAppend(AllReports(o.members, |o.members|, held + 1), [Report(o.name, o.file, o.line, held + 1)], y, z);
    } else {
      var k :| 0 <= k < |o.members| && Within(x, o.members[k], d - 1);
      UniqueOf(o.members, |o.members|, k);
      MembersInOrder(o.members[k], held + 1, x, d - 1, p, q, y, z);
      WithinNames(x, o.members[k], d - 1);
      TreeOrder(o, held, k, y, z);
    }
  }

  /** Every report with that name is r. */
  predicate Shows(rs: seq<Report>, r: Report) {
    forall i :: 0 <= i < |rs| && rs[i].name == r.name ==> rs[i] == r
  }

  lemma {:induction false} MemberShows(os: seq<Object>, n: nat, k: nat, held: nat, r: Report)
    requires k < n <= |os| && AllUnique(os, n) && r.name in Names(os[k]) && Shows(Reports(os[k], held), r)
    ensures Shows(AllReports(os, n, held), r)
    decreases n
  {
    if k == n - 1 {
      AllReportsNames(os, n - 1, held, r.name);
    } else {
      MemberShows(os, n - 1, k, held, r);
      NamesOf(os, n - 1, k);
      ReportsNames(os[n - 1], held, r.name);
    }
  }

  lemma {:induction false} ReportShows(o: Object, held: nat, x: Object, d: nat)
    requires UniqueNames(o) && Within(x, o, d)
    ensures Shows(Reports(o, held), Report(x.name, x.file, x.line, held + d))
    decreases o
  {
    if d == 1 {
      AllReportsNames(o.members, |o.members|, held + 1, o.name);
    } else {
      var k :| 0 <= k < |o.members| && Within(x, o.members[k], d - 1);
      UniqueOf(o.members, |o.members|, k);
      ReportShows(o.members[k], held + 1, x, d - 1);
      WithinNames(x, o.members[k], d - 1);
      NamesOf(o.members, |o.members|, k);
      MemberShows(o.members, |o.members|, k, held + 1, Report(x.name, x.file, x.line, held + d));
    }
  }

  /** The reports are those of a delete of the whole tree, in the right order. */
  lemma ReportsInOrder(o: Object, held: nat)
    ensures DeletesTree(Reports(o, held), o, held)
  {
    var rs := Reports(o, held);
    EachOnce(o, held);
    if UniqueNames(o) {
      forall x, d, y | Within(x, o, d) && y in AllNames(x.members, |x.members|) ensures Before(rs, y, x.name) {
        MembersAreFirst(o, held, x, d, y);
      }
      forall x, d, p, q, y, z |
        Within(x, o, d) && 0 <= p < q < |x.members| && y in Names(x.members[p]) && z in Names(x.members[q])
        ensures Before(rs, y, z)
      {
        MembersInOrder(o, held, x, d, p, q, y, z);
      }
      forall x, d, i | Within(x, o, d) && 0 <= i < |rs| && rs[i].name == x.name
        ensures rs[i] == Report(x.name, x.file, x.line, held + d)
      {
        ReportShows(o, held, x, d);
      }
    }
  }

  lemma NewReports(before: seq<Report>, log: seq<Report>, o: Object, held: nat)
    requires log == before + Reports(o, held)
    ensures DeletesTree(log[|before|..], o, held)
  {
    ReportsInOrder(o, held);
    assert log[|before|..] == Reports(o, held);
  }
}
