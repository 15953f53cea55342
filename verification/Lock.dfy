/**
 The recursive lock of sem_inc.c (pthread mutex variant): a re-entrant lock built
 from a non-recursive mutex and an unsynchronised read of its owner. Any number of
 threads interleave freely between the single reads and writes of `lock`, `unlock`,
 `DUMA_get_sem` and `DUMA_rel_sem`; `++` and `--` are a read and a later write.
 */
module Lock {
  import opened Wrappers

  /** Where a thread is: the step it takes next. */
  datatype Pc =
    | Rest                     // outside the functions
    | TryLock                  // pthread_mutex_trylock(&mutex)
    | CompareId                // mutextid == pthread_self()
    | LoadNr                   // ++locknr
    | StoreNr(nr: int)
    | WaitLock                 // pthread_mutex_lock(&mutex)
    | SetId                    // mutextid = pthread_self()
    | SetNr                    // locknr = 1
    | LoadDepth                // ++semDepth
    | StoreDepth(depth: int)
    | TestDepth                // if (semDepth <= 0) DUMA_Abort
    | LoadDepthDown            // --semDepth
    | StoreDepthDown(depth: int)
    | LoadNrDown               // --locknr
    | StoreNrDown(nr: int)
    | TestNr                   // if (!locknr)
    | ClearId                  // mutextid = 0
    | Unlock                   // pthread_mutex_unlock(&mutex)
    | Stopped                  // DUMA_Abort("Semaphore isn't locked")

  /** `depth` is how many gets the thread has completed and not yet released. */
  datatype Thread = Thread(pc: Pc, depth: nat)

  /** Thread i has the thread id i + 1; the id 0 is nobody's. */
  datatype State = State(
    threads: seq<Thread>,
    mutex: Option<nat>,        // the index of the thread that holds the mutex
    mutextid: nat,
    locknr: int,
    semDepth: int)

  function Id(i: nat): nat {
    i + 1
  }

  function Init(n: nat): State {
    State(seq(n, i => Thread(Rest, 0)), None, 0, 0, 0)
  }

  /** Threads call get when they like, and release only what they got. */
  datatype Action = Get(i: nat) | Release(i: nat) | Advance(i: nat)

  function Goto(s: State, i: nat, pc: Pc): State
    requires i < |s.threads|
  {
    s.(threads := s.threads[i := s.threads[i].(pc := pc)])
  }

  function Finish(s: State, i: nat, depth: int): State
    requires i < |s.threads|
  {
    s.(threads := s.threads[i := Thread(Rest, if depth < 0 then 0 else depth)])
  }

  /** One step of thread i inside the functions; None if it has to wait. */
  function Advanced(s: State, i: nat): Option<State>
    requires i < |s.threads|
  {
    var me := s.threads[i];
    match me.pc
    case Rest => None
    case TryLock => Some(if s.mutex.None? then Goto(s, i, SetId).(mutex := Some(i)) else Goto(s, i, CompareId))
    case CompareId => Some(Goto(s, i, if s.mutextid == Id(i) then LoadNr else WaitLock))
    case LoadNr => Some(Goto(s, i, StoreNr(s.locknr + 1)))
    case StoreNr(nr) => Some(Goto(s, i, LoadDepth).(locknr := nr))
    case WaitLock => if s.mutex.None? then Some(Goto(s, i, SetId).(mutex := Some(i))) else None
    case SetId => Some(Goto(s, i, SetNr).(mutextid := Id(i)))
    case SetNr => Some(Goto(s, i, LoadDepth).(locknr := 1))
    case LoadDepth => Some(Goto(s, i, StoreDepth(s.semDepth + 1)))
    case StoreDepth(d) => Some(Finish(s, i, me.depth + 1).(semDepth := d))
    case TestDepth => Some(Goto(s, i, if s.semDepth <= 0 then Stopped else LoadDepthDown))
    case LoadDepthDown => Some(Goto(s, i, StoreDepthDown(s.semDepth - 1)))
    case StoreDepthDown(d) => Some(Goto(s, i, LoadNrDown).(semDepth := d))
    case LoadNrDown => Some(Goto(s, i, StoreNrDown(s.locknr - 1)))
    case StoreNrDown(nr) => Some(Goto(s, i, TestNr).(locknr := nr))
    case TestNr => Some(if s.locknr == 0 then Goto(s, i, ClearId) else Finish(s, i, me.depth - 1))
    case ClearId => Some(Goto(s, i, Unlock).(mutextid := 0))
    case Unlock => Some(Finish(s, i, me.depth - 1).(mutex := None))
    case Stopped => None
  }

  /** The successor state, if the action is possible. */
  function Step(s: State, a: Action): Option<State> {
    if a.i >= |s.threads| then None
    else
      match a
      case Get(i) => if s.threads[i].pc.Rest? then Some(Goto(s, i, TryLock)) else None
      case Release(i) => if s.threads[i].pc.Rest? && s.threads[i].depth > 0 then Some(Goto(s, i, TestDepth)) else None
      case Advance(i) => Advanced(s, i)
  }

  /** A run; None if some action was not possible when its turn came. */
  function Run(s: State, actions: seq<Action>): Option<State>
    decreases |actions|
  {
    if actions == [] then Some(s)
    else
      var r := Step(s, actions[0]);
      if r.None? then None else Run(r.value, actions[1..])
  }

  // ---- the invariant ----

  /** What the globals are while their holder, at depth d, is about to do pc. */
  predicate HolderOk(s: State, i: nat, pc: Pc, d: nat) {
    match pc
    case Rest => d > 0 && s.mutextid == Id(i) && s.locknr == s.semDepth == d
    case TryLock => d > 0 && s.mutextid == Id(i) && s.locknr == s.semDepth == d
    case CompareId => d > 0 && s.mutextid == Id(i) && s.locknr == s.semDepth == d
    case LoadNr => d > 0 && s.mutextid == Id(i) && s.locknr == s.semDepth == d
    case StoreNr(nr) => d > 0 && s.mutextid == Id(i) && s.locknr == s.semDepth == d && nr == d + 1
    case SetId => d == 0 && s.mutextid == 0 && s.locknr == s.semDepth == 0
    case SetNr => d == 0 && s.mutextid == Id(i) && s.locknr == s.semDepth == 0
    case LoadDepth => s.mutextid == Id(i) && s.locknr == d + 1 && s.semDepth == d
    case StoreDepth(v) => s.mutextid == Id(i) && s.locknr == d + 1 && s.semDepth == d && v == d + 1
    case TestDepth => d > 0 && s.mutextid == Id(i) && s.locknr == s.semDepth == d
    case LoadDepthDown => d > 0 && s.mutextid == Id(i) && s.locknr == s.semDepth == d
    case StoreDepthDown(v) => d > 0 && s.mutextid == Id(i) && s.locknr == s.semDepth == d && v == d - 1
    case LoadNrDown => d > 0 && s.mutextid == Id(i) && s.locknr == d && s.semDepth == d - 1
    case StoreNrDown(nr) => d > 0 && s.mutextid == Id(i) && s.locknr == d && s.semDepth == d - 1 && nr == d - 1
    case TestNr => d > 0 && s.mutextid == Id(i) && s.locknr == s.semDepth == d - 1
    case ClearId => d == 1 && s.mutextid == Id(i) && s.locknr == s.semDepth == 0
    case Unlock => d == 1 && s.mutextid == 0 && s.locknr == s.semDepth == 0
    case WaitLock => false
    case Stopped => false
  }

  /** A thread without the mutex is outside, or on its way to asking for it. */
  predicate OutsiderOk(s: State, i: nat, pc: Pc, d: nat) {
    d == 0 && s.mutextid != Id(i) && (pc.Rest? || pc.TryLock? || pc.CompareId? || pc.WaitLock?)
  }

  predicate ThreadOk(s: State, i: nat)
    requires i < |s.threads|
  {
    var t := s.threads[i];
    if s.mutex == Some(i) then HolderOk(s, i, t.pc, t.depth) else OutsiderOk(s, i, t.pc, t.depth)
  }

  ghost predicate Inv(s: State) {
    && (forall i :: 0 <= i < |s.threads| ==> ThreadOk(s, i))
    && match s.mutex
       case None => s.mutextid == 0 && s.locknr == s.semDepth == 0
       case Some(h) => h < |s.threads|
  }

  lemma InitInv(n: nat)
    ensures Inv(Init(n))
  {}

  lemma AdvanceKeeps(s: State, i: nat)
    requires Inv(s) && i < |s.threads| && Advanced(s, i).Some?
    ensures Inv(Advanced(s, i).value)
  {
    var s' := Advanced(s, i).value;
    assert ThreadOk(s, i);
    AdvanceMutex(s, s', i);
    forall j | 0 <= j < |s'.threads| ensures ThreadOk(s', j) {
      assert ThreadOk(s, j);
      if j != i { AdvanceOther(s, s', i, j); }
    }
  }

  lemma AdvanceMutex(s: State, s': State, i: nat)
    requires Inv(s) && i < |s.threads| && ThreadOk(s, i) && Advanced(s, i) == Some(s')
    ensures |s'.threads| == |s.threads| && ThreadOk(s', i)
    ensures match s'.mutex
            case None => s'.mutextid == 0 && s'.locknr == s'.semDepth == 0
            case Some(h) => h < |s'.threads|
  {}

  lemma AdvanceOther(s: State, s': State, i: nat, j: nat)
    requires i < |s.threads| && j < |s.threads| && i != j && ThreadOk(s, i) && ThreadOk(s, j)
    requires Advanced(s, i) == Some(s')
    ensures ThreadOk(s', j)
  {}

  lemma StepKeeps(s: State, a: Action)
    requires Inv(s) && Step(s, a).Some?
    ensures Inv(Step(s, a).value) && |Step(s, a).value.threads| == |s.threads|
  {
    var s' := Step(s, a).value;
    assert ThreadOk(s, a.i);
    if a.Advance? {
      AdvanceKeeps(s, a.i);
    } else {
      forall j | 0 <= j < |s'.threads| ensures ThreadOk(s', j) {
        assert ThreadOk(s, j);
      }
    }
  }

  /** Every interleaving of any number of threads keeps the invariant. */
  lemma {:induction false} RunKeeps(s: State, actions: seq<Action>)
    requires Inv(s) && Run(s, actions).Some?
    ensures Inv(Run(s, actions).value) && |Run(s, actions).value.threads| == |s.threads|
    decreases |actions|
  {
    if actions != [] {
      StepKeeps(s, actions[0]);
      RunKeeps(Step(s, actions[0]).value, actions[1..]);
    }
  }

  // ---- what it means ----

  /** The thread has completed a get it has not completely released. */
  predicate Inside(s: State, i: nat) {
    i < |s.threads| && s.threads[i].depth > 0
  }

  /** In every reachable state: at most one thread is inside, and it holds the mutex;
      at rest a thread holds the mutex exactly while its depth is positive, and then
      both counters equal that depth; nobody ever runs into the abort. */
  lemma LockTheorem(n: nat, actions: seq<Action>)
    requires Run(Init(n), actions).Some?
    ensures
      var s := Run(Init(n), actions).value;
      && (forall i: nat, j: nat :: Inside(s, i) && Inside(s, j) ==> i == j)
      && (forall i: nat :: Inside(s, i) ==> s.mutex == Some(i))
      && (forall i :: 0 <= i < |s.threads| && s.threads[i].pc.Rest? ==> (s.mutex == Some(i) <==> s.threads[i].depth > 0))
      && (forall i: nat :: Inside(s, i) && s.threads[i].pc.Rest? ==> s.locknr == s.semDepth == s.threads[i].depth)
      && (forall i :: 0 <= i < |s.threads| ==> !s.threads[i].pc.Stopped?)
  {
    InitInv(n);
    RunKeeps(Init(n), actions);
    var s := Run(Init(n), actions).value;
    forall i | 0 <= i < |s.threads|
      ensures s.threads[i].depth > 0 ==> s.mutex == Some(i)
      ensures s.threads[i].pc.Rest? ==> (s.mutex == Some(i) <==> s.threads[i].depth > 0)
      ensures s.threads[i].depth > 0 && s.threads[i].pc.Rest? ==> s.locknr == s.semDepth == s.threads[i].depth
      ensures !s.threads[i].pc.Stopped?
    {
      assert ThreadOk(s, i);
    }
  }

  /** The unsynchronised read of `mutextid` never lies: after a failed trylock it shows
      a thread its own id exactly when that thread holds the mutex. So the owner never
      waits for itself. */
  lemma OwnerRead(s: State, i: nat)
    requires Inv(s) && i < |s.threads|
    ensures s.threads[i].pc.CompareId? ==> (s.mutextid == Id(i) <==> s.mutex == Some(i))
    ensures s.threads[i].pc.WaitLock? ==> s.mutex != Some(i)
  {
    assert ThreadOk(s, i);
  }

  predicate CanMove(s: State, i: nat) {
    i < |s.threads| && (Step(s, Advance(i)).Some? || Step(s, Release(i)).Some?)
  }

  /** No deadlock: a thread inside a function that cannot go on waits for the mutex, which
      another thread holds that can go on, or is at rest and can release. */
  lemma NoDeadlock(s: State, i: nat)
    requires Inv(s) && i < |s.threads| && !s.threads[i].pc.Rest? && Step(s, Advance(i)).None?
    ensures s.threads[i].pc.WaitLock?
    ensures s.mutex.Some? && s.mutex.value != i && CanMove(s, s.mutex.value)
  {
    assert ThreadOk(s, i);
    assert ThreadOk(s, s.mutex.value);
  }

  // ---- progress ----

  /** An upper bound on the own steps a thread still makes until its call returns. */
  function Work(pc: Pc): nat {
    match pc
    case Rest => 0
    case TryLock => 7
    case CompareId => 6
    case LoadNr => 4
    case StoreNr(nr) => 3
    case WaitLock => 5
    case SetId => 4
    case SetNr => 3
    case LoadDepth => 2
    case StoreDepth(d) => 1
    case TestDepth => 8
    case LoadDepthDown => 7
    case StoreDepthDown(d) => 6
    case LoadNrDown => 5
    case StoreNrDown(nr) => 4
    case TestNr => 3
    case ClearId => 2
    case Unlock => 1
    case Stopped => 0
  }

  predicate Getting(pc: Pc) {
    pc.TryLock? || pc.CompareId? || pc.LoadNr? || pc.StoreNr? || pc.WaitLock? || pc.SetId? || pc.SetNr?
    || pc.LoadDepth? || pc.StoreDepth?
  }

  /** Every own step of a call either returns, with the depth one higher after a get and
      one lower after a release, or stays in that call with less work left. Nobody
      else's steps move the thread. */
  lemma StepWorks(s: State, a: Action, i: nat)
    requires Inv(s) && i < |s.threads| && !s.threads[i].pc.Rest? && Step(s, a).Some?
    ensures
      var s' := Step(s, a).value;
      && |s'.threads| == |s.threads|
      && (a != Advance(i) ==> s'.threads[i] == s.threads[i])
      && (a == Advance(i) && s'.threads[i].pc.Rest? ==>
            s'.threads[i].depth == s.threads[i].depth + (if Getting(s.threads[i].pc) then 1 else -1))
      && (a == Advance(i) && !s'.threads[i].pc.Rest? ==>
            && s'.threads[i].depth == s.threads[i].depth
            && Getting(s'.threads[i].pc) == Getting(s.threads[i].pc)
            && Work(s'.threads[i].pc) < Work(s.threads[i].pc))
  {
    assert ThreadOk(s, i);
  }

  /** How many of the actions are steps of thread i. */
  function OwnSteps(actions: seq<Action>, i: nat): nat {
    if actions == [] then 0 else (if actions[0] == Advance(i) then 1 else 0) + OwnSteps(actions[1..], i)
  }

  /** No call takes more own steps than that, whatever the other threads do: in a run in
      which thread i makes as many steps as its call has work left, the call returns. */
  lemma {:induction false} CallReturns(s: State, actions: seq<Action>, i: nat) returns (m: nat)
    requires Inv(s) && i < |s.threads| && !s.threads[i].pc.Rest? && Run(s, actions).Some?
    requires OwnSteps(actions, i) >= Work(s.threads[i].pc)
    ensures m <= |actions| && Run(s, actions[..m]).Some?
    ensures
      var s' := Run(s, actions[..m]).value;
      && i < |s'.threads| && s'.threads[i].pc.Rest?
      && s'.threads[i].depth == s.threads[i].depth + (if Getting(s.threads[i].pc) then 1 else -1)
    decreases |actions|
  {
    assert ThreadOk(s, i);
    var s1 := Step(s, actions[0]).value;
    StepKeeps(s, actions[0]);
    StepWorks(s, actions[0], i);
    if actions[0] == Advance(i) && s1.threads[i].pc.Rest? {
      m := 1;
      assert actions[..1][1..] == [];
    } else {
      m := CallReturns(s1, actions[1..], i);
      m := m + 1;
      assert actions[..m][1..] == actions[1..][..m - 1];
    }
  }

  /** n steps of thread i. */
  function Alone(i: nat, n: nat): seq<Action> {
    seq(n, _ => Advance(i))
  }

  /** The thread is at rest, inside to depth d (outside if 0), and the globals say so. */
  predicate AtDepth(s: State, i: nat, d: nat) {
    && i < |s.threads| && s.threads[i] == Thread(Rest, d)
    && s.mutex == (if d > 0 then Some(i) else None)
    && s.mutextid == (if d > 0 then Id(i) else 0)
    && s.locknr == s.semDepth == d
  }

  /** The other threads have not moved. */
  predicate OthersSame(s: State, s': State, i: nat) {
    |s'.threads| == |s.threads| && forall j :: 0 <= j < |s.threads| && j != i ==> s'.threads[j] == s.threads[j]
  }

  /** A call does not wait while the mutex is free or the thread's own: thread i alone
      brings it to its end. */
  lemma {:induction false} RunsAlone(s: State, i: nat) returns (n: nat)
    requires Inv(s) && i < |s.threads| && !s.threads[i].pc.Rest? && (s.mutex == None || s.mutex == Some(i))
    ensures n <= Work(s.threads[i].pc) && Run(s, Alone(i, n)).Some?
    ensures
      var s', d := Run(s, Alone(i, n)).value, s.threads[i].depth + (if Getting(s.threads[i].pc) then 1 else -1);
      d >= 0 && AtDepth(s', i, d) && OthersSame(s, s', i)
    decreases Work(s.threads[i].pc)
  {
    assert ThreadOk(s, i);
    var s1 := Step(s, Advance(i)).value;
    StepKeeps(s, Advance(i));
    StepWorks(s, Advance(i), i);
    if s1.threads[i].pc.Rest? {
      n := 1;
      assert ThreadOk(s1, i);
      assert Alone(i, 1)[1..] == [];
    } else {
      n := RunsAlone(s1, i);
      n := n + 1;
      assert Alone(i, n)[1..] == Alone(i, n - 1);
    }
  }

  /** A get by a thread at rest, when the mutex is free or its own, returns after at most
      seven steps of its own, one level deeper: the second, third, ... get of the owner
      included. */
  lemma GetReturns(s: State, i: nat, d: nat) returns (n: nat)
    requires Inv(s) && i < |s.threads| && s.threads[i] == Thread(Rest, d) && (s.mutex == None || s.mutex == Some(i))
    ensures n <= 7 && Run(s, [Get(i)] + Alone(i, n)).Some?
    ensures AtDepth(Run(s, [Get(i)] + Alone(i, n)).value, i, d + 1)
    ensures OthersSame(s, Run(s, [Get(i)] + Alone(i, n)).value, i)
  {
    var s1 := Step(s, Get(i)).value;
    StepKeeps(s, Get(i));
    n := RunsAlone(s1, i);
    assert ([Get(i)] + Alone(i, n))[1..] == Alone(i, n);
  }

  /** A release by a thread inside returns after at most eight steps of its own, one
      level less deep; from depth 1 it leaves the mutex free. */
  lemma ReleaseReturns(s: State, i: nat, d: nat) returns (n: nat)
    requires Inv(s) && i < |s.threads| && s.threads[i] == Thread(Rest, d) && d > 0
    ensures n <= 8 && Run(s, [Release(i)] + Alone(i, n)).Some?
    ensures AtDepth(Run(s, [Release(i)] + Alone(i, n)).value, i, d - 1)
    ensures OthersSame(s, Run(s, [Release(i)] + Alone(i, n)).value, i)
  {
    assert ThreadOk(s, i);
    var s1 := Step(s, Release(i)).value;
    StepKeeps(s, Release(i));
    n := RunsAlone(s1, i);
    assert ([Release(i)] + Alone(i, n))[1..] == Alone(i, n);
  }

  // ---- refinement of an abstract re-entrant lock ----

  datatype Reentrant = Free | Held(owner: nat, depth: nat)

  function Abstract(s: State): Reentrant {
    match s.mutex
    case None => Free
    case Some(h) =>
      if h < |s.threads| && s.threads[h].depth > 0 then Held(h, s.threads[h].depth) else Free
  }

  /** What other threads can tell of a run: gets and releases that returned. */
  datatype Event = Entered(i: nat) | Left(i: nat)

  /** A re-entrant lock: None if it does not allow the event. */
  function Allowed(l: Reentrant, e: Event): Option<Reentrant> {
    match e
    case Entered(i) =>
      if l.Free? then Some(Held(i, 1))
      else if l.owner == i then Some(Held(i, l.depth + 1))
      else None
    case Left(i) =>
      if l.Free? || l.owner != i then None
      else if l.depth <= 1 then Some(Free)
      else Some(Held(i, l.depth - 1))
  }

  function Replay(l: Reentrant, events: seq<Event>): Option<Reentrant>
    decreases |events|
  {
    if events == [] then Some(l)
    else
      var r := Allowed(l, events[0]);
      if r.None? then None else Replay(r.value, events[1..])
  }

  /** The get or release that returns with this step. */
  function EventOf(s: State, a: Action): seq<Event> {
    var r := Step(s, a);
    if r.None? || a.i >= |s.threads| || s.threads[a.i].pc.Rest? || !r.value.threads[a.i].pc.Rest? then []
    else if Getting(s.threads[a.i].pc) then [Entered(a.i)]
    else [Left(a.i)]
  }

  function Events(s: State, actions: seq<Action>): seq<Event>
    decreases |actions|
  {
    if actions == [] then []
    else
      var r := Step(s, actions[0]);
      if r.None? then [] else EventOf(s, actions[0]) + Events(r.value, actions[1..])
  }

  /** A step that returns from a get or a release does to an abstract re-entrant lock
      just that; every other step is invisible to it. */
  lemma StepRefines(s: State, a: Action)
    requires Inv(s) && Step(s, a).Some?
    ensures Replay(Abstract(s), EventOf(s, a)) == Some(Abstract(Step(s, a).value))
  {
    assert ThreadOk(s, a.i);
    if s.mutex.Some? { assert ThreadOk(s, s.mutex.value); }
  }

  lemma {:induction false} ReplayAppend(l: Reentrant, xs: seq<Event>, ys: seq<Event>)
    requires Replay(l, xs).Some?
    ensures Replay(l, xs + ys) == Replay(Replay(l, xs).value, ys)
    decreases |xs|
  {
    if xs == [] {
      assert xs + ys == ys;
    } else {
      assert (xs + ys)[1..] == xs[1..] + ys;
      ReplayAppend(Allowed(l, xs[0]).value, xs[1..], ys);
    }
  }

  /** Refinement: in every interleaving, the gets and releases that returned are, in
      that order, a history of one re-entrant lock, which ends in the same state. */
  lemma {:induction false} RunRefines(s: State, actions: seq<Action>)
    requires Inv(s) && Run(s, actions).Some?
    ensures Replay(Abstract(s), Events(s, actions)) == Some(Abstract(Run(s, actions).value))
    decreases |actions|
  {
    if actions != [] {
      var s1 := Step(s, actions[0]).value;
      StepKeeps(s, actions[0]);
      StepRefines(s, actions[0]);
      RunRefines(s1, actions[1..]);
      ReplayAppend(Abstract(s), EventOf(s, actions[0]), Events(s1, actions[1..]));
    }
  }
}
