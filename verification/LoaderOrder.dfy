/** The order in which the module manager does what it does: waiters complete one at a
    time, with everything they release; scripts are requested in the order of the
    dependency list; a load error is spread breadth first. */
module LoaderOrder {
  import opened Graph
  import opened Options
  import opened Orders
  import opened LoaderState
  import opened LoaderSteps
  import opened LoaderTheorems

  // ---------- completing ----------

  /** x waits for one thing only, and only once. */
  ghost predicate OneAway(s: State, x: Id) {
    Incomplete(s, x) && s.mods[x].count == 1
  }

  /** From a module to those that wait for it and for nothing else. */
  ghost function ReleaseGraph(s: State): Digraph {
    map d | d in s.inverse :: set y | y in WaitersOf(s.inverse, d) && OneAway(s, y)
  }

  /** z is x, or z can run as soon as x has. */
  ghost predicate Released(s: State, x: Id, z: Id) {
    z == x || HasPath(ReleaseGraph(s), x, z)
  }

  /** x waits for m and nothing else, and all its entries in m's inverse list are among the
      first b. */
  ghost predicate PaidOff(s: State, m: Id, b: nat, x: Id)
    requires b <= |WaitersOf(s.inverse, m)|
  {
    var due := WaitersOf(s.inverse, m)[..b];
    x in due && Incomplete(s, x) && s.mods[x].count == multiset(due)[x]
  }

  /** Whoever is paid off by the first b waiters of m runs before the waiter at b, together
      with everything it releases. */
  ghost predicate InTurn(s: State, u: State, m: Id, b: nat)
    requires b < |WaitersOf(s.inverse, m)|
  {
    forall x, z :: PaidOff(s, m, b, x) && Released(s, x, z) ==> Before(u.runs, z, WaitersOf(s.inverse, m)[b])
  }

  /** Waiters complete in the order of the inverse list, one at a time: before a waiter
      runs, those paid off by its predecessors have run, and all they release. */
  ghost predicate DepthFirst(s: State, u: State, m: Id) {
    forall b :: 0 <= b < |WaitersOf(s.inverse, m)| && WaitersOf(s.inverse, m)[b] in u.runs ==> InTurn(s, u, m, b)
  }

  ghost predicate InTurnSoFar(s: State, t: State, m: Id, n: nat)
    requires n <= |WaitersOf(s.inverse, m)|
  {
    forall b :: 0 <= b <= n && b < |WaitersOf(s.inverse, m)| ==> InTurn(s, t, m, b)
  }

  lemma TurnsStart(s: State, t: State, m: Id)
    ensures InTurnSoFar(s, t, m, 0)
  {
  }

  lemma InTurnLater(s: State, t: State, u: State, m: Id, b: nat)
    requires b < |WaitersOf(s.inverse, m)| && InTurn(s, t, m, b) && t.runs <= u.runs
    ensures InTurn(s, u, m, b)
  {
    hide PaidOff, Released, Before;
    var y := WaitersOf(s.inverse, m)[b];
    forall x, z | PaidOff(s, m, b, x) && Released(s, x, z)
      ensures Before(u.runs, z, y)
    {
      BeforeLater(t.runs, u.runs, z, y);
    }
  }

  /** A module that d's completion leaves with nothing to wait for has run by the time no
      frame has it left to count down. */
  lemma PaidOffRan(s: State, t: State, todo: multiset<Id>, left: multiset<Id>, d: Id, x: Id,
                   throwing: set<Id>, catchError: bool)
    requires RecordsOk(s) && CountersOk(s, todo) && Inv(t, left, None) && AllWaiting(t, None)
    requires Cascade(s, t, throwing, catchError) && t.aborted == s.aborted
    requires d in t.runs && d !in s.runs && left[x] == 0
    requires Incomplete(s, x) && s.mods[x].count <= multiset(WaitersOf(s.inverse, d))[x]
    ensures x in t.runs
  {
    hide AllWaiters, Acyclic, SettledOk, CutsOk, OrderOk, Heard, CascadeMod;
    AllWaitersTake(s.inverse, d);
    AllWaitersMember(s.inverse - {d}, x);
    AllWaitersMember(t.inverse, x);
    forall e
      ensures x !in WaitersOf(t.inverse, e)
    {
      assert x in WaitersOf(t.inverse, e) ==> WaiterOk(t, x, e);
      assert e != d && x in WaitersOf(s.inverse, e) ==> x in WaitersOf(s.inverse - {d}, e);
    }
    assert AllWaiters(t.inverse)[x] == 0 && t.lost[x] == 0;
  }

  /** The modules that ran between s and t. */
  ghost function RanBetween(s: State, t: State): set<Id> {
    set x | x in t.runs && x !in s.runs
  }

  /** Whoever waits for m and is one count away waits for nobody else and is not due in any
      active frame. */
  lemma OnlyWaitsFor(s: State, todo: multiset<Id>, m: Id, d: Id, y: Id)
    requires CountersOk(s, todo) && OneAway(s, y) && y in WaitersOf(s.inverse, d)
    ensures todo[y] == 0 && (d != m ==> y !in WaitersOf(s.inverse, m))
  {
    AllWaitersTake(s.inverse, d);
    AllWaitersMember(s.inverse - {d}, y);
    assert d != m ==> WaitersOf(s.inverse - {d}, m) == WaitersOf(s.inverse, m);
  }

  /** What a module releases has run whenever the frame of m has nothing else under way. */
  lemma ReleasedRan(s: State, t: State, todo: multiset<Id>, m: Id, b: nat, x: Id, z: Id,
                    throwing: set<Id>, catchError: bool)
    requires RecordsOk(s) && CountersOk(s, todo) && b <= |WaitersOf(s.inverse, m)|
    requires Inv(t, todo + multiset(WaitersOf(s.inverse, m)[b..]), None) && AllWaiting(t, None)
    requires Cascade(s, t, throwing, catchError) && t.aborted == s.aborted
    requires Incomplete(s, m) && s.mods[m].count == 0
    requires x in RanBetween(s, t) && x != m && Released(s, x, z)
    ensures z in t.runs
  {
    hide Inv, AllWaiting, Cascade, RecordsOk, CountersOk, HasPath;
    var left := todo + multiset(WaitersOf(s.inverse, m)[b..]);
    var closed := RanBetween(s, t) - {m};
    forall d, y | d in closed && Edge(ReleaseGraph(s), d, y)
      ensures y in closed
    {
      OnlyWaitsFor(s, todo, m, d, y);
      assert y !in WaitersOf(s.inverse, m)[b..];
      PaidOffRan(s, t, todo, left, d, y, throwing, catchError);
      NotRunYet(s, y);
    }
    if z != x {
      ReachStaysInside(ReleaseGraph(s), closed, x, z);
    }
  }

  /** A waiter whose entries are all counted down is not due in any active frame. */
  lemma PaidOffOnly(s: State, todo: multiset<Id>, m: Id, b: nat, x: Id)
    requires CountersOk(s, todo) && b <= |WaitersOf(s.inverse, m)| && PaidOff(s, m, b, x)
    ensures (todo + multiset(WaitersOf(s.inverse, m)[b..]))[x] == 0
    ensures s.mods[x].count <= multiset(WaitersOf(s.inverse, m))[x]
  {
    var w := WaitersOf(s.inverse, m);
    AllWaitersTake(s.inverse, m);
    assert w == w[..b] + w[b..];
  }

  /** At turn b of the frame of m, everyone paid off has run and the waiter at b has not. */
  lemma NextTurn(s: State, t: State, todo: multiset<Id>, m: Id, b: nat, throwing: set<Id>, catchError: bool)
    requires RecordsOk(s) && CountersOk(s, todo) && b < |WaitersOf(s.inverse, m)|
    requires Inv(t, todo + multiset(WaitersOf(s.inverse, m)[b..]), None) && AllWaiting(t, None)
    requires Cascade(s, t, throwing, catchError) && t.aborted == s.aborted
    requires Incomplete(s, m) && s.mods[m].count == 0 && m in t.runs
    ensures InTurn(s, t, m, b)
  {
    hide Inv, AllWaiting, Cascade, RecordsOk, CountersOk, HasPath, Released;
    var y := WaitersOf(s.inverse, m)[b];
    var left := todo + multiset(WaitersOf(s.inverse, m)[b..]);
    DueNotRun(t, left, y);
    NotRunYet(s, m);
    forall x, z | PaidOff(s, m, b, x) && Released(s, x, z)
      ensures Before(t.runs, z, y)
    {
      PaidOffOnly(s, todo, m, b, x);
      PaidOffRan(s, t, todo, left, m, x, throwing, catchError);
      NotRunYet(s, x);
      ReleasedRan(s, t, todo, m, b, x, z, throwing, catchError);
      BeforeNew(t.runs, t.runs, z, y);
    }
  }

  lemma DueNotRun(t: State, left: multiset<Id>, y: Id)
    requires Inv(t, left, None) && y in left
    ensures y !in t.runs
  {
    assert Pending(t, y);
  }

  /** One more turn. */
  lemma TurnTaken(s: State, t: State, u: State, todo: multiset<Id>, m: Id, i: nat, throwing: set<Id>, catchError: bool)
    requires i < |WaitersOf(s.inverse, m)| && InTurnSoFar(s, t, m, i) && t.runs <= u.runs
    requires RecordsOk(s) && CountersOk(s, todo)
    requires Inv(u, todo + multiset(WaitersOf(s.inverse, m)[i + 1..]), None) && AllWaiting(u, None)
    requires Cascade(s, u, throwing, catchError) && u.aborted == s.aborted
    requires Incomplete(s, m) && s.mods[m].count == 0 && m in u.runs
    ensures InTurnSoFar(s, u, m, i + 1)
  {
    hide InTurn, Inv, AllWaiting, Cascade, RecordsOk, CountersOk, Incomplete;
    forall b | 0 <= b <= i + 1 && b < |WaitersOf(s.inverse, m)|
      ensures InTurn(s, u, m, b)
    {
      if b <= i {
        InTurnLater(s, t, u, m, b);
      } else {
        NextTurn(s, u, todo, m, b, throwing, catchError);
      }
    }
  }

  /** A turn that ends in a throw: those still due are lost and have not run. */
  lemma TurnThrown(s: State, t: State, u: State, rest: multiset<Id>, m: Id, i: nat)
    requires i < |WaitersOf(s.inverse, m)| && InTurnSoFar(s, t, m, i) && t.runs <= u.runs
    requires Inv(u, multiset{}, None) && rest + multiset(WaitersOf(s.inverse, m)[i + 1..]) <= u.lost
    ensures DepthFirst(s, u, m)
  {
    hide InTurn;
    var w := WaitersOf(s.inverse, m);
    forall b | i < b < |w|
      ensures w[b] !in u.runs
    {
      assert w[b] == w[i + 1..][b - i - 1];
      assert w[b] in u.lost;
      assert Pending(u, w[b]);
    }
    forall b | 0 <= b <= i
      ensures InTurn(s, u, m, b)
    {
      InTurnLater(s, t, u, m, b);
    }
  }

  lemma TurnsDone(s: State, u: State, m: Id)
    requires InTurnSoFar(s, u, m, |WaitersOf(s.inverse, m)|)
    ensures DepthFirst(s, u, m)
  {
    hide InTurn;
  }

  /** The throw of m itself: none of its waiters run. */
  lemma ThrownAtOnce(s: State, todo: multiset<Id>, m: Id)
    requires m in s.mods && Inv(AbortModule(s, m, todo), multiset{}, None)
    ensures DepthFirst(s, AbortModule(s, m, todo), m)
  {
    var u := AbortModule(s, m, todo);
    hide InTurn;
    forall b | 0 <= b < |WaitersOf(s.inverse, m)|
      ensures WaitersOf(s.inverse, m)[b] !in u.runs
    {
      assert WaiterOk(u, WaitersOf(s.inverse, m)[b], m);
    }
  }

  // ---------- from one state to an earlier one that agrees ----------

  /** Resolving m up to the point where it waits for nothing changes nobody else's waits. */
  ghost predicate SameWaits(s: State, t: State, m: Id) {
    && (forall d :: WaitersOf(t.inverse, d) == WaitersOf(s.inverse, d))
    && (forall x :: x != m ==> (x in s.mods <==> x in t.mods) && (x in s.mods ==> t.mods[x] == s.mods[x]))
    && (forall d :: m !in WaitersOf(s.inverse, d))
  }

  lemma SameWaitsRelease(s: State, t: State, m: Id, x: Id, z: Id)
    requires SameWaits(s, t, m) && Released(s, x, z)
    ensures Released(t, x, z)
  {
    hide HasPath;
    if z != x {
      SubgraphPath(ReleaseGraph(s), ReleaseGraph(t), x, z) by {
        forall d, y | Edge(ReleaseGraph(s), d, y)
          ensures Edge(ReleaseGraph(t), d, y)
        {
          assert y in WaitersOf(t.inverse, d) && OneAway(t, y);
        }
      }
    }
  }

  lemma DepthFirstBefore(s: State, t: State, u: State, m: Id)
    requires SameWaits(s, t, m) && DepthFirst(t, u, m)
    ensures DepthFirst(s, u, m)
  {
    hide Released, Before, OneAway;
    var w := WaitersOf(s.inverse, m);
    assert WaitersOf(t.inverse, m) == w;
    forall b, x, z | 0 <= b < |w| && w[b] in u.runs && PaidOff(s, m, b, x) && Released(s, x, z)
      ensures Before(u.runs, z, w[b])
    {
      SameWaitsRelease(s, t, m, x, z);
      assert InTurn(t, u, m, b) && PaidOff(t, m, b, x);
    }
  }

  /** When nothing ran, nothing ran out of order. */
  lemma NothingRan(s: State, u: State, m: Id)
    requires WaitersOk(s) && u.runs == s.runs
    ensures DepthFirst(s, u, m)
  {
    hide InTurn;
    forall b | 0 <= b < |WaitersOf(s.inverse, m)|
      ensures WaitersOf(s.inverse, m)[b] !in u.runs
    {
      assert WaiterOk(s, WaitersOf(s.inverse, m)[b], m);
    }
  }

  /** A module that waits for nothing after its visits has joined no list. */
  lemma JoinedNothing(s: State, t: State, m: Id)
    requires Visiting(s, t, m) && CountersOk(t, multiset{}) && Incomplete(t, m) && t.mods[m].count == 0
    ensures SameWaits(s, t, m)
  {
    hide AllWaiters, Extends, OnlyRuns;
    AllWaitersMember(t.inverse, m);
    forall d
      ensures WaitersOf(t.inverse, d) == WaitersOf(s.inverse, d)
    {
      var was, now := WaitersOf(s.inverse, d), WaitersOf(t.inverse, d);
      assert JoinedBy(was, now, m);
      var more := now[|was|..];
      assert now == was + more;
      assert forall x :: x in more ==> x == m && x in now;
      assert multiset(more) == multiset{};
    }
  }

  /** Resolving m, which was registered but did not wait anywhere: if it completes, its
      waiters complete in turn. */
  lemma ResolvedInTurn(s: State, t: State, u: State, m: Id)
    requires Visiting(s, t, m) && WaitersOk(s) && CountersOk(t, multiset{}) && Incomplete(t, m)
    requires if t.mods[m].count == 0 then DepthFirst(t, u, m) else u.runs == t.runs
    ensures DepthFirst(s, u, m)
  {
    hide DepthFirst, AllWaiters, Extends, OnlyRuns;
    if t.mods[m].count == 0 {
      JoinedNothing(s, t, m);
      DepthFirstBefore(s, t, u, m);
    } else {
      NothingRan(s, u, m);
    }
  }

  /** The same, seen from before m was registered. */
  lemma RegisteredInTurn(s: State, u: State, m: Id, deps: seq<Dep>, errorback: bool)
    requires WaitersOk(s) && m !in s.mods && DepthFirst(Register(s, m, deps, errorback), u, m)
    ensures DepthFirst(s, u, m)
  {
    hide DepthFirst;
    assert forall d :: m in WaitersOf(s.inverse, d) ==> WaiterOk(s, m, d);
    DepthFirstBefore(s, Register(s, m, deps, errorback), u, m);
  }

  // ---------- requesting scripts ----------

  /** The ids are dependencies, and each appears in the list before the next one does. */
  ghost predicate ListedInOrder(ids: seq<Id>, deps: seq<Dep>) {
    && (forall p :: 0 <= p < |ids| ==> Regular(ids[p]) in deps)
    && (forall p, q :: 0 <= p < q < |ids| ==> Before(deps, Regular(ids[p]), Regular(ids[q])))
  }

  ghost predicate KnownOrDefined(s: State, d: Dep) {
    d.Regular? ==> d.target in s.known || d.target in s.mods
  }

  /** What the first k visits requested. */
  ghost predicate RequestedSoFar(s: State, t: State, deps: seq<Dep>, k: nat)
    requires k <= |deps|
  {
    && s.requests <= t.requests
    && (forall d :: d in deps[..k] ==> KnownOrDefined(t, d))
    && ListedInOrder(t.requests[|s.requests|..], deps)
    && (forall r :: r in t.requests[|s.requests|..] ==> Regular(r) in deps[..k] && !KnownOrDefined(s, Regular(r)))
  }

  lemma NothingRequested(s: State, deps: seq<Dep>)
    ensures RequestedSoFar(s, s, deps, 0)
  {
  }

  /** One visit: it requests the dependency if nobody knew it. */
  ghost predicate RequestedOne(s: State, t: State, d: Dep) {
    && s.known <= t.known && t.mods.Keys == s.mods.Keys
    && KnownOrDefined(t, d)
    && t.requests == s.requests + if KnownOrDefined(s, d) then [] else [DepId(d)]
  }

  lemma RequestedSkip(s: State, m: Id, d: Dep)
    requires m in s.mods && (d.Regular? ==> d.target in s.mods)
    ensures RequestedOne(s, CountDown(s, m), d)
  {
  }

  lemma RequestedCut(s: State, m: Id, d: Id)
    requires m in s.mods && HasPath(DepGraph(s), d, m)
    ensures RequestedOne(s, Cut(s, m, d), Regular(d))
  {
    var p :| WalkFromTo(DepGraph(s), p, d, m);
    assert Edge(DepGraph(s), p[0], p[1]);
  }

  lemma RequestedAwait(s: State, m: Id, d: Id)
    ensures RequestedOne(s, Await(s, m, d), Regular(d))
  {
  }

  lemma RequestedNext(s: State, t: State, u: State, deps: seq<Dep>, k: nat)
    requires k < |deps| && RequestedSoFar(s, t, deps, k) && RequestedOne(t, u, deps[k])
    requires s.known <= t.known && s.mods.Keys == t.mods.Keys
    ensures RequestedSoFar(s, u, deps, k + 1)
  {
    var d := deps[k];
    var was, now := t.requests[|s.requests|..], u.requests[|s.requests|..];
    assert deps[..k + 1] == deps[..k] + [d];
    if KnownOrDefined(t, d) {
      assert now == was;
    } else {
      assert now == was + [d.target];
      forall p | 0 <= p < |was|
        ensures Before(deps, Regular(was[p]), d)
      {
        BeforeNew(deps[..k], deps, Regular(was[p]), d);
      }
    }
  }

  lemma RequestedVisit(s: State, t: State, u: State, m: Id, deps: seq<Dep>, k: nat)
    requires k < |deps| && RequestedSoFar(s, t, deps, k) && RequestedOne(t, u, deps[k]) && Visiting(s, t, m)
    ensures RequestedSoFar(s, u, deps, k + 1)
  {
    hide Before, OnlyRuns, WaitsAppended, RequestedSoFar, RequestedOne;
    RequestedNext(s, t, u, deps, k);
  }

  /** All that resolving requested: the dependencies nobody knew, up to the first that had
      failed. */
  ghost predicate RequestedInOrder(s: State, u: State, deps: seq<Dep>) {
    exists k :: 0 <= k <= |deps| && RequestedSoFar(s, u, deps, k) && VisitsEnd(s, deps, k)
  }

  ghost predicate VisitsEnd(s: State, deps: seq<Dep>, k: nat) {
    if k < |deps| then FirstFailed(s, deps, k) else k == |deps| && !FailsToResolve(s, deps)
  }

  lemma RequestedThenRan(s: State, t: State, u: State, deps: seq<Dep>, throwing: set<Id>, catchError: bool)
    requires RequestedSoFar(s, t, deps, |deps|) && Cascade(t, u, throwing, catchError) && !FailsToResolve(s, deps)
    ensures RequestedInOrder(s, u, deps)
  {
    hide Before, FailsToResolve, Extends, OnlyRuns, Thrown, Heard;
    assert RequestedSoFar(s, u, deps, |deps|);
  }

  lemma RequestedThenFailed(s: State, t: State, m: Id, err: Failure, deps: seq<Dep>, k: nat)
    requires m in t.mods && k < |deps| && RequestedSoFar(s, t, deps, k) && FirstFailed(s, deps, k)
    ensures RequestedInOrder(s, FailModule(t, m, err), deps)
  {
    hide Before;
    assert RequestedSoFar(s, FailModule(t, m, err), deps, k);
  }

  lemma FirstFailedAt(s: State, deps: seq<Dep>, k: nat)
    requires k < |deps| && DepFailed(s, deps[k]) && forall j :: 0 <= j < k ==> !DepFailed(s, deps[j])
    ensures FirstFailed(s, deps, k)
  {
  }

  /** What that means for the manager's own lists. */
  lemma RequestsOf(s: State, u: State, m: Id, deps: seq<Dep>, errorback: bool)
    requires m !in s.mods && RequestedInOrder(Register(s, m, deps, errorback), u, deps)
    ensures s.requests <= u.requests && ListedInOrder(u.requests[|s.requests|..], deps)
    ensures forall r :: r in u.requests[|s.requests|..] ==> r !in s.known && r !in s.mods && r != m
    ensures !FailsToResolve(s, deps) ==>
      forall d :: d in deps && d.Regular? ==> d.target in u.known || d.target in u.mods
  {
    hide Before, FailsToResolve;
    var r := Register(s, m, deps, errorback);
    RegisteredFails(s, m, deps, errorback);
    var k :| 0 <= k <= |deps| && RequestedSoFar(r, u, deps, k) && VisitsEnd(r, deps, k);
    if k < |deps| {
      SomethingFailed(r, deps, k);
    } else {
      assert deps[..k] == deps;
      assert forall d :: d in deps ==> KnownOrDefined(u, d);
    }
  }

  /** The record of a module that was just defined, unless it ran. */
  lemma DefinedRecord(s: State, u: State, m: Id, deps: seq<Dep>, errorback: bool, throwing: set<Id>, catchError: bool)
    requires m !in s.mods && Defined(s, u, m, deps, errorback, throwing, catchError)
    ensures m in u.mods && (u.mods[m].deps.Some? ==> u.mods[m].deps == Some(deps) && u.mods[m].errorback == errorback)
    ensures Heard(s, u, throwing, catchError)
  {
    hide OnlyRuns, Thrown, Heard, Visiting, RequestsOnly, OthersWait;
    var r := Register(s, m, deps, errorback);
    if FailsToResolve(s, deps) {
      NothingHeard(s, u, throwing, catchError);
    } else {
      HeardSame(s, r, u, throwing, catchError);
    }
  }

  lemma HeardSame(s: State, r: State, u: State, throwing: set<Id>, catchError: bool)
    requires r.runs == s.runs && r.globalErrors == s.globalErrors && Heard(r, u, throwing, catchError)
    ensures Heard(s, u, throwing, catchError)
  {
  }

  lemma HeardMeans(s: State, u: State, throwing: set<Id>, catchError: bool)
    requires Heard(s, u, throwing, catchError)
    ensures s.runs <= u.runs
    ensures u.globalErrors == s.globalErrors + Caught(u.runs[|s.runs|..], throwing, catchError)
  {
  }

  lemma NothingNew(s: State, deps: seq<Dep>, throwing: set<Id>, catchError: bool)
    ensures ListedInOrder(s.requests[|s.requests|..], deps)
    ensures s.globalErrors == s.globalErrors + Caught(s.runs[|s.runs|..], throwing, catchError)
    ensures s.requests <= s.requests && s.runs <= s.runs && s.requests[|s.requests|..] == []
  {
    assert s.runs[|s.runs|..] == [];
  }

  /** A module that is still incomplete after it was resolved did not run. */
  lemma ResolvedOrWaiting(t: State, u: State, m: Id)
    requires RecordsOk(u) && (m in u.runs || u == t)
    ensures Incomplete(u, m) ==> u == t
  {
    assert m in u.runs ==> RecordOk(u, m);
  }

  // ---------- spreading a load error ----------

  /** The inverse lists of the given modules, one after the other. */
  function WaitersOfAll(inverse: map<Id, seq<Id>>, marked: seq<Id>): seq<Id> {
    if marked == [] then []
    else WaitersOfAll(inverse, marked[..|marked| - 1]) + WaitersOf(inverse, marked[|marked| - 1])
  }

  /** The modules are marked breadth first: the one that failed to load, then those that
      wait for the first one marked, then those that wait for the second, and so on, each
      inverse list from its beginning, and each module when it is first met. */
  ghost predicate BreadthFirst(inverse: map<Id, seq<Id>>, m: Id, marked: seq<Id>) {
    marked == Firsts([m] + WaitersOfAll(inverse, marked))
  }

  lemma {:induction false} WaitersOfAllMember(inverse: map<Id, seq<Id>>, marked: seq<Id>, y: Id)
    ensures y in WaitersOfAll(inverse, marked) <==> exists d :: d in marked && y in WaitersOf(inverse, d)
  {
    if marked != [] {
      WaitersOfAllMember(inverse, marked[..|marked| - 1], y);
      assert marked == marked[..|marked| - 1] + [marked[|marked| - 1]];
    }
  }

  lemma {:induction false} WaitersOfAllSplits(inverse: map<Id, seq<Id>>, marked: seq<Id>, p: nat)
    requires p < |marked|
    ensures WaitersOfAll(inverse, marked[..p]) + WaitersOf(inverse, marked[p]) <= WaitersOfAll(inverse, marked)
    decreases |marked|
  {
    var less := marked[..|marked| - 1];
    if p < |less| {
      assert less[..p] == marked[..p] && less[p] == marked[p];
      WaitersOfAllSplits(inverse, less, p);
    }
  }

  /** Whoever is first met behind x, in the inverse list of the same module or later, is
      marked after x. */
  lemma NearerFirst(inverse: map<Id, seq<Id>>, m: Id, marked: seq<Id>, p: nat, i: nat, y: Id)
    requires BreadthFirst(inverse, m, marked) && p < |marked| && i < |WaitersOf(inverse, marked[p])|
    requires y != m && y !in WaitersOf(inverse, marked[p])[..i + 1]
    requires forall d :: d in marked[..p] ==> y !in WaitersOf(inverse, d)
    ensures Before(marked, WaitersOf(inverse, marked[p])[i], y)
  {
    var w := WaitersOf(inverse, marked[p]);
    var met := [m] + WaitersOfAll(inverse, marked);
    var start := [m] + WaitersOfAll(inverse, marked[..p]) + w[..i + 1];
    WaitersOfAllSplits(inverse, marked, p);
    WaitersOfAllMember(inverse, marked[..p], y);
    assert w == w[..i + 1] + w[i + 1..];
    assert start <= met;
    assert w[i] == start[|start| - 1];
    assert y !in start;
    assert met[..|start|] == start;
    assert Splits(met, |start|, w[i], y);
    FirstsKeepOrder(met, w[i], y);
  }

  /** The errorbacks among the modules, in their order. */
  function Errorbacks(s: State, marked: seq<Id>, err: Failure): seq<(Id, Failure)> {
    if marked == [] then []
    else
      var x := marked[|marked| - 1];
      Errorbacks(s, marked[..|marked| - 1], err) + if x in s.mods && s.mods[x].errorback then [(x, err)] else []
  }

  /** The walk so far: `marked` are marked, and the queue holds the others that were met. */
  ghost predicate Walked(s: State, m: Id, marked: seq<Id>, queue: seq<Id>) {
    marked + queue == Firsts([m] + WaitersOfAll(s.inverse, marked))
  }

  lemma WalkStarts(s: State, m: Id)
    ensures Walked(s, m, [], [m])
    ensures Errorbacks(s, [], LoadFailure(m)) == []
  {
    assert [m] + WaitersOfAll(s.inverse, []) == [m];
    FirstsPush([], m);
  }

  /** The walk marks the next module and queues those of its waiters that were not met. */
  lemma WalkNext(s: State, m: Id, marked: seq<Id>, queue: seq<Id>, queue': seq<Id>, err: Failure)
    requires Walked(s, m, marked, queue) && queue != []
    requires FirstsAfter(marked + queue, WaitersOf(s.inverse, queue[0])) == marked + [queue[0]] + queue'
    ensures Walked(s, m, marked + [queue[0]], queue')
    ensures Errorbacks(s, marked + [queue[0]], err) == Errorbacks(s, marked, err)
      + if queue[0] in s.mods && s.mods[queue[0]].errorback then [(queue[0], err)] else []
  {
    var x := queue[0];
    assert (marked + [x])[..|marked + [x]| - 1] == marked;
    FirstsConcat([m] + WaitersOfAll(s.inverse, marked), WaitersOf(s.inverse, x));
    assert [m] + WaitersOfAll(s.inverse, marked + [x])
        == ([m] + WaitersOfAll(s.inverse, marked)) + WaitersOf(s.inverse, x);
  }

  lemma WalkEnds(s: State, m: Id, marked: seq<Id>)
    requires Walked(s, m, marked, [])
    ensures BreadthFirst(s.inverse, m, marked)
  {
    assert marked + [] == marked;
  }

  /** Registering the module that failed to load adds no waiter and no errorback. */
  lemma {:induction false} RequestedSame(s: State, m: Id, marked: seq<Id>)
    ensures Errorbacks(Requested(s, m), marked, LoadFailure(m)) == Errorbacks(s, marked, LoadFailure(m))
    ensures Requested(s, m).inverse == s.inverse
  {
    if marked != [] {
      RequestedSame(s, m, marked[..|marked| - 1]);
    }
  }
}
