/** Whole runs of the module manager: any sequence of definitions and load errors. */
module LoaderSession {
  import opened Graph
  import opened Options
  import opened Orders
  import opened LoaderState
  import opened LoaderSteps
  import opened LoaderTheorems
  import opened LoaderOrder
  import opened Loader

  /** The states before each event and after the last one. */
  ghost predicate IsRun(states: seq<State>, events: seq<Event>, throwing: set<Id>, catchError: bool) {
    && |states| == |events| + 1 && states[0] == EMPTY
    && forall i :: 0 <= i < |events| ==> Happened(states[i], events[i], states[i + 1], throwing, catchError)
  }

  /** Event i leaves x behind, and no load error up to state n marks x. */
  ghost predicate StaysBehind(states: seq<State>, events: seq<Event>, i: nat, n: nat, x: Id)
    requires i < n <= |events| < |states|
  {
    && LeftBehind(states[i], events[i], states[i + 1], x)
    && forall j :: i < j < n ==> !Reached(states[j], events[j], x)
  }

  /** Some event before state n leaves x behind, for good so far. */
  ghost predicate Behind(states: seq<State>, events: seq<Event>, n: nat, x: Id)
    requires n <= |events| < |states|
  {
    exists i: nat :: i < n && StaysBehind(states, events, i, n, x)
  }

  lemma BehindNext(states: seq<State>, events: seq<Event>, n: nat, x: Id)
    requires n < |events| < |states|
    ensures Behind(states, events, n + 1, x) <==>
      LeftBehind(states[n], events[n], states[n + 1], x)
      || (Behind(states, events, n, x) && !Reached(states[n], events[n], x))
  {
    hide LeftBehind, Reached;
    if LeftBehind(states[n], events[n], states[n + 1], x) {
      assert StaysBehind(states, events, n, n + 1, x);
    } else if Behind(states, events, n, x) && !Reached(states[n], events[n], x) {
      var i: nat :| i < n && StaysBehind(states, events, i, n, x);
      assert StaysBehind(states, events, i, n + 1, x);
    }
    if Behind(states, events, n + 1, x) {
      var i: nat :| i < n + 1 && StaysBehind(states, events, i, n + 1, x);
      if i < n {
        assert StaysBehind(states, events, i, n, x) && !Reached(states[n], events[n], x);
      }
    }
  }

  lemma NothingStuckAtFirst(x: Id)
    ensures !Stuck(EMPTY, x)
  {
  }

  lemma StepOf(states: seq<State>, events: seq<Event>, throwing: set<Id>, catchError: bool, i: nat)
    requires IsRun(states, events, throwing, catchError) && i < |events|
    ensures |states| == |events| + 1 && Happened(states[i], events[i], states[i + 1], throwing, catchError)
    ensures Quiescent(states[i]) && Quiescent(states[i + 1]) && Extends(states[i], states[i + 1])
  {
  }

  /** In every run exactly those modules are stuck that some event left behind and no later
      load error marked. */
  lemma {:induction false} StuckExactly(states: seq<State>, events: seq<Event>, throwing: set<Id>, catchError: bool,
                                        n: nat, x: Id)
    requires IsRun(states, events, throwing, catchError) && n <= |events|
    ensures |states| == |events| + 1
    ensures Stuck(states[n], x) <==> Behind(states, events, n, x)
    decreases n
  {
    hide Stuck, LeftBehind, Reached, Happened, StaysBehind;
    if n == 0 {
      NothingStuckAtFirst(x);
    } else {
      StuckExactly(states, events, throwing, catchError, n - 1, x);
      StepOf(states, events, throwing, catchError, n - 1);
      StuckAfter(states[n - 1], events[n - 1], states[n], throwing, catchError, x);
      BehindNext(states, events, n - 1, x);
    }
  }

  lemma {:induction false} LastQuiescent(states: seq<State>, events: seq<Event>, throwing: set<Id>, catchError: bool)
    requires IsRun(states, events, throwing, catchError)
    ensures |states| == |events| + 1 && Quiescent(states[|events|])
  {
    if events == [] {
      EmptyQuiescent();
    } else {
      StepOf(states, events, throwing, catchError, |events| - 1);
    }
  }

  /** Once every requested id is defined, all modules are complete if and only if every
      module that an event left behind was marked by a later load error. */
  lemma AllCompleteExactly(states: seq<State>, events: seq<Event>, throwing: set<Id>, catchError: bool)
    requires IsRun(states, events, throwing, catchError) && |states| == |events| + 1
    requires AllDefined(states[|events|])
    ensures AllComplete(states[|events|]) <==> forall x :: !Behind(states, events, |events|, x)
  {
    hide IsRun, Quiescent, Stuck, AllComplete, AllDefined, Behind;
    LastQuiescent(states, events, throwing, catchError);
    NoDeadlock(states[|events|]);
    forall x
      ensures Stuck(states[|events|], x) <==> Behind(states, events, |events|, x)
    {
      StuckExactly(states, events, throwing, catchError, |events|, x);
    }
  }

  /** A definition that fails at once although somebody incomplete waits for it. */
  ghost predicate Abandons(s: State, e: Event) {
    e.Define? && e.id !in s.mods && FailsToResolve(s, e.deps) && HasLiveWaiter(s, e.id)
  }

  lemma CaughtLeavesNobody(s: State, e: Event, u: State, throwing: set<Id>, catchError: bool, x: Id)
    requires Happened(s, e, u, throwing, catchError) && (catchError || throwing == {})
    ensures LeftBehind(s, e, u, x) ==> Abandons(s, e)
  {
    hide Quiescent, Extends, OnlyRuns;
  }

  lemma AbandonedIsLeftBehind(s: State, e: Event, u: State) returns (x: Id)
    requires Abandons(s, e)
    ensures LeftBehind(s, e, u, x)
  {
    x :| x in WaitersOf(s.inverse, e.id) && Incomplete(s, x);
  }

  /** In a run of definitions whose throws, if any, are caught, the early return is the only
      way to deadlock: all modules are complete once every requested id is defined, if and
      only if no definition failed at once while somebody waited for it. */
  lemma AbandonedExactly(states: seq<State>, events: seq<Event>, throwing: set<Id>, catchError: bool)
    requires IsRun(states, events, throwing, catchError) && |states| == |events| + 1
    requires AllDefined(states[|events|]) && (catchError || throwing == {})
    requires forall e :: e in events ==> e.Define?
    ensures AllComplete(states[|events|]) <==> forall i: nat :: i < |events| ==> !Abandons(states[i], events[i])
  {
    AllCompleteExactly(states, events, throwing, catchError);
    hide IsRun, Behind, Abandons, AllComplete, AllDefined;
    forall x | Behind(states, events, |events|, x)
      ensures exists i: nat :: i < |events| && Abandons(states[i], events[i])
    {
      var i := BehindIsAbandoned(states, events, throwing, catchError, x);
    }
    forall i: nat | i < |events| && Abandons(states[i], events[i])
      ensures exists x :: Behind(states, events, |events|, x)
    {
      var x := AbandonedIsBehind(states, events, i);
    }
  }

  lemma BehindIsAbandoned(states: seq<State>, events: seq<Event>, throwing: set<Id>, catchError: bool, x: Id)
    returns (i: nat)
    requires IsRun(states, events, throwing, catchError) && |states| == |events| + 1
    requires (catchError || throwing == {}) && Behind(states, events, |events|, x)
    ensures i < |events| && Abandons(states[i], events[i])
  {
    hide LeftBehind, Reached, Happened, Abandons;
    i :| i < |events| && StaysBehind(states, events, i, |events|, x);
    StepOf(states, events, throwing, catchError, i);
    CaughtLeavesNobody(states[i], events[i], states[i + 1], throwing, catchError, x);
  }

  lemma AbandonedIsBehind(states: seq<State>, events: seq<Event>, i: nat) returns (x: Id)
    requires |states| == |events| + 1 && i < |events| && Abandons(states[i], events[i])
    requires forall e :: e in events ==> e.Define?
    ensures Behind(states, events, |events|, x)
  {
    hide LeftBehind, Abandons;
    x := AbandonedIsLeftBehind(states[i], events[i], states[i + 1]);
    assert forall j: nat :: j < |events| ==> events[j] in events && !Reached(states[j], events[j], x);
    assert StaysBehind(states, events, i, |events|, x);
  }

  lemma NoFailureNow(s: State, e: Event, u: State, catchError: bool)
    requires Happened(s, e, u, {}, catchError) && e.Define? && NoFailures(s)
    ensures NoFailures(u)
  {
    hide Quiescent, Extends, NoFailures, Defined;
    if e.id !in s.mods {
      DefinedWithoutFailures(s, u, e.id, e.deps, e.errorback, catchError);
    }
  }

  lemma NothingFailedAtFirst()
    ensures NoFailures(EMPTY)
  {
  }

  /** When nothing throws and nothing fails to load, nothing ever fails. */
  lemma {:induction false} NeverFails(states: seq<State>, events: seq<Event>, catchError: bool, n: nat)
    requires IsRun(states, events, {}, catchError) && n <= |events| && forall e :: e in events ==> e.Define?
    ensures |states| == |events| + 1 && NoFailures(states[n])
    decreases n
  {
    hide Happened, NoFailures;
    NothingFailedAtFirst();
    if n > 0 {
      NeverFails(states, events, catchError, n - 1);
      StepOf(states, events, {}, catchError, n - 1);
      NoFailureNow(states[n - 1], events[n - 1], states[n], catchError);
    }
  }

  lemma {:induction false} LaterExtends(states: seq<State>, events: seq<Event>, throwing: set<Id>, catchError: bool,
                                        i: nat, n: nat)
    requires IsRun(states, events, throwing, catchError) && i <= n <= |events|
    ensures |states| == |events| + 1 && Extends(states[i], states[n])
    decreases n
  {
    hide Extends, Happened;
    if i == n {
      ExtendsReflexive(states[i]);
    } else {
      LaterExtends(states, events, throwing, catchError, i, n - 1);
      StepOf(states, events, throwing, catchError, n - 1);
      ExtendsTransitive(states[i], states[n - 1], states[n]);
    }
  }

  lemma MarkedNow(s: State, e: Event, u: State, throwing: set<Id>, catchError: bool, x: Id)
    requires Happened(s, e, u, throwing, catchError) && Reached(s, e, x)
    ensures x in u.mods && u.mods[x].complete && u.mods[x].error == Some(LoadFailure(e.script)) && u.runs == s.runs
  {
    hide Quiescent, Extends, HasPath;
  }

  /** A module that a load error marks before it ran carries that error right after, and in
      the rest of the run it keeps an error and never runs. */
  lemma MarkedNeverRuns(states: seq<State>, events: seq<Event>, throwing: set<Id>, catchError: bool,
                        i: nat, n: nat, x: Id)
    requires IsRun(states, events, throwing, catchError) && i < n <= |events| && |states| == |events| + 1
    requires Reached(states[i], events[i], x) && x !in states[i].runs
    ensures x in states[i + 1].mods && states[i + 1].mods[x].error == Some(LoadFailure(events[i].script))
    ensures x in states[n].mods && states[n].mods[x].complete && states[n].mods[x].error.Some? && x !in states[n].runs
  {
    StepOf(states, events, throwing, catchError, i);
    MarkedNow(states[i], events[i], states[i + 1], throwing, catchError, x);
    LaterExtends(states, events, throwing, catchError, i + 1, n);
  }

  lemma RunSnoc(states: seq<State>, events: seq<Event>, throwing: set<Id>, catchError: bool, e: Event, u: State)
    requires IsRun(states, events, throwing, catchError) && |states| == |events| + 1
    requires Happened(states[|events|], e, u, throwing, catchError)
    ensures IsRun(states + [u], events + [e], throwing, catchError)
  {
    hide Happened;
  }

  lemma RunStarts(throwing: set<Id>, catchError: bool)
    ensures IsRun([EMPTY], [], throwing, catchError)
  {
  }

  /** Replays any run on the manager's own records. When every requested id is defined at
      its end, all modules are complete if and only if nobody stays behind; when nothing
      fails, all of them have run. */
  method Replay(events: seq<Event>, throwing: set<Id>, catchError: bool)
    returns (manager: ModuleManager, ghost states: seq<State>)
    ensures manager.Idle() && IsRun(states, events, throwing, catchError) && |states| == |events| + 1
    ensures manager.state == states[|events|]
    ensures AllDefined(manager.state) ==>
      (AllComplete(manager.state) <==> forall x :: !Behind(states, events, |events|, x))
    ensures AllDefined(manager.state) && throwing == {} && (forall e :: e in events ==> e.Define?)
      ==> forall m :: m in manager.state.mods ==> m in manager.state.runs
  {
    hide *;
    RunStarts(throwing, catchError);
    manager := new ModuleManager(throwing, catchError);
    states := [manager.state];
    assert events[..0] == [] && events[..|events|] == events;
    for n := 0 to |events|
      invariant manager.Idle() && manager.throwing == throwing && manager.catchError == catchError
      invariant fresh(manager) && fresh(manager.modules.Values)
      invariant IsRun(states, events[..n], throwing, catchError) && |states| == n + 1 && states[n] == manager.state
    {
      match events[n] {
      case Define(id, deps, errorback) =>
        var _ := manager.DefineModule(id, deps, errorback);
      case LoadError(script) =>
        ghost var _, _ := manager.OnLoadError(script);
      }
      RunSnoc(states, events[..n], throwing, catchError, events[n], manager.state);
      assert events[..n + 1] == events[..n] + [events[n]];
      states := states + [manager.state];
    }
    if AllDefined(manager.state) {
      AllCompleteExactly(states, events, throwing, catchError);
      if throwing == {} && (forall e :: e in events ==> e.Define?) {
        NeverFails(states, events, catchError, |events|);
        LastQuiescent(states, events, throwing, catchError);
        NoDeadlockWithoutFailures(manager.state);
      }
    }
  }

  // ---------- runs that leave a module behind ----------

  lemma RanMeansDepRan(s: State, m: Id, d: Id)
    requires OrderOk(s) && m in s.declared && Regular(d) in s.declared[m]
    ensures m in s.runs ==> d in s.runs || (m, d) in s.cut
  {
    if m in s.runs {
      var i :| 0 <= i < |s.runs| && s.runs[i] == m;
      assert RanInOrder(s, i, Regular(d));
    }
  }

  /** A module without an error whose dependency is not defined yet waits for it. */
  lemma WaitsForUndefined(u: State, m: Id, d: Id)
    requires Quiescent(u) && m in u.mods && d !in u.mods && u.mods[m].error.None?
    requires m in u.declared && Regular(d) in u.declared[m]
    ensures Incomplete(u, m) && m !in u.runs
  {
    assert RecordOk(u, m);
    assert d !in DeclaredGraph(u);
    SearchSinks(DeclaredGraph(u), d, m);
    RanMeansDepRan(u, m, d);
  }

  /** Whoever waits names its only dependency. */
  lemma WaitsOnlyFor(u: State, x: Id, d: Id)
    requires Quiescent(u) && x in u.declared && u.declared[x] == [Regular(d)]
    ensures forall e :: x in WaitersOf(u.inverse, e) ==> e == d
  {
    forall e | x in WaitersOf(u.inverse, e)
      ensures e == d
    {
      assert WaiterOk(u, x, e) && RecordOk(u, x);
    }
  }

  /** Every module of u waits for d, and nothing has run or failed. */
  ghost predicate AllWaitFor(u: State, d: Id) {
    && d !in u.mods && u.known <= {d} && (forall x :: x !in u.runs) && u.aborted == {} && u.declared.Keys == u.mods.Keys
    && (forall x :: x in u.mods ==> u.mods[x].error.None? && Incomplete(u, x) && u.declared[x] == [Regular(d)])
  }

  lemma NobodyWaits(d: Id)
    ensures AllWaitFor(EMPTY, d) && EMPTY.mods == map[] && WaitersOf(EMPTY.inverse, d) == []
  {
  }

  /** One more module that depends on d only. */
  lemma WaiterDefined(s: State, u: State, m: Id, d: Id, throwing: set<Id>)
    requires AllWaitFor(s, d) && m !in s.mods && m != d
    requires Happened(s, Define(m, [Regular(d)], false), u, throwing, false)
    ensures Quiescent(u) && AllWaitFor(u, d) && u.mods.Keys == s.mods.Keys + {m}
  {
    hide Happened, Quiescent;
    UnknownDoesNotFail(s, d);
    DefinedFields(s, u, m, [Regular(d)], throwing);
    OneTarget(d);
    RecordsOfQuiescent(u);
    forall x | x in u.mods
      ensures u.mods[x].error.None? && Incomplete(u, x) && x !in u.runs
    {
      WaitsForUndefined(u, x, d);
    }
  }

  lemma NoneFail(s: State)
    ensures !FailsToResolve(s, [])
  {
  }

  lemma OneTarget(d: Id)
    ensures Targets([Regular(d)]) == {d}
  {
    assert Regular(d) in [Regular(d)] && DepId(Regular(d)) == d;
  }

  lemma UnknownDoesNotFail(s: State, d: Id)
    requires d !in s.mods
    ensures !FailsToResolve(s, [Regular(d)])
  {
  }

  lemma RecordsOfQuiescent(u: State)
    requires Quiescent(u)
    ensures u.declared.Keys == u.mods.Keys
    ensures (forall x :: x in u.runs ==> x in u.mods) && (forall x :: x in u.aborted ==> x in u.runs)
    ensures forall x :: x in u.mods && u.mods[x].error.None? && u.mods[x].complete ==> x in u.runs
  {
    assert forall x :: x in u.mods ==> RecordOk(u, x);
  }

  /** The plain facts about a definition that resolves while nothing is caught. */
  lemma DefinedFields(s: State, u: State, m: Id, deps: seq<Dep>, throwing: set<Id>)
    requires m !in s.mods && !FailsToResolve(s, deps) && Happened(s, Define(m, deps, false), u, throwing, false)
    ensures Quiescent(u) && u.mods.Keys == s.mods.Keys + {m} && u.known <= s.known + Targets(deps)
      && u.declared == s.declared[m := deps] && s.known <= u.known
    ensures forall x :: x in s.mods ==> u.mods[x].error == s.mods[x].error
    ensures u.mods[m].error.None?
    ensures forall x :: x in u.aborted <==> x in s.aborted || (x in u.runs && x !in s.runs && x in throwing)
    ensures forall x :: x in u.aborted && x !in s.aborted ==> u.runs != [] && x == u.runs[|u.runs| - 1]
  {
    hide Resolved, Happened, Quiescent;
    var r := Register(s, m, deps, false);
    HappenedResolved(s, u, m, deps, throwing);
    ResolvedErrors(r, u, m, throwing);
    ResolvedThrown(r, u, m, throwing);
    assert forall x :: x in s.mods ==> r.mods[x].error == s.mods[x].error;
    assert Some(deps) == r.mods[m].deps;
  }

  lemma HappenedResolved(s: State, u: State, m: Id, deps: seq<Dep>, throwing: set<Id>)
    requires m !in s.mods && !FailsToResolve(s, deps) && Happened(s, Define(m, deps, false), u, throwing, false)
    ensures Quiescent(u) && Resolved(Register(s, m, deps, false), u, m, throwing, false) && s.known <= u.known
  {
    hide Resolved, ResolveFailed, FailsToResolve, Quiescent, LoadErrorSpread;
  }

  lemma ResolvedErrors(r: State, u: State, m: Id, throwing: set<Id>)
    requires Resolved(r, u, m, throwing, false) && m in r.mods && r.mods[m].deps.Some?
    ensures u.mods.Keys == r.mods.Keys && u.declared == r.declared
    ensures u.known <= r.known + Targets(r.mods[m].deps.value)
    ensures forall x :: x in r.mods ==> u.mods[x].error == r.mods[x].error
  {
    hide OnlyRuns, Thrown, Visiting, Heard, Targets;
  }

  lemma ResolvedThrown(r: State, u: State, m: Id, throwing: set<Id>)
    requires Resolved(r, u, m, throwing, false)
    ensures forall x :: x in u.aborted <==> x in r.aborted || (x in u.runs && x !in r.runs && x in throwing)
    ensures forall x :: x in u.aborted && x !in r.aborted ==> u.runs != [] && x == u.runs[|u.runs| - 1]
  {
    hide OnlyRuns, Visiting, Heard, RequestsOnly, CascadeMod;
  }

  /** A module without dependencies runs as soon as it is defined. */
  lemma RunsAtOnce(u: State, m: Id)
    requires Quiescent(u) && m in u.mods && m in u.declared && u.declared[m] == [] && u.mods[m].error.None?
    ensures m in u.runs
  {
    assert RecordOk(u, m);
    AllWaitersMember(u.inverse, m);
    forall d
      ensures m !in WaitersOf(u.inverse, d)
    {
      assert m in WaitersOf(u.inverse, d) ==> WaiterOk(u, m, d);
    }
    assert m in u.lost ==> Pending(u, m);
  }

  /** The early return in resolving can deadlock a run: `a` waits for `b`; `c` fails to
      load; `b` then depends on `c`, fails at once, and `a` is never told although
      everything requested has been defined. */
  method StrandedRun(a: Id, b: Id, c: Id) returns (manager: ModuleManager)
    requires a != b && a != c && b != c
    ensures manager.Idle() && AllDefined(manager.state) && !AllComplete(manager.state) && Stuck(manager.state, a)
  {
    hide *;
    NobodyWaits(b);
    manager := new ModuleManager({}, false);
    var _ := manager.DefineModule(a, [Regular(b)], false);
    ghost var s1 := manager.state;
    WaiterDefined(EMPTY, s1, a, b, {});
    ghost var _, calls := manager.OnLoadError(c);
    ghost var s2 := manager.state;
    NobodyWaitsForOthers(s1, b, c);
    LonelyLoadError(s1, s2, c, calls);
    var _ := manager.DefineModule(b, [Regular(c)], false);
    AbandonedInTheEnd(s1, s2, manager.state, a, b, c);
  }

  lemma WaitersRegistered(s: State)
    requires Quiescent(s)
    ensures forall x, e :: x in WaitersOf(s.inverse, e) ==> x in s.mods
  {
    assert forall x, e :: x in WaitersOf(s.inverse, e) ==> WaiterOk(s, x, e);
  }

  lemma NobodyWaitsForOthers(s: State, d: Id, c: Id)
    requires Quiescent(s) && AllWaitFor(s, d) && c != d
    ensures forall x :: x !in WaitersOf(s.inverse, c)
  {
    hide Quiescent;
    WaitersRegistered(s);
    forall x | x in s.mods
      ensures x !in WaitersOf(s.inverse, c)
    {
      WaitsOnlyFor(s, x, d);
    }
  }

  /** The last step of that run. */
  lemma AbandonedInTheEnd(s1: State, s2: State, s3: State, a: Id, b: Id, c: Id)
    requires AllWaitFor(s1, b) && s1.mods.Keys == {a} && a != b && a != c && b != c
    requires s2.mods.Keys == {a, c} && s2.known == s1.known && s2.mods[a] == s1.mods[a]
    requires s2.mods[c].complete && s2.mods[c].error.Some?
    requires Happened(s2, Define(b, [Regular(c)], false), s3, {}, false)
    ensures AllDefined(s3) && !AllComplete(s3) && Stuck(s3, a)
  {
    hide Happened, Quiescent, Stuck;
    FailedDefinition(s2, s3, b, c);
    assert Incomplete(s3, a);
    OnlyStuckLeft(s3, a);
  }

  /** A load error of a module nobody waits for reaches only that module. */
  lemma LonelyLoadError(s: State, u: State, c: Id, calls: seq<(Id, Failure)>)
    requires c !in s.mods && (forall x :: x !in WaitersOf(s.inverse, c)) && LoadErrorSpread(s, u, c, calls)
    ensures u.mods.Keys == s.mods.Keys + {c} && u.known == s.known
    ensures forall x :: x in s.mods ==> u.mods[x] == s.mods[x]
    ensures u.mods[c].complete && u.mods[c].error.Some?
  {
    var r := Register(s, c, [], false);
    forall x
      ensures !HasPath(InverseGraph(r), c, x)
    {
      ClosedSetNoPath(InverseGraph(r), {c}, c, x);
    }
  }

  lemma FailedDefinition(s: State, u: State, m: Id, c: Id)
    requires m !in s.mods && c in s.mods && s.mods[c].complete && s.mods[c].error.Some?
    requires Happened(s, Define(m, [Regular(c)], false), u, {}, false)
    ensures Quiescent(u) && u.mods.Keys == s.mods.Keys + {m} && u.known <= s.known + {c}
    ensures u.mods[m].complete && forall x :: x in s.mods ==> u.mods[x] == s.mods[x]
  {
    hide Quiescent, Extends;
    SomethingFailed(s, [Regular(c)], 0);
  }

  /** With a throw that nobody catches, the default, two modules are enough: `a` waits for
      `b`, whose factory throws. Nothing carries an error, and `a` is never told. */
  method EscapedThrow(a: Id, b: Id) returns (manager: ModuleManager)
    requires a != b
    ensures manager.Idle() && AllDefined(manager.state) && !AllComplete(manager.state) && Stuck(manager.state, a)
    ensures forall m :: m in manager.state.mods ==> manager.state.mods[m].error.None?
  {
    hide *;
    NobodyWaits(b);
    manager := new ModuleManager({b}, false);
    var _ := manager.DefineModule(a, [Regular(b)], false);
    ghost var s := manager.state;
    WaiterDefined(EMPTY, s, a, b, {b});
    var _ := manager.DefineModule(b, [], false);
    ThrowerDefined(s, manager.state, a, b);
  }

  /** What defining the module that all others wait for comes to. */
  lemma LeafDefined(s: State, u: State, m: Id, throwing: set<Id>)
    requires AllWaitFor(s, m) && Happened(s, Define(m, [], false), u, throwing, false)
    ensures Quiescent(u) && AllDefined(u) && u.mods.Keys == s.mods.Keys + {m} && u.declared == s.declared[m := []]
    ensures forall x :: x in u.mods ==> u.mods[x].error.None? && (u.mods[x].complete ==> x in u.runs)
    ensures m in u.runs && u.known == s.known
    ensures forall x :: x in u.aborted <==> x in u.runs && x in throwing
    ensures forall x :: x in u.aborted ==> u.runs != [] && x == u.runs[|u.runs| - 1]
  {
    hide Happened, Quiescent;
    NoneFail(s);
    DefinedFields(s, u, m, [], throwing);
    assert Targets([]) == {};
    RecordsOfQuiescent(u);
    RunsAtOnce(u, m);
  }

  lemma ThrowerDefined(s: State, u: State, a: Id, b: Id)
    requires AllWaitFor(s, b) && s.mods.Keys == {a} && a != b && Happened(s, Define(b, [], false), u, {b}, false)
    ensures AllDefined(u) && !AllComplete(u) && Stuck(u, a)
    ensures forall m :: m in u.mods ==> u.mods[m].error.None?
  {
    hide Quiescent, Happened, Stuck, AllDefined;
    LeafDefined(s, u, b, {b});
    LeafCutsNobody(u, a, b);
    // a cannot have run: b would have run before it, and b was the last to run
    assert b == u.runs[|u.runs| - 1];
    RunsLast(u, a, b);
    assert Incomplete(u, a);
    WaitsForThrower(u, a, b);
  }

  lemma LeafCutsNobody(u: State, a: Id, b: Id)
    requires Quiescent(u) && b in u.declared && u.declared[b] == []
    ensures (a, b) !in u.cut
  {
    ClosedSetNoPath(DeclaredGraph(u), {b}, b, a);
  }

  lemma RanBefore(u: State, i: nat, d: Id)
    requires OrderOk(u) && i < |u.runs| && u.runs[i] in u.declared && Regular(d) in u.declared[u.runs[i]]
    requires (u.runs[i], d) !in u.cut
    ensures d in u.runs[..i]
  {
    assert RanInOrder(u, i, Regular(d));
  }

  lemma RunsLast(u: State, a: Id, b: Id)
    requires Quiescent(u) && a in u.declared && Regular(b) in u.declared[a] && (a, b) !in u.cut && a != b
    requires u.runs != [] && b == u.runs[|u.runs| - 1]
    ensures a !in u.runs
  {
    hide OrderOk;
    forall i: nat | i < |u.runs|
      ensures u.runs[i] != a
    {
      if u.runs[i] == a {
        RanBefore(u, i, b);
      }
    }
  }

  /** An incomplete module whose only dependency ran waits for it only if the run was
      aborted; otherwise it was lost. */
  lemma WaitsForThrower(u: State, a: Id, b: Id)
    requires Quiescent(u) && Incomplete(u, a) && a in u.declared && u.declared[a] == [Regular(b)]
    requires b in u.runs && (a, b) !in u.cut
    ensures Stuck(u, a)
    ensures b !in u.aborted ==> a in u.lost && forall d :: a !in WaitersOf(u.inverse, d)
  {
    assert RecordOk(u, a) && b in u.mods && RecordOk(u, b);
    AllWaitersMember(u.inverse, a);
    WaitsOnlyFor(u, a, b);
    forall d | a in WaitersOf(u.inverse, d)
      ensures StrandedOn(u, a, d) && b in u.aborted
    {
      assert WaiterOk(u, a, d);
    }
  }

  /** A throw in the middle of a cascade: `x` and `z` wait for `y` and both throw. The
      first to run aborts the frame that would have counted the other one down. That one
      is stuck, and no inverse list names it. */
  method LostWaiter(x: Id, y: Id, z: Id) returns (manager: ModuleManager)
    requires x != y && x != z && y != z
    ensures manager.Idle() && AllDefined(manager.state) && !AllComplete(manager.state)
    ensures exists w :: Stuck(manager.state, w) && forall d :: w !in WaitersOf(manager.state.inverse, d)
  {
    hide *;
    NobodyWaits(y);
    manager := new ModuleManager({x, z}, false);
    var _ := manager.DefineModule(x, [Regular(y)], false);
    ghost var s1 := manager.state;
    WaiterDefined(EMPTY, s1, x, y, {x, z});
    var _ := manager.DefineModule(z, [Regular(y)], false);
    ghost var s2 := manager.state;
    WaiterDefined(s1, s2, z, y, {x, z});
    var _ := manager.DefineModule(y, [], false);
    ghost var w := OneIsLost(s2, manager.state, x, y, z);
  }

  lemma OneIsLost(s: State, u: State, x: Id, y: Id, z: Id) returns (w: Id)
    requires AllWaitFor(s, y) && x != y && x != z && y != z && s.mods.Keys == {x, z}
    requires Happened(s, Define(y, [], false), u, {x, z}, false)
    ensures AllDefined(u) && !AllComplete(u)
    ensures Stuck(u, w) && forall d :: w !in WaitersOf(u.inverse, d)
  {
    hide Quiescent, Happened, Stuck, AllDefined;
    LeafDefined(s, u, y, {x, z});
    w := if u.mods[x].complete then z else x;
    assert Incomplete(u, w) && u.declared[w] == [Regular(y)];
    LeafCutsNobody(u, w, y);
    WaitsForThrower(u, w, y);
  }

  // ---------- the order of two waiters ----------

  /** Whoever waits for d only, and is due once, is in d's inverse list once. */
  lemma WaitsOnce(u: State, x: Id, d: Id)
    requires Quiescent(u) && u.aborted == {} && Incomplete(u, x) && u.mods[x].count <= 1
    requires x in u.declared && u.declared[x] == [Regular(d)]
    ensures u.mods[x].count == 1 && multiset(WaitersOf(u.inverse, d))[x] == 1
  {
    hide AllWaiters;
    AllWaitersTake(u.inverse, d);
    AllWaitersMember(u.inverse - {d}, x);
    WaitsOnlyFor(u, x, d);
    assert forall e :: e != d ==> WaitersOf(u.inverse - {d}, e) == WaitersOf(u.inverse, e);
  }

  /** A module that starts to wait goes to the end of the inverse list. */
  lemma WaiterJoins(s: State, u: State, m: Id, d: Id, throwing: set<Id>)
    requires AllWaitFor(s, d) && m !in s.mods && m != d
    requires Happened(s, Define(m, [Regular(d)], false), u, throwing, false)
    ensures WaitersOf(u.inverse, d) == WaitersOf(s.inverse, d) + [m] && m in u.mods && u.mods[m].count == 1
    ensures forall x :: x in s.mods ==> x in u.mods && u.mods[x] == s.mods[x]
  {
    hide Quiescent, Resolved, Visiting, JoinedBy;
    var r := Register(s, m, [Regular(d)], false);
    UnknownDoesNotFail(s, d);
    WaiterDefined(s, u, m, d, throwing);
    HappenedResolved(s, u, m, [Regular(d)], throwing);
    ResolvedWaits(r, u, m, d, throwing);
    hide Happened;
    WaitsOnce(u, m, d);
    WaitersRegistered(s);
    JoinedOnce(WaitersOf(s.inverse, d), WaitersOf(u.inverse, d), m);
  }

  lemma ResolvedWaits(r: State, u: State, m: Id, d: Id, throwing: set<Id>)
    requires Resolved(r, u, m, throwing, false) && Incomplete(u, m) && m in r.mods
    ensures JoinedBy(WaitersOf(r.inverse, d), WaitersOf(u.inverse, d), m)
    ensures u.mods[m].count <= r.mods[m].count
    ensures forall x :: x in r.mods && x != m ==> x in u.mods && u.mods[x] == r.mods[x]
  {
    hide OnlyRuns, Extends, Thrown, Heard, CascadeMod;
  }

  lemma JoinedOnce(was: seq<Id>, now: seq<Id>, m: Id)
    requires JoinedBy(was, now, m) && m !in was && multiset(now)[m] == 1
    ensures now == was + [m]
  {
    var more := now[|was|..];
    assert now == was + more;
    assert multiset(now) == multiset(was) + multiset(more);
    AllTheSame(more, m);
  }

  lemma {:induction false} AllTheSame(l: seq<Id>, m: Id)
    requires forall k :: 0 <= k < |l| ==> l[k] == m
    ensures multiset(l)[m] == |l|
  {
    if l != [] {
      AllTheSame(l[1..], m);
      assert l == [l[0]] + l[1..];
    }
  }

  /** Two modules wait for a third: when it is defined, the three factories run, its own
      first and then theirs in the order in which they began to wait. */
  method TwoWaiters(x: Id, y: Id, m: Id) returns (manager: ModuleManager)
    requires x != y && x != m && y != m
    ensures manager.Idle() && manager.factoryCalls == [m, x, y] && manager.requests == [m]
  {
    hide *;
    NobodyWaits(m);
    manager := new ModuleManager({}, false);
    var _ := manager.DefineModule(x, [Regular(m)], false);
    ghost var s1 := manager.state;
    WaiterDefined(EMPTY, s1, x, m, {});
    WaiterJoins(EMPTY, s1, x, m, {});
    var _ := manager.DefineModule(y, [Regular(m)], false);
    ghost var s2 := manager.state;
    WaiterDefined(s1, s2, y, m, {});
    WaiterJoins(s1, s2, y, m, {});
    QuiescentWaiters(s2);
    var _ := manager.DefineModule(m, [], false);
    manager.IdleParts();
    manager.FieldsAre();
    InTheirOrder(s2, manager.state, x, y, m);
    OnlyOne(manager.requests, m);
  }

  lemma InTheirOrder(s2: State, u: State, x: Id, y: Id, m: Id)
    requires x != y && x != m && y != m && WaitersOk(s2) && AllWaitFor(s2, m) && s2.mods.Keys == {x, y}
    requires WaitersOf(s2.inverse, m) == [x, y] && s2.mods[x].count == 1 && s2.mods[y].count == 1
    requires Happened(s2, Define(m, [], false), u, {}, false) && DepthFirst(s2, u, m)
    ensures u.runs == [m, x, y] && u.known == {m}
  {
    hide *;
    TheirCounts(s2, x, y, m);
    LeafDefined(s2, u, m, {});
    NoFailuresIn(u);
    NoDeadlockWithoutFailures(u);
    FirstOfTwo(s2, u, x, y, m);
    RanAfter(u, x, m);
    RanAfter(u, y, m);
    RunsOfQuiescent(u);
    ThreeInOrder(u.runs, m, x, y);
  }

  lemma NoFailuresIn(u: State)
    requires forall x :: x in u.mods ==> u.mods[x].error.None?
    requires forall x :: x !in u.aborted
    ensures NoFailures(u)
  {
  }

  lemma TheirCounts(s: State, x: Id, y: Id, m: Id)
    requires WaitersOk(s) && AllWaitFor(s, m) && s.mods.Keys == {x, y} && WaitersOf(s.inverse, m) == [x, y]
    ensures s.known == {m} && Incomplete(s, x) && s.declared.Keys == {x, y}
    ensures s.declared[x] == [Regular(m)] && s.declared[y] == [Regular(m)]
  {
    assert WaiterOk(s, x, m);
  }

  lemma FirstOfTwo(s: State, u: State, x: Id, y: Id, m: Id)
    requires WaitersOf(s.inverse, m) == [x, y] && Incomplete(s, x) && s.mods[x].count == 1
    requires DepthFirst(s, u, m) && y in u.runs
    ensures Before(u.runs, x, y)
  {
    assert [x, y][..1] == [x];
    assert PaidOff(s, m, 1, x) && Released(s, x, x);
    assert InTurn(s, u, m, 1);
  }

  lemma RanAfter(u: State, x: Id, m: Id)
    requires Quiescent(u) && x in u.runs && x in u.declared && u.declared[x] == [Regular(m)]
    requires m in u.declared && u.declared[m] == []
    ensures Before(u.runs, m, x)
  {
    LeafCutsNobody(u, x, m);
    var i :| 0 <= i < |u.runs| && u.runs[i] == x;
    RanBefore(u, i, m);
    assert Distinct(u.runs);
    assert x !in u.runs[..i];
    assert Splits(u.runs, i, m, x);
  }

  lemma RunsOfQuiescent(u: State)
    requires Quiescent(u)
    ensures Distinct(u.runs) && forall x :: x in u.runs ==> x in u.mods
  {
  }

  lemma ThreeInOrder(l: seq<Id>, a: Id, b: Id, c: Id)
    requires Distinct(l) && (forall x :: x in l ==> x in {a, b, c}) && c in l
    requires Before(l, a, b) && Before(l, b, c)
    ensures l == [a, b, c]
  {
    BeforeAt(l, a, b);
    BeforeAt(l, b, c);
    var i :| 0 <= i < |l| && l[i] == a && b !in l[..i + 1];
    var j :| 0 <= j < |l| && l[j] == b && c !in l[..j + 1];
    var k :| 0 <= k < |l| && l[k] == c;
    assert i < j by {
      assert l[j] !in l[..i + 1];
    }
    assert j < k by {
      assert l[k] !in l[..j + 1];
    }
    OneOfThree(l, i, j, k, 0);
    OneOfThree(l, i, j, k, 1);
    OneOfThree(l, i, j, k, 2);
    OneOfThree(l, i, j, k, |l| - 1);
  }

  lemma OneOfThree(l: seq<Id>, i: nat, j: nat, k: nat, n: nat)
    requires i < |l| && j < |l| && k < |l| && n < |l| && Distinct(l)
    requires forall x :: x in l ==> x in {l[i], l[j], l[k]}
    ensures n == i || n == j || n == k
  {
    assert l[n] in l;
  }

  lemma OnlyOne(l: seq<Id>, m: Id)
    requires Distinct(l) && forall x :: x in l <==> x == m
    ensures l == [m]
  {
    assert m in l;
    var i :| 0 <= i < |l| && l[i] == m;
    OneOfThree(l, i, i, i, 0);
    OneOfThree(l, i, i, i, |l| - 1);
  }

  /** When all is defined and only `a` is incomplete, `a` is stuck. */
  lemma OnlyStuckLeft(u: State, a: Id)
    requires Quiescent(u) && AllDefined(u) && Incomplete(u, a)
    requires forall x :: x in u.mods && x != a ==> u.mods[x].complete
    ensures Stuck(u, a)
  {
    var m := IncompleteMeansStuck(u);
  }
}
