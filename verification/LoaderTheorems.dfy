/** What the invariant of the module manager means between events: freedom from
    deadlock, dependency order, and exactly which events leave a module stuck. */
module LoaderTheorems {
  import opened Graph
  import opened Options
  import opened LoaderState
  import opened LoaderSteps

  /** m waits for d, which is complete and will never tell it. */
  ghost predicate StrandedOn(s: State, m: Id, d: Id) {
    Incomplete(s, m) && m in WaitersOf(s.inverse, d) && d in s.mods && s.mods[d].complete
  }

  /** An incomplete module that no completion can reach any more: it waits for a complete
      module, or an aborted frame should have counted it down. */
  ghost predicate Stuck(s: State, m: Id) {
    Incomplete(s, m) && (m in s.lost || exists d :: StrandedOn(s, m, d))
  }

  ghost predicate AllComplete(s: State) {
    forall m :: m in s.mods ==> s.mods[m].complete
  }

  /** No module carries an error, and no factory threw past the loader. */
  ghost predicate NoFailures(s: State) {
    (forall m :: m in s.mods ==> s.mods[m].error.None?) && s.aborted == {}
  }

  /** Every id that was requested has been defined. */
  ghost predicate AllDefined(s: State) {
    s.known <= s.mods.Keys
  }

  /** The out-edges of one module in the graph the cycle search walks. */
  lemma DepGraphAt(s: State, m: Id)
    ensures m in DepGraph(s) <==> m in s.mods && s.mods[m].deps.Some?
    ensures DepGraph(s).Keys <= s.mods.Keys
    ensures forall y :: Edge(DepGraph(s), m, y) <==>
      m in s.mods && s.mods[m].deps.Some? && y in Targets(s.mods[m].deps.value)
  {
  }

  lemma IncompleteWaits(s: State, m: Id) returns (d: Id)
    requires Quiescent(s) && Incomplete(s, m) && m !in s.lost
    ensures m in WaitersOf(s.inverse, d) && Edge(WaitGraph(s), m, d)
  {
    AllWaitersMember(s.inverse, m);
    d :| m in WaitersOf(s.inverse, d);
  }

  /** An incomplete module leads, along the waits, to one that is stuck. */
  lemma IncompleteMeansStuck(s: State) returns (u: Id)
    requires Quiescent(s) && AllDefined(s) && !AllComplete(s)
    ensures Stuck(s, u)
  {
    var left := set m | m in s.mods && Incomplete(s, m);
    if m :| m in left && m in s.lost {
      return m;
    }
    var x :| x in s.mods && !s.mods[x].complete;
    SinkExists(WaitGraph(s), left, x);
    u :| u in left && !StepsInside(WaitGraph(s), left, u);
    var d := IncompleteWaits(s, u);
    assert WaiterOk(s, u, d);
    assert d in left ==> StepsInside(WaitGraph(s), left, u);
    assert StrandedOn(s, u, d);
  }

  /** No deadlock, cycles or not: once every requested id is defined, all modules are
      complete unless one is stuck. */
  lemma NoDeadlock(s: State)
    requires Quiescent(s) && AllDefined(s)
    ensures AllComplete(s) <==> forall m :: !Stuck(s, m)
  {
    if !AllComplete(s) {
      var u := IncompleteMeansStuck(s);
    }
  }

  lemma NothingStuck(s: State, m: Id)
    requires Quiescent(s) && NoFailures(s)
    ensures !Stuck(s, m)
  {
    forall d
      ensures !StrandedOn(s, m, d)
    {
      if m in WaitersOf(s.inverse, d) && d in s.mods {
        assert WaiterOk(s, m, d) && RecordOk(s, d);
      }
    }
  }

  /** Without failures every defined module has run by the time every requested id
      is defined. */
  lemma NoDeadlockWithoutFailures(s: State)
    requires Quiescent(s) && AllDefined(s) && NoFailures(s)
    ensures forall m :: m in s.mods ==> m in s.runs
  {
    forall m
      ensures !Stuck(s, m)
    {
      NothingStuck(s, m);
    }
    NoDeadlock(s);
    assert forall m :: m in s.mods ==> RecordOk(s, m);
  }

  /** When the i-th factory runs, each of its module's dependencies has run before it,
      unless the cycle check cut it, and then a path of declared dependencies leads from
      that dependency back to the module. No factory runs twice. */
  lemma FactoryOrder(s: State, i: nat, d: Id)
    requires RecordsOk(s) && CutsOk(s) && OrderOk(s)
    requires i < |s.runs| && s.runs[i] in s.declared && Regular(d) in s.declared[s.runs[i]]
    ensures (exists j :: 0 <= j < i && s.runs[j] == d) || HasPath(DeclaredGraph(s), d, s.runs[i])
    ensures forall j :: 0 <= j < |s.runs| && j != i ==> s.runs[j] != s.runs[i]
  {
    assert RanInOrder(s, i, Regular(d));
  }

  /** On an acyclic dependency graph nothing is cut, and each factory runs after the
      factories of all the module's dependencies. */
  lemma DependencyOrder(s: State, i: nat, d: Id)
    requires RecordsOk(s) && CutsOk(s) && OrderOk(s) && Acyclic(DeclaredGraph(s))
    requires i < |s.runs| && s.runs[i] in s.declared && Regular(d) in s.declared[s.runs[i]]
    ensures s.cut == {}
    ensures exists j :: 0 <= j < i && s.runs[j] == d
  {
    forall c | c in s.cut
      ensures false
    {
      EdgePath(DeclaredGraph(s), c.0, c.1);
      PathTransitive(DeclaredGraph(s), c.0, c.1, c.0);
    }
    assert RanInOrder(s, i, Regular(d));
  }

  // ---------- what one event can change ----------

  /** Modules became complete only by running, nobody new waits for a module that was
      already complete, and only a run that went through clears a module's waiters. */
  ghost predicate OnlyRuns(s: State, t: State) {
    && (forall m :: m in t.mods && t.mods[m].complete && m !in t.runs ==> m in s.mods && s.mods[m].complete)
    && (forall m, d :: m in WaitersOf(t.inverse, d) && d in s.mods && s.mods[d].complete
          ==> m in WaitersOf(s.inverse, d))
    && (forall m, d :: m in WaitersOf(s.inverse, d) && (d !in t.runs || d in t.aborted)
          ==> m in WaitersOf(t.inverse, d))
  }

  lemma OnlyRunsTransitive(s: State, t: State, u: State)
    requires OnlyRuns(s, t) && OnlyRuns(t, u) && Extends(s, t) && Extends(t, u)
    ensures OnlyRuns(s, u)
  {
    forall m, d | m in WaitersOf(u.inverse, d) && d in s.mods && s.mods[d].complete
      ensures m in WaitersOf(s.inverse, d)
    {
      assert d in t.mods && t.mods[d].complete;
      assert m in WaitersOf(t.inverse, d);
    }
    forall m, d | m in WaitersOf(s.inverse, d) && (d !in u.runs || d in u.aborted)
      ensures m in WaitersOf(u.inverse, d)
    {
      assert d !in t.runs || d in t.aborted;
      assert m in WaitersOf(t.inverse, d);
    }
  }

  /** Which factories threw past the loader: those that throw, when throws are not caught.
      Only the last factory to run can be new among them, and only then is a waiter lost. */
  ghost predicate Thrown(s: State, t: State, throwing: set<Id>, catchError: bool) {
    && (forall m :: m in t.aborted <==>
          m in s.aborted || (m in t.runs && m !in s.runs && m in throwing && !catchError))
    && (t.aborted == s.aborted ==> t.lost == s.lost)
    && (forall m :: m in t.aborted && m !in s.aborted ==> t.runs != [] && m == t.runs[|t.runs| - 1])
  }

  /** The errors of the factories that threw and were caught, in the order they ran. */
  function Caught(runs: seq<Id>, throwing: set<Id>, catchError: bool): seq<Failure> {
    if runs == [] then []
    else
      var last := runs[|runs| - 1];
      Caught(runs[..|runs| - 1], throwing, catchError)
      + if last in throwing && catchError then [FactoryFailure(last)] else []
  }

  lemma {:induction false} CaughtConcat(a: seq<Id>, b: seq<Id>, throwing: set<Id>, catchError: bool)
    ensures Caught(a + b, throwing, catchError) == Caught(a, throwing, catchError) + Caught(b, throwing, catchError)
    decreases |b|
  {
    if b == [] {
      assert a + b == a;
    } else {
      assert (a + b)[..|a + b| - 1] == a + b[..|b| - 1];
      CaughtConcat(a, b[..|b| - 1], throwing, catchError);
    }
  }

  /** What the global handler hears: each caught error, when its module runs. */
  ghost predicate Heard(s: State, t: State, throwing: set<Id>, catchError: bool) {
    && s.runs <= t.runs
    && t.globalErrors == s.globalErrors + Caught(t.runs[|s.runs|..], throwing, catchError)
  }

  lemma HeardTransitive(s: State, t: State, u: State, throwing: set<Id>, catchError: bool)
    requires Heard(s, t, throwing, catchError) && Heard(t, u, throwing, catchError)
    ensures Heard(s, u, throwing, catchError)
  {
    assert u.runs[|s.runs|..] == t.runs[|s.runs|..] + u.runs[|t.runs|..];
    CaughtConcat(t.runs[|s.runs|..], u.runs[|t.runs|..], throwing, catchError);
  }

  /** A completion cascade: a module changes only its counter, or it runs. */
  ghost predicate Cascade(s: State, t: State, throwing: set<Id>, catchError: bool) {
    && Extends(s, t) && OnlyRuns(s, t) && Thrown(s, t, throwing, catchError) && Heard(s, t, throwing, catchError)
    && t.mods.Keys == s.mods.Keys && t.known == s.known && t.declared == s.declared && t.cut == s.cut
    && t.errorbackCalls == s.errorbackCalls && t.requests == s.requests && NoNewWaits(s, t)
    && (forall m :: m in s.mods ==> CascadeMod(m, s.mods[m], t.mods[m], m in throwing, catchError))
  }

  ghost predicate NoNewWaits(s: State, t: State) {
    forall m, d :: m in WaitersOf(t.inverse, d) ==> m in WaitersOf(s.inverse, d)
  }

  /** The record of m is as before but for counting down; or m ran to its end, and a caught
      throw is its error; or its run was aborted. */
  ghost predicate CascadeMod(m: Id, a: Mod, b: Mod, throws: bool, catchError: bool) {
    && b.count <= a.count
    && (|| b == a.(count := b.count)
        || (!a.complete && (throws ==> catchError)
            && b == Mod(None, b.count, true, if throws then Some(FactoryFailure(m)) else a.error, false))
        || (!a.complete && throws && !catchError && b == a.(count := b.count, complete := true)))
  }

  lemma CascadeReflexive(s: State, throwing: set<Id>, catchError: bool)
    ensures Cascade(s, s, throwing, catchError)
  {
  }

  lemma ThrownTransitive(s: State, t: State, u: State, throwing: set<Id>, catchError: bool)
    requires Thrown(s, t, throwing, catchError) && Thrown(t, u, throwing, catchError)
    requires Extends(s, t) && Extends(t, u) && t.aborted == s.aborted
    ensures Thrown(s, u, throwing, catchError)
  {
  }

  lemma CascadeTransitive(s: State, t: State, u: State, throwing: set<Id>, catchError: bool)
    requires Cascade(s, t, throwing, catchError) && Cascade(t, u, throwing, catchError) && t.aborted == s.aborted
    ensures Cascade(s, u, throwing, catchError) && (forall m :: m in t.runs ==> m in u.runs)
  {
    assert Extends(t, u);
    assert forall m :: m in t.runs ==> m in u.runs;
    hide Extends, OnlyRuns, Thrown, CascadeMod, Heard;
    OnlyRunsTransitive(s, t, u);
    ExtendsTransitive(s, t, u);
    ThrownTransitive(s, t, u, throwing, catchError);
    HeardTransitive(s, t, u, throwing, catchError);
    forall m | m in s.mods
      ensures CascadeMod(m, s.mods[m], u.mods[m], m in throwing, catchError)
    {
      CascadeModTransitive(m, s.mods[m], t.mods[m], u.mods[m], m in throwing, catchError);
    }
  }

  lemma CascadeRuns(s: State, t: State, throwing: set<Id>, catchError: bool)
    requires Cascade(s, t, throwing, catchError)
    ensures s.runs <= t.runs
  {
  }

  lemma CascadeModTransitive(m: Id, a: Mod, b: Mod, c: Mod, throws: bool, catchError: bool)
    requires CascadeMod(m, a, b, throws, catchError) && CascadeMod(m, b, c, throws, catchError)
    ensures CascadeMod(m, a, c, throws, catchError)
  {
  }

  lemma RunOnlyRuns(s: State, m: Id, throws: bool)
    requires Incomplete(s, m) && RecordsOk(s)
    ensures OnlyRuns(s, RunModule(s, m, throws))
  {
    var t := RunModule(s, m, throws);
    NotRunYet(s, m);
    forall x, d | x in WaitersOf(t.inverse, d)
      ensures x in WaitersOf(s.inverse, d)
    {
    }
  }

  lemma RunHeard(s: State, m: Id, throwing: set<Id>, catchError: bool)
    requires m in s.mods && (m in throwing ==> catchError)
    ensures Heard(s, RunModule(s, m, m in throwing), throwing, catchError)
  {
    var t := RunModule(s, m, m in throwing);
    assert t.runs[|s.runs|..] == [m] && [m][..0] == [];
  }

  lemma AbortHeard(s: State, todo: multiset<Id>, m: Id, throwing: set<Id>)
    requires m in s.mods
    ensures Heard(s, AbortModule(s, m, todo), throwing, false)
  {
    var t := AbortModule(s, m, todo);
    assert t.runs[|s.runs|..] == [m] && [m][..0] == [];
  }

  lemma RunMods(s: State, m: Id, throwing: set<Id>, catchError: bool)
    requires Incomplete(s, m) && RecordsOk(s) && (m in throwing ==> catchError)
    ensures var t := RunModule(s, m, m in throwing);
      && t.mods.Keys == s.mods.Keys && NoNewWaits(s, t) && Thrown(s, t, throwing, catchError)
      && (forall x :: x in s.mods ==> CascadeMod(x, s.mods[x], t.mods[x], x in throwing, catchError))
  {
    NotRunYet(s, m);
    hide RecordsOk;
  }

  lemma RunCascade(s: State, m: Id, throwing: set<Id>, catchError: bool)
    requires Incomplete(s, m) && RecordsOk(s) && Extends(s, RunModule(s, m, m in throwing))
    requires m in throwing ==> catchError
    ensures Cascade(s, RunModule(s, m, m in throwing), throwing, catchError)
    ensures RunModule(s, m, m in throwing).aborted == s.aborted
  {
    hide RecordsOk, Extends, OnlyRuns, Heard, Thrown, NoNewWaits, CascadeMod;
    RunMods(s, m, throwing, catchError);
    RunOnlyRuns(s, m, m in throwing);
    RunHeard(s, m, throwing, catchError);
  }

  lemma AbortMods(s: State, todo: multiset<Id>, m: Id, throwing: set<Id>)
    requires Incomplete(s, m) && RecordsOk(s) && m in throwing
    ensures var t := AbortModule(s, m, todo);
      && t.mods.Keys == s.mods.Keys && NoNewWaits(s, t) && Thrown(s, t, throwing, false) && OnlyRuns(s, t)
      && t.aborted != s.aborted
      && (forall x :: x in s.mods ==> CascadeMod(x, s.mods[x], t.mods[x], x in throwing, false))
  {
    var t := AbortModule(s, m, todo);
    NotRunYet(s, m);
    hide RecordsOk;
    assert m in t.aborted && t.runs[|t.runs| - 1] == m;
  }

  lemma AbortCascade(s: State, todo: multiset<Id>, m: Id, throwing: set<Id>, catchError: bool)
    requires Incomplete(s, m) && RecordsOk(s) && Extends(s, AbortModule(s, m, todo))
    requires m in throwing && !catchError
    ensures Cascade(s, AbortModule(s, m, todo), throwing, catchError)
    ensures AbortModule(s, m, todo).aborted != s.aborted && todo <= AbortModule(s, m, todo).lost
  {
    hide RecordsOk, Extends, OnlyRuns, Heard, Thrown, NoNewWaits, CascadeMod;
    AbortMods(s, todo, m, throwing);
    AbortHeard(s, todo, m, throwing);
  }

  lemma NothingHeard(t: State, u: State, throwing: set<Id>, catchError: bool)
    requires u.runs == t.runs && u.globalErrors == t.globalErrors
    ensures Heard(t, u, throwing, catchError)
  {
    assert u.runs[|t.runs|..] == [];
  }

  lemma CountDownOnly(t: State, m: Id, throwing: set<Id>, catchError: bool)
    requires m in t.mods && Extends(t, CountDown(t, m))
    ensures Cascade(t, CountDown(t, m), throwing, catchError)
  {
    hide Extends, Heard;
    var u := CountDown(t, m);
    NothingHeard(t, u, throwing, catchError);
    forall x | x in t.mods
      ensures CascadeMod(x, t.mods[x], u.mods[x], x in throwing, catchError)
    {
    }
  }

  lemma CountDownCascade(s: State, t: State, m: Id, throwing: set<Id>, catchError: bool)
    requires Cascade(s, t, throwing, catchError) && t.aborted == s.aborted
    requires m in t.mods && Extends(t, CountDown(t, m))
    ensures Cascade(s, CountDown(t, m), throwing, catchError) && CountDown(t, m).runs == t.runs
    ensures CountDown(t, m).aborted == s.aborted
  {
    hide Cascade, Extends;
    CountDownOnly(t, m, throwing, catchError);
    CascadeTransitive(s, t, CountDown(t, m), throwing, catchError);
  }

  // ---------- resolving ----------

  /** A dependency that makes resolving fail: a module complete with an error. */
  ghost predicate DepFailed(s: State, d: Dep) {
    d.Regular? && d.target in s.mods && s.mods[d.target].complete && s.mods[d.target].error.Some?
  }

  ghost predicate FailsToResolve(s: State, deps: seq<Dep>) {
    exists d :: d in deps && DepFailed(s, d)
  }

  /** Somebody who is still incomplete waits for m. */
  ghost predicate HasLiveWaiter(s: State, m: Id) {
    exists x :: x in WaitersOf(s.inverse, m) && Incomplete(s, x)
  }

  /** Only dependencies of m were newly requested. */
  ghost predicate RequestsOnly(s: State, t: State, m: Id) {
    m in s.mods && s.mods[m].deps.Some? ==> t.known <= s.known + Targets(s.mods[m].deps.value)
  }

  /** While m is resolved, only m's counter and the places m waits at change. */
  ghost predicate Visiting(s: State, t: State, m: Id) {
    && Extends(s, t) && OnlyRuns(s, t)
    && t.mods.Keys == s.mods.Keys && t.declared == s.declared && t.runs == s.runs
    && t.aborted == s.aborted && t.lost == s.lost
    && t.errorbackCalls == s.errorbackCalls && t.globalErrors == s.globalErrors
    && (forall x :: x in s.mods && x != m ==> t.mods[x] == s.mods[x])
    && (m in s.mods ==> t.mods[m] == s.mods[m].(count := t.mods[m].count) && t.mods[m].count <= s.mods[m].count)
    && RequestsOnly(s, t, m)
    && (forall x, d :: x in WaitersOf(s.inverse, d) ==> x in WaitersOf(t.inverse, d))
    && (forall x, d :: x != m && x in WaitersOf(t.inverse, d) ==> x in WaitersOf(s.inverse, d))
    && WaitsAppended(s, t, m) && WaitersOf(t.inverse, m) == WaitersOf(s.inverse, m)
  }

  /** m joined inverse lists at their ends. */
  ghost predicate WaitsAppended(s: State, t: State, m: Id) {
    forall d :: JoinedBy(WaitersOf(s.inverse, d), WaitersOf(t.inverse, d), m)
  }

  ghost predicate JoinedBy(was: seq<Id>, now: seq<Id>, m: Id) {
    was <= now && forall k :: |was| <= k < |now| ==> now[k] == m
  }

  lemma WaitsAppendedTransitive(s: State, t: State, u: State, m: Id)
    requires WaitsAppended(s, t, m) && WaitsAppended(t, u, m)
    ensures WaitsAppended(s, u, m)
  {
    forall d
      ensures JoinedBy(WaitersOf(s.inverse, d), WaitersOf(u.inverse, d), m)
    {
      assert JoinedBy(WaitersOf(s.inverse, d), WaitersOf(t.inverse, d), m);
      assert JoinedBy(WaitersOf(t.inverse, d), WaitersOf(u.inverse, d), m);
    }
  }

  lemma VisitingReflexive(s: State, m: Id)
    ensures Visiting(s, s, m)
  {
  }

  lemma VisitingTransitive(s: State, t: State, u: State, m: Id)
    requires Visiting(s, t, m) && Visiting(t, u, m)
    ensures Visiting(s, u, m)
  {
    OnlyRunsTransitive(s, t, u);
    WaitsAppendedTransitive(s, t, u, m);
    ExtendsTransitive(s, t, u);
    hide OnlyRuns, WaitsAppended, Extends;
  }

  lemma VisitingCountDown(s: State, m: Id)
    requires m in s.mods && Extends(s, CountDown(s, m))
    ensures Visiting(s, CountDown(s, m), m)
  {
  }

  lemma VisitingCut(s: State, m: Id, d: Id)
    requires m in s.mods && Extends(s, Cut(s, m, d))
    ensures Visiting(s, Cut(s, m, d), m)
  {
  }

  lemma VisitingAwait(s: State, m: Id, d: Id)
    requires Extends(s, Await(s, m, d)) && !(d in s.mods && s.mods[d].complete)
    requires m in s.mods && s.mods[m].deps.Some? && Regular(d) in s.mods[m].deps.value
    requires d != m
    ensures Visiting(s, Await(s, m, d), m)
  {
    assert DepId(Regular(d)) in Targets(s.mods[m].deps.value);
  }

  /** A module that has not completed has not run; one that completed without an error
      has. */
  lemma CompleteVersusRan(s: State, todo: multiset<Id>, current: Option<Id>, d: Id)
    requires Inv(s, todo, current)
    ensures d in s.mods && s.mods[d].complete && s.mods[d].error.None? ==> d in s.runs
    ensures !(d in s.mods && s.mods[d].complete) ==> d !in s.runs
  {
    if d in s.mods {
      assert RecordOk(s, d);
    }
  }

  /** A visit to a dependency that needs no waiting for. */
  lemma VisitSkips(s: State, k: nat, m: Id, d: Dep)
    requires Inv(s, Visits(m, k + 1), Some(m)) && Incomplete(s, m)
    requires d.Regular? ==> d.target in s.mods && s.mods[d.target].complete && s.mods[d.target].error.None?
    ensures Inv(CountDown(s, m), Visits(m, k), Some(m)) && Visiting(s, CountDown(s, m), m)
    ensures Settled(CountDown(s, m), m, d) && !DepFailed(s, d)
  {
    hide Inv, Visiting, Extends;
    assert Visits(m, k + 1) - multiset{m} == Visits(m, k);
    CountDownKeeps(s, Visits(m, k + 1), Some(m), m);
    VisitingCountDown(s, m);
    if d.Regular? {
      CompleteVersusRan(s, Visits(m, k + 1), Some(m), d.target);
    }
  }

  /** A visit to a dependency that leads back to m. */
  lemma VisitCuts(s: State, k: nat, m: Id, d: Id)
    requires Inv(s, Visits(m, k + 1), Some(m)) && Incomplete(s, m) && !(d in s.mods && s.mods[d].complete)
    requires s.mods[m].deps.Some? && Regular(d) in s.mods[m].deps.value && HasPath(DepGraph(s), d, m)
    ensures Inv(Cut(s, m, d), Visits(m, k), Some(m)) && Visiting(s, Cut(s, m, d), m)
    ensures Settled(Cut(s, m, d), m, Regular(d)) && !DepFailed(s, Regular(d))
  {
    hide Inv, Visiting, Extends, HasPath;
    assert Visits(m, k + 1) - multiset{m} == Visits(m, k);
    CutKeeps(s, Visits(m, k + 1), Some(m), m, d);
    VisitingCut(s, m, d);
  }

  lemma NotItself(s: State, m: Id, d: Id)
    requires m in s.mods && s.mods[m].deps.Some? && Regular(d) in s.mods[m].deps.value
    requires !HasPath(DepGraph(s), d, m)
    ensures d != m
  {
    if d == m {
      assert DepId(Regular(d)) in Targets(s.mods[m].deps.value);
      EdgePath(DepGraph(s), m, d);
    }
  }

  /** A visit to a dependency m has to wait for. */
  lemma VisitAwaits(s: State, k: nat, m: Id, d: Id)
    requires Inv(s, Visits(m, k + 1), Some(m)) && Incomplete(s, m) && !(d in s.mods && s.mods[d].complete)
    requires s.mods[m].deps.Some? && Regular(d) in s.mods[m].deps.value && !HasPath(DepGraph(s), d, m)
    ensures Inv(Await(s, m, d), Visits(m, k), Some(m)) && Visiting(s, Await(s, m, d), m)
    ensures Settled(Await(s, m, d), m, Regular(d)) && !DepFailed(s, Regular(d))
  {
    hide Inv, Visiting, Extends, HasPath;
    assert Visits(m, k + 1) - multiset{m} == Visits(m, k);
    CompleteVersusRan(s, Visits(m, k + 1), Some(m), d);
    AwaitKeeps(s, Visits(m, k + 1), Some(m), m, d);
    NotItself(s, m, d);
    VisitingAwait(s, m, d);
    assert m in WaitersOf(Await(s, m, d).inverse, d);
  }

  /** A visit that meets a failed dependency. */
  lemma VisitFails(s: State, m: Id, d: Id)
    requires d in s.mods && s.mods[d].complete && s.mods[d].error.Some?
    ensures DepFailed(s, Regular(d)) && Visiting(s, s, m)
  {
  }

  /** What was settled before a visit still is, and nobody else became ready. */
  lemma VisitingKeeps(s: State, t: State, m: Id)
    requires Visiting(s, t, m) && AllWaiting(s, Some(m))
    ensures AllWaiting(t, Some(m)) && (Incomplete(s, m) ==> Incomplete(t, m) && t.mods[m].deps == s.mods[m].deps)
    ensures forall d :: Settled(s, m, d) ==> Settled(t, m, d)
    ensures forall d :: DepFailed(t, d) <==> DepFailed(s, d)
    ensures forall d :: DepFailed(s, d) ==>
      d.Regular? && d.target in s.mods && d.target in t.mods && t.mods[d.target].error == s.mods[d.target].error
  {
  }

  /** Once all dependencies of m are settled, m is held to the invariant like all others. */
  lemma ResolvedInv(s: State, m: Id)
    requires Inv(s, Visits(m, 0), Some(m)) && Incomplete(s, m)
    requires forall d :: d in s.mods[m].deps.value ==> Settled(s, m, d)
    ensures Inv(s, multiset{}, None) && s.mods[m].count >= 0
  {
    assert Visits(m, 0) == multiset{};
  }

  ghost predicate OthersWait(s: State, u: State, m: Id) {
    forall x, d :: x != m ==> (x in WaitersOf(u.inverse, d) <==> x in WaitersOf(s.inverse, d))
  }

  /** Resolving m failed: m takes over the error of the first of its dependencies that had
      failed, and no other module is touched. */
  ghost predicate ResolveFailed(s: State, u: State, m: Id, deps: seq<Dep>) {
    && m in s.mods && u.mods.Keys == s.mods.Keys && u.runs == s.runs && u.declared == s.declared
    && u.aborted == s.aborted && u.lost == s.lost && RequestsOnly(s, u, m) && OthersWait(s, u, m)
    && u.globalErrors == s.globalErrors
    && (forall x :: x in s.mods && x != m ==> u.mods[x] == s.mods[x])
    && (exists i :: 0 <= i < |deps| && FirstFailed(s, deps, i) && FailedLike(s, u, m, deps[i]))
  }

  ghost predicate FirstFailed(s: State, deps: seq<Dep>, i: nat)
    requires i < |deps|
  {
    DepFailed(s, deps[i]) && forall j :: 0 <= j < i ==> !DepFailed(s, deps[j])
  }

  ghost predicate FailedLike(s: State, u: State, m: Id, d: Dep)
    requires DepFailed(s, d) && m in s.mods && m in u.mods
  {
    var err := s.mods[d.target].error;
    && u.mods[m] == s.mods[m].(complete := true, error := err, count := u.mods[m].count)
    && u.errorbackCalls == s.errorbackCalls + if s.mods[m].errorback then [(m, err.value)] else []
  }

  /** Resolving went through, or a factory threw on the way: modules changed only as in a
      cascade, and only m counted its visits; if m has to wait nothing ran. */
  ghost predicate Resolved(s: State, u: State, m: Id, throwing: set<Id>, catchError: bool) {
    && OnlyRuns(s, u) && Thrown(s, u, throwing, catchError) && Heard(s, u, throwing, catchError)
    && u.declared == s.declared && RequestsOnly(s, u, m)
    && u.mods.Keys == s.mods.Keys && u.errorbackCalls == s.errorbackCalls
    && (forall x :: x in s.mods ==> CascadeMod(x, s.mods[x], u.mods[x], x in throwing, catchError))
    && (Incomplete(u, m) ==> Visiting(s, u, m))
  }

  lemma SomethingFailed(s: State, deps: seq<Dep>, i: nat)
    requires i < |deps| && DepFailed(s, deps[i])
    ensures FailsToResolve(s, deps) && deps[i] in deps
  {
  }

  lemma NothingFailed(s: State, deps: seq<Dep>)
    requires forall k :: 0 <= k < |deps| ==> !DepFailed(s, deps[k])
    ensures !FailsToResolve(s, deps)
  {
  }

  lemma QuiescentParts(s: State)
    requires Inv(s, multiset{}, None) && AllWaiting(s, None)
    ensures Quiescent(s) && RecordsOk(s) && WaitersOk(s)
  {
  }

  lemma ResolveFailedNow(s: State, t: State, m: Id, deps: seq<Dep>, i: nat, err: Failure)
    requires Visiting(s, t, m) && m in s.mods && Incomplete(t, m)
    requires i < |deps| && FirstFailed(s, deps, i) && s.mods[deps[i].target].error == Some(err)
    ensures ResolveFailed(s, FailModule(t, m, err), m, deps)
  {
    hide WaitsAppended, Extends, OnlyRuns;
    assert FailedLike(s, FailModule(t, m, err), m, deps[i]);
  }

  lemma ResolveFails(s: State, t: State, m: Id, k: nat, deps: seq<Dep>, i: nat, err: Failure)
    requires Visiting(s, t, m) && Incomplete(t, m) && m in s.mods
    requires Inv(t, Visits(m, k), Some(m)) && AllWaiting(t, Some(m))
    requires i < |deps| && FirstFailed(s, deps, i) && s.mods[deps[i].target].error == Some(err)
    ensures Quiescent(FailModule(t, m, err)) && Extends(s, FailModule(t, m, err))
    ensures ResolveFailed(s, FailModule(t, m, err), m, deps) && FailModule(t, m, err).aborted == s.aborted
    ensures FailModule(t, m, err).requests == t.requests && FailModule(t, m, err).runs == s.runs
  {
    assert Extends(s, t) && t.aborted == s.aborted && t.runs == s.runs;
    hide Inv, ResolveFailed, Quiescent, AllWaiting, Visiting, Extends;
    ResolveFailedNow(s, t, m, deps, i, err);
    FailKeeps(t, m, k, err);
    ExtendsTransitive(s, t, FailModule(t, m, err));
  }

  lemma VisitedThenRan(s: State, t: State, u: State, m: Id, throwing: set<Id>, catchError: bool)
    requires Visiting(s, t, m) && Cascade(t, u, throwing, catchError)
    ensures Extends(s, u) && OnlyRuns(s, u) && Thrown(s, u, throwing, catchError) && Heard(s, u, throwing, catchError)
    ensures u.aborted == t.aborted <==> u.aborted == s.aborted
  {
    assert Extends(s, t) && OnlyRuns(s, t) && Extends(t, u) && OnlyRuns(t, u) && Heard(t, u, throwing, catchError);
    assert t.runs == s.runs && t.aborted == s.aborted && t.lost == s.lost && t.globalErrors == s.globalErrors;
    hide Visiting, Cascade, Extends, OnlyRuns, Heard;
    NothingHeard(s, t, throwing, catchError);
    HeardTransitive(s, t, u, throwing, catchError);
    ExtendsTransitive(s, t, u);
    OnlyRunsTransitive(s, t, u);
    CascadeThrown(t, u, throwing, catchError);
  }

  lemma CascadeThrown(s: State, t: State, throwing: set<Id>, catchError: bool)
    requires Cascade(s, t, throwing, catchError)
    ensures Thrown(s, t, throwing, catchError)
  {
  }

  /** What visiting and then running did to one module. */
  lemma VisitedMod(s: State, t: State, u: State, m: Id, throwing: set<Id>, catchError: bool, x: Id)
    requires Visiting(s, t, m) && Cascade(t, u, throwing, catchError) && x in s.mods
    ensures x in t.mods && x in u.mods && CascadeMod(x, s.mods[x], u.mods[x], x in throwing, catchError)
  {
    hide Extends, OnlyRuns, RequestsOnly, Thrown, Heard, NoNewWaits, WaitsAppended;
    assert CascadeMod(x, s.mods[x], t.mods[x], x in throwing, catchError);
    CascadeModTransitive(x, s.mods[x], t.mods[x], u.mods[x], x in throwing, catchError);
  }

  /** Only a module whose throw was caught has a new error. */
  lemma OnlyThrowersFail(m: Id, a: Mod, u: State, throws: bool, catchError: bool)
    requires RecordsOk(u) && m in u.mods && CascadeMod(m, a, u.mods[m], throws, catchError)
    requires u.mods[m].error != a.error
    ensures throws && catchError && m in u.runs
  {
    assert RecordOk(u, m);
  }

  lemma VisitedKeys(s: State, t: State, u: State, m: Id, throwing: set<Id>, catchError: bool)
    requires Visiting(s, t, m) && Cascade(t, u, throwing, catchError)
    ensures u.declared == s.declared && RequestsOnly(s, u, m) && u.requests == t.requests
    ensures u.mods.Keys == s.mods.Keys && u.errorbackCalls == s.errorbackCalls
  {
    hide Extends, OnlyRuns, Thrown, Heard, WaitsAppended, NoNewWaits;
  }

  lemma ResolveSucceeds(s: State, t: State, u: State, m: Id, throwing: set<Id>, catchError: bool)
    requires Visiting(s, t, m) && Cascade(t, u, throwing, catchError)
    requires Incomplete(u, m) ==> u == t
    ensures Extends(s, u) && Resolved(s, u, m, throwing, catchError) && u.requests == t.requests
    ensures u.aborted == t.aborted <==> u.aborted == s.aborted
  {
    hide Visiting, Cascade, CascadeMod, Extends, OnlyRuns, RequestsOnly, Thrown, Heard;
    VisitedThenRan(s, t, u, m, throwing, catchError);
    VisitedKeys(s, t, u, m, throwing, catchError);
    forall x | x in s.mods
      ensures CascadeMod(x, s.mods[x], u.mods[x], x in throwing, catchError)
    {
      VisitedMod(s, t, u, m, throwing, catchError, x);
    }
  }

  /** What defining a new module does. */
  ghost predicate Defined(s: State, u: State, m: Id, deps: seq<Dep>, errorback: bool, throwing: set<Id>,
      catchError: bool) {
    var r := Register(s, m, deps, errorback);
    if FailsToResolve(s, deps) then ResolveFailed(r, u, m, deps) else Resolved(r, u, m, throwing, catchError)
  }

  /** Registering m changes nothing that resolving it will look at. */
  lemma Registered(s: State, m: Id, deps: seq<Dep>, errorback: bool)
    requires Quiescent(s) && m !in s.mods
    ensures var r := Register(s, m, deps, errorback);
      && Inv(r, Visits(m, |deps|), Some(m)) && AllWaiting(r, Some(m)) && RecordsOk(r) && WaitersOk(r)
      && Extends(s, r) && Incomplete(r, m) && r.mods[m].deps == Some(deps) && r.aborted == s.aborted
      && (FailsToResolve(r, deps) <==> FailsToResolve(s, deps))
  {
    hide RecordsOk, WaitersOk, CountersOk, SettledOk, CutsOk, OrderOk, Acyclic, WaitGraph, Extends, AllWaiting, Visits;
    RegisterKeeps(s, m, deps, errorback);
    RegisteredFails(s, m, deps, errorback);
  }

  lemma RegisteredFails(s: State, m: Id, deps: seq<Dep>, errorback: bool)
    requires m !in s.mods
    ensures FailsToResolve(Register(s, m, deps, errorback), deps) <==> FailsToResolve(s, deps)
  {
    assert forall d :: DepFailed(Register(s, m, deps, errorback), d) <==> DepFailed(s, d);
  }

  /** A module that is only just registered waits nowhere, and the others wait as before. */
  lemma RegisteredStuck(s: State, m: Id, deps: seq<Dep>, errorback: bool, x: Id)
    requires Quiescent(s) && m !in s.mods
    ensures var r := Register(s, m, deps, errorback); Stuck(r, x) <==> Stuck(s, x)
    ensures !Stuck(s, m) && m !in s.lost && forall d :: m !in WaitersOf(s.inverse, d)
  {
    var r := Register(s, m, deps, errorback);
    NotWaiting(s, m);
    assert m !in s.lost by {
      assert m in s.lost ==> Pending(s, m);
    }
    forall d
      ensures StrandedOn(r, x, d) <==> StrandedOn(s, x, d)
    {
      if x in WaitersOf(s.inverse, d) {
        assert WaiterOk(s, x, d);
      }
    }
  }

  lemma DefinedAfter(s: State, u: State, m: Id, deps: seq<Dep>, errorback: bool, throwing: set<Id>, catchError: bool)
    requires Quiescent(s) && m !in s.mods && Extends(Register(s, m, deps, errorback), u)
    requires var r := Register(s, m, deps, errorback);
      if FailsToResolve(r, deps) then ResolveFailed(r, u, m, deps) else Resolved(r, u, m, throwing, catchError)
    ensures Extends(s, u) && Defined(s, u, m, deps, errorback, throwing, catchError) && m in u.mods
  {
    hide Inv, ResolveFailed, Resolved;
    Registered(s, m, deps, errorback);
    ExtendsTransitive(s, Register(s, m, deps, errorback), u);
  }

  lemma DefinedWithoutFailures(s: State, u: State, m: Id, deps: seq<Dep>, errorback: bool, catchError: bool)
    requires NoFailures(s) && m !in s.mods && Defined(s, u, m, deps, errorback, {}, catchError)
    ensures NoFailures(u)
  {
  }

  // ---------- who gets stuck ----------

  /** A throw between s and u left x behind: x waits for the thrower, or it was in the
      unprocessed tail of a frame that the throw left. */
  ghost predicate NewlyStuck(s: State, u: State, x: Id) {
    && Incomplete(u, x)
    && (x in u.lost - s.lost || exists d :: d in u.aborted && d !in s.aborted && x in WaitersOf(u.inverse, d))
  }

  /** Running modules frees nobody who is stuck. */
  lemma StaysStuck(s: State, u: State, todo: multiset<Id>, x: Id)
    requires CountersOk(s, todo) && CountersOk(u, multiset{}) && WaitersOk(s) && WaitersOk(u)
    requires OnlyRuns(s, u) && Extends(s, u) && Stuck(s, x)
    ensures Stuck(u, x)
  {
    if x in s.lost {
      assert Pending(u, x);
    } else {
      var d :| StrandedOn(s, x, d);
      assert WaiterOk(s, x, d);
      assert x in WaitersOf(u.inverse, d) && WaiterOk(u, x, d);
      assert StrandedOn(u, x, d);
    }
  }

  /** Running modules makes nobody stuck, except by a throw that nobody catches. */
  lemma StuckByThrow(s: State, u: State, todo: multiset<Id>, x: Id)
    requires CountersOk(s, todo) && RecordsOk(s) && WaitersOk(s) && WaitersOk(u)
    requires OnlyRuns(s, u) && Extends(s, u) && Stuck(u, x)
    ensures Stuck(s, x) || NewlyStuck(s, u, x)
  {
    if x in u.lost && x !in u.lost - s.lost {
      assert x in s.lost && Pending(s, x);
    } else if x !in u.lost {
      var d :| StrandedOn(u, x, d);
      assert WaiterOk(u, x, d);
      if d in s.aborted {
        assert d in s.mods && RecordOk(s, d);
      }
      if !(d in u.aborted && d !in s.aborted) {
        assert d in s.mods && s.mods[d].complete;
        assert WaiterOk(s, x, d) && StrandedOn(s, x, d);
      }
    }
  }

  lemma NewlyStuckIsStuck(s: State, u: State, x: Id)
    requires RecordsOk(u) && NewlyStuck(s, u, x)
    ensures Stuck(u, x)
  {
    if x !in u.lost - s.lost {
      var d :| d in u.aborted && d !in s.aborted && x in WaitersOf(u.inverse, d);
      assert d in u.mods && RecordOk(u, d);
      assert StrandedOn(u, x, d);
    }
  }

  /** The early return makes stuck exactly those incomplete modules that wait for m. */
  lemma StuckByFailure(s: State, u: State, m: Id, deps: seq<Dep>, x: Id)
    requires WaitersOk(s) && ResolveFailed(s, u, m, deps) && Incomplete(s, m) && m !in s.lost
    requires forall d :: m !in WaitersOf(s.inverse, d)
    ensures Stuck(u, x) <==> Stuck(s, x) || (x in WaitersOf(s.inverse, m) && Incomplete(s, x))
  {
    assert u.mods[m].complete;
    forall d
      ensures StrandedOn(u, x, d) <==>
        x != m && (StrandedOn(s, x, d) || (d == m && x in WaitersOf(s.inverse, m) && Incomplete(s, x)))
    {
      assert x in WaitersOf(s.inverse, d) ==> WaiterOk(s, x, d);
    }
    if x in WaitersOf(s.inverse, m) && Incomplete(s, x) {
      assert StrandedOn(u, x, m);
    }
    assert x != m && x in s.mods ==> (Incomplete(u, x) <==> Incomplete(s, x));
    if Stuck(s, x) && x !in s.lost {
      var d :| StrandedOn(s, x, d);
      assert StrandedOn(u, x, d);
    }
  }

  datatype Event = Define(id: Id, deps: seq<Dep>, errorback: bool) | LoadError(script: Id)

  /** The event leaves x behind: x waits for a module that fails as soon as it is defined,
      because one of its dependencies had failed; or a factory throws and x is stuck by it. */
  ghost predicate LeftBehind(s: State, e: Event, u: State, x: Id) {
    && e.Define? && e.id !in s.mods
    && if FailsToResolve(s, e.deps) then x in WaitersOf(s.inverse, e.id) && Incomplete(s, x) else NewlyStuck(s, u, x)
  }

  /** The event is a load error that marks x. */
  ghost predicate Reached(s: State, e: Event, x: Id) {
    e.LoadError? && x in Affected(Requested(s, e.script), e.script)
  }

  /** A definition makes stuck exactly the modules it leaves behind, and frees nobody. */
  lemma StuckAfterDefinition(s: State, u: State, m: Id, deps: seq<Dep>, errorback: bool,
                             throwing: set<Id>, catchError: bool, x: Id)
    requires Quiescent(s) && Quiescent(u) && m !in s.mods && Extends(Register(s, m, deps, errorback), u)
    requires Defined(s, u, m, deps, errorback, throwing, catchError)
    ensures Stuck(u, x) <==> Stuck(s, x) || LeftBehind(s, Define(m, deps, errorback), u, x)
  {
    var r := Register(s, m, deps, errorback);
    Registered(s, m, deps, errorback);
    RegisteredStuck(s, m, deps, errorback, x);
    hide RecordsOk, WaitersOk, SettledOk, CutsOk, OrderOk, Acyclic, WaitGraph, Stuck, NewlyStuck, Extends, CountersOk;
    if FailsToResolve(s, deps) {
      StuckByFailure(r, u, m, deps, x);
      RegisteredWaits(s, m, deps, errorback, x);
    } else {
      if Stuck(r, x) {
        StaysStuck(r, u, Visits(m, |deps|), x);
      } else if Stuck(u, x) {
        StuckByThrow(r, u, Visits(m, |deps|), x);
      }
      SameNewlyStuck(s, r, u, x);
      if NewlyStuck(r, u, x) {
        NewlyStuckIsStuck(r, u, x);
      }
    }
  }

  lemma RegisteredWaits(s: State, m: Id, deps: seq<Dep>, errorback: bool, x: Id)
    requires WaitersOk(s) && m !in s.mods
    ensures var r := Register(s, m, deps, errorback);
      x in WaitersOf(r.inverse, m) && Incomplete(r, x) <==> x in WaitersOf(s.inverse, m) && Incomplete(s, x)
  {
    assert x in WaitersOf(s.inverse, m) ==> WaiterOk(s, x, m);
  }

  lemma SameNewlyStuck(s: State, r: State, u: State, x: Id)
    requires r.lost == s.lost && r.aborted == s.aborted
    ensures NewlyStuck(r, u, x) <==> NewlyStuck(s, u, x)
  {
  }

  // ---------- load errors ----------

  /** Each affected module with an errorback is called once, nobody else is. */
  ghost predicate CallsExactly(s: State, reached: set<Id>, err: Failure, calls: seq<(Id, Failure)>) {
    && Distinct(calls)
    && (forall x, e :: (x, e) in calls <==> e == err && x in reached && x in s.mods && s.mods[x].errorback)
  }

  /** The state in which a load error of m is spread: m has a record. */
  function Requested(s: State, m: Id): State {
    if m in s.mods then s else Register(s, m, [], false)
  }

  /** What a load error of m does: exactly the affected modules are marked failed, their
      errorbacks are called once each, and the global handler hears of it iff there was
      no errorback to call. */
  ghost predicate LoadErrorSpread(s: State, u: State, m: Id, calls: seq<(Id, Failure)>) {
    var r := Requested(s, m);
    && CallsExactly(r, Affected(r, m), LoadFailure(m), calls)
    && u == Notify(FailModules(r, Affected(r, m), LoadFailure(m), calls), if calls == [] then [LoadFailure(m)] else [])
  }

  /** The part of the walk that is done: `reached` is failed, `calls` were made. */
  ghost predicate FailedSoFar(s: State, t: State, reached: set<Id>, err: Failure, calls: seq<(Id, Failure)>) {
    t == FailModules(s, reached, err, calls) && CallsExactly(s, reached, err, calls)
  }

  /** The walk starts at m, which is registered by then. */
  lemma LoadErrorStarts(s: State, r: State, m: Id)
    requires Quiescent(s) && r == Requested(s, m)
    ensures m in r.mods && WaitersOk(r) && FailedSoFar(r, r, {}, LoadFailure(m), [])
    ensures Explored(InverseGraph(r), m, {m}, {})
  {
    hide RecordsOk, CountersOk, SettledOk, CutsOk, OrderOk, Acyclic, WaitGraph, Extends, AllWaiting, Visits, HasPath;
    assert FailModules(r, {}, LoadFailure(m), []).mods == r.mods;
    if m !in s.mods {
      Registered(s, m, [], false);
    }
  }

  lemma FailsNext(s: State, t: State, reached: set<Id>, err: Failure, calls: seq<(Id, Failure)>, x: Id)
    requires FailedSoFar(s, t, reached, err, calls) && x in s.mods && x !in reached
    ensures x in t.mods && FailModule(t, x, err).inverse == s.inverse && t.mods[x].errorback == s.mods[x].errorback
    ensures FailedSoFar(s, FailModule(t, x, err), reached + {x}, err,
                        calls + if t.mods[x].errorback then [(x, err)] else [])
  {
    FailModulesOne(s, reached, err, calls, x);
  }

  lemma WalksNext(s: State, m: Id, seen: set<Id>, expanded: set<Id>, x: Id)
    requires WaitersOk(s) && Explored(InverseGraph(s), m, seen, expanded) && x in seen
    ensures Explored(InverseGraph(s), m, seen + (set y | y in WaitersOf(s.inverse, x)), expanded + {x})
    ensures forall y :: y in WaitersOf(s.inverse, x) ==> y in s.mods
  {
    assert forall y :: y in WaitersOf(s.inverse, x) <==> Edge(InverseGraph(s), x, y);
    assert forall y :: y in WaitersOf(s.inverse, x) ==> WaiterOk(s, y, x);
    ExploreExpands(InverseGraph(s), m, seen, expanded, x, set y | y in WaitersOf(s.inverse, x));
  }

  lemma LoadErrorDone(s: State, r: State, t: State, m: Id, seen: set<Id>, calls: seq<(Id, Failure)>)
    requires r == Requested(s, m)
    requires Explored(InverseGraph(r), m, seen, seen) && seen <= r.mods.Keys
    requires FailedSoFar(r, t, seen, LoadFailure(m), calls)
    ensures LoadErrorSpread(s, if calls == [] then Notify(t, [LoadFailure(m)]) else t, m, calls)
    ensures seen == Affected(r, m)
  {
    ExploreEnds(InverseGraph(r), m, seen);
    assert seen == Affected(r, m);
  }

  /** What that means for each field. */
  lemma LoadErrorFields(s: State, u: State, m: Id, calls: seq<(Id, Failure)>)
    requires LoadErrorSpread(s, u, m, calls)
    ensures u.globalErrors == s.globalErrors + if calls == [] then [LoadFailure(m)] else []
    ensures u.errorbackCalls == s.errorbackCalls + calls
    ensures u.mods.Keys == s.mods.Keys + {m}
    ensures forall x :: x in Affected(Requested(s, m), m) ==>
      x in u.mods && u.mods[x].complete && u.mods[x].error == Some(LoadFailure(m))
    ensures forall x :: x in s.mods && x !in Affected(Requested(s, m), m) ==> u.mods[x] == s.mods[x]
    ensures u.inverse == s.inverse && u.known == s.known && u.requests == s.requests && u.runs == s.runs
  {
    hide HasPath;
  }

  lemma FailModulesOne(s: State, reached: set<Id>, err: Failure, calls: seq<(Id, Failure)>, x: Id)
    requires x in s.mods && x !in reached && CallsExactly(s, reached, err, calls)
    ensures var calls' := calls + if s.mods[x].errorback then [(x, err)] else [];
      && x in FailModules(s, reached, err, calls).mods
      && FailModules(s, reached, err, calls).mods[x] == s.mods[x]
      && FailModule(FailModules(s, reached, err, calls), x, err) == FailModules(s, reached + {x}, err, calls')
      && CallsExactly(s, reached + {x}, err, calls')
  {
    var calls' := calls + if s.mods[x].errorback then [(x, err)] else [];
    assert (x, err) !in calls;
    forall y, e
      ensures (y, e) in calls' <==> e == err && y in reached + {x} && y in s.mods && s.mods[y].errorback
    {
      assert (y, e) in calls' <==> (y, e) in calls || (s.mods[x].errorback && (y, e) == (x, err));
    }
    var t := FailModules(s, reached, err, calls);
    assert FailModule(t, x, err).mods == FailModules(s, reached + {x}, err, calls').mods;
  }

  lemma NotifyKeeps(s: State, t: State, errors: seq<Failure>)
    requires Quiescent(t) && Extends(s, t)
    ensures Quiescent(Notify(t, errors)) && Extends(s, Notify(t, errors))
  {
    var u := Notify(t, errors);
    NotifyCounters(t, errors);
    TweakKeeps(t, u, multiset{}, multiset{}, None, None);
    ExtendsTransitive(s, t, u);
  }

  lemma NotifyCounters(t: State, errors: seq<Failure>)
    requires CountersOk(t, multiset{})
    ensures CountersOk(Notify(t, errors), multiset{})
  {
    hide AllWaiters;
    assert forall x :: Pending(t, x) ==> Pending(Notify(t, errors), x);
  }

  lemma AffectedClosed(s: State, m: Id, d: Id, x: Id)
    requires WaitersOk(s) && d in Affected(s, m) && x in WaitersOf(s.inverse, d)
    ensures x in Affected(s, m)
  {
    assert WaiterOk(s, x, d);
    assert Edge(InverseGraph(s), d, x);
    ExtendReach(InverseGraph(s), m, d, x);
  }

  /** Between two events a load error leaves a quiescent state. */
  lemma LoadErrorKeeps(s: State, u: State, m: Id, calls: seq<(Id, Failure)>)
    requires Quiescent(s) && LoadErrorSpread(s, u, m, calls)
    ensures Quiescent(u) && Extends(s, u)
  {
    hide HasPath, Inv, AllWaiting, Extends;
    var err := LoadFailure(m);
    var r := Requested(s, m);
    var current := if m in s.mods then None else Some(m);
    var reached := Affected(r, m);
    if m in s.mods {
      ExtendsReflexive(s);
    } else {
      Registered(s, m, [], false);
      assert Visits(m, 0) == multiset{};
    }
    var t := FailModules(r, reached, err, calls);
    FailModulesKeeps(r, current, reached, err, calls);
    ExtendsTransitive(s, r, t);
    NotifyKeeps(s, t, if calls == [] then [err] else []);
  }

  /** A load error frees exactly the stuck modules that it marks, and makes nobody stuck. */
  lemma StuckAfterFailing(s: State, t: State, reached: set<Id>, err: Failure, calls: seq<(Id, Failure)>, x: Id)
    requires WaitersOk(s) && t.mods == FailModules(s, reached, err, calls).mods && t.inverse == s.inverse
      && t.lost == s.lost
    requires forall d, m :: d in reached && m in WaitersOf(s.inverse, d) ==> m in reached
    ensures Stuck(t, x) <==> Stuck(s, x) && x !in reached
  {
    forall d
      ensures StrandedOn(t, x, d) <==> StrandedOn(s, x, d) && x !in reached
    {
    }
  }

  lemma StuckAfterLoadError(s: State, u: State, m: Id, calls: seq<(Id, Failure)>, x: Id)
    requires Quiescent(s) && LoadErrorSpread(s, u, m, calls)
    ensures Stuck(u, x) <==> Stuck(s, x) && x !in Affected(Requested(s, m), m)
  {
    var r := Requested(s, m);
    if m !in s.mods {
      Registered(s, m, [], false);
      RegisteredStuck(s, m, [], false, x);
    }
    hide HasPath, Inv, AllWaiting, Extends, Stuck;
    forall d, y | d in Affected(r, m) && y in WaitersOf(r.inverse, d)
      ensures y in Affected(r, m)
    {
      AffectedClosed(r, m, d, y);
    }
    QuiescentWaiters(s);
    StuckAfterFailing(r, u, Affected(r, m), LoadFailure(m), calls, x);
  }

  lemma QuiescentWaiters(s: State)
    requires Quiescent(s)
    ensures RecordsOk(s) && WaitersOk(s) && CountersOk(s, multiset{})
  {
  }

  // ---------- one event ----------

  /** What an event does to the state between events. */
  ghost predicate Happened(s: State, e: Event, u: State, throwing: set<Id>, catchError: bool) {
    && Quiescent(s) && Quiescent(u) && Extends(s, u)
    && match e
       case Define(id, deps, errorback) =>
         if id in s.mods then u == s
         else Extends(Register(s, id, deps, errorback), u) && Defined(s, u, id, deps, errorback, throwing, catchError)
       case LoadError(script) =>
         exists calls :: LoadErrorSpread(s, u, script, calls)
  }

  /** After an event exactly those modules are stuck that it left behind, and those that
      were stuck before unless it marked them. */
  lemma StuckAfter(s: State, e: Event, u: State, throwing: set<Id>, catchError: bool, x: Id)
    ensures Happened(s, e, u, throwing, catchError) ==>
      (Stuck(u, x) <==> LeftBehind(s, e, u, x) || (Stuck(s, x) && !Reached(s, e, x)))
  {
    hide Quiescent, Extends, Defined, LoadErrorSpread, Stuck, LeftBehind, Affected;
    if Happened(s, e, u, throwing, catchError) {
      match e
      case Define(id, deps, errorback) =>
        if id in s.mods {
          NothingLeftBehind(s, e, u, x);
        } else {
          StuckAfterDefinition(s, u, id, deps, errorback, throwing, catchError, x);
        }
      case LoadError(script) =>
        var calls :| LoadErrorSpread(s, u, script, calls);
        NothingLeftBehind(s, e, u, x);
        StuckAfterLoadError(s, u, script, calls, x);
    }
  }

  lemma NothingLeftBehind(s: State, e: Event, u: State, x: Id)
    requires e.Define? ==> e.id in s.mods
    ensures !LeftBehind(s, e, u, x)
  {
  }

  lemma Ignored(s: State, m: Id, deps: seq<Dep>, errorback: bool, throwing: set<Id>, catchError: bool)
    requires Quiescent(s) && m in s.mods
    ensures Happened(s, Define(m, deps, errorback), s, throwing, catchError)
    ensures forall x :: !LeftBehind(s, Define(m, deps, errorback), s, x)
  {
    hide Quiescent, Extends;
    ExtendsReflexive(s);
  }

  lemma HappenedNow(s: State, u: State, m: Id, deps: seq<Dep>, errorback: bool, throwing: set<Id>, catchError: bool)
    requires Quiescent(s) && Quiescent(u) && m !in s.mods && Extends(s, u)
    requires Extends(Register(s, m, deps, errorback), u) && Defined(s, u, m, deps, errorback, throwing, catchError)
    ensures Happened(s, Define(m, deps, errorback), u, throwing, catchError)
    ensures forall x :: Stuck(u, x) <==> Stuck(s, x) || LeftBehind(s, Define(m, deps, errorback), u, x)
  {
    hide Quiescent, Extends, Defined, Stuck, LeftBehind;
    forall x
      ensures Stuck(u, x) <==> Stuck(s, x) || LeftBehind(s, Define(m, deps, errorback), u, x)
    {
      StuckAfterDefinition(s, u, m, deps, errorback, throwing, catchError, x);
    }
  }

  lemma RequestedIs(s: State, m: Id)
    ensures m in s.mods ==> Requested(s, m) == s
    ensures m !in s.mods ==> Requested(s, m) == Register(s, m, [], false)
  {
  }

  lemma LoadErrorHappened(s: State, u: State, m: Id, calls: seq<(Id, Failure)>, throwing: set<Id>, catchError: bool)
    requires Quiescent(s) && LoadErrorSpread(s, u, m, calls)
    ensures Happened(s, LoadError(m), u, throwing, catchError) && Quiescent(u)
    ensures forall x :: Stuck(u, x) <==> Stuck(s, x) && x !in Affected(Requested(s, m), m)
  {
    hide Quiescent, Extends, LoadErrorSpread, Stuck, Affected;
    LoadErrorKeeps(s, u, m, calls);
    forall x
      ensures Stuck(u, x) <==> Stuck(s, x) && x !in Affected(Requested(s, m), m)
    {
      StuckAfterLoadError(s, u, m, calls, x);
    }
  }

  lemma InvParts(s: State, todo: multiset<Id>, current: Option<Id>)
    requires Inv(s, todo, current)
    ensures RecordsOk(s) && WaitersOk(s) && CountersOk(s, todo)
  {
  }
}
