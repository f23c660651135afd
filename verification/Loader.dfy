/** The AMD module manager: `Module` and `ModuleManager`, whose methods update the
    records in place, proved against the state of LoaderState. */
module Loader {
  import opened Graph
  import opened Options
  import opened Orders
  import opened LoaderState
  import opened LoaderSteps
  import opened LoaderTheorems
  import opened LoaderOrder

  class Module {
    const id: Id
    var dependencies: Option<seq<Dep>>
    var unresolvedDependenciesCount: int
    var isComplete: bool
    var error: Option<Failure>
    var hasErrorback: bool

    constructor (id: Id, deps: seq<Dep>, errorback: bool)
      ensures this.id == id && View() == Mod(Some(deps), |deps|, false, None, errorback)
    {
      this.id := id;
      dependencies := Some(deps);
      unresolvedDependenciesCount := |deps|;
      isComplete := false;
      error := None;
      hasErrorback := errorback;
    }

    function View(): Mod
      reads this
    {
      Mod(dependencies, unresolvedDependenciesCount, isComplete, error, hasErrorback)
    }

    /** The factory is invoked. A throw is caught, recorded and returned only if the
        configuration says so; otherwise it leaves the method at once. */
    method Complete(throws: bool, catchError: bool) returns (threw: bool, failure: Option<Failure>)
      modifies this
      ensures threw <==> throws && !catchError
      ensures failure == if throws && catchError then Some(FactoryFailure(id)) else None
      ensures threw ==> View() == old(View()).(complete := true)
      ensures !threw ==> View() == old(View()).(deps := None, complete := true, errorback := false,
                                                error := if throws then failure else old(View()).error)
    {
      isComplete := true;
      threw, failure := false, None;
      if throws {
        if !catchError {
          return true, None;
        }
        failure := Some(FactoryFailure(id));
        error := failure;
      }
      dependencies := None;
      hasErrorback := false;
    }

    /** Marks the module failed; tells whether it had an errorback to call. */
    method OnDependencyError(err: Failure) returns (notified: bool)
      modifies this
      ensures notified == old(hasErrorback)
      ensures View() == old(View()).(complete := true, error := Some(err))
    {
      isComplete := true;
      error := Some(err);
      notified := hasErrorback;
    }
  }

  class ModuleManager {
    const throwing: set<Id>  // the modules whose factories throw
    const catchError: bool   // whether such a throw is caught; it is not by default
    var modules: map<Id, Module>
    var knownModules: set<Id>
    var inverseDependencies: map<Id, seq<Id>>
    var hasDependencyCycle: bool
    // what the outside world sees
    var requests: seq<Id>
    var factoryCalls: seq<Id>
    var errorbackCalls: seq<(Id, Failure)>
    var globalErrors: seq<Failure>
    /** The manager as a value, with the histories no code reads. */
    ghost var state: State

    ghost predicate Valid()
      reads this, modules.Values
    {
      && modules.Keys == state.mods.Keys
      && (forall i :: i in modules ==> modules[i].id == i && modules[i].View() == state.mods[i])
      && state.known == knownModules && state.inverse == inverseDependencies
      && state.requests == requests && state.runs == factoryCalls && RequestedOnce(requests, knownModules)
      && state.errorbackCalls == errorbackCalls && state.globalErrors == globalErrors
      && (hasDependencyCycle <==> state.cut != {})
    }

    /** What holds between events. */
    ghost predicate Idle()
      reads this, modules.Values
    {
      Valid() && Quiescent(state)
    }

    constructor (throwing: set<Id>, catchError: bool)
      ensures Idle() && state == EMPTY && this.throwing == throwing && this.catchError == catchError
      ensures fresh(this) && modules == map[]
    {
      EmptyQuiescent();
      this.throwing, this.catchError := throwing, catchError;
      modules, knownModules, inverseDependencies, hasDependencyCycle := map[], {}, map[], false;
      requests, factoryCalls, errorbackCalls, globalErrors := [], [], [], [];
      state := EMPTY;
    }

    /** Looks through the dependencies of one module for toId, and queues the
        registered ones that were not in the queue yet. */
    method Enqueue(dependencies: seq<Dep>, toId: Id, inQueue: set<Id>, queue: seq<Id>, ghost expanded: set<Id>)
      returns (hit: bool, inQueue': set<Id>, queue': seq<Id>)
      requires Valid() && Queued(queue, inQueue, expanded)
      ensures hit <==> toId in Targets(dependencies)
      ensures !hit ==> inQueue' == inQueue + Targets(dependencies) * modules.Keys
      ensures !hit ==> Queued(queue', inQueue', expanded)
      ensures inQueue' == inQueue ==> queue' == queue
    {
      hide Valid, Queued;
      inQueue', queue', hit := inQueue, queue, false;
      for i := 0 to |dependencies|
        invariant toId !in Targets(dependencies[..i])
        invariant inQueue' == inQueue + Targets(dependencies[..i]) * modules.Keys
        invariant Queued(queue', inQueue', expanded)
        invariant inQueue' == inQueue ==> queue' == queue
      {
        var id := DepId(dependencies[i]);
        TargetsPush(dependencies, i);
        if id == toId {
          hit := true;
          assert dependencies[i] in dependencies;
          return;
        }
        if id in modules && id !in inQueue' {
          QueuePushes(queue', inQueue', expanded, id);
          inQueue' := inQueue' + {id};
          queue' := queue' + [id];
        }
      }
      assert dependencies[..|dependencies|] == dependencies;
    }

    /** Breadth-first search along the dependency lists that are still held. */
    method HasDependencyPath(fromId: Id, toId: Id) returns (found: bool)
      requires Valid()
      ensures found <==> HasPath(DepGraph(state), fromId, toId)
    {
      hide *;
      ghost var g := DepGraph(state);
      SearchStarts(g, fromId, toId);
      QueueStarts(fromId);
      RecordAt(fromId);
      DepGraphAt(state, fromId);
      if fromId !in modules {
        SearchSinks(g, fromId, toId);
        return false;
      }
      var inQueue, queue := {fromId}, [fromId];
      ghost var expanded := {};
      while queue != []
        invariant inQueue <= modules.Keys
        invariant Queued(queue, inQueue, expanded)
        invariant Searched(g, fromId, toId, inQueue, expanded)
        decreases modules.Keys - inQueue, |queue|
      {
        QueuePops(queue, inQueue, expanded);
        var id := queue[0];
        var element := modules[id];
        RecordAt(id);
        DepGraphAt(state, id);
        ghost var was := inQueue;
        queue := queue[1..];
        expanded := expanded + {id};
        if element.dependencies.Some? {
          var hit;
          hit, inQueue, queue := Enqueue(element.dependencies.value, toId, inQueue, queue, expanded);
          if hit {
            SearchHits(g, fromId, toId, was, expanded - {id}, id);
            return true;
          }
        }
        SearchExpands(g, fromId, toId, was, expanded - {id}, id, inQueue - was);
        assert was + (inQueue - was) == inQueue && expanded - {id} + {id} == expanded;
      }
      QueueEnds(inQueue, expanded);
      SearchEnds(g, fromId, toId, inQueue, expanded);
      return false;
    }

    method CountDownModule(m: Module)
      requires Valid() && m.id in modules && modules[m.id] == m
      modifies `state, m`unresolvedDependenciesCount
      ensures Valid() && state == CountDown(old(state), m.id)
      ensures m.unresolvedDependenciesCount == old(m.unresolvedDependenciesCount) - 1
    {
      hide RequestedOnce;
      assert forall i :: i in modules && i != m.id ==> modules[i] != m;
      m.unresolvedDependenciesCount := m.unresolvedDependenciesCount - 1;
      state := CountDown(state, m.id);
    }

    method InvokeFactory(m: Module, ghost todo: multiset<Id>) returns (threw: bool, failure: Option<Failure>)
      requires Valid() && m.id in modules && modules[m.id] == m
      modifies `state, `factoryCalls, m
      ensures Valid() && factoryCalls == old(factoryCalls) + [m.id]
      ensures threw <==> m.id in throwing && !catchError
      ensures failure == if m.id in throwing && catchError then Some(FactoryFailure(m.id)) else None
      ensures threw ==> state == AbortModule(old(state), m.id, todo)
      ensures !threw ==> state == RunModule(old(state), m.id, m.id in throwing)
                                    .(inverse := old(state).inverse, globalErrors := old(state).globalErrors)
    {
      hide RequestedOnce, Module.View;
      assert forall i :: i in modules && i != m.id ==> modules[i] != m;
      factoryCalls := factoryCalls + [m.id];
      threw, failure := m.Complete(m.id in throwing, catchError);
      state := state.(mods := state.mods[m.id := m.View()],
                      runs := factoryCalls,
                      aborted := state.aborted + if threw then {m.id} else {},
                      lost := state.lost + if threw then todo else multiset{});
    }

    method ClearInverseDependencies(i: Id)
      requires Valid()
      modifies `inverseDependencies, `state
      ensures Valid() && state == old(state).(inverse := old(state).inverse - {i})
      ensures inverseDependencies == old(inverseDependencies) - {i}
    {
      inverseDependencies := inverseDependencies - {i};
      state := state.(inverse := inverseDependencies);
    }

    /** Invokes the factory of m; fetches and clears its inverse dependencies, unless the
        factory throws and nobody catches it. */
    method RunFactory(m: Module, ghost todo: multiset<Id>) returns (threw: bool, inverseDeps: seq<Id>)
      requires Valid() && m.id in modules && modules[m.id] == m
      modifies this, m
      ensures Valid() && modules == old(modules)
      ensures threw <==> m.id in throwing && !catchError
      ensures threw ==> state == AbortModule(old(state), m.id, todo)
      ensures !threw ==> state == RunModule(old(state), m.id, m.id in throwing)
      ensures !threw ==> inverseDeps == WaitersOf(old(state).inverse, m.id)
      ensures factoryCalls == old(factoryCalls) + [m.id]
      ensures globalErrors == old(globalErrors)
        + if m.id in throwing && catchError then [FactoryFailure(m.id)] else []
      ensures inverseDependencies == old(inverseDependencies) - if threw then {} else {m.id}
    {
      hide Valid;
      inverseDeps := [];
      var failure;
      threw, failure := InvokeFactory(m, todo);
      if threw {
        return;
      }
      if failure.Some? {
        ReportGlobally(failure.value);
      }
      inverseDeps := InverseDependenciesOf(m.id);
      ClearInverseDependencies(m.id);
    }

    /** The record of a module agrees with its entry in the state. */
    lemma RecordAt(i: Id)
      requires Valid()
      ensures modules.Keys == state.mods.Keys && (i in modules <==> i in state.mods)
      ensures i in modules ==>
        && modules[i].id == i && modules[i].View() == state.mods[i]
        && modules[i].isComplete == state.mods[i].complete
        && (modules[i].isComplete <==> !Incomplete(state, i))
        && modules[i].unresolvedDependenciesCount == state.mods[i].count
        && modules[i].error == state.mods[i].error
        && modules[i].dependencies == state.mods[i].deps
        && modules[i].hasErrorback == state.mods[i].errorback
    {
      assert i in modules ==> modules[i].View() == state.mods[i];
    }

    lemma RecordsAre()
      requires Valid()
      ensures forall i :: i in modules ==> i in state.mods && modules[i].View() == state.mods[i]
    {
    }

    lemma FieldsAre()
      requires Valid()
      ensures state.known == knownModules && state.inverse == inverseDependencies
      ensures state.requests == requests && state.runs == factoryCalls
      ensures state.errorbackCalls == errorbackCalls && state.globalErrors == globalErrors
      ensures Distinct(requests) && forall i :: i in requests <==> i in knownModules
    {
    }

    lemma IdleParts()
      requires Idle()
      ensures Valid() && Quiescent(state)
    {
    }

    lemma IsIdle()
      requires Valid() && Quiescent(state)
      ensures Idle()
    {
    }

    /** Completes m and, one inverse dependency at a time, every module that this leaves
        with nothing to wait for, which completes in turn before the next one is counted
        down. `todo` holds the unprocessed tails of the frames that are already active; a
        throw that nobody catches leaves this frame and all of them. */
    method OnModuleComplete(m: Module, ghost todo: multiset<Id>) returns (threw: bool)
      requires Valid() && m.id in modules && modules[m.id] == m
      requires Inv(state, todo, None) && AllWaiting(state, Some(m.id))
      requires Incomplete(state, m.id) ==> state.mods[m.id].count == 0
      modifies this, modules.Values
      ensures Valid() && modules == old(modules)
      ensures Inv(state, if threw then multiset{} else todo, None) && AllWaiting(state, None)
      ensures threw <==> state.aborted != old(state).aborted
      ensures Incomplete(old(state), m.id) ==> m.id in state.runs
      ensures Cascade(old(state), state, throwing, catchError)
      ensures DepthFirst(old(state), state, m.id)
      ensures threw ==> todo <= state.lost
      decreases IncompleteIds(state), 1
    {
      hide *;
      ghost var start := state;
      RecordAt(m.id);
      InvParts(start, todo, None);
      if m.isComplete {
        NobodyElseReady(start, m.id);
        CascadeReflexive(start, throwing, catchError);
        NothingRan(start, state, m.id);
        return false;
      }
      var inverseDeps;
      threw, inverseDeps := RunFactory(m, todo);
      if threw {
        AbortKeeps(start, todo, m.id);
        AbortCascade(start, todo, m.id, throwing, catchError);
        ThrownAtOnce(start, todo, m.id);
        return;
      }
      RunKeeps(start, todo, m.id, m.id in throwing);
      RunCascade(start, m.id, throwing, catchError);
      assert inverseDeps[0..] == inverseDeps;
      TurnsStart(start, state, m.id);
      for i := 0 to |inverseDeps|
        invariant Valid() && modules == old(modules)
        invariant Inv(state, todo + multiset(inverseDeps[i..]), None) && AllWaiting(state, None)
        invariant Cascade(start, state, throwing, catchError) && m.id in state.runs
        invariant state.aborted == start.aborted
        invariant InTurnSoFar(start, state, m.id, i)
      {
        ghost var now := state;
        TailSplit(todo, inverseDeps, i);
        threw := CountDownWaiter(inverseDeps[i], todo + multiset(inverseDeps[i + 1..]), start, m.id);
        if threw {
          TurnThrown(start, now, state, todo, m.id, i);
          return;
        }
        TurnTaken(start, now, state, todo, m.id, i, throwing, catchError);
      }
      TurnsDone(start, state, m.id);
      assert todo + multiset(inverseDeps[|inverseDeps|..]) == todo;
      threw := false;
    }

    /** One turn of a completion frame, the frame of a module `ran` that ran in `start`:
        counts one waiter down and completes it if it waits for nothing more. */
    method CountDownWaiter(inverseDependencyId: Id, ghost rest: multiset<Id>, ghost start: State, ghost ran: Id)
      returns (threw: bool)
      requires Valid() && Inv(state, rest + multiset{inverseDependencyId}, None) && AllWaiting(state, None)
      requires Cascade(start, state, throwing, catchError) && state.aborted == start.aborted
      requires Incomplete(start, ran) && ran in state.runs
      modifies this, modules.Values
      ensures Valid() && modules == old(modules)
      ensures Inv(state, if threw then multiset{} else rest, None) && AllWaiting(state, None)
      ensures Cascade(start, state, throwing, catchError) && ran in state.runs
      ensures threw <==> state.aborted != start.aborted
      ensures old(state.runs) <= state.runs && (threw ==> rest <= state.lost)
      decreases IncompleteIds(start), 0
    {
      hide *;
      ghost var now := state;
      assert rest + multiset{inverseDependencyId} - multiset{inverseDependencyId} == rest;
      CountDownKeeps(now, rest + multiset{inverseDependencyId}, None, inverseDependencyId);
      CountDownCascade(start, now, inverseDependencyId, throwing, catchError);
      RecordAt(inverseDependencyId);
      var inverseDependency := modules[inverseDependencyId];
      CountDownModule(inverseDependency);
      ghost var counted := state;
      RecordAt(inverseDependencyId);
      threw := false;
      if inverseDependency.unresolvedDependenciesCount == 0 {
        FewerIncomplete(start, counted, rest, ran, throwing, catchError);
        threw := OnModuleComplete(inverseDependency, rest);
        CascadeRuns(counted, state, throwing, catchError);
        CascadeTransitive(start, counted, state, throwing, catchError);
      } else {
        NobodyElseReady(counted, inverseDependencyId);
      }
    }

    /** Requests a module once; the script that defines it arrives as a later event. */
    method LoadModule(moduleId: Id)
      requires Valid()
      modifies `knownModules, `requests, `state
      ensures Valid()
      ensures requests == old(requests)
        + if moduleId in modules || moduleId in old(knownModules) then [] else [moduleId]
      ensures knownModules == old(knownModules) + if moduleId in modules then {} else {moduleId}
      ensures state == old(state).(known := knownModules, requests := requests)
    {
      if moduleId in modules || moduleId in knownModules {
        return;
      }
      knownModules := knownModules + {moduleId};
      requests := requests + [moduleId];
      state := state.(known := knownModules, requests := requests);
    }

    method AwaitDependency(m: Module, d: Id)
      requires Valid()
      modifies `inverseDependencies, `knownModules, `requests, `state
      ensures Valid() && state == Await(old(state), m.id, d)
      ensures inverseDependencies == old(inverseDependencies)
        [d := (if d in old(inverseDependencies) then old(inverseDependencies)[d] else []) + [m.id]]
    {
      var waiters := if d in inverseDependencies then inverseDependencies[d] else [];
      inverseDependencies := inverseDependencies[d := waiters + [m.id]];
      state := state.(inverse := inverseDependencies);
      LoadModule(d);
    }

    method CutDependency(m: Module, d: Id)
      requires Valid() && m.id in modules && modules[m.id] == m
      modifies `hasDependencyCycle, `state, m`unresolvedDependenciesCount
      ensures Valid() && state == Cut(old(state), m.id, d)
    {
      hide RequestedOnce;
      assert forall i :: i in modules && i != m.id ==> modules[i] != m;
      hasDependencyCycle := true;
      m.unresolvedDependenciesCount := m.unresolvedDependenciesCount - 1;
      state := Cut(state, m.id, d);
    }

    method MarkModule(m: Module, err: Failure) returns (notified: bool)
      requires Valid() && m.id in modules && modules[m.id] == m
      modifies `state, m
      ensures Valid() && state == MarkFailed(old(state), m.id, err)
      ensures notified == old(state).mods[m.id].errorback
    {
      hide RequestedOnce;
      assert forall i :: i in modules && i != m.id ==> modules[i] != m;
      notified := m.OnDependencyError(err);
      state := MarkFailed(state, m.id, err);
    }

    method FailWith(m: Module, err: Failure) returns (notified: bool)
      requires Valid() && m.id in modules && modules[m.id] == m
      modifies this, m
      ensures Valid() && state == FailModule(old(state), m.id, err) && modules == old(modules)
      ensures notified == (m.id in old(state).mods && old(state).mods[m.id].errorback)
    {
      notified := MarkModule(m, err);
      if notified {
        errorbackCalls := errorbackCalls + [(m.id, err)];
      }
      state := state.(errorbackCalls := errorbackCalls);
    }

    /** One turn of the resolving loop. Returns the dependency's error if it has failed;
        otherwise m no longer has this visit to come, and the dependency is settled. */
    method VisitDependency(m: Module, dependency: Dep, ghost k: nat) returns (err: Option<Failure>)
      requires Valid() && m.id in modules && modules[m.id] == m
      requires Inv(state, Visits(m.id, k + 1), Some(m.id)) && Incomplete(state, m.id)
      requires state.mods[m.id].deps.Some? && dependency in state.mods[m.id].deps.value
      modifies this, m
      ensures Valid() && modules == old(modules)
      ensures err.Some? <==> DepFailed(old(state), dependency)
      ensures err.Some? ==> state == old(state) && err == state.mods[dependency.target].error
      ensures err.None? ==> Inv(state, Visits(m.id, k), Some(m.id)) && Settled(state, m.id, dependency)
      ensures Visiting(old(state), state, m.id)
      ensures err.None? ==> RequestedOne(old(state), state, dependency)
    {
      hide *;
      ghost var s := state;
      RecordAt(m.id);
      err := None;
      if !dependency.Regular? {
        VisitSkips(s, k, m.id, dependency);
        RequestedSkip(s, m.id, dependency);
        CountDownModule(m);
        return;
      }
      var d := dependency.target;
      RecordAt(d);
      if d in modules && modules[d].isComplete {
        if modules[d].error.Some? {
          VisitFails(s, m.id, d);
          return modules[d].error;
        }
        VisitSkips(s, k, m.id, dependency);
        RequestedSkip(s, m.id, dependency);
        CountDownModule(m);
        return;
      }
      var cyclic := HasDependencyPath(d, m.id);
      if cyclic {
        VisitCuts(s, k, m.id, d);
        RequestedCut(s, m.id, d);
        CutDependency(m, d);
        return;
      }
      VisitAwaits(s, k, m.id, d);
      RequestedAwait(s, m.id, d);
      AwaitDependency(m, d);
    }

    /** Examines the dependencies of a registered module. If one of them has failed the
        module fails at once; otherwise it completes when nothing is left to wait for. */
    method Resolve(m: Module) returns (threw: bool)
      requires Valid() && m.id in modules && modules[m.id] == m
      requires Incomplete(state, m.id) && state.mods[m.id].deps.Some?
      requires Inv(state, Visits(m.id, |state.mods[m.id].deps.value|), Some(m.id)) && AllWaiting(state, Some(m.id))
      modifies this, modules.Values
      ensures Valid() && modules == old(modules) && Quiescent(state) && Extends(old(state), state)
      ensures var deps := old(state).mods[m.id].deps.value;
        if FailsToResolve(old(state), deps) then ResolveFailed(old(state), state, m.id, deps) && !threw
        else Resolved(old(state), state, m.id, throwing, catchError)
      ensures threw <==> state.aborted != old(state).aborted
      ensures DepthFirst(old(state), state, m.id)
      ensures RequestedInOrder(old(state), state, old(state).mods[m.id].deps.value)
    {
      hide *;
      ghost var s := state;
      RecordAt(m.id);
      VisitingReflexive(s, m.id);
      var dependencies := m.dependencies.value;
      InvParts(s, Visits(m.id, |dependencies|), Some(m.id));
      NothingRequested(s, dependencies);
      for i := 0 to |dependencies|
        invariant Valid() && modules == old(modules)
        invariant Inv(state, Visits(m.id, |dependencies| - i), Some(m.id)) && AllWaiting(state, Some(m.id))
        invariant Incomplete(state, m.id) && m.id in state.mods && state.mods[m.id].deps == Some(dependencies)
        invariant Visiting(s, state, m.id)
        invariant forall k :: 0 <= k < i ==> Settled(state, m.id, dependencies[k]) && !DepFailed(s, dependencies[k])
        invariant RequestedSoFar(s, state, dependencies, i)
      {
        ghost var t := state;
        var err := VisitDependency(m, dependencies[i], |dependencies| - i - 1);
        RecordAt(m.id);
        VisitingKeeps(s, t, m.id);
        VisitingKeeps(t, state, m.id);
        VisitingTransitive(s, t, state, m.id);
        if err.Some? {
          SomethingFailed(s, dependencies, i);
          FirstFailedAt(s, dependencies, i);
          ResolveFails(s, state, m.id, |dependencies| - i, dependencies, i, err.value);
          RequestedThenFailed(s, state, m.id, err.value, dependencies, i);
          NothingRan(s, FailModule(state, m.id, err.value), m.id);
          var _ := FailWith(m, err.value);
          return false;
        }
        RequestedVisit(s, t, state, m.id, dependencies, i);
      }
      ghost var t := state;
      ResolvedInv(t, m.id);
      InvParts(t, multiset{}, None);
      NothingFailed(s, dependencies);
      RecordAt(m.id);
      threw := false;
      if m.unresolvedDependenciesCount == 0 {
        threw := OnModuleComplete(m, multiset{});
      } else {
        NobodyElseReady(t, m.id);
        CascadeReflexive(t, throwing, catchError);
      }
      QuiescentParts(state);
      ResolvedInTurn(s, t, state, m.id);
      RequestedThenRan(s, t, state, dependencies, throwing, catchError);
      ResolvedOrWaiting(t, state, m.id);
      ResolveSucceeds(s, t, state, m.id, throwing, catchError);
    }

    method RegisterModule(id: Id, deps: seq<Dep>, errorback: bool) returns (m: Module)
      requires Valid() && id !in modules
      modifies `modules, `state
      ensures Valid() && fresh(m) && m.id == id && modules == old(modules)[id := m]
      ensures state == Register(old(state), id, deps, errorback)
      ensures m.View() == Mod(Some(deps), |deps|, false, None, errorback)
    {
      m := new Module(id, deps, errorback);
      modules := modules[id := m];
      state := Register(state, id, deps, errorback);
    }

    /** Defines a module and resolves it at once. A second definition is ignored. Exactly
        those modules are stuck afterwards that were stuck before or that the definition
        leaves behind; the result says whether a factory threw past the loader. Waiters
        complete one at a time in the order in which they began to wait; the scripts that
        nobody had requested yet are requested in the order of the dependency list; the
        global handler hears of the throws that were caught, in the order of the factories. */
    method DefineModule(id: Id, deps: seq<Dep>, errorback: bool) returns (threw: bool)
      requires Idle()
      modifies this, modules.Values
      ensures Idle() && fresh(modules.Values - old(modules.Values)) && id in state.mods
      ensures Happened(old(state), Define(id, deps, errorback), state, throwing, catchError)
      ensures forall x :: Stuck(state, x) <==>
        Stuck(old(state), x) || LeftBehind(old(state), Define(id, deps, errorback), state, x)
      ensures threw <==> state.aborted != old(state).aborted
      ensures DepthFirst(old(state), state, id)
      ensures old(factoryCalls) <= factoryCalls
      ensures globalErrors == old(globalErrors) + Caught(factoryCalls[|old(factoryCalls)|..], throwing, catchError)
      ensures old(requests) <= requests && ListedInOrder(requests[|old(requests)|..], deps)
      ensures forall r :: r in requests[|old(requests)|..] ==> r !in old(knownModules) && r !in old(modules) && r != id
      ensures id !in old(modules) && !FailsToResolve(old(state), deps) ==>
        forall d :: d in deps && d.Regular? ==> d.target in knownModules || d.target in modules
      ensures id !in old(modules) && modules[id].dependencies.Some? ==>
        modules[id].dependencies == Some(deps) && modules[id].hasErrorback == errorback
      ensures id in old(modules) ==>
        && modules == old(modules) && factoryCalls == old(factoryCalls)
        && requests == old(requests) && errorbackCalls == old(errorbackCalls)
    {
      hide *;
      IdleParts();
      RecordAt(id);
      FieldsAre();
      ghost var s := state;
      QuiescentWaiters(s);
      if id in modules {
        Ignored(s, id, deps, errorback, throwing, catchError);
        NothingRan(s, s, id);
        NothingNew(s, deps, throwing, catchError);
        return false;
      }
      Registered(s, id, deps, errorback);
      var m := RegisterModule(id, deps, errorback);
      threw := Resolve(m);
      DefinedAfter(s, state, id, deps, errorback, throwing, catchError);
      RegisteredInTurn(s, state, id, deps, errorback);
      RequestsOf(s, state, id, deps, errorback);
      DefinedRecord(s, state, id, deps, errorback, throwing, catchError);
      HeardMeans(s, state, throwing, catchError);
      FieldsAre();
      RecordAt(id);
      HappenedNow(s, state, id, deps, errorback, throwing, catchError);
      IsIdle();
    }

    /** Queues the inverse dependencies that were not seen yet. */
    method EnqueueInverse(inverseDeps: seq<Id>, seen: set<Id>, queue: seq<Id>, ghost expanded: set<Id>,
                          ghost marked: seq<Id>)
      returns (seen': set<Id>, queue': seq<Id>)
      requires Queued(queue, seen, expanded) && forall x :: x in marked <==> x in expanded
      ensures seen' == seen + set x | x in inverseDeps
      ensures Queued(queue', seen', expanded)
      ensures seen' == seen ==> queue' == queue
      ensures FirstsAfter(marked + queue, inverseDeps) == marked + queue'
    {
      hide Queued;
      seen', queue' := seen, queue;
      for i := 0 to |inverseDeps|
        invariant seen' == seen + set x | x in inverseDeps[..i]
        invariant Queued(queue', seen', expanded)
        invariant seen' == seen ==> queue' == queue
        invariant FirstsAfter(marked + queue, inverseDeps[..i]) == marked + queue'
      {
        var inverseDep := inverseDeps[i];
        assert inverseDeps[..i + 1] == inverseDeps[..i] + [inverseDep];
        FirstsAfterConcat(marked + queue, inverseDeps[..i], [inverseDep]);
        FirstsPush(marked + queue', inverseDep);
        QueuedMember(queue', seen', expanded, inverseDep);
        assert marked + queue' + [inverseDep] == marked + (queue' + [inverseDep]);
        if inverseDep !in seen' {
          QueuePushes(queue', seen', expanded, inverseDep);
          queue' := queue' + [inverseDep];
          seen' := seen' + {inverseDep};
        }
      }
      assert inverseDeps[..|inverseDeps|] == inverseDeps;
    }

    /** Marks one module on the walk, and fetches its inverse dependencies. */
    method MarkElement(queueElement: Id, error: Failure) returns (notified: bool, inverseDeps: seq<Id>)
      requires Valid() && queueElement in state.mods
      modifies this, modules.Values
      ensures Valid() && modules == old(modules) && state == FailModule(old(state), queueElement, error)
      ensures notified == old(state).mods[queueElement].errorback
      ensures inverseDeps == WaitersOf(state.inverse, queueElement)
    {
      hide *;
      RecordAt(queueElement);
      notified := false;
      if queueElement in modules {
        notified := FailWith(modules[queueElement], error);
      }
      inverseDeps := InverseDependenciesOf(queueElement);
    }

    /** Walks the chains of inverse dependencies from a registered module and marks
        every module on them as failed. */
    method WalkInverse(moduleId: Id, error: Failure)
      returns (someoneNotified: bool, ghost reached: set<Id>, ghost marked: seq<Id>, ghost calls: seq<(Id, Failure)>)
      requires Valid() && WaitersOk(state) && moduleId in state.mods
      requires FailedSoFar(state, state, {}, error, []) && Explored(InverseGraph(state), moduleId, {moduleId}, {})
      requires error == LoadFailure(moduleId)
      modifies this, modules.Values
      ensures Valid() && modules == old(modules)
      ensures Explored(InverseGraph(old(state)), moduleId, reached, reached) && reached <= old(state).mods.Keys
      ensures FailedSoFar(old(state), state, reached, error, calls)
      ensures someoneNotified <==> calls != []
      ensures (forall x :: x in marked <==> x in reached) && calls == Errorbacks(old(state), marked, error)
      ensures BreadthFirst(old(state).inverse, moduleId, marked)
    {
      hide *;
      RecordAt(moduleId);
      ghost var r := state;
      QueueStarts(moduleId);
      var queue, seen := [moduleId], {moduleId};
      someoneNotified, calls, reached, marked := false, [], {}, [];
      WalkStarts(r, moduleId);
      while queue != []
        invariant Valid() && modules == old(modules)
        invariant Explored(InverseGraph(r), moduleId, seen, reached) && seen <= r.mods.Keys
        invariant Queued(queue, seen, reached)
        invariant FailedSoFar(r, state, reached, error, calls)
        invariant someoneNotified <==> calls != []
        invariant Walked(r, moduleId, marked, queue) && calls == Errorbacks(r, marked, error)
        invariant forall x :: x in marked <==> x in reached
        decreases r.mods.Keys - seen, |queue|
      {
        var queueElement := queue[0];
        QueuePops(queue, seen, reached);
        FailsNext(r, state, reached, error, calls, queueElement);
        WalksNext(r, moduleId, seen, reached, queueElement);
        ghost var was, wasMarked := queue, marked;
        queue, reached, marked := queue[1..], reached + {queueElement}, marked + [queueElement];
        var notified, inverseDeps := MarkElement(queueElement, error);
        calls := calls + if notified then [(queueElement, error)] else [];
        someoneNotified := notified || someoneNotified;
        assert marked + queue == wasMarked + was;
        seen, queue := EnqueueInverse(inverseDeps, seen, queue, reached, marked);
        WalkNext(r, moduleId, wasMarked, was, queue, error);
      }
      QueueEnds(seen, reached);
      WalkEnds(r, moduleId, marked);
    }

    /** A module without dependencies stands in for one whose script never arrived. */
    method EnsureModule(moduleId: Id)
      requires Valid()
      modifies `modules, `state
      ensures Valid() && moduleId in state.mods && state == Requested(old(state), moduleId)
      ensures modules.Keys == old(modules.Keys) + {moduleId}
      ensures forall x :: x in old(modules) ==> modules[x] == old(modules)[x]
      ensures moduleId !in old(modules) ==> fresh(modules[moduleId])
    {
      hide *;
      RecordAt(moduleId);
      RequestedIs(state, moduleId);
      if moduleId !in modules {
        var _ := RegisterModule(moduleId, [], false);
      }
      RecordAt(moduleId);
    }

    /** A script could not be loaded: marks its module and everybody who waits for a
        marked module, breadth first, and calls their errorbacks in that order; the global
        handler hears of it if there was none. Of the stuck modules it frees exactly those
        that it marks. */
    method OnLoadError(moduleId: Id) returns (ghost marked: seq<Id>, ghost calls: seq<(Id, Failure)>)
      requires Idle()
      modifies this, modules.Values
      ensures Idle() && fresh(modules.Values - old(modules.Values))
      ensures LoadErrorSpread(old(state), state, moduleId, calls)
      ensures Happened(old(state), LoadError(moduleId), state, throwing, catchError)
      ensures forall x :: Stuck(state, x) <==>
        Stuck(old(state), x) && x !in Affected(Requested(old(state), moduleId), moduleId)
      ensures globalErrors == old(globalErrors) + if calls == [] then [LoadFailure(moduleId)] else []
      ensures errorbackCalls == old(errorbackCalls) + calls
      ensures calls == Errorbacks(old(state), marked, LoadFailure(moduleId))
      ensures BreadthFirst(old(inverseDependencies), moduleId, marked)
      ensures forall x :: x in marked <==> x in Affected(Requested(old(state), moduleId), moduleId)
      ensures modules.Keys == old(modules.Keys) + {moduleId}
      ensures forall x :: x in old(modules) ==> modules[x] == old(modules)[x]
      ensures forall x :: x in modules && x in marked ==>
        modules[x].isComplete && modules[x].error == Some(LoadFailure(moduleId))
      ensures forall x :: x in old(modules) && x !in marked ==> modules[x].View() == old(modules[x].View())
      ensures inverseDependencies == old(inverseDependencies) && knownModules == old(knownModules)
        && requests == old(requests) && factoryCalls == old(factoryCalls)
    {
      hide *;
      IdleParts();
      RecordAt(moduleId);
      FieldsAre();
      RecordsAre();
      ghost var s := state;
      var error := LoadFailure(moduleId);
      EnsureModule(moduleId);
      ghost var r := state;
      LoadErrorStarts(s, r, moduleId);
      ghost var reached;
      var someoneNotified;
      someoneNotified, reached, marked, calls := WalkInverse(moduleId, error);
      RequestedSame(s, moduleId, marked);
      LoadErrorDone(s, r, state, moduleId, reached, calls);
      if !someoneNotified {
        ReportGlobally(error);
      }
      LoadErrorHappened(s, state, moduleId, calls, throwing, catchError);
      SpreadOverFields(s, moduleId, marked, calls);
      IsIdle();
    }

    /** What spreading a load error means for the fields and the records. */
    lemma SpreadOverFields(s: State, moduleId: Id, marked: seq<Id>, calls: seq<(Id, Failure)>)
      requires Valid() && LoadErrorSpread(s, state, moduleId, calls)
      requires forall x :: x in marked <==> x in Affected(Requested(s, moduleId), moduleId)
      ensures globalErrors == s.globalErrors + if calls == [] then [LoadFailure(moduleId)] else []
      ensures errorbackCalls == s.errorbackCalls + calls && modules.Keys == s.mods.Keys + {moduleId}
      ensures forall x :: x in modules && x in marked ==>
        modules[x].isComplete && modules[x].error == Some(LoadFailure(moduleId))
      ensures forall x :: x in s.mods && x !in marked ==> x in modules && modules[x].View() == s.mods[x]
      ensures inverseDependencies == s.inverse && knownModules == s.known
      ensures requests == s.requests && factoryCalls == s.runs
    {
      hide LoadErrorSpread, Affected;
      LoadErrorFields(s, state, moduleId, calls);
      forall x
        ensures x in modules && x in marked ==>
          modules[x].isComplete && modules[x].error == Some(LoadFailure(moduleId))
      {
        RecordAt(x);
      }
    }

    method InverseDependenciesOf(i: Id) returns (inverseDeps: seq<Id>)
      requires Valid()
      ensures inverseDeps == WaitersOf(state.inverse, i)
    {
      return if i in inverseDependencies then inverseDependencies[i] else [];
    }

    method ReportGlobally(err: Failure)
      requires Valid()
      modifies `globalErrors, `state
      ensures Valid() && state == Notify(old(state), [err])
      ensures globalErrors == old(globalErrors) + [err]
    {
      globalErrors := globalErrors + [err];
      state := Notify(state, [err]);
    }
  }

  /** A script is requested when its module becomes known, and never again. */
  ghost predicate RequestedOnce(requests: seq<Id>, known: set<Id>) {
    Distinct(requests) && forall i :: i in requests <==> i in known
  }

  lemma TargetsPush(deps: seq<Dep>, i: nat)
    requires i < |deps|
    ensures Targets(deps[..i + 1]) == Targets(deps[..i]) + {DepId(deps[i])}
  {
    assert deps[..i + 1] == deps[..i] + [deps[i]];
  }

  ghost function IncompleteIds(s: State): set<Id> {
    set m | m in s.mods && Incomplete(s, m)
  }

  lemma FewerIncomplete(s: State, t: State, todo: multiset<Id>, m: Id, throwing: set<Id>, catchError: bool)
    requires Incomplete(s, m) && Cascade(s, t, throwing, catchError) && Inv(t, todo, None) && m in t.runs
    ensures IncompleteIds(t) < IncompleteIds(s)
  {
    assert RecordOk(t, m);
    assert m in IncompleteIds(s) - IncompleteIds(t);
  }

  /** The one module that was allowed to be ready is not. */
  lemma NobodyElseReady(s: State, m: Id)
    requires AllWaiting(s, Some(m)) && (Incomplete(s, m) ==> s.mods[m].count > 0)
    ensures AllWaiting(s, None)
  {
  }

  lemma TailSplit(todo: multiset<Id>, q: seq<Id>, i: nat)
    requires i < |q|
    ensures todo + multiset(q[i..]) == todo + multiset(q[i + 1..]) + multiset{q[i]}
  {
    assert q[i..] == [q[i]] + q[i + 1..];
  }
}
