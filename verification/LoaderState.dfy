/** The state of the AMD module manager as a value, the steps its methods are made of,
    and the invariant each step keeps. */
module LoaderState {
  import opened Graph
  import opened Options

  type Id = nat

  /** A normalised dependency. The three special ones are recognised by identity;
      every other one names a module. */
  datatype Dep = ExportsDep | ModuleDep | RequireDep | Regular(target: Id)

  function DepId(d: Dep): Id {
    match d
    case ExportsDep => 0
    case ModuleDep => 1
    case RequireDep => 2
    case Regular(t) => t
  }

  datatype Failure = LoadFailure(script: Id) | FactoryFailure(thrower: Id)

  /** A module record. The dependency list is dropped once the module has run. */
  datatype Mod = Mod(
    deps: Option<seq<Dep>>,
    count: int,
    complete: bool,
    error: Option<Failure>,
    errorback: bool)

  /** The manager's fields, with the ids whose scripts were requested, in order, followed by
      histories: every dependency list ever declared, the dependencies dropped to cut a
      cycle, the factories invoked so far, in order, the modules whose factory threw an
      exception that nobody caught, and the waiters that such an exception kept the active
      completion frames from counting down. */
  datatype State = State(
    mods: map<Id, Mod>,
    known: set<Id>,
    requests: seq<Id>,
    inverse: map<Id, seq<Id>>,
    errorbackCalls: seq<(Id, Failure)>,
    globalErrors: seq<Failure>,
    declared: map<Id, seq<Dep>>,
    cut: set<(Id, Id)>,
    runs: seq<Id>,
    aborted: set<Id>,
    lost: multiset<Id>)

  const EMPTY := State(map[], {}, [], map[], [], [], map[], {}, [], {}, multiset{})

  function Targets(deps: seq<Dep>): set<Id> {
    set d | d in deps :: DepId(d)
  }

  function WaitersOf(inverse: map<Id, seq<Id>>, d: Id): seq<Id> {
    if d in inverse then inverse[d] else []
  }

  /** The edges the cycle search can follow now. */
  ghost function DepGraph(s: State): Digraph {
    map m | m in s.mods && s.mods[m].deps.Some? :: Targets(s.mods[m].deps.value)
  }

  /** All dependency edges that were ever declared. */
  ghost function DeclaredGraph(s: State): Digraph {
    map m | m in s.declared :: Targets(s.declared[m])
  }

  /** m waits for d when m is recorded as an inverse dependency of d. */
  ghost function WaitGraph(s: State): Digraph {
    map m | m in s.mods :: set d | d in s.inverse && m in WaitersOf(s.inverse, d)
  }

  /** From a module to those recorded as waiting for it. */
  ghost function InverseGraph(s: State): Digraph {
    map d | d in s.inverse :: set m | m in WaitersOf(s.inverse, d)
  }

  predicate Incomplete(s: State, m: Id) {
    m in s.mods && !s.mods[m].complete
  }

  /** Everyone named in a live inverse list, with multiplicity. */
  ghost function AllWaiters(inverse: map<Id, seq<Id>>): multiset<Id>
    decreases |inverse|
  {
    if inverse == map[] then multiset{}
    else
      var d :| d in inverse;
      assert |inverse - {d}| < |inverse| by { assert inverse == (inverse - {d})[d := inverse[d]]; }
      multiset(inverse[d]) + AllWaiters(inverse - {d})
  }

  // ---------- the invariant ----------

  /** A module is incomplete, or failed, or has run, or its run was aborted; only a run
      that was not aborted drops its list. */
  ghost predicate RecordOk(s: State, m: Id)
    requires m in s.mods && m in s.declared
  {
    var r := s.mods[m];
    if r.deps.None? then r.complete && m in s.runs && m !in s.aborted
    else
      && r.deps.value == s.declared[m] && (m in s.runs <==> m in s.aborted)
      && (if m in s.aborted then r.complete else r.complete <==> r.error.Some?)
  }

  ghost predicate Distinct<T>(q: seq<T>) {
    forall i, j :: 0 <= i < j < |q| ==> q[i] != q[j]
  }

  ghost predicate RecordsOk(s: State) {
    && s.declared.Keys == s.mods.Keys
    && (forall m :: m in s.mods ==> RecordOk(s, m))
    && (forall m :: m in s.runs ==> m in s.mods)
    && (forall m :: m in s.aborted ==> m in s.runs)
    && Distinct(s.runs)
  }

  /** A recorded waiter has not run, and its dependency list names what is waited for;
      nobody waits for a module that has run, unless that run was aborted. */
  ghost predicate WaiterOk(s: State, m: Id, d: Id) {
    && m in s.mods && s.mods[m].deps.Some? && Regular(d) in s.mods[m].deps.value
    && m !in s.runs && (d !in s.runs || d in s.aborted) && (d in s.known || d in s.mods)
  }

  ghost predicate WaitersOk(s: State) {
    forall m, d :: m in WaitersOf(s.inverse, d) ==> WaiterOk(s, m, d)
  }

  /** A module with dependencies that has not run. */
  ghost predicate Pending(s: State, m: Id) {
    m in s.mods && m !in s.runs && s.mods[m].deps.Some? && s.mods[m].deps.value != []
  }

  /** An incomplete module's counter is its occurrences in live inverse lists plus
      `todo`, which holds what the code on the stack still has to count down: the
      unvisited dependencies of a module being resolved and the unprocessed tails of
      the active completion frames; plus what aborted frames will never count down. */
  ghost predicate CountersOk(s: State, todo: multiset<Id>) {
    && (forall m :: Incomplete(s, m) ==> s.mods[m].count == AllWaiters(s.inverse)[m] + todo[m] + s.lost[m])
    && (forall m :: m in todo || m in s.lost ==> Pending(s, m))
    && (s.aborted == {} ==> s.lost == multiset{})
  }

  /** A visited dependency of a module that has not run. */
  ghost predicate Settled(s: State, m: Id, d: Dep) {
    d.Regular? ==> d.target in s.runs || (m, d.target) in s.cut || m in WaitersOf(s.inverse, d.target)
  }

  /** All dependencies of incomplete modules are settled; `current` is being resolved
      and is not held to it yet. */
  ghost predicate SettledOk(s: State, current: Option<Id>) {
    forall m, d :: Incomplete(s, m) && Some(m) != current && s.mods[m].deps.Some? && d in s.mods[m].deps.value
      ==> Settled(s, m, d)
  }

  ghost predicate CutsOk(s: State) {
    forall m, d :: (m, d) in s.cut ==>
      m in s.declared && d in Targets(s.declared[m]) && HasPath(DeclaredGraph(s), d, m)
  }

  /** The dependency d of the i-th module to run ran before it, or was cut. */
  ghost predicate RanInOrder(s: State, i: nat, d: Dep)
    requires i < |s.runs|
  {
    d.Regular? ==> (s.runs[i], d.target) in s.cut || d.target in s.runs[..i]
  }

  ghost predicate OrderOk(s: State) {
    forall i, d :: 0 <= i < |s.runs| && s.runs[i] in s.declared && d in s.declared[s.runs[i]] ==> RanInOrder(s, i, d)
  }

  ghost predicate Inv(s: State, todo: multiset<Id>, current: Option<Id>) {
    && RecordsOk(s)
    && WaitersOk(s)
    && CountersOk(s, todo)
    && SettledOk(s, current)
    && CutsOk(s)
    && OrderOk(s)
    && Acyclic(WaitGraph(s))
  }

  /** No incomplete module, except possibly `but`, has run out of things to wait for. */
  ghost predicate AllWaiting(s: State, but: Option<Id>) {
    forall m :: Incomplete(s, m) && Some(m) != but ==> s.mods[m].count > 0
  }

  /** The state between two events. */
  ghost predicate Quiescent(s: State) {
    Inv(s, multiset{}, None) && AllWaiting(s, None)
  }

  // ---------- steps ----------

  function Register(s: State, m: Id, deps: seq<Dep>, errorback: bool): State {
    s.(mods := s.mods[m := Mod(Some(deps), |deps|, false, None, errorback)],
       declared := s.declared[m := deps])
  }

  function CountDown(s: State, m: Id): State
    requires m in s.mods
  {
    s.(mods := s.mods[m := s.mods[m].(count := s.mods[m].count - 1)])
  }

  function Cut(s: State, m: Id, d: Id): State
    requires m in s.mods
  {
    CountDown(s, m).(cut := s.cut + {(m, d)})
  }

  function Await(s: State, m: Id, d: Id): State {
    s.(inverse := s.inverse[d := WaitersOf(s.inverse, d) + [m]],
       known := if d in s.mods then s.known else s.known + {d},
       requests := if d in s.mods || d in s.known then s.requests else s.requests + [d])
  }

  function MarkFailed(s: State, m: Id, err: Failure): State
    requires m in s.mods
  {
    s.(mods := s.mods[m := s.mods[m].(complete := true, error := Some(err))])
  }

  /** m is marked failed, and its errorback called if it has one. */
  function FailModule(s: State, m: Id, err: Failure): State
    requires m in s.mods
  {
    MarkFailed(s, m, err).(errorbackCalls := s.errorbackCalls + if s.mods[m].errorback then [(m, err)] else [])
  }

  /** The factory of m is invoked, a throw is caught, and m's inverse dependencies are
      fetched and cleared. */
  function RunModule(s: State, m: Id, throws: bool): State
    requires m in s.mods
  {
    var error := if throws then Some(FactoryFailure(m)) else s.mods[m].error;
    s.(mods := s.mods[m := s.mods[m].(deps := None, complete := true, error := error, errorback := false)],
       inverse := s.inverse - {m},
       globalErrors := s.globalErrors + if throws then [FactoryFailure(m)] else [],
       runs := s.runs + [m])
  }

  /** The factory of m throws and nobody catches it: m is complete but otherwise as before,
      its inverse dependencies stay, and all active frames, whose unprocessed tails are
      `todo`, are left. */
  function AbortModule(s: State, m: Id, todo: multiset<Id>): State
    requires m in s.mods
  {
    s.(mods := s.mods[m := s.mods[m].(complete := true)],
       runs := s.runs + [m],
       aborted := s.aborted + {m},
       lost := s.lost + todo)
  }

  /** Every module in `reached` is failed, each errorback in `calls` is called. */
  function FailModules(s: State, reached: set<Id>, err: Failure, calls: seq<(Id, Failure)>): State {
    s.(mods := map m | m in s.mods ::
                 if m in reached then s.mods[m].(complete := true, error := Some(err)) else s.mods[m],
       errorbackCalls := s.errorbackCalls + calls)
  }

  /** The modules a load error of m reaches: m and everyone who waits for a reached one. */
  ghost function Affected(s: State, m: Id): set<Id> {
    set x | x in s.mods && (x == m || HasPath(InverseGraph(s), m, x))
  }

  function Notify(s: State, errors: seq<Failure>): State {
    s.(globalErrors := s.globalErrors + errors)
  }

  // ---------- how states may evolve ----------

  /** What every event keeps: nothing is forgotten, complete stays complete, failed stays
      failed, and a factory runs only for a module that was not complete before. */
  ghost predicate Extends(s: State, t: State) {
    && s.mods.Keys <= t.mods.Keys
    && s.known <= t.known && s.requests <= t.requests
    && s.cut <= t.cut
    && (forall m :: m in s.declared ==> m in t.declared && t.declared[m] == s.declared[m])
    && (forall m :: m in s.mods && s.mods[m].complete ==> t.mods[m].complete)
    && (forall m :: m in s.mods && s.mods[m].error.Some? ==> t.mods[m].error.Some?)
    && s.runs <= t.runs && s.aborted <= t.aborted && s.lost <= t.lost
    && (forall m :: m in t.aborted && m in s.runs ==> m in s.aborted)
    && (forall m :: m in t.runs && m !in s.runs ==> m in t.mods && (m in s.mods ==> !s.mods[m].complete))
  }

  lemma ExtendsReflexive(s: State)
    ensures Extends(s, s)
  {
  }

  lemma ExtendsTransitive(s: State, t: State, u: State)
    requires Extends(s, t) && Extends(t, u)
    ensures Extends(s, u)
  {
  }

  // ---------- AllWaiters ----------

  lemma {:induction false} AllWaitersAt(inverse: map<Id, seq<Id>>, d: Id)
    requires d in inverse
    ensures AllWaiters(inverse) == multiset(inverse[d]) + AllWaiters(inverse - {d})
    decreases |inverse|
  {
    var e :| e in inverse && AllWaiters(inverse) == multiset(inverse[e]) + AllWaiters(inverse - {e});
    if e != d {
      var less := inverse - {e};
      assert inverse == less[e := inverse[e]];
      assert |less| < |inverse|;
      AllWaitersAt(less, d);
      var rest := inverse - {d};
      assert inverse == rest[d := inverse[d]];
      assert |rest| < |inverse|;
      AllWaitersAt(rest, e);
      assert less - {d} == rest - {e};
    }
  }

  lemma AllWaitersTake(inverse: map<Id, seq<Id>>, d: Id)
    ensures AllWaiters(inverse) == AllWaiters(inverse - {d}) + multiset(WaitersOf(inverse, d))
  {
    if d in inverse {
      AllWaitersAt(inverse, d);
    } else {
      assert inverse - {d} == inverse;
    }
  }

  lemma AllWaitersPush(inverse: map<Id, seq<Id>>, d: Id, m: Id)
    ensures AllWaiters(inverse[d := WaitersOf(inverse, d) + [m]]) == AllWaiters(inverse) + multiset{m}
  {
    var pushed := inverse[d := WaitersOf(inverse, d) + [m]];
    AllWaitersTake(inverse, d);
    AllWaitersTake(pushed, d);
    assert pushed - {d} == inverse - {d};
    assert multiset(WaitersOf(inverse, d) + [m]) == multiset(WaitersOf(inverse, d)) + multiset{m};
  }

  /** A module counts as a waiter iff some list names it. */
  lemma {:induction false} AllWaitersMember(inverse: map<Id, seq<Id>>, m: Id)
    ensures m in AllWaiters(inverse) <==> exists d :: m in WaitersOf(inverse, d)
    decreases |inverse|
  {
    if inverse != map[] {
      var e :| e in inverse;
      AllWaitersAt(inverse, e);
      var rest := inverse - {e};
      assert inverse == rest[e := inverse[e]];
      AllWaitersMember(rest, m);
      assert m in WaitersOf(inverse, e) <==> m in inverse[e];
      assert forall d :: d != e ==> WaitersOf(rest, d) == WaitersOf(inverse, d);
    }
  }
}
