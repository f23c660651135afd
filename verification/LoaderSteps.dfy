/** Each step of the module manager keeps the invariant. */
module LoaderSteps {
  import opened Graph
  import opened Options
  import opened LoaderState

  /** `k` visits of module m still to come. */
  ghost function Visits(m: Id, k: nat): multiset<Id> {
    multiset{}[m := k]
  }

  lemma VisitsAt(m: Id, k: nat)
    ensures forall x :: Visits(m, k)[x] == if x == m then k else 0
    ensures forall x :: x in Visits(m, k) <==> x == m && k > 0
  {
  }

  // ---------- what an unchanged part carries over ----------

  lemma WaitGraphWithin(s: State)
    requires WaitersOk(s)
    ensures Subgraph(WaitGraph(s), DepGraph(s))
  {
    forall m, d | Edge(WaitGraph(s), m, d)
      ensures Edge(DepGraph(s), m, d)
    {
      assert Regular(d) in s.mods[m].deps.value;
      assert DepId(Regular(d)) in Targets(s.mods[m].deps.value);
    }
  }

  lemma DepGraphWithin(s: State)
    requires RecordsOk(s)
    ensures Subgraph(DepGraph(s), DeclaredGraph(s))
  {
  }

  /** A module nobody counts down for is in no inverse list. */
  lemma NotWaiting(s: State, m: Id)
    requires WaitersOk(s)
    requires m !in s.mods || AllWaiters(s.inverse)[m] == 0
    ensures AllWaiters(s.inverse)[m] == 0
    ensures forall d :: m !in WaitersOf(s.inverse, d)
  {
    AllWaitersMember(s.inverse, m);
    assert forall d :: m in WaitersOf(s.inverse, d) ==> WaiterOk(s, m, d);
  }

  lemma CutsKept(s: State, t: State)
    requires CutsOk(s) && t.cut == s.cut
    requires forall m :: m in s.declared ==> m in t.declared && t.declared[m] == s.declared[m]
    ensures CutsOk(t)
  {
    forall m: Id, d: Id | (m, d) in t.cut
      ensures m in t.declared && d in Targets(t.declared[m]) && HasPath(DeclaredGraph(t), d, m)
    {
      SubgraphPath(DeclaredGraph(s), DeclaredGraph(t), d, m);
    }
  }

  lemma OrderKept(s: State, t: State)
    requires RecordsOk(s) && OrderOk(s) && s.cut <= t.cut && t.runs == s.runs
    requires forall m :: m in s.declared ==> m in t.declared && t.declared[m] == s.declared[m]
    ensures OrderOk(t)
  {
    forall i, d | 0 <= i < |t.runs| && t.runs[i] in t.declared && d in t.declared[t.runs[i]]
      ensures RanInOrder(t, i, d)
    {
      assert s.runs[i] in s.runs;
      assert RanInOrder(s, i, d);
    }
  }

  /** m was incomplete before, with the same dependencies, and not being resolved. */
  ghost predicate HeldBefore(s: State, t: State, current: Option<Id>, m: Id) {
    Incomplete(s, m) && m in t.mods && t.mods[m].deps == s.mods[m].deps && Some(m) != current
  }

  lemma SettledKept(s: State, t: State, current: Option<Id>, current': Option<Id>)
    requires SettledOk(s, current)
    requires s.cut <= t.cut && s.runs <= t.runs
    requires forall m, d :: m in WaitersOf(s.inverse, d) ==> m in WaitersOf(t.inverse, d) || d in t.runs
    requires forall m: Id :: Incomplete(t, m) && Some(m) != current' ==> HeldBefore(s, t, current, m)
    ensures SettledOk(t, current')
  {
    forall m: Id, d | Incomplete(t, m) && Some(m) != current' && t.mods[m].deps.Some? && d in t.mods[m].deps.value
      ensures Settled(t, m, d)
    {
      assert HeldBefore(s, t, current, m);
      assert Settled(s, m, d);
    }
  }

  /** Only counters, completion flags and errors of existing modules changed. */
  ghost predicate Tweaked(s: State, t: State) {
    && t.mods.Keys == s.mods.Keys
    && t.known == s.known && t.requests == s.requests && t.inverse == s.inverse
    && t.declared == s.declared && t.cut == s.cut && t.runs == s.runs
    && t.aborted == s.aborted && t.lost == s.lost
    && (forall m :: m in s.mods ==> TweakedMod(s.mods[m], t.mods[m]))
  }

  ghost predicate TweakedMod(a: Mod, b: Mod) {
    && b.deps == a.deps
    && (a.complete ==> b.complete)
    && (a.error.Some? ==> b.error.Some?)
    && (b.complete && !a.complete ==> b.error.Some?)
    && (!b.complete ==> b.error == a.error)
  }

  lemma TweakRecords(s: State, t: State)
    requires RecordsOk(s) && WaitersOk(s) && Tweaked(s, t)
    ensures RecordsOk(t) && WaitersOk(t) && Extends(s, t)
    ensures WaitGraph(t) == WaitGraph(s)
  {
    forall m | m in t.mods
      ensures RecordOk(t, m)
    {
      assert RecordOk(s, m) && TweakedMod(s.mods[m], t.mods[m]);
    }
    forall m, d | m in WaitersOf(t.inverse, d)
      ensures WaiterOk(t, m, d)
    {
      assert WaiterOk(s, m, d) && TweakedMod(s.mods[m], t.mods[m]);
    }
    forall m | m in s.mods && s.mods[m].complete
      ensures t.mods[m].complete && (s.mods[m].error.Some? ==> t.mods[m].error.Some?)
    {
      assert TweakedMod(s.mods[m], t.mods[m]);
    }
  }

  lemma TweakKeeps(s: State, t: State, todo: multiset<Id>, todo': multiset<Id>, current: Option<Id>,
      current': Option<Id>)
    requires Inv(s, todo, current) && Tweaked(s, t) && CountersOk(t, todo')
    requires current' == current || (current'.None? && !Incomplete(t, current.value))
    ensures Inv(t, todo', current') && Extends(s, t)
  {
    TweakRecords(s, t);
    CutsKept(s, t);
    OrderKept(s, t);
    forall m: Id | Incomplete(t, m) && Some(m) != current'
      ensures HeldBefore(s, t, current, m)
    {
      assert TweakedMod(s.mods[m], t.mods[m]);
    }
    SettledKept(s, t, current, current');
  }

  lemma RecordsKept(s: State, t: State)
    requires RecordsOk(s) && WaitersOk(s)
    requires t.mods == s.mods && t.inverse == s.inverse && t.known == s.known
    requires t.declared == s.declared && t.runs == s.runs && t.aborted == s.aborted
    ensures RecordsOk(t) && WaitersOk(t) && WaitGraph(t) == WaitGraph(s)
  {
    assert forall m :: m in t.mods ==> RecordOk(s, m) && RecordOk(t, m);
    assert forall m, d :: m in WaitersOf(t.inverse, d) ==> WaiterOk(s, m, d) && WaiterOk(t, m, d);
  }

  lemma EmptyQuiescent()
    ensures Quiescent(EMPTY)
  {
    forall v
      ensures !HasPath(WaitGraph(EMPTY), v, v)
    {
      ClosedSetNoPath(WaitGraph(EMPTY), {v}, v, v);
    }
  }

  // ---------- registering a module ----------

  lemma RegisterCounters(s: State, m: Id, deps: seq<Dep>, errorback: bool)
    requires CountersOk(s, multiset{}) && RecordsOk(s) && WaitersOk(s) && m !in s.mods
    ensures CountersOk(Register(s, m, deps, errorback), Visits(m, |deps|))
  {
    hide AllWaiters, RecordOk, WaitersOk, Visits;
    NotWaiting(s, m);
    VisitsAt(m, |deps|);
    var t := Register(s, m, deps, errorback);
    assert forall x :: Pending(s, x) ==> x != m && Pending(t, x);
    assert m !in s.lost;
  }

  lemma RegisterRecords(s: State, m: Id, deps: seq<Dep>, errorback: bool)
    requires RecordsOk(s) && WaitersOk(s) && m !in s.mods
    ensures RecordsOk(Register(s, m, deps, errorback))
    ensures WaitersOk(Register(s, m, deps, errorback))
    ensures Subgraph(WaitGraph(Register(s, m, deps, errorback)), WaitGraph(s))
  {
    var t := Register(s, m, deps, errorback);
    NotWaiting(s, m);
    assert forall x :: x in s.mods ==> RecordOk(s, x) && RecordOk(t, x);
    assert forall x, d :: x in WaitersOf(t.inverse, d) ==> WaiterOk(s, x, d) && WaiterOk(t, x, d);
  }

  lemma RegisterExtends(s: State, m: Id, deps: seq<Dep>, errorback: bool)
    requires RecordsOk(s) && m !in s.mods
    ensures Extends(s, Register(s, m, deps, errorback))
    ensures forall x :: x in s.declared ==> x != m
  {
  }

  lemma RegisterKeeps(s: State, m: Id, deps: seq<Dep>, errorback: bool)
    requires Quiescent(s) && m !in s.mods
    ensures Inv(Register(s, m, deps, errorback), Visits(m, |deps|), Some(m))
    ensures AllWaiting(Register(s, m, deps, errorback), Some(m))
    ensures Extends(s, Register(s, m, deps, errorback))
  {
    hide RecordsOk, WaitersOk, CountersOk, SettledOk, CutsOk, OrderOk, Acyclic, WaitGraph, Extends;
    var t := Register(s, m, deps, errorback);
    RegisterExtends(s, m, deps, errorback);
    RegisterCounters(s, m, deps, errorback);
    RegisterRecords(s, m, deps, errorback);
    CutsKept(s, t);
    OrderKept(s, t);
    SettledKept(s, t, None, Some(m));
    SubgraphAcyclic(WaitGraph(t), WaitGraph(s));
  }

  // ---------- visiting one dependency ----------

  lemma CountDownCounters(s: State, todo: multiset<Id>, m: Id)
    requires CountersOk(s, todo) && m in todo
    ensures m in s.mods && CountersOk(CountDown(s, m), todo - multiset{m})
    ensures Incomplete(CountDown(s, m), m) ==> CountDown(s, m).mods[m].count >= 0
    ensures Tweaked(s, CountDown(s, m))
  {
    hide AllWaiters;
    var t := CountDown(s, m);
    assert forall x :: x in t.mods ==> TweakedMod(s.mods[x], t.mods[x]);
    forall x | x in todo || x in s.lost
      ensures Pending(t, x)
    {
      assert Pending(s, x);
    }
  }

  /** Counting m down by one pays for one of its occurrences in `todo`. */
  lemma CountDownKeeps(s: State, todo: multiset<Id>, current: Option<Id>, m: Id)
    requires Inv(s, todo, current) && m in todo
    ensures m in s.mods
    ensures Incomplete(CountDown(s, m), m) ==> CountDown(s, m).mods[m].count >= 0
    ensures AllWaiting(s, None) ==> AllWaiting(CountDown(s, m), Some(m))
    ensures Inv(CountDown(s, m), todo - multiset{m}, current)
    ensures Extends(s, CountDown(s, m))
  {
    hide RecordsOk, WaitersOk, CountersOk, SettledOk, CutsOk, OrderOk, Acyclic, WaitGraph, Extends, Tweaked, Incomplete;
    CountDownCounters(s, todo, m);
    TweakKeeps(s, CountDown(s, m), todo, todo - multiset{m}, current, current);
    CountDownWaiting(s, m);
  }

  lemma CountDownWaiting(s: State, m: Id)
    requires m in s.mods
    ensures AllWaiting(s, None) ==> AllWaiting(CountDown(s, m), Some(m))
  {
  }

  /** A cut is recorded: the path the search found is made of declared edges. */
  lemma CutRecorded(s: State, c: State, m: Id, d: Id)
    requires RecordsOk(s) && Incomplete(s, m)
    requires Regular(d) in s.mods[m].deps.value && HasPath(DepGraph(s), d, m)
    requires CutsOk(c) && c.declared == s.declared
    ensures CutsOk(c.(cut := c.cut + {(m, d)}))
  {
    DepGraphWithin(s);
    SubgraphPath(DepGraph(s), DeclaredGraph(s), d, m);
    assert DepId(Regular(d)) in Targets(s.declared[m]);
    assert DeclaredGraph(c.(cut := c.cut + {(m, d)})) == DeclaredGraph(s);
    assert DeclaredGraph(c) == DeclaredGraph(s);
  }

  lemma CutKeeps(s: State, todo: multiset<Id>, current: Option<Id>, m: Id, d: Id)
    requires Inv(s, todo, current) && m in todo && Incomplete(s, m)
    requires Regular(d) in s.mods[m].deps.value && HasPath(DepGraph(s), d, m)
    ensures Inv(Cut(s, m, d), todo - multiset{m}, current)
    ensures Extends(s, Cut(s, m, d))
  {
    hide RecordsOk, WaitersOk, CountersOk, SettledOk, CutsOk, OrderOk, Acyclic, WaitGraph, Extends;
    CountDownKeeps(s, todo, current, m);
    var c, t := CountDown(s, m), Cut(s, m, d);
    CutRecorded(s, c, m, d);
    OrderKept(c, t);
    SettledKept(c, t, current, current);
    RecordsKept(c, t);
    CutOnlyAdds(s, c, t, todo - multiset{m});
  }

  lemma CutOnlyAdds(s: State, c: State, t: State, todo: multiset<Id>)
    requires Extends(s, c) && CountersOk(c, todo) && c.cut <= t.cut && t == c.(cut := t.cut)
    ensures Extends(s, t) && CountersOk(t, todo)
  {
    assert forall m :: Pending(c, m) ==> Pending(t, m);
  }

  lemma AwaitAcyclic(s: State, m: Id, d: Id)
    requires WaitersOk(s) && Acyclic(WaitGraph(s))
    requires m in s.mods && s.mods[m].deps.Some? && Regular(d) in s.mods[m].deps.value
    requires !HasPath(DepGraph(s), d, m)
    ensures Acyclic(WaitGraph(Await(s, m, d)))
  {
    WaitGraphWithin(s);
    if HasPath(WaitGraph(s), d, m) {
      SubgraphPath(WaitGraph(s), DepGraph(s), d, m);
    }
    if m == d {
      assert DepId(Regular(d)) in Targets(s.mods[m].deps.value);
      EdgePath(DepGraph(s), m, d);
    }
    AcyclicAfterEdge(WaitGraph(s), WaitGraph(Await(s, m, d)), m, d);
  }

  lemma AwaitCounters(s: State, todo: multiset<Id>, m: Id, d: Id)
    requires CountersOk(s, todo) && m in todo
    ensures CountersOk(Await(s, m, d), todo - multiset{m})
  {
    AllWaitersPush(s.inverse, d, m);
  }

  lemma AwaitRecords(s: State, m: Id, d: Id)
    requires RecordsOk(s) && WaitersOk(s) && Incomplete(s, m)
    requires Regular(d) in s.mods[m].deps.value && d !in s.runs
    ensures RecordsOk(Await(s, m, d)) && WaitersOk(Await(s, m, d))
    ensures Extends(s, Await(s, m, d))
  {
    var t := Await(s, m, d);
    assert forall x :: x in s.mods ==> RecordOk(s, x) && RecordOk(t, x);
    forall x, e | x in WaitersOf(t.inverse, e)
      ensures WaiterOk(t, x, e)
    {
      assert x in WaitersOf(s.inverse, e) ==> WaiterOk(s, x, e);
    }
  }

  lemma AwaitSettled(s: State, current: Option<Id>, m: Id, d: Id)
    requires RecordsOk(s) && SettledOk(s, current) && CutsOk(s) && OrderOk(s)
    ensures SettledOk(Await(s, m, d), current) && CutsOk(Await(s, m, d)) && OrderOk(Await(s, m, d))
  {
    var t := Await(s, m, d);
    CutsKept(s, t);
    OrderKept(s, t);
    SettledKept(s, t, current, current);
  }

  /** Recording m as an inverse dependency of d moves one unit of m's counter from
      `todo` to the list; the wait graph stays acyclic because no path led back. */
  lemma AwaitKeeps(s: State, todo: multiset<Id>, current: Option<Id>, m: Id, d: Id)
    requires Inv(s, todo, current) && m in todo && Incomplete(s, m)
    requires Regular(d) in s.mods[m].deps.value && d !in s.runs
    requires !HasPath(DepGraph(s), d, m)
    ensures Inv(Await(s, m, d), todo - multiset{m}, current)
    ensures Extends(s, Await(s, m, d))
  {
    AwaitAcyclic(s, m, d);
    AwaitCounters(s, todo, m, d);
    AwaitRecords(s, m, d);
    AwaitSettled(s, current, m, d);
  }

  /** A module that fails while it is resolved gives up its remaining visits. */
  lemma FailKeeps(s: State, m: Id, k: nat, err: Failure)
    requires Inv(s, Visits(m, k), Some(m)) && AllWaiting(s, Some(m)) && Incomplete(s, m)
    ensures Quiescent(FailModule(s, m, err))
    ensures Extends(s, FailModule(s, m, err))
  {
    hide RecordsOk, WaitersOk, CountersOk, SettledOk, CutsOk, OrderOk, Acyclic, WaitGraph, Extends, Tweaked;
    FailCounters(s, m, k, err);
    TweakKeeps(s, FailModule(s, m, err), Visits(m, k), multiset{}, Some(m), None);
  }

  lemma FailCounters(s: State, m: Id, k: nat, err: Failure)
    requires CountersOk(s, Visits(m, k)) && Incomplete(s, m)
    ensures CountersOk(FailModule(s, m, err), multiset{}) && Tweaked(s, FailModule(s, m, err))
  {
    hide AllWaiters;
    var t := FailModule(s, m, err);
    assert forall x :: x in t.mods ==> TweakedMod(s.mods[x], t.mods[x]);
    assert forall x :: Pending(s, x) ==> Pending(t, x);
  }

  // ---------- completing a module ----------

  /** A module whose counter is zero waits for nothing, so all its dependencies have run
      or were cut. */
  lemma ReadyMeansDepsRan(s: State, todo: multiset<Id>, m: Id)
    requires Inv(s, todo, None) && Incomplete(s, m) && s.mods[m].count == 0
    ensures m !in todo
    ensures forall d :: m !in WaitersOf(s.inverse, d)
    ensures forall d :: Regular(d) in s.mods[m].deps.value ==> d in s.runs || (m, d) in s.cut
  {
    NotWaiting(s, m);
    forall d | Regular(d) in s.mods[m].deps.value
      ensures d in s.runs || (m, d) in s.cut
    {
      assert Settled(s, m, Regular(d));
    }
  }

  /** However m's factory ends, m runs after everything it waited for. */
  lemma RunOrder(s: State, t: State, todo: multiset<Id>, m: Id)
    requires Inv(s, todo, None) && Incomplete(s, m) && s.mods[m].count == 0
    requires t.runs == s.runs + [m] && t.declared == s.declared && t.cut == s.cut
    ensures OrderOk(t)
  {
    ReadyMeansDepsRan(s, todo, m);
    forall i, e | 0 <= i < |t.runs| && t.runs[i] in t.declared && e in t.declared[t.runs[i]]
      ensures RanInOrder(t, i, e)
    {
      if i < |s.runs| {
        assert RanInOrder(s, i, e);
        assert t.runs[..i] == s.runs[..i];
      } else {
        assert t.runs[..i] == s.runs;
      }
    }
  }

  lemma RunCounters(s: State, todo: multiset<Id>, m: Id, throws: bool)
    requires CountersOk(s, todo) && WaitersOk(s) && Incomplete(s, m) && s.mods[m].count == 0
    ensures CountersOk(RunModule(s, m, throws), todo + multiset(WaitersOf(s.inverse, m)))
  {
    AllWaitersTake(s.inverse, m);
    NotWaiting(s, m);
    var t := RunModule(s, m, throws);
    forall x | x in todo + multiset(WaitersOf(s.inverse, m)) || x in s.lost
      ensures Pending(t, x)
    {
      if x in WaitersOf(s.inverse, m) {
        assert WaiterOk(s, x, m);
      } else {
        assert Pending(s, x);
      }
    }
  }

  /** Running m, with or without an exception, leaves the other records as they are. */
  lemma RanRecords(s: State, t: State, m: Id)
    requires RecordsOk(s) && m in s.mods && m !in s.runs && t.declared == s.declared && t.runs == s.runs + [m]
    requires m in t.mods && t.mods == s.mods[m := t.mods[m]] && t.aborted <= s.aborted + {m}
    requires s.aborted <= t.aborted && RecordOk(t, m)
    ensures RecordsOk(t)
  {
    forall x | x in s.mods && x != m
      ensures RecordOk(t, x)
    {
      assert RecordOk(s, x);
    }
  }

  lemma RunRecords(s: State, todo: multiset<Id>, m: Id, throws: bool)
    requires Inv(s, todo, None) && Incomplete(s, m) && s.mods[m].count == 0
    ensures RecordsOk(RunModule(s, m, throws))
    ensures WaitersOk(RunModule(s, m, throws))
    ensures Subgraph(WaitGraph(RunModule(s, m, throws)), WaitGraph(s))
  {
    var t := RunModule(s, m, throws);
    ReadyMeansDepsRan(s, todo, m);
    hide RecordsOk, CountersOk, SettledOk, CutsOk, OrderOk, Acyclic;
    NotRunYet(s, m);
    RanRecords(s, t, m);
    forall x, d | x in WaitersOf(t.inverse, d)
      ensures WaiterOk(t, x, d)
    {
      assert x in WaitersOf(s.inverse, d) && WaiterOk(s, x, d);
    }
  }

  lemma NotRunYet(s: State, m: Id)
    requires RecordsOk(s) && Incomplete(s, m)
    ensures m !in s.runs && m !in s.aborted && s.mods[m].error.None?
    ensures m in s.declared && s.mods[m].deps == Some(s.declared[m])
  {
    assert RecordOk(s, m);
  }

  lemma RunExtends(s: State, m: Id, throws: bool)
    requires Incomplete(s, m) && RecordsOk(s)
    ensures Extends(s, RunModule(s, m, throws))
    ensures forall x, d :: x in WaitersOf(s.inverse, d) ==>
      x in WaitersOf(RunModule(s, m, throws).inverse, d) || d in RunModule(s, m, throws).runs
  {
    assert RecordOk(s, m);
  }

  /** Running a ready module moves its waiters from the inverse lists to `todo`. */
  lemma RunKeeps(s: State, todo: multiset<Id>, m: Id, throws: bool)
    requires Inv(s, todo, None) && Incomplete(s, m) && s.mods[m].count == 0
    ensures Inv(RunModule(s, m, throws), todo + multiset(WaitersOf(s.inverse, m)), None)
    ensures Extends(s, RunModule(s, m, throws)) && m in RunModule(s, m, throws).runs
    ensures AllWaiting(s, Some(m)) ==> AllWaiting(RunModule(s, m, throws), None)
  {
    hide RecordsOk, WaitersOk, CountersOk, SettledOk, CutsOk, OrderOk, Acyclic, WaitGraph, Extends;
    var t := RunModule(s, m, throws);
    RunExtends(s, m, throws);
    RunRecords(s, todo, m, throws);
    RunCounters(s, todo, m, throws);
    RunOrder(s, t, todo, m);
    CutsKept(s, t);
    SettledKept(s, t, None, None);
    SubgraphAcyclic(WaitGraph(t), WaitGraph(s));
  }

  lemma AbortRecords(s: State, todo: multiset<Id>, m: Id)
    requires Inv(s, todo, None) && Incomplete(s, m) && s.mods[m].count == 0
    ensures RecordsOk(AbortModule(s, m, todo))
    ensures WaitersOk(AbortModule(s, m, todo))
    ensures WaitGraph(AbortModule(s, m, todo)) == WaitGraph(s)
  {
    var t := AbortModule(s, m, todo);
    ReadyMeansDepsRan(s, todo, m);
    hide RecordsOk, CountersOk, SettledOk, CutsOk, OrderOk, Acyclic;
    NotRunYet(s, m);
    RanRecords(s, t, m);
    forall x, d | x in WaitersOf(t.inverse, d)
      ensures WaiterOk(t, x, d)
    {
      assert x in WaitersOf(s.inverse, d) && WaiterOk(s, x, d);
    }
  }

  lemma AbortCounters(s: State, todo: multiset<Id>, m: Id)
    requires CountersOk(s, todo) && Incomplete(s, m) && s.mods[m].count == 0
    ensures CountersOk(AbortModule(s, m, todo), multiset{})
  {
    forall x | x in s.lost + todo
      ensures Pending(AbortModule(s, m, todo), x)
    {
      assert x in todo || x in s.lost;
      assert Pending(s, x);
    }
  }

  lemma AbortExtends(s: State, todo: multiset<Id>, m: Id)
    requires Incomplete(s, m) && RecordsOk(s)
    ensures Extends(s, AbortModule(s, m, todo))
  {
    assert RecordOk(s, m);
  }

  /** An exception that nobody catches leaves all active frames; what they had left to
      count down is lost, and the invariant holds again with nothing left to do. */
  lemma AbortKeeps(s: State, todo: multiset<Id>, m: Id)
    requires Inv(s, todo, None) && Incomplete(s, m) && s.mods[m].count == 0
    ensures Inv(AbortModule(s, m, todo), multiset{}, None)
    ensures Extends(s, AbortModule(s, m, todo)) && m in AbortModule(s, m, todo).runs
    ensures AllWaiting(s, Some(m)) ==> AllWaiting(AbortModule(s, m, todo), None)
  {
    hide RecordsOk, WaitersOk, CountersOk, SettledOk, CutsOk, OrderOk, Acyclic, WaitGraph, Extends;
    var t := AbortModule(s, m, todo);
    AbortExtends(s, todo, m);
    AbortRecords(s, todo, m);
    AbortCounters(s, todo, m);
    RunOrder(s, t, todo, m);
    CutsKept(s, t);
    SettledKept(s, t, None, None);
  }

  // ---------- load errors ----------

  lemma FailModulesCounters(s: State, reached: set<Id>, err: Failure, calls: seq<(Id, Failure)>)
    requires CountersOk(s, multiset{})
    ensures CountersOk(FailModules(s, reached, err, calls), multiset{})
    ensures Tweaked(s, FailModules(s, reached, err, calls))
  {
    hide AllWaiters;
    var t := FailModules(s, reached, err, calls);
    assert forall x :: x in t.mods ==> TweakedMod(s.mods[x], t.mods[x]);
    assert forall x :: Pending(s, x) ==> Pending(t, x);
  }

  /** Failing any set of modules between two events leaves a quiescent state; a module
      that was only just registered must be among them. */
  lemma FailModulesKeeps(s: State, current: Option<Id>, reached: set<Id>, err: Failure, calls: seq<(Id, Failure)>)
    requires Inv(s, multiset{}, current) && AllWaiting(s, current)
    requires current.Some? ==> current.value in reached
    ensures Quiescent(FailModules(s, reached, err, calls))
    ensures Extends(s, FailModules(s, reached, err, calls))
  {
    hide RecordsOk, WaitersOk, CountersOk, SettledOk, CutsOk, OrderOk, Acyclic, WaitGraph, Extends, Tweaked;
    FailModulesCounters(s, reached, err, calls);
    TweakKeeps(s, FailModules(s, reached, err, calls), multiset{}, multiset{}, current, None);
  }
}
