/** Bundling: a depth-first walk over a module graph that may have cycles, adding each
    module's source after the sources of its dependencies. */
module Bundling {
  import opened Graph
  import opened Orders
  import opened Vlq
  import opened Mappings
  import opened SourceMaps
  import opened SourceMapBuilders

  /** The parsed modules: for each its dependencies, in order, and its source. */
  datatype Program = Program(deps: map<nat, seq<nat>>, source: map<nat, Source>)

  ghost predicate Closed(p: Program) {
    && p.source.Keys == p.deps.Keys
    && forall u, v :: u in p.deps && v in p.deps[u] ==> v in p.deps
  }

  ghost function DependencyGraph(p: Program): Digraph {
    map u | u in p.deps :: set v | v in p.deps[u]
  }

  ghost predicate Reachable(p: Program, u: nat, v: nat) {
    u == v || HasPath(DependencyGraph(p), u, v)
  }

  // ---------- the order ----------

  /** A dependency of the i-th module comes before it, or can reach it. */
  ghost predicate InOrder(p: Program, order: seq<nat>, i: nat, v: nat)
    requires i < |order|
  {
    v in order[..i] || HasPath(DependencyGraph(p), v, order[i])
  }

  ghost predicate Ordered(p: Program, order: seq<nat>) {
    && (forall i, j :: 0 <= i < j < |order| ==> order[i] != order[j])
    && (forall i :: 0 <= i < |order| ==> order[i] in p.deps)
    && (forall i, v :: 0 <= i < |order| && order[i] in p.deps && v in p.deps[order[i]] ==> InOrder(p, order, i, v))
  }

  /** The walk so far: `order` is finished, `stack` is what is being visited, and every
      module of the stack reaches u. */
  ghost predicate Walking(p: Program, visited: set<nat>, order: seq<nat>, stack: set<nat>) {
    && Ordered(p, order) && visited <= p.deps.Keys
    && (forall x :: x in visited <==> x in order || x in stack)
    && (forall x :: x in order ==> x !in stack)
    && (forall x, v :: x in order && x in p.deps && v in p.deps[x] ==> v in visited)
  }

  ghost predicate StackReaches(p: Program, stack: set<nat>, u: nat) {
    forall w :: w in stack ==> HasPath(DependencyGraph(p), w, u)
  }

  lemma EnterKeeps(p: Program, visited: set<nat>, order: seq<nat>, stack: set<nat>, u: nat)
    requires Walking(p, visited, order, stack) && u in p.deps && u !in visited
    ensures Walking(p, visited + {u}, order, stack + {u}) && u !in stack
  {
  }

  lemma StackReachesNext(p: Program, stack: set<nat>, u: nat, v: nat)
    requires StackReaches(p, stack, u) && u in p.deps && v in p.deps[u]
    ensures StackReaches(p, stack + {u}, v)
  {
    assert Edge(DependencyGraph(p), u, v);
    forall w | w in stack + {u}
      ensures HasPath(DependencyGraph(p), w, v)
    {
      ExtendReach(DependencyGraph(p), w, u, v);
    }
  }

  /** All dependencies of u are visited, so each is finished or reaches u. */
  lemma LeaveKeeps(p: Program, visited: set<nat>, order: seq<nat>, stack: set<nat>, u: nat)
    requires Walking(p, visited, order, stack + {u}) && u !in stack && u in p.deps
    requires StackReaches(p, stack, u) && (forall v :: v in p.deps[u] ==> v in visited)
    ensures Walking(p, visited, order + [u], stack) && u !in order
  {
    var order' := order + [u];
    forall i, v | 0 <= i < |order'| && order'[i] in p.deps && v in p.deps[order'[i]]
      ensures InOrder(p, order', i, v)
    {
      if i < |order| {
        assert InOrder(p, order, i, v) && order'[..i] == order[..i];
      } else {
        assert order'[..i] == order;
        if v == u {
          assert Edge(DependencyGraph(p), u, u);
          EdgePath(DependencyGraph(p), u, u);
        }
      }
    }
  }

  /** When nothing is left on the stack, exactly the reachable modules are in the order. */
  lemma WalkEnds(p: Program, visited: set<nat>, order: seq<nat>, root: nat)
    requires Closed(p) && Walking(p, visited, order, {}) && root in visited
    requires forall x :: x in visited ==> Reachable(p, root, x)
    ensures forall x :: x in order <==> Reachable(p, root, x)
    ensures Ordered(p, order)
  {
    forall x | HasPath(DependencyGraph(p), root, x)
      ensures x in visited
    {
      ReachStaysInside(DependencyGraph(p), visited, root, x);
    }
  }

  /** On an acyclic graph every dependency comes first. */
  lemma DependenciesFirst(p: Program, order: seq<nat>, i: nat, v: nat)
    requires Ordered(p, order) && Acyclic(DependencyGraph(p))
    requires i < |order| && order[i] in p.deps && v in p.deps[order[i]]
    ensures v in order[..i]
  {
    var u := order[i];
    assert InOrder(p, order, i, v);
    assert Edge(DependencyGraph(p), u, v);
    if HasPath(DependencyGraph(p), v, u) {
      ExtendReach(DependencyGraph(p), v, u, v);
    }
  }

  // ---------- the order of siblings ----------

  /** What visiting a list of modules adds, when `visited` have been entered already: for
      each module that was not, what its dependencies add and then the module itself. */
  ghost function PostOrder(p: Program, visited: set<nat>, us: seq<nat>): (order: seq<nat>)
    requires Closed(p) && forall u :: u in us ==> u in p.deps
    ensures forall u :: u in order ==> u in p.deps && u !in visited
    decreases p.deps.Keys - visited, |us|
  {
    if us == [] then []
    else if us[0] in visited then PostOrder(p, visited, us[1..])
    else
      var inner := PostOrder(p, visited + {us[0]}, p.deps[us[0]]) + [us[0]];
      inner + PostOrder(p, visited + Elements(inner), us[1..])
  }

  /** Exactly the listed modules and what they lead to are added, unless they were there. */
  lemma {:induction false} PostOrderReaches(p: Program, visited: set<nat>, us: seq<nat>, x: nat)
    requires Closed(p) && forall u :: u in us ==> u in p.deps
    ensures x in PostOrder(p, visited, us) ==> exists u :: u in us && Reachable(p, u, x)
    ensures x in us ==> x in visited || x in PostOrder(p, visited, us)
    decreases p.deps.Keys - visited, |us|
  {
    hide Reachable;
    if us != [] {
      assert us == [us[0]] + us[1..];
      if us[0] in visited {
        PostOrderReaches(p, visited, us[1..], x);
      } else {
        var deps := PostOrder(p, visited + {us[0]}, p.deps[us[0]]);
        var inner := deps + [us[0]];
        PostOrderReaches(p, visited + {us[0]}, p.deps[us[0]], x);
        PostOrderReaches(p, visited + Elements(inner), us[1..], x);
        if x in deps {
          var v :| v in p.deps[us[0]] && Reachable(p, v, x);
          ReachableThrough(p, us[0], v, x);
        }
        ReachableSelf(p, us[0]);
      }
    }
  }

  lemma ReachableSelf(p: Program, u: nat)
    ensures Reachable(p, u, u)
  {
  }

  lemma ReachableThrough(p: Program, u: nat, v: nat, x: nat)
    requires u in p.deps && v in p.deps[u] && Reachable(p, v, x)
    ensures Reachable(p, u, x)
  {
    assert Edge(DependencyGraph(p), u, v);
    EdgePath(DependencyGraph(p), u, v);
    if v != x {
      PathTransitive(DependencyGraph(p), u, v, x);
    }
  }

  /** y is one of the first i + 1 listed modules, or one of them leads to it. */
  ghost predicate ReachedBy(p: Program, us: seq<nat>, i: nat, y: nat)
    requires i < |us|
  {
    exists k :: 0 <= k <= i && Reachable(p, us[k], y)
  }

  /** The listed modules are added in the order of the list: whichever of them comes first
      is added before any module that neither it nor one before it leads to. */
  lemma {:induction false} SiblingsInOrder(p: Program, visited: set<nat>, us: seq<nat>, i: nat, y: nat)
    requires Closed(p) && (forall u :: u in us ==> u in p.deps) && i < |us|
    requires us[i] !in visited && y in PostOrder(p, visited, us) && !ReachedBy(p, us, i, y)
    ensures Before(PostOrder(p, visited, us), us[i], y)
    decreases |us|
  {
    hide Reachable, Before;
    var order := PostOrder(p, visited, us);
    NotReachedFirst(p, us, i, y);
    if us[0] in visited {
      NotReachedLater(p, us, i, y);
      SiblingsInOrder(p, visited, us[1..], i - 1, y);
    } else {
      var deps := PostOrder(p, visited + {us[0]}, p.deps[us[0]]);
      var inner := deps + [us[0]];
      var rest := PostOrder(p, visited + Elements(inner), us[1..]);
      assert order == inner + rest;
      InnerReaches(p, visited, us[0], y);
      assert y !in inner;
      if us[i] in inner {
        BeforeNew(inner, order, us[i], y);
      } else {
        NotReachedLater(p, us, i, y);
        SiblingsInOrder(p, visited + Elements(inner), us[1..], i - 1, y);
        BeforeBehind(inner, rest, us[i], y);
      }
    }
  }

  lemma NotReachedFirst(p: Program, us: seq<nat>, i: nat, y: nat)
    requires i < |us| && !ReachedBy(p, us, i, y)
    ensures !Reachable(p, us[0], y)
  {
  }

  lemma NotReachedLater(p: Program, us: seq<nat>, i: nat, y: nat)
    requires 0 < i < |us| && !ReachedBy(p, us, i, y)
    ensures !ReachedBy(p, us[1..], i - 1, y)
  {
    assert forall k :: 0 <= k <= i - 1 ==> us[1..][k] == us[k + 1];
  }

  lemma InnerReaches(p: Program, visited: set<nat>, u: nat, y: nat)
    requires Closed(p) && u in p.deps && u !in visited
    ensures y in PostOrder(p, visited + {u}, p.deps[u]) + [u] ==> Reachable(p, u, y)
  {
    if y in PostOrder(p, visited + {u}, p.deps[u]) {
      PostOrderReaches(p, visited + {u}, p.deps[u], y);
      var v :| v in p.deps[u] && Reachable(p, v, y);
      ReachableThrough(p, u, v, y);
    }
  }

  lemma BeforeBehind(front: seq<nat>, l: seq<nat>, x: nat, y: nat)
    requires Before(l, x, y) && y !in front
    ensures Before(front + l, x, y)
  {
    var k :| 0 <= k <= |l| && Splits(l, k, x, y);
    assert (front + l)[..|front| + k] == front + l[..k];
    assert Splits(front + l, |front| + k, x, y);
  }

  /** The order a whole bundle has. */
  lemma RootOrder(p: Program, root: nat)
    requires Closed(p) && root in p.deps
    ensures PostOrder(p, {}, [root]) == PostOrder(p, {root}, p.deps[root]) + [root]
  {
    assert [root][1..] == [] && {} + {root} == {root};
  }

  /** A module, with two that do not depend on anything: they are added as listed. */
  lemma OrderExample(p: Program)
    requires p.deps == map[0 := [1, 2], 1 := [], 2 := []] && Closed(p)
    ensures PostOrder(p, {}, [0]) == [1, 2, 0]
  {
    RootOrder(p, 0);
    assert PostOrder(p, {0, 1}, []) == [] && [1, 2][1..] == [2] && [2][1..] == [];
    assert Elements([] + [1]) == {1} && {0} + {1} == {0, 1};
    assert PostOrder(p, {0} + {1}, p.deps[1]) == [];
    assert PostOrder(p, {0, 1} + {2}, p.deps[2]) == [];
    assert PostOrder(p, {0, 1}, [2]) == [2];
    assert PostOrder(p, {0}, [1, 2]) == [1] + [2];
  }

  /** One turn of the walk over a module's dependencies. */
  lemma PostOrderStep(p: Program, visited: set<nat>, us: seq<nat>, u: nat)
    requires Closed(p) && (forall x :: x in us ==> x in p.deps) && u in p.deps
    ensures PostOrder(p, visited, us + [u]) ==
      PostOrder(p, visited, us) + PostOrder(p, visited + Elements(PostOrder(p, visited, us)), [u])
    decreases p.deps.Keys - visited, |us|
  {
    if us == [] {
      assert [] + [u] == [u] && visited + Elements([]) == visited;
    } else if us[0] in visited {
      assert (us + [u])[1..] == us[1..] + [u];
      PostOrderStep(p, visited, us[1..], u);
    } else {
      assert (us + [u])[1..] == us[1..] + [u];
      var inner := PostOrder(p, visited + {us[0]}, p.deps[us[0]]) + [us[0]];
      var rest := PostOrder(p, visited + Elements(inner), us[1..]);
      PostOrderStep(p, visited + Elements(inner), us[1..], u);
      assert visited + Elements(inner) + Elements(rest) == visited + Elements(inner + rest);
    }
  }

  // ---------- the content ----------

  /** Every module's mappings are well formed and stay within its lines, and there are not
      too many source names. */
  ghost predicate Mappable(p: Program)
    requires Proper(p)
  {
    && (forall u :: u in p.source ==> MappableSource(p.source[u]))
    && NameCount(p, p.source.Keys) <= 0x4000_0000
  }

  ghost predicate MappableSource(s: Source) {
    Decode(s.mappings, |s.sources|).status == Ok && LinesFit(Decode(s.mappings, |s.sources|), s.sourceLines)
  }

  /** Every dependency is a parsed module, and every source object is what its constructor
      makes. */
  ghost predicate Proper(p: Program) {
    Closed(p) && forall u :: u in p.source ==> p.source[u].Valid()
  }

  ghost function SourceLines(s: Source): seq<seq<Origin>> {
    Fitted(NamedLines(AllLines(Decode(s.mappings, |s.sources|)), s.sources), s.sourceLines)
  }

  /** No byte of a module's mappings is outside the alphabet. */
  ghost predicate Bundlable(p: Program, u: nat) {
    u in p.source ==> Readable(p.source[u].mappings)
  }

  ghost predicate Known(p: Program, order: seq<nat>) {
    forall i :: 0 <= i < |order| ==> order[i] in p.source
  }

  /** The contents of the modules, one after the other. */
  ghost function Text(p: Program, order: seq<nat>): seq<Byte>
    requires Known(p, order)
  {
    if order == [] then [] else Text(p, order[..|order| - 1]) + p.source[order[|order| - 1]].content
  }

  /** What their mappings say, one after the other. */
  ghost function Lines(p: Program, order: seq<nat>): seq<seq<Origin>>
    requires Known(p, order)
  {
    if order == [] then [] else Lines(p, order[..|order| - 1]) + SourceLines(p.source[order[|order| - 1]])
  }

  lemma Appends(p: Program, order: seq<nat>, u: nat)
    requires Known(p, order) && u in p.source
    ensures Known(p, order + [u])
    ensures Text(p, order + [u]) == Text(p, order) + p.source[u].content
    ensures Lines(p, order + [u]) == Lines(p, order) + SourceLines(p.source[u])
  {
    assert (order + [u])[..|order|] == order;
  }

  function Elements(order: seq<nat>): set<nat> {
    set x | x in order
  }

  ghost function Pick(s: set<nat>): (u: nat)
    requires s != {}
    ensures u in s
  {
    var u :| u in s;
    u
  }

  /** How many source names a set of modules can bring. */
  ghost function NameCount(p: Program, s: set<nat>): nat
    requires s <= p.source.Keys
  {
    if s == {} then 0
    else
      var u := Pick(s);
      |p.source[u].sources| + NameCount(p, s - {u})
  }

  lemma {:induction false} NameCountAt(p: Program, s: set<nat>, u: nat)
    requires s <= p.source.Keys && u in s
    ensures NameCount(p, s) == |p.source[u].sources| + NameCount(p, s - {u})
    decreases s
  {
    var x := Pick(s);
    if x != u {
      NameCountAt(p, s - {x}, u);
      NameCountAt(p, s - {u}, x);
      assert s - {x} - {u} == s - {u} - {x};
    }
  }

  lemma {:induction false} NameCountMonotone(p: Program, s: set<nat>, t: set<nat>)
    requires s <= t <= p.source.Keys
    ensures NameCount(p, s) <= NameCount(p, t)
    decreases t - s
  {
    if t - s != {} {
      var u :| u in t - s;
      NameCountAt(p, s + {u}, u);
      assert s + {u} - {u} == s;
      NameCountMonotone(p, s + {u}, t);
    } else {
      forall x | x in t
        ensures x in s
      {
        assert x !in t - s;
      }
      assert s == t;
    }
  }

  /** There is room for the names of one more module. */
  /** There is room for the names of one more module. */
  lemma Budget(p: Program, order: seq<nat>, u: nat, names: nat)
    requires Known(p, order) && u in p.source && u !in order
    requires names <= NameCount(p, Elements(order)) && NameCount(p, p.source.Keys) <= 0x4000_0000
    ensures names + |p.source[u].sources| <= 0x4000_0000
    ensures Elements(order + [u]) <= p.source.Keys
    ensures names + |p.source[u].sources| <= NameCount(p, Elements(order + [u]))
  {
    var done := Elements(order);
    assert Elements(order + [u]) == done + {u};
    NameCountAt(p, done + {u}, u);
    assert done + {u} - {u} == done;
    NameCountMonotone(p, done + {u}, p.source.Keys);
  }

  lemma MappableAt(p: Program, u: nat)
    requires Proper(p) && u in p.source
    ensures p.source[u].Valid()
    ensures Mappable(p) ==>
      var s := p.source[u];
      && NameCount(p, p.source.Keys) <= 0x4000_0000
      && Decode(s.mappings, |s.sources|).status == Ok && LinesFit(Decode(s.mappings, |s.sources|), s.sourceLines)
      && SourceLines(s) == Fitted(NamedLines(AllLines(Decode(s.mappings, |s.sources|)), s.sources), s.sourceLines)
  {
    assert Mappable(p) ==> MappableSource(p.source[u]);
  }

  class Bundler {
    const program: Program
    const builder: SourceMapBuilder
    var visited: set<nat>
    /** The modules added so far. */
    ghost var order: seq<nat>

    /** The output is the text of the modules added so far, and if all maps are well formed
        the mappings say what theirs say. */
    ghost predicate Built()
      reads `order, builder, builder.outputBuffer, builder.outputBuffer.buffer
      reads builder.mappings, builder.mappings.buffer
    {
      && Proper(program) && builder.Separate() && Known(program, order)
      && builder.outputBuffer.Contents() == Text(program, order)
      && (Mappable(program) ==> Mapped())
    }

    ghost predicate Mapped()
      reads `order, builder, builder.outputBuffer, builder.outputBuffer.buffer
      reads builder.mappings, builder.mappings.buffer
      requires Known(program, order) && builder.Separate()
    {
      && builder.Valid() && NamedLines(builder.Reader().lines, builder.sources) == Lines(program, order)
      && Elements(order) <= program.source.Keys && |builder.sources| <= NameCount(program, Elements(order))
    }

    constructor (program: Program)
      requires Proper(program)
      ensures Built() && visited == {} && order == [] && this.program == program
      ensures fresh(builder) && fresh(builder.outputBuffer) && fresh(builder.outputBuffer.buffer)
      ensures fresh(builder.mappings) && fresh(builder.mappings.buffer)
    {
      this.program := program;
      builder := new SourceMapBuilder();
      visited, order := {}, [];
      new;
      NamedLinesLength(builder.Reader().lines, builder.sources);
    }

    method AddModule(u: nat) returns (ok: bool)
      requires Built() && u in program.source && u !in order
      modifies `order, builder, builder.outputBuffer, builder.outputBuffer.buffer
      modifies builder.mappings, builder.mappings.buffer
      ensures ok <==> Bundlable(program, u)
      ensures ok ==> Built() && order == old(order) + [u]
      ensures builder.outputBuffer.buffer == old(builder.outputBuffer.buffer) || fresh(builder.outputBuffer.buffer)
      ensures builder.mappings.buffer == old(builder.mappings.buffer) || fresh(builder.mappings.buffer)
    {
      hide *;
      BuiltParts();
      Appends(program, order, u);
      MappableAt(program, u);
      BundlableIs(program, u);
      ghost var mappable := Mappable(program);
      if mappable {
        MappedParts();
        Budget(program, order, u, |builder.sources|);
      }
      ok := builder.AddSource(program.source[u]);
      order := order + [u];
      if ok {
        if mappable {
          MappedAgain();
        }
        BuiltAgain();
      }
    }

    lemma BuiltParts()
      requires Built()
      ensures Proper(program) && builder.Separate() && Known(program, order)
      ensures builder.outputBuffer.Valid() && builder.mappings.Valid()
      ensures builder.outputBuffer.Contents() == Text(program, order)
      ensures Mappable(program) ==> Mapped()
    {
    }

    lemma MappedParts()
      requires builder.Separate() && Known(program, order) && Mapped()
      ensures builder.Valid() && NamedLines(builder.Reader().lines, builder.sources) == Lines(program, order)
      ensures Elements(order) <= program.source.Keys && |builder.sources| <= NameCount(program, Elements(order))
    {
    }

    lemma MappedAgain()
      requires builder.Separate() && Known(program, order)
      requires builder.Valid() && NamedLines(builder.Reader().lines, builder.sources) == Lines(program, order)
      requires Elements(order) <= program.source.Keys && |builder.sources| <= NameCount(program, Elements(order))
      ensures Mapped()
    {
    }

    lemma BuiltAgain()
      requires Proper(program) && builder.Separate() && Known(program, order)
      requires builder.outputBuffer.Contents() == Text(program, order)
      requires Mappable(program) ==> Mapped()
      ensures Built()
    {
    }

    /** Visits a module: its dependencies first, each module once. An exception leaves all
        visits; then some reachable module has an unreadable map. */
    method Visit(u: nat, ghost stack: set<nat>, ghost root: nat) returns (ok: bool)
      requires Built() && Closed(program) && u in program.deps
      requires Walking(program, visited, order, stack) && StackReaches(program, stack, u)
      requires Reachable(program, root, u) && (forall x :: x in visited ==> Reachable(program, root, x))
      requires forall x :: x in order ==> Bundlable(program, x)
      modifies this, builder, builder.outputBuffer, builder.outputBuffer.buffer
      modifies builder.mappings, builder.mappings.buffer
      ensures builder.outputBuffer.buffer == old(builder.outputBuffer.buffer) || fresh(builder.outputBuffer.buffer)
      ensures builder.mappings.buffer == old(builder.mappings.buffer) || fresh(builder.mappings.buffer)
      ensures !ok ==> exists x :: Reachable(program, root, x) && !Bundlable(program, x)
      ensures ok ==> Built() && Walking(program, visited, order, stack)
      ensures ok ==> u in visited && old(visited) <= visited
      ensures ok ==> order == old(order) + PostOrder(program, old(visited), [u])
      ensures ok ==> visited == old(visited) + Elements(PostOrder(program, old(visited), [u]))
      ensures ok ==> forall x :: x in visited ==> Reachable(program, root, x)
      ensures ok ==> forall x :: x in order ==> Bundlable(program, x)
      decreases program.deps.Keys - visited, 0
    {
      hide Built, Walking, Reachable, StackReaches, Bundlable, PostOrder;
      OneModule(program, visited, u);
      if u in visited {
        return true;
      }
      VisitedWithin(program, visited, order, stack);
      EnterKeeps(program, visited, order, stack, u);
      visited := visited + {u};
      ok := VisitDependencies(u, stack, root);
      if ok {
        LeaveKeeps(program, visited, order, stack, u);
        ok := AddModule(u);
      }
    }

    /** Visits the dependencies of a module that was just entered, in the order of its list. */
    method VisitDependencies(u: nat, ghost stack: set<nat>, ghost root: nat) returns (ok: bool)
      requires Built() && Closed(program) && u in program.deps && u !in stack
      requires Walking(program, visited, order, stack + {u}) && StackReaches(program, stack, u)
      requires Reachable(program, root, u) && (forall x :: x in visited ==> Reachable(program, root, x))
      requires forall x :: x in order ==> Bundlable(program, x)
      modifies this, builder, builder.outputBuffer, builder.outputBuffer.buffer
      modifies builder.mappings, builder.mappings.buffer
      ensures builder.outputBuffer.buffer == old(builder.outputBuffer.buffer) || fresh(builder.outputBuffer.buffer)
      ensures builder.mappings.buffer == old(builder.mappings.buffer) || fresh(builder.mappings.buffer)
      ensures !ok ==> exists x :: Reachable(program, root, x) && !Bundlable(program, x)
      ensures ok ==> Built() && Walking(program, visited, order, stack + {u})
      ensures ok ==> forall v :: v in program.deps[u] ==> v in visited
      ensures ok ==> order == old(order) + PostOrder(program, old(visited), program.deps[u])
      ensures ok ==> visited == old(visited) + Elements(PostOrder(program, old(visited), program.deps[u]))
      ensures ok ==> forall x :: x in visited ==> Reachable(program, root, x)
      ensures ok ==> forall x :: x in order ==> Bundlable(program, x)
      decreases program.deps.Keys - visited, 1
    {
      hide Built, Walking, Reachable, StackReaches, Bundlable, PostOrder;
      var dependencies := program.deps[u];
      OneModule(program, visited, u);
      NothingToVisit(program, visited);
      assert dependencies[..|dependencies|] == dependencies && dependencies[..0] == [];
      for i := 0 to |dependencies|
        invariant Built() && Walking(program, visited, order, stack + {u}) && old(visited) <= visited
        invariant builder.outputBuffer.buffer == old(builder.outputBuffer.buffer) || fresh(builder.outputBuffer.buffer)
        invariant builder.mappings.buffer == old(builder.mappings.buffer) || fresh(builder.mappings.buffer)
        invariant order == old(order) + PostOrder(program, old(visited), dependencies[..i])
        invariant visited == old(visited) + Elements(PostOrder(program, old(visited), dependencies[..i]))
        invariant forall k :: 0 <= k < i ==> dependencies[k] in visited
        invariant forall x :: x in visited ==> Reachable(program, root, x)
        invariant forall x :: x in order ==> Bundlable(program, x)
      {
        StackReachesNext(program, stack, u, dependencies[i]);
        ReachesNext(program, root, u, dependencies[i]);
        PostOrderStep(program, old(visited), dependencies[..i], dependencies[i]);
        assert dependencies[..i + 1] == dependencies[..i] + [dependencies[i]];
        ok := Visit(dependencies[i], stack + {u}, root);
        if !ok {
          return;
        }
      }
      ok := true;
    }
  }

  lemma NothingToVisit(p: Program, visited: set<nat>)
    requires Closed(p)
    ensures PostOrder(p, visited, []) == [] && Elements([]) == {}
  {
  }

  lemma OneModule(p: Program, visited: set<nat>, u: nat)
    requires Closed(p) && u in p.deps
    ensures u in visited ==> PostOrder(p, visited, [u]) == []
    ensures u !in visited ==> PostOrder(p, visited, [u]) == PostOrder(p, visited + {u}, p.deps[u]) + [u]
    ensures PostOrder(p, visited + {u}, []) == []
  {
    assert [u][1..] == [];
  }

  lemma BundlableIs(p: Program, u: nat)
    requires u in p.source
    ensures Bundlable(p, u) <==> Readable(p.source[u].mappings)
  {
  }

  lemma VisitedWithin(p: Program, visited: set<nat>, order: seq<nat>, stack: set<nat>)
    requires Walking(p, visited, order, stack)
    ensures visited <= p.deps.Keys
  {
  }

  lemma ReachesNext(p: Program, root: nat, u: nat, v: nat)
    requires Closed(p) && Reachable(p, root, u) && u in p.deps && v in p.deps[u]
    ensures v in p.deps && Reachable(p, root, v)
  {
    assert Edge(DependencyGraph(p), u, v);
    ExtendReach(DependencyGraph(p), root, u, v);
  }

  /** A bundle: its text, its map, and the line that points to the map. The modules
      reachable from the root are added once each, dependencies before dependents except
      along cycles, whatever their maps are, unless one of them cannot be read at all,
      which is an exception. If all maps are well formed the bundle's map, decoded, says of
      each line what that module's map said. */
  method BundleWithDependencies(program: Program, root: nat, url: seq<Byte>)
    returns (ok: bool, content: seq<Byte>, mappings: seq<Byte>, sources: seq<string>, ghost order: seq<nat>)
    requires Proper(program) && root in program.deps
    ensures ok <==> forall x :: Reachable(program, root, x) ==> Bundlable(program, x)
    ensures ok ==> Ordered(program, order) && Known(program, order)
    ensures ok ==> forall x :: x in order <==> Reachable(program, root, x)
    ensures ok ==> order == PostOrder(program, {}, [root])
    // the root's dependencies come in the order of its list
    ensures ok ==> forall i, y | 0 <= i < |program.deps[root]| && program.deps[root][i] != root && y in order
                     && y != root && !ReachedBy(program, program.deps[root], i, y) ::
                     Before(order, program.deps[root][i], y)
    ensures ok ==> content == Text(program, order) + url + [NEWLINE]
    ensures ok && Mappable(program) ==>
      && Decode(mappings, |sources|).status == Ok && Decode(mappings, |sources|).segs == []
      && NamedLines(Decode(mappings, |sources|).lines, sources) == Lines(program, order)
      && |Lines(program, order)| == Newlines(Text(program, order))
  {
    hide *;
    content, mappings, sources := [], [], [];
    ProperIsClosed(program);
    var bundler := new Bundler(program);
    WalkStarts(program, root);
    ok := bundler.Visit(root, {}, root);
    order := bundler.order;
    if !ok {
      return;
    }
    WalkEnds(program, bundler.visited, order, root);
    RootSiblings(program, root);
    bundler.BuiltParts();
    sources := bundler.builder.sources;
    mappings := bundler.builder.mappings.ToBytes();
    if Mappable(program) {
      bundler.MappedParts();
      bundler.builder.ValidParts();
      AlignedDecodes(mappings, |sources|);
      NamedLinesLength(bundler.builder.Reader().lines, sources);
    }
    bundler.builder.AddLine(url);
    bundler.builder.SeparateParts();
    content := bundler.builder.outputBuffer.ToBytes();
  }

  lemma RootSiblings(p: Program, root: nat)
    requires Closed(p) && root in p.deps
    ensures var order := PostOrder(p, {}, [root]);
      && [] + order == order
      && forall i, y | 0 <= i < |p.deps[root]| && p.deps[root][i] != root && y in order
           && y != root && !ReachedBy(p, p.deps[root], i, y) ::
           Before(order, p.deps[root][i], y)
  {
    RootOrder(p, root);
    hide PostOrder, ReachedBy, Before;
    var deps, order := PostOrder(p, {root}, p.deps[root]), PostOrder(p, {}, [root]);
    forall i: nat, y | i < |p.deps[root]| && p.deps[root][i] != root && y in order
      && y != root && !ReachedBy(p, p.deps[root], i, y)
      ensures Before(order, p.deps[root][i], y)
    {
      SiblingsInOrder(p, {root}, p.deps[root], i, y);
      BeforeLater(deps, order, p.deps[root][i], y);
    }
  }

  lemma ProperIsClosed(p: Program)
    requires Proper(p)
    ensures Closed(p)
  {
  }

  lemma WalkStarts(p: Program, root: nat)
    ensures Walking(p, {}, [], {}) && StackReaches(p, {}, root) && Reachable(p, root, root)
  {
  }

  lemma AlignedDecodes(bytes: seq<Byte>, n: nat)
    requires Aligned(Run(START, bytes, n))
    ensures Decode(bytes, n) == Run(START, bytes, n) && Decode(bytes, n).status == Ok && Decode(bytes, n).segs == []
  {
  }
}
