/** The stream multiplexer as a state machine: a shared map of stream records, and tasks
    (write loops and pending shutdowns) that each hold one write half. */
module StreamProtocol {
  import opened Options

  type Id = nat
  type Chunk = seq<nat>

  /** The writing end of one stream; whoever holds the value owns the end. */
  datatype WriteHalf = WriteHalf(stream: Id)

  datatype StreamRec = StreamRec(write: Option<WriteHalf>, q: seq<Chunk>, ended: bool)

  /** Where a task will run next: taking the lock, writing the batch it took, or shutting
      the write half down. */
  datatype Pc = Locking | Writing | Closing

  datatype Task = Task(id: Id, w: WriteHalf, items: seq<Chunk>, pc: Pc)

  /** The shared map and the running tasks; then histories for each stream: the chunks
      accepted and delivered, how often it was shut down, and whether a write failed. */
  datatype State = State(
    recs: map<Id, StreamRec>,
    tasks: map<nat, Task>,
    nextTask: nat,
    accepted: map<Id, seq<Chunk>>,
    delivered: map<Id, seq<Chunk>>,
    shutdowns: map<Id, nat>,
    failed: set<Id>)

  const EMPTY := State(map[], map[], 0, map[], map[], map[], {})

  // ---------- steps ----------

  function Spawn(s: State, t: Task): State {
    s.(tasks := s.tasks[s.nextTask := t], nextTask := s.nextTask + 1)
  }

  function InsertStep(s: State, id: Id): State {
    s.(recs := s.recs[id := StreamRec(Some(WriteHalf(id)), [], false)],
       accepted := s.accepted[id := []], delivered := s.delivered[id := []], shutdowns := s.shutdowns[id := 0],
       failed := s.failed - {id})
  }

  function WriteStep(s: State, id: Id, buf: Chunk): State {
    if id !in s.recs then s
    else
      var r := s.recs[id];
      var t := s.(recs := s.recs[id := StreamRec(None, r.q + [buf], r.ended)],
                  accepted := s.accepted[id := History(s.accepted, id) + [buf]]);
      if r.write.Some? then Spawn(t, Task(id, r.write.value, [], Locking)) else t
  }

  function RemoveStep(s: State, id: Id): State {
    if id !in s.recs then s
    else
      var r := s.recs[id];
      if r.write.Some? then Spawn(s.(recs := s.recs - {id}), Task(id, r.write.value, [], Closing))
      else s.(recs := s.recs[id := r.(ended := true)])
  }

  /** The locked section of the write loop. */
  function LockStep(s: State, k: nat): State
    requires k in s.tasks
  {
    var t := s.tasks[k];
    if t.id !in s.recs then s.(tasks := s.tasks[k := t.(pc := Closing)])
    else
      var r := s.recs[t.id];
      if r.q != [] then
        s.(recs := s.recs[t.id := r.(q := t.items)], tasks := s.tasks[k := t.(items := r.q, pc := Writing)])
      else if r.ended then s.(recs := s.recs - {t.id}, tasks := s.tasks[k := t.(pc := Closing)])
      else s.(recs := s.recs[t.id := r.(write := Some(t.w))], tasks := s.tasks - {k})
  }

  /** One awaited write; after the last chunk, or a failure, back to the lock. */
  function DeliverStep(s: State, k: nat, ok: bool): State
    requires k in s.tasks && s.tasks[k].items != []
  {
    var t := s.tasks[k];
    var items := if ok then t.items[1..] else [];
    var s' := s.(tasks := s.tasks[k := t.(items := items, pc := if items == [] then Locking else Writing)]);
    if ok then s'.(delivered := s.delivered[t.id := History(s.delivered, t.id) + [t.items[0]]])
    else s'.(failed := s.failed + {t.id})
  }

  function CloseStep(s: State, k: nat): State
    requires k in s.tasks
  {
    var id := s.tasks[k].id;
    s.(tasks := s.tasks - {k}, shutdowns := s.shutdowns[id := (if id in s.shutdowns then s.shutdowns[id] else 0) + 1])
  }

  function History(h: map<Id, seq<Chunk>>, id: Id): seq<Chunk> {
    if id in h then h[id] else []
  }

  datatype Action = Insert(id: Id) | Write(id: Id, buf: Chunk) | Remove(id: Id) | Turn(task: nat, ok: bool)

  /** A stream is not inserted while a task runs for its id; a task takes its turn while it
      exists. */
  ghost predicate Enabled(s: State, a: Action) {
    match a
    case Insert(id) => !Held(s, id)
    case Write(_, _) => true
    case Remove(_) => true
    case Turn(k, _) => k in s.tasks && (s.tasks[k].pc == Writing ==> s.tasks[k].items != [])
  }

  ghost function Next(s: State, a: Action): State
    requires Enabled(s, a)
  {
    match a
    case Insert(id) => InsertStep(s, id)
    case Write(id, buf) => WriteStep(s, id, buf)
    case Remove(id) => RemoveStep(s, id)
    case Turn(k, ok) =>
      match s.tasks[k].pc
      case Locking => LockStep(s, k)
      case Writing => DeliverStep(s, k, ok)
      case Closing => CloseStep(s, k)
  }

  // ---------- the invariant ----------

  ghost predicate Running(s: State, k: nat, id: Id) {
    k in s.tasks && s.tasks[k].id == id
  }

  ghost predicate Held(s: State, id: Id) {
    exists k :: Running(s, k, id)
  }

  ghost predicate TaskOk(s: State, k: nat)
    requires k in s.tasks
  {
    var t := s.tasks[k];
    && k < s.nextTask && t.w == WriteHalf(t.id) && t.id in s.accepted
    && (t.pc == Closing <==> t.id !in s.recs)
    && (t.pc == Writing <==> t.items != [])
    && (t.id in s.recs ==> s.recs[t.id].write.None?)
  }

  /** The chunks of a stream that are accepted and not delivered yet. */
  ghost function Waiting(s: State, id: Id): seq<Chunk> {
    if id in s.recs then s.recs[id].q else []
  }

  ghost predicate StreamOk(s: State, id: Id) {
    && id in s.accepted && id in s.delivered && id in s.shutdowns
    && (id in s.recs && s.recs[id].write.Some? ==>
          s.recs[id].write == Some(WriteHalf(id)) && s.recs[id].q == [] && !s.recs[id].ended && !Held(s, id))
    && (id in s.recs && s.recs[id].write.None? ==> Held(s, id))
    && s.shutdowns[id] == (if id in s.recs || Held(s, id) then 0 else 1)
    && (id !in s.failed && !Held(s, id) ==> s.delivered[id] == s.accepted[id])
    && (id !in s.failed ==> forall k :: Running(s, k, id) ==>
      s.delivered[id] + s.tasks[k].items + Waiting(s, id) == s.accepted[id])
  }

  ghost predicate Inv(s: State) {
    && (forall k :: k in s.tasks ==> TaskOk(s, k))
    && (forall j, k :: j in s.tasks && k in s.tasks && s.tasks[j].id == s.tasks[k].id ==> j == k)
    && (forall id :: id in s.accepted ==> StreamOk(s, id))
    && (forall id :: id in s.recs ==> id in s.accepted)
  }

  /** Nothing about stream x changed between s and t. */
  ghost predicate SameFor(s: State, t: State, x: Id) {
    && (x in s.recs <==> x in t.recs) && (x in s.recs ==> t.recs[x] == s.recs[x])
    && (x in s.accepted ==> x in t.accepted && t.accepted[x] == s.accepted[x])
    && (x in s.delivered ==> x in t.delivered && t.delivered[x] == s.delivered[x])
    && (x in s.shutdowns ==> x in t.shutdowns && t.shutdowns[x] == s.shutdowns[x])
    && (x in s.failed <==> x in t.failed)
    && (forall k :: Running(s, k, x) <==> Running(t, k, x))
    && (forall k :: Running(s, k, x) ==> t.tasks[k] == s.tasks[k])
  }

  lemma OtherStream(s: State, t: State, x: Id)
    requires StreamOk(s, x) && SameFor(s, t, x)
    ensures StreamOk(t, x)
  {
  }

  lemma OtherTask(s: State, t: State, k: nat)
    requires k in s.tasks && TaskOk(s, k) && SameFor(s, t, s.tasks[k].id) && s.nextTask <= t.nextTask
    ensures k in t.tasks && TaskOk(t, k)
  {
    assert Running(s, k, s.tasks[k].id);
  }

  /** One task per stream: the one that runs for id. */
  ghost predicate OnlyTask(s: State, k: nat, id: Id) {
    Running(s, k, id) && forall j :: Running(s, j, id) ==> j == k
  }

  lemma TaskIsOnly(s: State, k: nat)
    requires Inv(s) && k in s.tasks
    ensures OnlyTask(s, k, s.tasks[k].id)
  {
  }

  /** A step that concerns one stream only keeps the invariant if it keeps it there. */
  lemma LocalStep(s: State, t: State, id: Id)
    requires Inv(s) && s.nextTask <= t.nextTask
    requires forall x :: x != id ==> SameFor(s, t, x)
    requires forall x :: x in t.accepted ==> x in s.accepted || x == id
    requires id in t.accepted ==> StreamOk(t, id)
    requires id in t.recs ==> id in t.accepted
    requires forall k :: Running(t, k, id) ==> TaskOk(t, k) && OnlyTask(t, k, id)
    ensures Inv(t)
  {
    forall k | k in t.tasks
      ensures TaskOk(t, k) && OnlyTask(t, k, t.tasks[k].id)
    {
      var x := t.tasks[k].id;
      assert Running(t, k, x);
      if x != id {
        assert SameFor(s, t, x) && Running(s, k, x);
        OtherTask(s, t, k);
        TaskIsOnly(s, k);
      }
    }
    forall x | x in t.accepted
      ensures StreamOk(t, x)
    {
      if x != id {
        OtherStream(s, t, x);
      }
    }
    forall j, k | j in t.tasks && k in t.tasks && t.tasks[j].id == t.tasks[k].id
      ensures j == k
    {
      assert OnlyTask(t, k, t.tasks[k].id) && Running(t, j, t.tasks[k].id);
    }
    forall x | x in t.recs
      ensures x in t.accepted
    {
      assert x != id ==> SameFor(s, t, x);
    }
  }

  /** What the invariant says of one stream, with its task if it has one. */
  lemma StreamParts(s: State, id: Id)
    requires Inv(s) && id in s.accepted
    ensures StreamOk(s, id)
    ensures forall k :: Running(s, k, id) ==> TaskOk(s, k) && OnlyTask(s, k, id)
  {
  }

  /** Inserting a stream keeps the invariant exactly when no task runs for its id: else the
      new record and the task would each hold a write half. */
  lemma InsertKeeps(s: State, id: Id)
    requires Inv(s)
    ensures Inv(InsertStep(s, id)) <==> !Held(s, id)
  {
    var t := InsertStep(s, id);
    assert forall k :: Running(t, k, id) <==> Running(s, k, id);
    if !Held(s, id) {
      LocalStep(s, t, id);
    } else {
      var k :| Running(s, k, id);
      assert Running(t, k, id);
      assert Held(t, id) ==> !StreamOk(t, id);
    }
  }

  lemma WriteOthers(s: State, id: Id, buf: Chunk)
    requires id in s.recs && s.nextTask !in s.tasks
    ensures forall x :: x != id ==> SameFor(s, WriteStep(s, id, buf), x)
  {
  }

  lemma WriteLocal(s: State, id: Id, buf: Chunk)
    requires Inv(s) && id in s.recs
    ensures s.nextTask !in s.tasks && id in s.accepted
    ensures StreamOk(WriteStep(s, id, buf), id)
    ensures forall k :: Running(WriteStep(s, id, buf), k, id) ==>
      TaskOk(WriteStep(s, id, buf), k) && OnlyTask(WriteStep(s, id, buf), k, id)
  {
    StreamParts(s, id);
    hide Inv;
    var t, n := WriteStep(s, id, buf), s.nextTask;
    NextTaskFree(s);
    if s.recs[id].write.Some? {
      assert OnlyTask(t, n, id);
    } else {
      var k :| Running(s, k, id);
      assert OnlyTask(t, k, id) && TaskOk(t, k);
    }
  }

  lemma NextTaskFree(s: State)
    requires Inv(s)
    ensures s.nextTask !in s.tasks
  {
    assert s.nextTask in s.tasks ==> TaskOk(s, s.nextTask);
  }

  lemma WriteKeeps(s: State, id: Id, buf: Chunk)
    requires Inv(s)
    ensures Inv(WriteStep(s, id, buf))
  {
    hide Inv, SameFor, StreamOk, TaskOk, OnlyTask, Running;
    if id in s.recs {
      WriteLocal(s, id, buf);
      WriteOthers(s, id, buf);
      LocalStep(s, WriteStep(s, id, buf), id);
    }
  }

  lemma RemoveOthers(s: State, id: Id)
    requires id in s.recs && s.nextTask !in s.tasks
    ensures forall x :: x != id ==> SameFor(s, RemoveStep(s, id), x)
  {
  }

  lemma RemoveLocal(s: State, id: Id)
    requires Inv(s) && id in s.recs
    ensures s.nextTask !in s.tasks && id in s.accepted
    ensures StreamOk(RemoveStep(s, id), id)
    ensures forall k :: Running(RemoveStep(s, id), k, id) ==>
      TaskOk(RemoveStep(s, id), k) && OnlyTask(RemoveStep(s, id), k, id)
  {
    StreamParts(s, id);
    NextTaskFree(s);
    hide Inv;
    var t, n := RemoveStep(s, id), s.nextTask;
    if s.recs[id].write.Some? {
      assert OnlyTask(t, n, id);
    } else {
      var k :| Running(s, k, id);
      assert OnlyTask(t, k, id) && TaskOk(t, k);
    }
  }

  lemma RemoveKeeps(s: State, id: Id)
    requires Inv(s)
    ensures Inv(RemoveStep(s, id))
  {
    hide Inv, SameFor, StreamOk, TaskOk, OnlyTask, Running;
    if id in s.recs {
      RemoveLocal(s, id);
      RemoveOthers(s, id);
      LocalStep(s, RemoveStep(s, id), id);
    }
  }

  lemma TurnOthers(s: State, k: nat, ok: bool)
    requires k in s.tasks
    ensures forall x :: x != s.tasks[k].id ==> SameFor(s, LockStep(s, k), x)
    ensures s.tasks[k].items != [] ==> forall x :: x != s.tasks[k].id ==> SameFor(s, DeliverStep(s, k, ok), x)
  {
  }

  lemma LockLocal(s: State, k: nat)
    requires Inv(s) && k in s.tasks && s.tasks[k].pc == Locking
    ensures s.tasks[k].id in s.recs && s.tasks[k].id in s.accepted
    ensures StreamOk(LockStep(s, k), s.tasks[k].id)
    ensures forall j :: Running(LockStep(s, k), j, s.tasks[k].id) ==>
      TaskOk(LockStep(s, k), j) && OnlyTask(LockStep(s, k), j, s.tasks[k].id)
  {
    var t, id := LockStep(s, k), s.tasks[k].id;
    assert TaskOk(s, k) && Running(s, k, id);
    StreamParts(s, id);
    hide Inv;
    assert forall j :: Running(t, j, id) ==> j == k;
    if k in t.tasks {
      assert OnlyTask(t, k, id);
    }
  }

  /** The loop always finds its record: the branch for a missing record is dead. */
  lemma LockKeeps(s: State, k: nat)
    requires Inv(s) && k in s.tasks && s.tasks[k].pc == Locking
    ensures Inv(LockStep(s, k)) && s.tasks[k].id in s.recs
  {
    LockFrame(s, k);
    hide Inv, SameFor, StreamOk, TaskOk, OnlyTask, Running, LockStep;
    LockLocal(s, k);
    TurnOthers(s, k, true);
    LocalStep(s, LockStep(s, k), s.tasks[k].id);
  }

  lemma LockFrame(s: State, k: nat)
    requires k in s.tasks
    ensures LockStep(s, k).nextTask == s.nextTask && LockStep(s, k).accepted == s.accepted
  {
  }

  lemma MoveOne(d: seq<Chunk>, items: seq<Chunk>, q: seq<Chunk>)
    requires items != []
    ensures d + [items[0]] + items[1..] + q == d + items + q
  {
  }

  lemma DeliverLocal(s: State, k: nat, ok: bool)
    requires Inv(s) && k in s.tasks && s.tasks[k].pc == Writing && s.tasks[k].items != []
    ensures s.tasks[k].id in s.accepted
    ensures StreamOk(DeliverStep(s, k, ok), s.tasks[k].id)
    ensures forall j :: Running(DeliverStep(s, k, ok), j, s.tasks[k].id) ==>
      TaskOk(DeliverStep(s, k, ok), j) && OnlyTask(DeliverStep(s, k, ok), j, s.tasks[k].id)
  {
    var t, id := DeliverStep(s, k, ok), s.tasks[k].id;
    assert TaskOk(s, k) && Running(s, k, id);
    StreamParts(s, id);
    hide Inv;
    assert OnlyTask(t, k, id);
    MoveOne(s.delivered[id], s.tasks[k].items, Waiting(s, id));
  }

  lemma DeliverKeeps(s: State, k: nat, ok: bool)
    requires Inv(s) && k in s.tasks && s.tasks[k].pc == Writing && s.tasks[k].items != []
    ensures Inv(DeliverStep(s, k, ok))
  {
    hide Inv, SameFor, StreamOk, TaskOk, OnlyTask, Running;
    DeliverLocal(s, k, ok);
    TurnOthers(s, k, ok);
    LocalStep(s, DeliverStep(s, k, ok), s.tasks[k].id);
  }

  lemma CloseKeeps(s: State, k: nat)
    requires Inv(s) && k in s.tasks && s.tasks[k].pc == Closing
    ensures Inv(CloseStep(s, k))
  {
    var t, id := CloseStep(s, k), s.tasks[k].id;
    assert TaskOk(s, k) && Running(s, k, id);
    StreamParts(s, id);
    assert forall j :: !Running(t, j, id);
    LocalStep(s, t, id);
  }

  lemma NextKeeps(s: State, a: Action)
    requires Inv(s) && Enabled(s, a)
    ensures Inv(Next(s, a))
  {
    match a
    case Insert(id) => InsertKeeps(s, id);
    case Write(id, buf) => WriteKeeps(s, id, buf);
    case Remove(id) => RemoveKeeps(s, id);
    case Turn(k, ok) =>
      match s.tasks[k].pc
      case Locking => LockKeeps(s, k);
      case Writing => DeliverKeeps(s, k, ok);
      case Closing => CloseKeeps(s, k);
  }

  // ---------- runs ----------

  ghost predicate CanRun(s: State, actions: seq<Action>)
    decreases |actions|
  {
    actions == [] || (Enabled(s, actions[0]) && CanRun(Next(s, actions[0]), actions[1..]))
  }

  ghost function After(s: State, actions: seq<Action>): State
    requires CanRun(s, actions)
    decreases |actions|
  {
    if actions == [] then s else After(Next(s, actions[0]), actions[1..])
  }

  lemma {:induction false} RunKeeps(s: State, actions: seq<Action>)
    requires Inv(s) && CanRun(s, actions)
    ensures Inv(After(s, actions))
    decreases |actions|
  {
    if actions != [] {
      NextKeeps(s, actions[0]);
      RunKeeps(Next(s, actions[0]), actions[1..]);
    }
  }

  lemma {:induction false} AfterSnoc(s: State, actions: seq<Action>, a: Action)
    requires CanRun(s, actions + [a])
    ensures CanRun(s, actions) && Enabled(After(s, actions), a)
    ensures After(s, actions + [a]) == Next(After(s, actions), a)
    decreases |actions|
  {
    if actions == [] {
      assert ([] + [a])[1..] == [];
    } else {
      assert (actions + [a])[1..] == actions[1..] + [a];
      AfterSnoc(Next(s, actions[0]), actions[1..], a);
    }
  }

  lemma {:induction false} CanRunPrefix(s: State, actions: seq<Action>, k: nat)
    requires CanRun(s, actions) && k <= |actions|
    ensures CanRun(s, actions[..k])
    decreases |actions|
  {
    if k > 0 {
      assert actions[..k][1..] == actions[1..][..k - 1];
      CanRunPrefix(Next(s, actions[0]), actions[1..], k - 1);
    }
  }

  /** The run without its last action, and what that action does. */
  lemma LastAction(actions: seq<Action>)
    requires CanRun(EMPTY, actions) && actions != []
    ensures var p, a := actions[..|actions| - 1], actions[|actions| - 1];
      && CanRun(EMPTY, p) && Enabled(After(EMPTY, p), a) && Inv(After(EMPTY, p))
      && After(EMPTY, actions) == Next(After(EMPTY, p), a)
  {
    hide Inv;
    var p, a := actions[..|actions| - 1], actions[|actions| - 1];
    assert actions == p + [a];
    AfterSnoc(EMPTY, p, a);
    EmptyOk();
    RunKeeps(EMPTY, p);
  }

  lemma EmptyOk()
    ensures Inv(EMPTY)
  {
  }

  predicate Inserted(actions: seq<Action>, id: Id) {
    Insert(id) in actions
  }

  /** The stream was asked to end after it was last inserted. */
  predicate Removed(actions: seq<Action>, id: Id)
    decreases |actions|
  {
    actions != [] &&
    var p, a := actions[..|actions| - 1], actions[|actions| - 1];
    a != Insert(id) && (a == Remove(id) || Removed(p, id))
  }

  /** The chunks written to the stream after it was last inserted, while it had a record. */
  ghost function WrittenTo(actions: seq<Action>, id: Id): seq<Chunk>
    requires CanRun(EMPTY, actions)
    decreases |actions|
  {
    if actions == [] then []
    else
      LastAction(actions);
      var p, a := actions[..|actions| - 1], actions[|actions| - 1];
      if a == Insert(id) then []
      else if a.Write? && a.id == id && id in After(EMPTY, p).recs then WrittenTo(p, id) + [a.buf]
      else WrittenTo(p, id)
  }

  /** What one more action means for one stream. */
  ghost predicate StepsFor(s: State, a: Action, t: State, id: Id) {
    && (id in t.accepted <==> id in s.accepted || a == Insert(id))
    && (a == Insert(id) ==> t.accepted[id] == [] && id in t.recs && !t.recs[id].ended)
    && (a != Insert(id) && id in t.accepted ==>
          t.accepted[id] == s.accepted[id] + if a.Write? && a.id == id && id in s.recs then [a.buf] else [])
    && (a == Remove(id) && id in t.recs ==> t.recs[id].ended)
    && (a != Insert(id) && id in t.recs ==>
          id in s.recs && t.recs[id].ended == (s.recs[id].ended || a == Remove(id)))
    && (a != Remove(id) && id in s.recs && !s.recs[id].ended ==> id in t.recs)
    && (!(a.Turn? && !a.ok) && id in t.failed ==> id in s.failed)
  }

  lemma OneCall(s: State, a: Action, id: Id)
    requires (id in s.recs ==> id in s.accepted) && !a.Turn? && Enabled(s, a)
    ensures StepsFor(s, a, Next(s, a), id)
  {
  }

  lemma OneTurn(s: State, k: nat, ok: bool, id: Id)
    requires Enabled(s, Turn(k, ok)) && TaskOk(s, k)
    ensures StepsFor(s, Turn(k, ok), Next(s, Turn(k, ok)), id)
  {
  }

  lemma OneStream(s: State, a: Action, id: Id)
    requires Inv(s) && Enabled(s, a)
    ensures StepsFor(s, a, Next(s, a), id)
  {
    hide StepsFor, Next, StreamOk, TaskOk;
    if a.Turn? {
      OneTurn(s, a.task, a.ok, id);
    } else {
      OneCall(s, a, id);
    }
  }

  /** The accepted chunks are those the callers wrote; and a stream has a record from its
      insertion at least until it is asked to end, and after that one that knows it. */
  lemma {:induction false} Lifecycle(actions: seq<Action>, id: Id)
    requires CanRun(EMPTY, actions)
    ensures var s := After(EMPTY, actions);
      && (id in s.accepted <==> Inserted(actions, id))
      && (id in s.accepted ==> s.accepted[id] == WrittenTo(actions, id))
      && (Inserted(actions, id) && !Removed(actions, id) ==> id in s.recs)
      && (id in s.recs ==> (s.recs[id].ended <==> Removed(actions, id)))
      && ((forall a :: a in actions && a.Turn? ==> a.ok) ==> id !in s.failed)
    decreases |actions|
  {
    if actions != [] {
      var p, a := actions[..|actions| - 1], actions[|actions| - 1];
      assert actions == p + [a];
      LastAction(actions);
      Lifecycle(p, id);
      hide Inv, Next, Enabled;
      OneStream(After(EMPTY, p), a, id);
    }
  }

  /** In every interleaving, for every stream without a failed write: what was delivered,
      what its write loop holds, and what is queued are together exactly what callers
      wrote while it had a record, in order. A stream with no write loop has delivered
      everything. */
  lemma Conservation(actions: seq<Action>, id: Id)
    requires CanRun(EMPTY, actions)
    requires Inserted(actions, id) && id !in After(EMPTY, actions).failed
    ensures var s := After(EMPTY, actions);
      && id in s.delivered
      && (forall k :: Running(s, k, id) ==>
            s.delivered[id] + s.tasks[k].items + Waiting(s, id) == WrittenTo(actions, id))
      && (!Held(s, id) ==> s.delivered[id] == WrittenTo(actions, id))
  {
    EmptyOk();
    RunKeeps(EMPTY, actions);
    Lifecycle(actions, id);
    StreamParts(After(EMPTY, actions), id);
  }

  /** Once a stream was asked to end and its tasks are done, it was shut down, once, and its
      record is gone; what was written to it has been delivered if no write failed. */
  lemma EndsInTheEnd(actions: seq<Action>, id: Id)
    requires CanRun(EMPTY, actions) && Inserted(actions, id) && Removed(actions, id)
    requires !Held(After(EMPTY, actions), id)
    ensures var s := After(EMPTY, actions);
      && id !in s.recs && id in s.shutdowns && s.shutdowns[id] == 1
      && (id !in s.failed ==> id in s.delivered && s.delivered[id] == WrittenTo(actions, id))
  {
    EmptyOk();
    RunKeeps(EMPTY, actions);
    Lifecycle(actions, id);
    StreamParts(After(EMPTY, actions), id);
  }

  /** In every interleaving a live record holds the write half iff no task does, and then
      nothing is queued and the end was not requested; two tasks never share a stream; a
      loop's record is there; and a stream is shut down once, after everything accepted
      was delivered, when neither a record nor a task is left. */
  lemma Ownership(actions: seq<Action>, id: Id)
    requires CanRun(EMPTY, actions)
    requires Inserted(actions, id)
    ensures var s := After(EMPTY, actions);
      && id in s.shutdowns && id in s.delivered
      && (id in s.recs ==> (s.recs[id].write.Some? <==> !Held(s, id)))
      && (id in s.recs && s.recs[id].write.Some? ==> s.recs[id].q == [] && !s.recs[id].ended)
      && (forall j, k :: Running(s, j, id) && Running(s, k, id) ==> j == k)
      && (forall k :: Running(s, k, id) ==> (s.tasks[k].pc != Closing <==> id in s.recs))
      && (forall k :: Running(s, k, id) && s.tasks[k].pc == Closing && id !in s.failed ==>
            s.delivered[id] == WrittenTo(actions, id))
      && (s.shutdowns[id] == if id in s.recs || Held(s, id) then 0 else 1)
  {
    EmptyOk();
    RunKeeps(EMPTY, actions);
    Lifecycle(actions, id);
    var s := After(EMPTY, actions);
    StreamParts(s, id);
  }

  /** What the locked section does for a task whose record is there. */
  ghost predicate LockedTo(s: State, u: State, k: nat) {
    k in s.tasks && s.tasks[k].id in s.recs
    && var t := s.tasks[k];
       var r := s.recs[t.id];
       && u == s.(recs := u.recs, tasks := u.tasks)
       && (if r.q != [] then
             u.recs == s.recs[t.id := StreamRec(None, [], r.ended)]
             && u.tasks == s.tasks[k := Task(t.id, t.w, r.q, Writing)]
           else if r.ended then
             u.recs == s.recs - {t.id} && u.tasks == s.tasks[k := Task(t.id, t.w, [], Closing)]
           else
             u.recs == s.recs[t.id := StreamRec(Some(t.w), [], false)] && u.tasks == s.tasks - {k})
  }

  lemma LockCases(s: State, k: nat)
    requires k in s.tasks && s.tasks[k].pc == Locking && s.tasks[k].items == []
    requires s.tasks[k].id in s.recs && s.recs[s.tasks[k].id].write.None?
    ensures LockedTo(s, Next(s, Turn(k, true)), k)
  {
  }

  /** What one awaited write does. */
  ghost predicate DeliveredTo(s: State, u: State, k: nat, ok: bool) {
    k in s.tasks && s.tasks[k].items != [] && s.tasks[k].id in s.delivered
    && var t := s.tasks[k];
       && u == s.(tasks := u.tasks, delivered := u.delivered, failed := u.failed)
       && u.delivered == (if ok then s.delivered[t.id := s.delivered[t.id] + [t.items[0]]] else s.delivered)
       && u.tasks == s.tasks[k := if ok && |t.items| > 1 then Task(t.id, t.w, t.items[1..], Writing)
                                  else Task(t.id, t.w, [], Locking)]
       && (ok ==> u.failed == s.failed)
  }

  lemma DeliverCases(s: State, k: nat, ok: bool)
    requires k in s.tasks && s.tasks[k].pc == Writing && s.tasks[k].items != [] && s.tasks[k].id in s.delivered
    ensures DeliveredTo(s, Next(s, Turn(k, ok)), k, ok)
  {
  }

  ghost predicate ClosedTo(s: State, u: State, k: nat) {
    k in s.tasks && s.tasks[k].id in s.shutdowns
    && var id := s.tasks[k].id;
       && u == s.(tasks := u.tasks, shutdowns := u.shutdowns) && u.tasks == s.tasks - {k}
       && u.shutdowns == s.shutdowns[id := s.shutdowns[id] + 1]
  }

  lemma CloseCases(s: State, k: nat)
    requires k in s.tasks && s.tasks[k].pc == Closing && s.tasks[k].id in s.shutdowns
    ensures ClosedTo(s, Next(s, Turn(k, true)), k)
  {
  }

  // ---------- the loop halts ----------

  /** How many turns a task can still take when nothing more is written to its stream. */
  ghost function TurnsLeft(s: State, k: nat): nat {
    if k !in s.tasks then 0
    else
      var t := s.tasks[k];
      (match t.pc case Locking => 2 case Writing => 1 case Closing => 1)
      + 2 * |t.items| + 2 * |Waiting(s, t.id)|
  }

  lemma OtherStreams(s: State, j: nat, k: nat)
    requires Inv(s) && j in s.tasks && k in s.tasks && j != k
    ensures s.tasks[j].id != s.tasks[k].id
  {
  }

  lemma OwnTurn(s: State, k: nat, ok: bool)
    requires k in s.tasks && TaskOk(s, k) && Enabled(s, Turn(k, ok))
    ensures TurnsLeft(Next(s, Turn(k, ok)), k) < TurnsLeft(s, k)
    ensures k in Next(s, Turn(k, ok)).tasks ==> Next(s, Turn(k, ok)).tasks[k].id == s.tasks[k].id
  {
  }

  lemma SameTurns(s: State, t: State, k: nat)
    requires k in s.tasks && SameFor(s, t, s.tasks[k].id)
    ensures k in t.tasks && t.tasks[k] == s.tasks[k] && TurnsLeft(t, k) == TurnsLeft(s, k)
  {
    assert Running(s, k, s.tasks[k].id);
  }

  lemma InsertOthers(s: State, id: Id)
    ensures forall x :: x != id ==> SameFor(s, InsertStep(s, id), x)
  {
  }

  lemma CloseOthers(s: State, k: nat)
    requires k in s.tasks
    ensures forall x :: x != s.tasks[k].id ==> SameFor(s, CloseStep(s, k), x)
  {
  }

  lemma RemoveKeepsTurns(s: State, k: nat)
    requires k in s.tasks && TaskOk(s, k) && s.nextTask !in s.tasks
    ensures k in RemoveStep(s, s.tasks[k].id).tasks && RemoveStep(s, s.tasks[k].id).tasks[k] == s.tasks[k]
    ensures TurnsLeft(RemoveStep(s, s.tasks[k].id), k) == TurnsLeft(s, k)
  {
  }

  /** Every turn of a task uses up one of its turns at least; no other action gives it
      more, except a write to its own stream. */
  lemma TurnsDecrease(s: State, a: Action, k: nat)
    requires Inv(s) && Enabled(s, a) && k in s.tasks
    requires !(a.Write? && a.id == s.tasks[k].id)
    ensures var s' := Next(s, a);
      TurnsLeft(s', k) <= TurnsLeft(s, k) - if a.Turn? && a.task == k then 1 else 0
    ensures k in Next(s, a).tasks ==> Next(s, a).tasks[k].id == s.tasks[k].id
  {
    assert TaskOk(s, k) && Running(s, k, s.tasks[k].id);
    NextTaskFree(s);
    hide Inv, TurnsLeft, SameFor, WriteStep, RemoveStep, InsertStep, LockStep, DeliverStep, CloseStep;
    match a
    case Insert(id) =>
      InsertOthers(s, id);
      SameTurns(s, Next(s, a), k);
    case Write(id, buf) =>
      if id in s.recs {
        WriteOthers(s, id, buf);
        SameTurns(s, Next(s, a), k);
      } else {
        WriteIgnored(s, id, buf);
      }
    case Remove(id) =>
      if id == s.tasks[k].id {
        RemoveKeepsTurns(s, k);
      } else if id in s.recs {
        RemoveOthers(s, id);
        SameTurns(s, Next(s, a), k);
      } else {
        RemoveIgnored(s, id);
      }
    case Turn(j, ok) =>
      if j == k {
        OwnTurn(s, k, ok);
      } else {
        OtherStreams(s, j, k);
        TurnOthers(s, j, ok);
        CloseOthers(s, j);
        SameTurns(s, Next(s, a), k);
      }
  }

  /** Whatever is sent to a stream without a record is ignored. */
  lemma WriteIgnored(s: State, id: Id, buf: Chunk)
    requires id !in s.recs
    ensures WriteStep(s, id, buf) == s
  {
  }

  lemma RemoveIgnored(s: State, id: Id)
    requires id !in s.recs
    ensures RemoveStep(s, id) == s
  {
  }

  ghost predicate Quiet(actions: seq<Action>, id: Id) {
    forall i :: 0 <= i < |actions| ==> !(actions[i].Write? && actions[i].id == id)
  }

  /** How often task k takes a turn. */
  function TurnsTaken(actions: seq<Action>, k: nat): nat {
    if actions == [] then 0
    else (if actions[0].Turn? && actions[0].task == k then 1 else 0) + TurnsTaken(actions[1..], k)
  }

  /** Once nothing more is written to its stream, a task takes a bounded number of turns,
      whatever else happens. */
  lemma {:induction false} LoopHalts(s: State, actions: seq<Action>, k: nat)
    requires Inv(s) && CanRun(s, actions) && k < s.nextTask
    requires k in s.tasks ==> Quiet(actions, s.tasks[k].id)
    ensures TurnsTaken(actions, k) <= TurnsLeft(s, k)
    decreases |actions|
  {
    if actions != [] {
      var a, s' := actions[0], Next(s, actions[0]);
      NextKeeps(s, a);
      NextTaskGrows(s, a, k);
      if k in s.tasks {
        TurnsDecrease(s, a, k);
        assert Quiet(actions[1..], s.tasks[k].id) by {
          assert forall i :: 0 <= i < |actions| - 1 ==> actions[1..][i] == actions[i + 1];
        }
      }
      LoopHalts(s', actions[1..], k);
    }
  }

  lemma TurnGrows(s: State, j: nat, ok: bool, k: nat)
    requires Enabled(s, Turn(j, ok)) && k < s.nextTask
    ensures k < Next(s, Turn(j, ok)).nextTask
    ensures k !in s.tasks ==> k !in Next(s, Turn(j, ok)).tasks
  {
  }

  lemma CallGrows(s: State, a: Action, k: nat)
    requires !a.Turn? && Enabled(s, a) && k < s.nextTask
    ensures k < Next(s, a).nextTask
    ensures k !in s.tasks ==> k !in Next(s, a).tasks
  {
  }

  /** Task numbers are not reused. */
  lemma NextTaskGrows(s: State, a: Action, k: nat)
    requires Enabled(s, a) && k < s.nextTask
    ensures k < Next(s, a).nextTask
    ensures k !in s.tasks ==> k !in Next(s, a).tasks
  {
    hide Enabled, Next;
    if a.Turn? {
      TurnGrows(s, a.task, a.ok, k);
    } else {
      CallGrows(s, a, k);
    }
  }
}
