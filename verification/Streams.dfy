/** The stream map and its write loops as they update the shared records in place: each
    method is one locked section or one awaited operation, and takes exactly one step of
    StreamProtocol. */
module Streams {
  import opened Options
  import opened StreamProtocol

  class Streams {
    var recs: map<Id, StreamRec>
    var tasks: map<nat, Task>  // what was spawned and is still running
    var nextTask: nat
    // what the other ends of the streams have seen
    var delivered: map<Id, seq<Chunk>>
    var shutdowns: map<Id, nat>
    ghost var state: State

    ghost predicate Valid()
      reads this
    {
      && state.recs == recs && state.tasks == tasks && state.nextTask == nextTask
      && state.delivered == delivered && state.shutdowns == shutdowns && Inv(state)
    }

    constructor ()
      ensures Valid() && state == EMPTY
    {
      recs, tasks, nextTask := map[], map[], 0;
      delivered, shutdowns, state := map[], map[], EMPTY;
    }

    method Spawn(t: Task)
      modifies `tasks, `nextTask
      ensures tasks == old(tasks)[old(nextTask) := t] && nextTask == old(nextTask) + 1
    {
      tasks := tasks[nextTask := t];
      nextTask := nextTask + 1;
    }

    /** Puts a new record in the map, in place of any other with its id. Exactly when no
        task runs for the id all is well afterwards. */
    method Insert(id: Id, stream: WriteHalf)
      requires Valid() && stream == WriteHalf(id)
      modifies this
      ensures recs == old(recs)[id := StreamRec(Some(stream), [], false)]
      ensures tasks == old(tasks) && nextTask == old(nextTask)
      ensures state == InsertStep(old(state), id)
      ensures Valid() <==> !Held(old(state), id)
    {
      hide Inv;
      InsertKeeps(state, id);
      recs := recs[id := StreamRec(Some(stream), [], false)];
      delivered, shutdowns := delivered[id := []], shutdowns[id := 0];
      state := InsertStep(state, id);
    }

    /** Queues a chunk; whoever finds the write half in the record starts the loop. Nothing
        happens if there is no record. */
    method Write(id: Id, buf: Chunk)
      requires Valid()
      modifies `recs, `tasks, `nextTask, `state
      ensures Valid() && state == Next(old(state), Action.Write(id, buf))
      ensures id !in old(recs) ==> recs == old(recs)
      ensures id in old(recs) ==>
        recs == old(recs)[id := StreamRec(None, old(recs)[id].q + [buf], old(recs)[id].ended)]
      ensures id in old(recs) && old(recs)[id].write.Some? ==>
        && tasks == old(tasks)[old(nextTask) := Task(id, old(recs)[id].write.value, [], Locking)]
        && nextTask == old(nextTask) + 1
      ensures id !in old(recs) || old(recs)[id].write.None? ==> tasks == old(tasks) && nextTask == old(nextTask)
    {
      hide Inv;
      NextKeeps(state, Action.Write(id, buf));
      ghost var next := Next(state, Action.Write(id, buf));
      if id in recs {
        recs := recs[id := recs[id].(q := recs[id].q + [buf])];
        var taken := recs[id].write;
        recs := recs[id := recs[id].(write := None)];
        if taken.Some? {
          Spawn(Task(id, taken.value, [], Locking));
        }
      }
      state := next;
    }

    /** Ends a stream: at once if the write half is here, else in its write loop. */
    method Remove(id: Id)
      requires Valid()
      modifies `recs, `tasks, `nextTask, `state
      ensures Valid() && state == Next(old(state), Action.Remove(id))
      ensures id !in old(recs) ==> recs == old(recs)
      ensures id in old(recs) && old(recs)[id].write.Some? ==>
        && recs == old(recs) - {id} && nextTask == old(nextTask) + 1
        && tasks == old(tasks)[old(nextTask) := Task(id, old(recs)[id].write.value, [], Closing)]
      ensures id in old(recs) && old(recs)[id].write.None? ==>
        recs == old(recs)[id := StreamRec(None, old(recs)[id].q, true)]
      ensures id !in old(recs) || old(recs)[id].write.None? ==> tasks == old(tasks) && nextTask == old(nextTask)
    {
      hide Inv;
      NextKeeps(state, Action.Remove(id));
      ghost var next := Next(state, Action.Remove(id));
      if id in recs {
        var taken := recs[id].write;
        if taken.Some? {
          recs := recs - {id};
          Spawn(Task(id, taken.value, [], Closing));
        } else {
          recs := recs[id := recs[id].(ended := true)];
        }
      }
      state := next;
    }

    lemma Fields()
      ensures Valid() <==>
        && state.recs == recs && state.tasks == tasks && state.nextTask == nextTask
        && state.delivered == delivered && state.shutdowns == shutdowns && Inv(state)
    {
    }

    /** A task may take its turn, and all is well afterwards. */
    lemma TurnAllowed(k: nat, ok: bool)
      requires Valid() && k in tasks && (tasks[k].pc == Writing ==> tasks[k].items != [])
      ensures k in state.tasks && Enabled(state, Turn(k, ok)) && Inv(Next(state, Turn(k, ok)))
    {
      hide Inv;
      NextKeeps(state, Turn(k, ok));
    }

    lemma TaskParts(k: nat)
      requires Valid() && k in tasks
      ensures tasks[k].pc == Locking ==>
        && tasks[k].id in recs && tasks[k].items == [] && recs[tasks[k].id].write.None?
        && LockedTo(state, Next(state, Turn(k, true)), k)
      ensures tasks[k].pc == Writing && tasks[k].items != [] ==>
        && DeliveredTo(state, Next(state, Turn(k, true)), k, true)
        && DeliveredTo(state, Next(state, Turn(k, false)), k, false)
      ensures tasks[k].pc == Closing ==> ClosedTo(state, Next(state, Turn(k, true)), k)
      ensures tasks[k].id in delivered && tasks[k].id in shutdowns
    {
      assert TaskOk(state, k);
      hide LockedTo, DeliveredTo, ClosedTo, Inv, TaskOk;
      if tasks[k].pc == Locking {
        LockCases(state, k);
      } else if tasks[k].pc == Writing && tasks[k].items != [] {
        DeliverCases(state, k, true);
        DeliverCases(state, k, false);
      } else if tasks[k].pc == Closing {
        CloseCases(state, k);
      }
    }

    /** The locked section of the write loop: the record is there, and a batch is taken, or
        the end is reached, or the write half goes back. */
    method WriteLoopLock(k: nat)
      requires Valid() && k in tasks && tasks[k].pc == Locking
      modifies `recs, `tasks, `state
      ensures Valid() && state == Next(old(state), Turn(k, true))
      ensures var t := old(tasks)[k];
        && t.id in old(recs)
        && var r := old(recs)[t.id];
           if r.q != [] then
             recs == old(recs)[t.id := StreamRec(None, [], r.ended)]
             && tasks == old(tasks)[k := Task(t.id, t.w, r.q, Writing)]
           else if r.ended then
             recs == old(recs) - {t.id} && tasks == old(tasks)[k := Task(t.id, t.w, [], Closing)]
           else
             recs == old(recs)[t.id := StreamRec(Some(t.w), [], false)] && tasks == old(tasks) - {k}
    {
      hide Valid, Inv, Next, Enabled, Held;
      Fields();
      TurnAllowed(k, true);
      TaskParts(k);
      ghost var next := Next(state, Turn(k, true));
      var t := tasks[k];
      if t.id !in recs {
        assert false; // the record of a running loop is always there
      } else if recs[t.id].q == [] {
        if recs[t.id].ended {
          recs := recs - {t.id};
          tasks := tasks[k := t.(pc := Closing)];
        } else {
          recs := recs[t.id := recs[t.id].(write := Some(t.w))];
          tasks := tasks - {k};
        }
      } else {
        var batch := recs[t.id].q;
        recs := recs[t.id := recs[t.id].(q := t.items)];
        tasks := tasks[k := t.(items := batch, pc := Writing)];
      }
      state := next;
      Fields();
    }

    /** One write of the batch; a failed one drops what is left of it. */
    method WriteLoopDeliver(k: nat, ok: bool)
      requires Valid() && k in tasks && tasks[k].pc == Writing && tasks[k].items != []
      modifies `tasks, `delivered, `state
      ensures Valid() && state == Next(old(state), Turn(k, ok))
      ensures var t := old(tasks)[k];
        && t.id in old(delivered)
        && delivered == (if ok then old(delivered)[t.id := old(delivered)[t.id] + [t.items[0]]] else old(delivered))
        && tasks == old(tasks)[k := if ok && |t.items| > 1 then Task(t.id, t.w, t.items[1..], Writing)
                                    else Task(t.id, t.w, [], Locking)]
    {
      hide Valid, Inv, Next, Enabled, Held;
      Fields();
      TurnAllowed(k, ok);
      TaskParts(k);
      ghost var next := Next(state, Turn(k, ok));
      var t := tasks[k];
      var rest := if ok then t.items[1..] else [];
      if ok {
        delivered := delivered[t.id := delivered[t.id] + [t.items[0]]];
      }
      tasks := tasks[k := t.(items := rest, pc := if rest == [] then Locking else Writing)];
      state := next;
      Fields();
    }

    method Shutdown(k: nat)
      requires Valid() && k in tasks && tasks[k].pc == Closing
      modifies `tasks, `shutdowns, `state
      ensures Valid() && state == Next(old(state), Turn(k, true))
      ensures tasks == old(tasks) - {k} && old(tasks)[k].id in old(shutdowns)
      ensures shutdowns == old(shutdowns)[old(tasks)[k].id := old(shutdowns)[old(tasks)[k].id] + 1]
    {
      hide Valid, Inv, Next, Enabled, Held;
      Fields();
      TurnAllowed(k, true);
      TaskParts(k);
      ghost var next := Next(state, Turn(k, true));
      shutdowns := shutdowns[tasks[k].id := shutdowns[tasks[k].id] + 1];
      tasks := tasks - {k};
      state := next;
      Fields();
    }
  }

  /** Any interleaving of calls and task turns, taken by the records themselves. A stream
      that no task serves has delivered exactly what was written to it. */
  method Interleave(actions: seq<Action>) returns (streams: Streams)
    requires CanRun(EMPTY, actions)
    ensures streams.Valid() && streams.state == After(EMPTY, actions)
    ensures forall id :: Inserted(actions, id) && id !in streams.state.failed && !Held(streams.state, id) ==>
      id in streams.delivered && streams.delivered[id] == WrittenTo(actions, id)
  {
    streams := new Streams();
    for i := 0 to |actions|
      invariant streams.Valid() && fresh(streams)
      invariant CanRun(EMPTY, actions[..i]) && streams.state == After(EMPTY, actions[..i])
    {
      hide Inv;
      assert actions[..i + 1] == actions[..i] + [actions[i]];
      CanRunPrefix(EMPTY, actions, i + 1);
      AfterSnoc(EMPTY, actions[..i], actions[i]);
      match actions[i] {
        case Insert(id) => streams.Insert(id, WriteHalf(id));
        case Write(id, buf) => streams.Write(id, buf);
        case Remove(id) => streams.Remove(id);
        case Turn(k, ok) =>
          match streams.tasks[k].pc {
            case Locking => streams.WriteLoopLock(k);
            case Writing => streams.WriteLoopDeliver(k, ok);
            case Closing => streams.Shutdown(k);
          }
      }
    }
    assert actions[..|actions|] == actions;
    forall id | Inserted(actions, id) && id !in streams.state.failed && !Held(streams.state, id)
      ensures id in streams.delivered && streams.delivered[id] == WrittenTo(actions, id)
    {
      Conservation(actions, id);
    }
  }
}
