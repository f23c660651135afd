/** The calling side of the RPC dispatcher: the id counter, the messages handed to the
    sender, and the map of callbacks. */
module Rpc {
  import opened Options
  import opened RpcProtocol

  class Dispatcher {
    var messageIdCounter: nat
    var outbox: seq<Id>
    var calls: map<Id, Call>
    ghost var state: State

    ghost predicate Valid()
      reads this
    {
      state.counter == messageIdCounter && state.sent == outbox && state.calls == calls && Inv(state)
    }

    constructor ()
      ensures Valid() && state == EMPTY
    {
      messageIdCounter, outbox, calls, state := 0, [], map[], EMPTY;
    }

    method NextMessageId(ghost c: Call) returns (id: Id)
      requires Valid() && Enabled(state, Allocate(c))
      modifies `messageIdCounter, `state
      ensures Valid() && state == Next(old(state), Allocate(c)) && c in state.ids && id == state.ids[c]
      ensures id == old(messageIdCounter) % 0x1_0000_0000 && messageIdCounter == old(messageIdCounter) + 1
    {
      NextKeeps(state, Allocate(c));
      id := messageIdCounter % ID_LIMIT;
      messageIdCounter := messageIdCounter + 1;
      state := Next(state, Allocate(c));
    }

    /** The message goes out before the callback is registered; if it cannot, the call
        ends, and nothing was sent. */
    method SendBody(ghost c: Call, id: Id, ok: bool)
      requires Valid() && Enabled(state, Send(c, ok)) && id == state.ids[c]
      modifies `outbox, `state
      ensures Valid() && state == Next(old(state), Send(c, ok))
      ensures outbox == if ok then old(outbox) + [id] else old(outbox)
    {
      NextKeeps(state, Send(c, ok));
      if ok {
        outbox := outbox + [id];
      }
      state := Next(state, Send(c, ok));
    }

    /** Only a call whose message went out registers. */
    method RegisterCallback(c: Call, id: Id)
      requires Valid() && Enabled(state, Register(c)) && id == state.ids[c]
      modifies `calls, `state
      ensures Valid() && state == Next(old(state), Register(c)) && id in outbox
      ensures calls == old(calls)[id := c]
    {
      NextKeeps(state, Register(c));
      calls := calls[id := c];
      state := Next(state, Register(c));
    }

    /** A reply: removes the callback of its id, if there is one, and returns it to be
        invoked with the reply. */
    method DispatchReply(id: Id, reply: Reply) returns (invoked: Option<Call>)
      requires Valid()
      modifies `calls, `state
      ensures Valid() && state == Next(old(state), Dispatch(id, reply))
      ensures forall c :: invoked == Some(c) <==> Waiting(old(state), c) && old(state).ids[c] == id
      ensures invoked.Some? ==> AnsweredWith(state, invoked.value, reply)
      ensures invoked == if id in old(calls) then Some(old(calls)[id]) else None
      ensures calls == old(calls) - {id}
    {
      NextKeeps(state, Dispatch(id, reply));
      invoked := None;
      if id in calls {
        invoked := Some(calls[id]);
        calls := calls - {id};
      }
      state := Next(state, Dispatch(id, reply));
    }
  }

  /** Any run of calls and replies, taken by the dispatcher's own fields. The callbacks
      invoked, with their replies, are exactly those that the run answers, each once. */
  method Interleave(actions: seq<Action>) returns (dispatcher: Dispatcher, answered: seq<(Call, Reply)>)
    requires CanRun(EMPTY, actions)
    ensures dispatcher.Valid() && dispatcher.state == After(EMPTY, actions)
    ensures forall c: Call, reply: Reply :: (c, reply) in answered <==> Answers(actions, dispatcher.state.ids, c, reply)
    ensures forall i, j :: 0 <= i < j < |answered| ==> answered[i].0 != answered[j].0
  {
    dispatcher := new Dispatcher();
    answered := [];
    var taken: map<Call, Id> := map[];
    assert actions[..|actions|] == actions;
    hide Inv, Next;
    NothingAnswered();
    for n := 0 to |actions|
      invariant dispatcher.Valid() && fresh(dispatcher)
      invariant CanRun(EMPTY, actions[..n]) && dispatcher.state == After(EMPTY, actions[..n])
      invariant taken == dispatcher.state.ids
      invariant forall c: Call, reply: Reply :: (c, reply) in answered <==> AnsweredWith(dispatcher.state, c, reply)
      invariant forall i, j :: 0 <= i < j < |answered| ==> answered[i].0 != answered[j].0
    {
      CanRunPrefix(actions, n + 1);
      assert actions[..n + 1][..n] == actions[..n];
      ghost var s := dispatcher.state;
      NextIds(s, actions[n]);
      match actions[n] {
        case Allocate(c) =>
          var id := dispatcher.NextMessageId(c);
          taken := taken[c := id];
        case Send(c, ok) => dispatcher.SendBody(c, taken[c], ok);
        case Register(c) => dispatcher.RegisterCallback(c, taken[c]);
        case Dispatch(id, reply) =>
          var invoked := dispatcher.DispatchReply(id, reply);
          if invoked.Some? {
            answered := LogAnswer(answered, s, invoked.value, reply);
          }
      }
      forall c: Call, reply: Reply
        ensures AnsweredWith(dispatcher.state, c, reply) <==>
          AnsweredWith(s, c, reply) || (Waiting(s, c) && actions[n] == Dispatch(s.ids[c], reply))
      {
        AnsweredNext(s, actions[n], c, reply);
      }
    }
    forall c: Call, reply: Reply
      ensures AnsweredWith(dispatcher.state, c, reply) <==> Answers(actions, dispatcher.state.ids, c, reply)
    {
      Matching(actions, c, reply);
    }
  }

  /** Appends an answer; the call was waiting, so it is not in the log yet. */
  method LogAnswer(answered: seq<(Call, Reply)>, ghost s: State, c: Call, reply: Reply) returns (log: seq<(Call,
      Reply)>)
    requires Waiting(s, c) && forall d: Call, r: Reply :: (d, r) in answered <==> AnsweredWith(s, d, r)
    requires forall i, j :: 0 <= i < j < |answered| ==> answered[i].0 != answered[j].0
    ensures forall d: Call, r: Reply :: (d, r) in log <==> (d, r) in answered || (d == c && r == reply)
    ensures forall i, j :: 0 <= i < j < |log| ==> log[i].0 != log[j].0
  {
    log := answered + [(c, reply)];
    forall i | 0 <= i < |answered|
      ensures answered[i].0 != c
    {
      assert (answered[i].0, answered[i].1) in answered;
    }
  }

  lemma NothingAnswered()
    ensures forall c: Call, reply: Reply :: !AnsweredWith(EMPTY, c, reply)
    ensures EMPTY.ids == map[] && CanRun(EMPTY, []) && After(EMPTY, []) == EMPTY
  {
  }

  lemma NextIds(s: State, a: Action)
    requires Enabled(s, a)
    ensures a.Allocate? ==> Next(s, a).ids == s.ids[a.call := s.counter % ID_LIMIT]
    ensures !a.Allocate? ==> Next(s, a).ids == s.ids
  {
  }

  lemma AnsweredNext(s: State, a: Action, c: Call, reply: Reply)
    requires Inv(s) && Enabled(s, a)
    ensures Waiting(s, c) ==> c in s.ids
    ensures AnsweredWith(Next(s, a), c, reply) <==>
      AnsweredWith(s, c, reply) || (Waiting(s, c) && a == Dispatch(s.ids[c], reply))
  {
    OneCall(s, a, c, reply);
  }
}
