/** Matching RPC replies to calls. A call takes an id from a 32-bit counter, is sent, and
    only then registers its callback; replies are dispatched in between at any time. */
module RpcProtocol {

  const ID_LIMIT := 0x1_0000_0000

  type Call = nat  // one use of `call`
  type Id = nat

  datatype Reply = Success(body: seq<nat>) | Error(code: int)

  /** Where a call is: not sent yet, sent, waiting for its reply, answered, or given up
      because sending failed or another call took over its id. */
  datatype Phase = Allocated | Sent | Pending | Answered(reply: Reply) | Dropped

  datatype State = State(
    counter: nat,
    calls: map<Id, Call>,
    ids: map<Call, Id>,
    phases: map<Call, Phase>,
    sent: seq<Id>)

  const EMPTY := State(0, map[], map[], map[], [])

  datatype Action =
    | Allocate(call: Call)
    | Send(call: Call, ok: bool)
    | Register(call: Call)
    | Dispatch(id: Id, reply: Reply)

  predicate Enabled(s: State, a: Action) {
    match a
    case Allocate(c) => c !in s.phases
    case Send(c, _) => c in s.phases && s.phases[c] == Allocated && c in s.ids
    case Register(c) => c in s.phases && s.phases[c] == Sent && c in s.ids
    case Dispatch(_, _) => true
  }

  function Next(s: State, a: Action): State
    requires Enabled(s, a)
  {
    match a
    case Allocate(c) =>
      s.(counter := s.counter + 1, ids := s.ids[c := s.counter % ID_LIMIT], phases := s.phases[c := Allocated])
    case Send(c, ok) =>
      s.(phases := s.phases[c := if ok then Sent else Dropped], sent := if ok then s.sent + [s.ids[c]] else s.sent)
    case Register(c) =>
      var id := s.ids[c];
      var phases := if id in s.calls then s.phases[s.calls[id] := Dropped] else s.phases;
      s.(calls := s.calls[id := c], phases := phases[c := Pending])
    case Dispatch(id, reply) =>
      if id in s.calls then s.(calls := s.calls - {id}, phases := s.phases[s.calls[id] := Answered(reply)])
      else s
  }

  /** The ids in use fit the counter's 32 bits. */
  predicate NoWrap(s: State) {
    s.counter <= ID_LIMIT
  }

  ghost predicate Inv(s: State) {
    && s.ids.Keys == s.phases.Keys
    && (forall c :: c in s.phases && (s.phases[c] in {Sent, Pending} || s.phases[c].Answered?) ==> s.ids[c] in s.sent)
    && (forall id :: id in s.calls ==>
      s.calls[id] in s.ids && s.ids[s.calls[id]] == id && s.phases[s.calls[id]] == Pending)
    && (forall c :: c in s.phases && s.phases[c] == Pending ==> s.ids[c] in s.calls && s.calls[s.ids[c]] == c)
    && (NoWrap(s) ==> forall c :: c in s.ids ==> s.ids[c] < s.counter)
    && (NoWrap(s) ==> forall c, d :: c in s.ids && d in s.ids && s.ids[c] == s.ids[d] ==> c == d)
  }

  lemma AllocateKeeps(s: State, c: Call)
    requires Inv(s) && Enabled(s, Allocate(c))
    ensures Inv(Next(s, Allocate(c)))
  {
  }

  lemma SendKeeps(s: State, c: Call, ok: bool)
    requires Inv(s) && Enabled(s, Send(c, ok))
    ensures Inv(Next(s, Send(c, ok)))
  {
  }

  lemma RegisterKeeps(s: State, c: Call)
    requires Inv(s) && Enabled(s, Register(c))
    ensures Inv(Next(s, Register(c)))
  {
  }

  lemma DispatchKeeps(s: State, id: Id, reply: Reply)
    requires Inv(s)
    ensures Inv(Next(s, Dispatch(id, reply)))
  {
  }

  lemma NextKeeps(s: State, a: Action)
    requires Inv(s) && Enabled(s, a)
    ensures Inv(Next(s, a))
  {
    hide Inv, Next;
    match a
    case Allocate(c) => AllocateKeeps(s, c);
    case Send(c, ok) => SendKeeps(s, c, ok);
    case Register(c) => RegisterKeeps(s, c);
    case Dispatch(id, reply) => DispatchKeeps(s, id, reply);
  }

  predicate CanRun(s: State, actions: seq<Action>)
    decreases |actions|, 0
  {
    actions == [] || (CanRun(s, actions[..|actions| - 1])
                      && Enabled(After(s, actions[..|actions| - 1]), actions[|actions| - 1]))
  }

  function After(s: State, actions: seq<Action>): State
    requires CanRun(s, actions)
    decreases |actions|, 1
  {
    if actions == [] then s else Next(After(s, actions[..|actions| - 1]), actions[|actions| - 1])
  }

  lemma {:induction false} RunKeeps(actions: seq<Action>)
    requires CanRun(EMPTY, actions)
    ensures Inv(After(EMPTY, actions))
    decreases |actions|
  {
    if actions != [] {
      RunKeeps(actions[..|actions| - 1]);
      NextKeeps(After(EMPTY, actions[..|actions| - 1]), actions[|actions| - 1]);
    }
  }

  ghost predicate Waiting(s: State, c: Call) {
    c in s.phases && s.phases[c] == Pending
  }

  ghost predicate Resolved(s: State, c: Call) {
    c in s.phases && s.phases[c].Answered?
  }

  ghost predicate AnsweredWith(s: State, c: Call, reply: Reply) {
    c in s.phases && s.phases[c] == Answered(reply)
  }

  /** Another call with the id of c registers, and takes its place. */
  ghost predicate Displaces(a: Action, ids: map<Call, Id>, c: Call) {
    a.Register? && a.call != c && a.call in ids && c in ids && ids[a.call] == ids[c]
  }

  /** Afterwards c waits no longer: a reply with its id, or another call in its place. */
  ghost predicate Ends(a: Action, ids: map<Call, Id>, c: Call) {
    (a.Dispatch? && c in ids && a.id == ids[c]) || Displaces(a, ids, c)
  }

  ghost predicate Opens(a: Action, c: Call) {
    a == Register(c)
  }

  /** The call registered, and nothing since has ended its wait. */
  ghost predicate Open(actions: seq<Action>, ids: map<Call, Id>, c: Call) {
    exists i :: 0 <= i < |actions| && Opens(actions[i], c) && forall k :: i < k < |actions| ==>
      !Ends(actions[k], ids, c)
  }

  /** The call registered, and the first thing to end its wait was this reply. */
  ghost predicate Answers(actions: seq<Action>, ids: map<Call, Id>, c: Call, reply: Reply) {
    exists j :: 0 <= j < |actions| && c in ids && actions[j] == Dispatch(ids[c], reply) && Open(actions[..j], ids, c)
  }

  lemma OpenSnoc(p: seq<Action>, a: Action, ids: map<Call, Id>, c: Call)
    ensures Open(p + [a], ids, c) <==> a == Register(c) || (Open(p, ids, c) && !Ends(a, ids, c))
  {
    hide Ends;
    var q := p + [a];
    assert q[|p|] == a && forall i :: 0 <= i < |p| ==> q[i] == p[i];
    if Opens(a, c) {
      assert Opens(q[|p|], c);
    } else if Open(p, ids, c) && !Ends(a, ids, c) {
      var i :| 0 <= i < |p| && Opens(p[i], c) && forall k :: i < k < |p| ==> !Ends(p[k], ids, c);
      assert Opens(q[i], c);
    }
  }

  lemma AnswersSnoc(p: seq<Action>, a: Action, ids: map<Call, Id>, c: Call, reply: Reply)
    ensures Answers(p + [a], ids, c, reply) <==>
      Answers(p, ids, c, reply) || (c in ids && a == Dispatch(ids[c], reply) && Open(p, ids, c))
  {
    hide Open;
    var q := p + [a];
    assert q[|p|] == a && q[..|p|] == p;
    assert forall j :: 0 <= j < |p| ==> q[j] == p[j] && q[..j] == p[..j];
  }

  /** What a call's wait depends on does not change when more ids are taken. */
  lemma EndsLater(a: Action, ids: map<Call, Id>, ids': map<Call, Id>, c: Call)
    requires c in ids && (a.Register? ==> a.call in ids)
    requires forall d :: d in ids ==> d in ids' && ids'[d] == ids[d]
    ensures Ends(a, ids', c) <==> Ends(a, ids, c)
  {
  }

  /** All calls that registered had taken an id. */
  ghost predicate Known(actions: seq<Action>, ids: map<Call, Id>) {
    forall k :: 0 <= k < |actions| && actions[k].Register? ==> actions[k].call in ids
  }

  lemma OpenLater(p: seq<Action>, ids: map<Call, Id>, ids': map<Call, Id>, c: Call)
    requires c in ids && Known(p, ids)
    requires forall d :: d in ids ==> d in ids' && ids'[d] == ids[d]
    ensures Open(p, ids', c) <==> Open(p, ids, c)
  {
    hide Ends;
    forall k | 0 <= k < |p|
      ensures Ends(p[k], ids', c) <==> Ends(p[k], ids, c)
    {
      EndsLater(p[k], ids, ids', c);
    }
  }

  lemma AnswersLater(p: seq<Action>, ids: map<Call, Id>, ids': map<Call, Id>, c: Call, reply: Reply)
    requires c in ids && Known(p, ids)
    requires forall d :: d in ids ==> d in ids' && ids'[d] == ids[d]
    ensures Answers(p, ids', c, reply) <==> Answers(p, ids, c, reply)
  {
    hide Open;
    forall j | 0 <= j < |p|
      ensures Open(p[..j], ids', c) <==> Open(p[..j], ids, c)
    {
      OpenLater(p[..j], ids, ids', c);
    }
  }

  lemma NothingOpen(p: seq<Action>, ids: map<Call, Id>, c: Call, reply: Reply)
    requires Known(p, ids) && c !in ids
    ensures forall ids': map<Call, Id> :: !Open(p, ids', c) && !Answers(p, ids', c, reply)
  {
    assert forall k :: 0 <= k < |p| ==> !Opens(p[k], c);
    assert forall ids', j :: 0 <= j <= |p| ==> !Open(p[..j], ids', c);
    assert p[..|p|] == p;
  }

  /** One more action, and what it does to one call. */
  lemma OneCall(s: State, a: Action, c: Call, reply: Reply)
    requires Inv(s) && Enabled(s, a)
    ensures forall d :: d in s.ids ==> d in Next(s, a).ids && Next(s, a).ids[d] == s.ids[d]
    ensures a.Register? ==> a.call in s.ids
    ensures Waiting(Next(s, a), c) <==> a == Register(c) || (Waiting(s, c) && !Ends(a, Next(s, a).ids, c))
    ensures AnsweredWith(Next(s, a), c, reply) <==>
      AnsweredWith(s, c, reply) || (Waiting(s, c) && a == Dispatch(s.ids[c], reply))
    ensures Waiting(s, c) ==> c in s.ids
  {
  }

  lemma KnownSnoc(p: seq<Action>, a: Action, ids: map<Call, Id>, ids': map<Call, Id>)
    requires Known(p, ids) && (a.Register? ==> a.call in ids')
    requires forall d :: d in ids ==> d in ids'
    ensures Known(p + [a], ids')
  {
  }

  lemma {:induction false} CanRunPrefix(actions: seq<Action>, k: nat)
    requires CanRun(EMPTY, actions) && k <= |actions|
    ensures CanRun(EMPTY, actions[..k])
    decreases |actions|
  {
    if k < |actions| {
      CanRunPrefix(actions[..|actions| - 1], k);
      assert actions[..|actions| - 1][..k] == actions[..k];
    } else {
      assert actions[..k] == actions;
    }
  }

  /** In every run a call waits exactly from its registration until the first reply with
      its own id after that, or until a later call that was given the same id takes its
      place; and it is answered, with that reply, exactly when the reply came first. A
      reply that overtakes the registration is lost. */
  lemma {:induction false} Matching(actions: seq<Action>, c: Call, reply: Reply)
    requires CanRun(EMPTY, actions)
    ensures var s := After(EMPTY, actions);
      && Known(actions, s.ids)
      && (Waiting(s, c) <==> Open(actions, s.ids, c))
      && (AnsweredWith(s, c, reply) <==> Answers(actions, s.ids, c, reply))
    decreases |actions|
  {
    if actions != [] {
      hide Inv, Next, Enabled, Open, Answers, Known, Ends;
      var p, a := actions[..|actions| - 1], actions[|actions| - 1];
      assert actions == p + [a];
      var s := After(EMPTY, p);
      var ids, ids' := s.ids, Next(s, a).ids;
      RunKeeps(p);
      Matching(p, c, reply);
      OneCall(s, a, c, reply);
      KnownSnoc(p, a, ids, ids');
      OpenSnoc(p, a, ids', c);
      AnswersSnoc(p, a, ids', c, reply);
      if c in ids {
        OpenLater(p, ids, ids', c);
        AnswersLater(p, ids, ids', c, reply);
      } else {
        NothingOpen(p, ids, c, reply);
      }
    }
  }

  /** How many ids a run takes. */
  function Allocations(actions: seq<Action>): nat {
    if actions == [] then 0
    else Allocations(actions[..|actions| - 1]) + if actions[|actions| - 1].Allocate? then 1 else 0
  }

  /** The n-th call to take an id takes n, counted from zero and modulo 2^32. */
  lemma {:induction false} IdsInOrder(actions: seq<Action>)
    requires CanRun(EMPTY, actions)
    ensures After(EMPTY, actions).counter == Allocations(actions)
    ensures forall k, c :: 0 <= k < |actions| && actions[k] == Allocate(c) ==>
      c in After(EMPTY, actions).ids && After(EMPTY, actions).ids[c] == Allocations(actions[..k]) % 0x1_0000_0000
    decreases |actions|
  {
    if actions != [] {
      hide Inv;
      var p, a := actions[..|actions| - 1], actions[|actions| - 1];
      var s := After(EMPTY, p);
      IdsInOrder(p);
      RunKeeps(p);
      TakenOnce(s, a);
      assert forall k :: 0 <= k < |p| ==> actions[k] == p[k] && actions[..k] == p[..k];
    }
  }

  /** An id that was taken stays taken by the same call. */
  lemma TakenOnce(s: State, a: Action)
    requires Inv(s) && Enabled(s, a)
    ensures forall c :: c in s.ids ==> c in Next(s, a).ids && Next(s, a).ids[c] == s.ids[c]
    ensures a.Allocate? ==> a.call in Next(s, a).ids && Next(s, a).ids[a.call] == s.counter % 0x1_0000_0000
    ensures Next(s, a).counter == s.counter + if a.Allocate? then 1 else 0
  {
  }

  /** The call was sent, and not given up before it registered. */
  ghost predicate OnItsWay(s: State, c: Call) {
    c in s.phases && (s.phases[c] in {Sent, Pending} || s.phases[c].Answered?)
  }

  lemma PhaseNext(s: State, a: Action, c: Call)
    requires Inv(s) && Enabled(s, a)
    ensures c in Next(s, a).phases ==> c in s.phases || a == Allocate(c)
    ensures OnItsWay(Next(s, a), c) ==> OnItsWay(s, c) || a == Send(c, true)
    ensures a == Send(c, true) ==> c in s.phases
    ensures a == Register(c) ==> OnItsWay(s, c)
  {
  }

  /** A call takes its id, then is sent, and only then registers. */
  lemma {:induction false} ProgramOrder(actions: seq<Action>, c: Call)
    requires CanRun(EMPTY, actions)
    ensures c in After(EMPTY, actions).phases ==> Allocate(c) in actions
    ensures OnItsWay(After(EMPTY, actions), c) ==> SentAfterAllocation(actions, c)
    ensures forall k :: 0 <= k < |actions| && actions[k] == Register(c) ==> SentAfterAllocation(actions[..k], c)
    decreases |actions|
  {
    if actions != [] {
      hide Inv, Next, Enabled, OnItsWay;
      var p, a := actions[..|actions| - 1], actions[|actions| - 1];
      assert actions == p + [a];
      ProgramOrder(p, c);
      RunKeeps(p);
      PhaseNext(After(EMPTY, p), a, c);
      assert forall k :: 0 <= k < |p| ==> actions[k] == p[k] && actions[..k] == p[..k];
      assert actions[|p|] == a && actions[..|p|] == p;
      if SentAfterAllocation(p, c) {
        SentLater(p, a, c);
      }
    }
  }

  ghost predicate SentAfterAllocation(actions: seq<Action>, c: Call) {
    exists j :: 0 <= j < |actions| && actions[j] == Send(c, true) && Allocate(c) in actions[..j]
  }

  lemma SentLater(p: seq<Action>, a: Action, c: Call)
    requires SentAfterAllocation(p, c)
    ensures SentAfterAllocation(p + [a], c)
  {
    var j :| 0 <= j < |p| && p[j] == Send(c, true) && Allocate(c) in p[..j];
    assert (p + [a])[j] == p[j] && (p + [a])[..j] == p[..j];
  }

  /** While at most 2^32 ids were taken, only a reply with its id ends a call's wait. */
  lemma NobodyDisplaced(actions: seq<Action>, a: Action, c: Call)
    requires CanRun(EMPTY, actions) && Allocations(actions) <= 0x1_0000_0000
    ensures var ids := After(EMPTY, actions).ids;
      Ends(a, ids, c) <==> a.Dispatch? && c in ids && a.id == ids[c]
  {
    RunKeeps(actions);
    IdsInOrder(actions);
  }

  /** The reply to the first call ever made, dispatched between its send and its
      registration, is lost: the call is left waiting. */
  lemma OvertakenReply(reply: Reply)
    ensures var run := [Allocate(0), Send(0, true), Dispatch(0, reply), Register(0)];
      CanRun(EMPTY, run) && Waiting(After(EMPTY, run), 0)
  {
    var run := [Allocate(0), Send(0, true), Dispatch(0, reply), Register(0)];
    assert run[..3] == [Allocate(0), Send(0, true), Dispatch(0, reply)];
    assert run[..3][..2] == [Allocate(0), Send(0, true)];
    assert run[..3][..2][..1] == [Allocate(0)];
    assert run[..3][..2][..1][..0] == [];
    assert After(EMPTY, []) == EMPTY && CanRun(EMPTY, []);
    assert CanRun(EMPTY, [Allocate(0)]);
    assert CanRun(EMPTY, [Allocate(0), Send(0, true)]);
    assert CanRun(EMPTY, run[..3]);
  }
}
