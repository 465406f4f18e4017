/** Runs of one client alone, put together exchange by exchange: what the examples of other modules are made of. */
module LoneClient {
  import opened Seqs
  import opened Machine
  import opened Files
  import opened Policies
  import opened Stores
  import opened Handlers
  import opened Protocol

  function Alone(st: Store, a: int, phase: Phase, outbox: seq<Note>): State {
    State(st, map[a := phase], outbox)
  }

  lemma Asks(cfg: Config, st: Store, a: int, req: Request)
    ensures Steps(cfg, Alone(st, a, Idle, []), Send(a, req), Alone(st, a, Sent(req), []))
  {
    assert map[a := Idle][a := Sent(req)] == map[a := Sent(req)];
    assert Alone(st, a, Idle, []).clients == map[a := Idle];
  }

  lemma IsServed(cfg: Config, st: Store, a: int, req: Request, now: Time, order: seq<Path>, st': Store, reply: Reply)
    requires Coherent(st) && PolicyOrder(cfg.policy, st.files, order)
    requires Handle(cfg, st, a, req, now, order) == Done(st', [Note(a, reply)])
    ensures Steps(cfg, Alone(st, a, Sent(req), []), HandleIt(a, now, order), Alone(st', a, Blocked, [Note(a, reply)]))
  {
    hide Handle, PolicyOrder;
    assert map[a := Sent(req)][a := Blocked] == map[a := Blocked];
    assert [] + [Note(a, reply)] == [Note(a, reply)];
  }

  lemma IsAnswered(cfg: Config, st: Store, a: int, reply: Reply)
    ensures Steps(cfg, Alone(st, a, Blocked, [Note(a, reply)]), Deliver(0), Alone(st, a, Idle, []))
  {
    assert map[a := Blocked][a := Idle] == map[a := Idle];
    assert RemoveAt([Note(a, reply)], 0) == [];
  }

  lemma Starts(cfg: Config, a: int)
    requires a != NOBODY
    ensures Coherent(EmptyStore()) && PolicyOrder(cfg.policy, EmptyStore().files, [])
    ensures Segment(cfg, [Initial(), Alone(EmptyStore(), a, Idle, [])], [Connect(a)])
  {
    hide Consistent, Compare;
    assert Initial().clients[a := Idle] == map[a := Idle];
    assert Steps(cfg, Initial(), Connect(a), Alone(EmptyStore(), a, Idle, []));
  }

  lemma SegmentSnoc(cfg: Config, states: seq<State>, events: seq<Event>, e: Event, s: State)
    requires |states| > 0 && Segment(cfg, states, events) && Steps(cfg, states[|states| - 1], e, s)
    ensures Segment(cfg, states + [s], events + [e])
  {
    hide Steps;
  }

  /** A client that is alone asks, is served at once and gets its answer. */
  lemma Exchange(cfg: Config, states: seq<State>, events: seq<Event>, st: Store, a: int, req: Request, now: Time,
        order: seq<Path>, st': Store, reply: Reply) returns (states': seq<State>, events': seq<Event>)
    requires |states| > 0 && Segment(cfg, states, events) && states[|states| - 1] == Alone(st, a, Idle, [])
    requires Coherent(st) && PolicyOrder(cfg.policy, st.files, order)
    requires Handle(cfg, st, a, req, now, order) == Done(st', [Note(a, reply)])
    ensures states' == states + [Alone(st, a, Sent(req), []), Alone(st', a, Blocked, [Note(a, reply)]),
                                 Alone(st', a, Idle, [])]
    ensures events' == events + [Send(a, req), HandleIt(a, now, order), Deliver(0)]
    ensures Segment(cfg, states', events')
  {
    hide Handle, PolicyOrder, Steps, Segment, Alone;
    Asks(cfg, st, a, req);
    SegmentSnoc(cfg, states, events, Send(a, req), Alone(st, a, Sent(req), []));
    states', events' := states + [Alone(st, a, Sent(req), [])], events + [Send(a, req)];
    IsServed(cfg, st, a, req, now, order, st', reply);
    SegmentSnoc(cfg, states', events', HandleIt(a, now, order), Alone(st', a, Blocked, [Note(a, reply)]));
    states' := states' + [Alone(st', a, Blocked, [Note(a, reply)])];
    events' := events' + [HandleIt(a, now, order)];
    IsAnswered(cfg, st', a, reply);
    SegmentSnoc(cfg, states', events', Deliver(0), Alone(st', a, Idle, []));
    states', events' := states' + [Alone(st', a, Idle, [])], events' + [Deliver(0)];
  }
}
