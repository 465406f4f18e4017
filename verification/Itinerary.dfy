/**
  The way of a client through the server of server/src/server.c, over every interleaving: from the select set to the
  scan, to the queue of pending clients, to a worker, to the pipe and back. Queue and pipe keep their order.
*/
module Itinerary {
  import opened Dispatch

  datatype Stage = Out | Selectable | Picked | Pending | Held | Piped

  ghost predicate IsHeld(s: State, fd: int) {
    exists w: nat :: w < |s.workers| && s.workers[w] == Holding(fd)
  }

  predicate IsPicked(s: State, fd: int) {
    s.handler.Delivering? && s.handler.cursor == fd
  }

  ghost function StageOf(s: State, fd: int): Stage {
    if fd in s.selectSet then Selectable
    else if IsPicked(s, fd) then Picked
    else if fd in s.pending then Pending
    else if IsHeld(s, fd) then Held
    else if fd in s.pipe then Piped
    else Out
  }

  /** The descriptor a step is about, if it is about one. */
  predicate IsAbout(s: State, e: Event, fd: int) {
    match e
    case Accept(d) => d == fd && fd >= 0
    case Pick(_) => !s.handler.Polling? && s.handler.cursor == fd
    case Deliver(_) => !s.handler.Polling? && s.handler.cursor == fd
    case Take(_) => s.pending != [] && s.pending[0] == fd
    case Finish(w) => IsHolding(s, w) && s.workers[w].fd == fd
    case Drop(w) => IsHolding(s, w) && s.workers[w].fd == fd
    case ReadPipe => s.pipe != [] && s.pipe[0] == fd
    case _ => false
  }

  /** The one way on from each stage, and the two ways out. */
  predicate Leads(e: Event, from: Stage, to: Stage) {
    match e
    case Accept(_) => from == Out && to == Selectable
    case Pick(alive) => if alive then from == Selectable && to == Picked else from in {Selectable, Out} && to == Out
    case Deliver(_) => from == Picked && to == Pending
    case Take(_) => from == Pending && to == Held
    case Finish(_) => from == Held && to == Piped
    case Drop(_) => from == Held && to == Out
    case ReadPipe => from == Piped && to == Selectable
    case _ => false
  }

  // One stage at a time

  lemma {:induction false} HeldIsCounted(workers: seq<Worker>, fd: int)
    ensures HeldBy(workers, fd) > 0 <==> exists w: nat :: w < |workers| && workers[w] == Holding(fd)
  {
    if workers != [] {
      HeldIsCounted(workers[1..], fd);
      if HeldBy(workers[1..], fd) > 0 {
        var w: nat :| w < |workers[1..]| && workers[1..][w] == Holding(fd);
        assert workers[w + 1] == Holding(fd);
      }
      if w: nat :| w < |workers| && workers[w] == Holding(fd) {
        assert w > 0 ==> workers[1..][w - 1] == Holding(fd);
      }
    }
  }

  /** The stage says it all: it is the only place the descriptor is in. */
  ghost predicate IsExactly(s: State, fd: int, stage: Stage) {
    && (fd in s.selectSet <==> stage == Selectable)
    && (IsPicked(s, fd) <==> stage == Picked)
    && (fd in s.pending <==> stage == Pending)
    && (HeldBy(s.workers, fd) > 0 <==> stage == Held)
    && (fd in s.pipe <==> stage == Piped)
    && (fd in s.connected <==> stage != Out)
    && multiset(s.pending)[fd] <= 1 && HeldBy(s.workers, fd) <= 1 && multiset(s.pipe)[fd] <= 1
  }

  lemma EveryDescriptorHasOneStage(srv: Server, s: State, fd: int)
    requires Inv(srv, s)
    ensures IsExactly(s, fd, StageOf(s, fd))
  {
    hide ScanInv, HeldBy;
    assert Places(s, fd) == One(fd in s.connected);
    HeldIsCounted(s.workers, fd);
  }

  // One step

  lemma PendingTail(xs: seq<int>, fd: int)
    requires xs != [] && multiset(xs)[fd] <= 1
    ensures fd in xs[1..] <==> fd in xs && fd != xs[0]
  {
    HeadIsCounted(xs, fd);
    assert fd in xs[1..] <==> multiset(xs[1..])[fd] > 0;
  }

  lemma WorkerStepLeads(srv: Server, s: State, e: Event, fd: int)
    requires Inv(srv, s) && Enabled(srv, s, e) && IsWorkerEvent(e)
    ensures var from, to := StageOf(s, fd), StageOf(Step(srv, s, e), fd);
            if IsAbout(s, e, fd) then Leads(e, from, to) else to == from
  {
    var s' := Step(srv, s, e);
    EveryDescriptorHasOneStage(srv, s, fd);
    StepKeepsInv(srv, s, e);
    EveryDescriptorHasOneStage(srv, s', fd);
    HeldByUpdate(s.workers, e.worker, s'.workers[e.worker], fd);
    hide Inv, StageOf, HeldBy, Places;
    if e.Take? {
      PendingTail(s.pending, fd);
    }
  }

  lemma HandlerStepLeads(srv: Server, s: State, e: Event, fd: int)
    requires Inv(srv, s) && Enabled(srv, s, e) && !IsWorkerEvent(e)
    ensures var from, to := StageOf(s, fd), StageOf(Step(srv, s, e), fd);
            if IsAbout(s, e, fd) then Leads(e, from, to) else to == from
  {
    var s' := Step(srv, s, e);
    EveryDescriptorHasOneStage(srv, s, fd);
    StepKeepsInv(srv, s, e);
    EveryDescriptorHasOneStage(srv, s', fd);
    assert HeldBy(s'.workers, fd) == HeldBy(s.workers, fd) by {
      HeldByWoken(s.workers, s'.workers, fd);
    }
    PickedWasSelectable(srv, s, e);
    hide Inv, StageOf, HeldBy, Places;
    if e.ReadPipe? {
      PendingTail(s.pipe, fd);
    }
  }

  lemma PickedWasSelectable(srv: Server, s: State, e: Event)
    requires Inv(srv, s) && Enabled(srv, s, e)
    ensures e == Pick(true) ==> s.handler.cursor in s.selectSet
  {
    hide Places;
  }

  /** Every step takes the descriptor it is about one stage on, and leaves all others where they are. */
  lemma StepLeads(srv: Server, s: State, e: Event, fd: int)
    requires Inv(srv, s) && Enabled(srv, s, e)
    ensures var from, to := StageOf(s, fd), StageOf(Step(srv, s, e), fd);
            if IsAbout(s, e, fd) then Leads(e, from, to) else to == from
  {
    if IsWorkerEvent(e) {
      WorkerStepLeads(srv, s, e, fd);
    } else {
      HandlerStepLeads(srv, s, e, fd);
    }
  }

  // Runs

  /** The steps of a run that are about a descriptor. */
  ghost function Trip(srv: Server, s: State, es: seq<Event>, fd: int): seq<Event>
    requires Runs(srv, s, es)
    decreases es
  {
    if es == [] then []
    else (if IsAbout(s, es[0], fd) then [es[0]] else []) + Trip(srv, Step(srv, s, es[0]), es[1..], fd)
  }

  /** One thing that happens to a descriptor right after another. */
  predicate Follows(e: Event, e': Event) {
    match e'
    case Accept(_) => e.Drop? || e == Pick(false)
    case Pick(alive) => e.Accept? || e.ReadPipe? || (!alive && (e.Drop? || e == Pick(false)))
    case Deliver(_) => e == Pick(true)
    case Take(_) => e.Deliver?
    case Finish(_) => e.Take?
    case Drop(_) => e.Take?
    case ReadPipe => e.Finish?
    case _ => false
  }

  lemma LeadsFollow(e: Event, e': Event, from: Stage, mid: Stage, to: Stage)
    requires Leads(e, from, mid) && Leads(e', mid, to)
    ensures Follows(e, e')
  {
  }

  ghost predicate StartsAt(trip: seq<Event>, stage: Stage) {
    trip != [] ==> exists to :: Leads(trip[0], stage, to)
  }

  lemma {:induction false} TripIsAWalk(srv: Server, s: State, es: seq<Event>, fd: int)
    requires Inv(srv, s) && Runs(srv, s, es)
    ensures var trip := Trip(srv, s, es, fd);
            StartsAt(trip, StageOf(s, fd)) && forall k :: 0 < k < |trip| ==> Follows(trip[k - 1], trip[k])
    decreases es
  {
    hide Inv, Enabled, Step, StageOf, Leads, Follows, IsAbout;
    if es != [] {
      var e, s1 := es[0], Step(srv, s, es[0]);
      StepKeepsInv(srv, s, e);
      StepLeads(srv, s, e, fd);
      TripIsAWalk(srv, s1, es[1..], fd);
      var later := Trip(srv, s1, es[1..], fd);
      if IsAbout(s, e, fd) {
        var trip := Trip(srv, s, es, fd);
        assert trip == [e] + later && Leads(trip[0], StageOf(s, fd), StageOf(s1, fd));
        if later != [] {
          var to :| Leads(later[0], StageOf(s1, fd), to);
          LeadsFollow(e, later[0], StageOf(s, fd), StageOf(s1, fd), to);
        }
      } else {
        assert Trip(srv, s, es, fd) == [] + later == later;
      }
    }
  }

  /**
    In every interleaving whatever happens to a client comes in one order: accepted or read back from the pipe, found
    alive by the scan, handed over, taken by a worker, finished into the pipe.
  */
  lemma EveryClientGoesRound(srv: Server, workers: nat, es: seq<Event>, fd: int, k: nat)
    requires Runs(srv, Init(srv, workers), es) && 0 < k < |Trip(srv, Init(srv, workers), es, fd)|
    ensures var trip := Trip(srv, Init(srv, workers), es, fd);
            Follows(trip[k - 1], trip[k])
  {
    InitIsFine(srv, workers);
    TripIsAWalk(srv, Init(srv, workers), es, fd);
    hide Inv, Follows;
  }

  /** So before a worker takes a client again, it was read back or accepted anew, found alive, and handed over. */
  lemma BetweenTwoTakes(srv: Server, workers: nat, es: seq<Event>, fd: int, i: nat, j: nat)
    requires Runs(srv, Init(srv, workers), es) && i < j < |Trip(srv, Init(srv, workers), es, fd)|
    requires var trip := Trip(srv, Init(srv, workers), es, fd);
             trip[i].Take? && trip[j].Take?
    ensures var trip := Trip(srv, Init(srv, workers), es, fd);
            && i < j - 3 && (trip[j - 3].ReadPipe? || trip[j - 3].Accept?)
            && trip[j - 2] == Pick(true) && trip[j - 1].Deliver?
  {
    var trip := Trip(srv, Init(srv, workers), es, fd);
    EveryClientGoesRound(srv, workers, es, fd, j);
    EveryClientGoesRound(srv, workers, es, fd, j - 1);
    EveryClientGoesRound(srv, workers, es, fd, j - 2);
    hide Trip;
  }

  // Order of the queues

  /** The clients that workers take, in that order. */
  ghost function Taken(srv: Server, s: State, es: seq<Event>): seq<int>
    requires Runs(srv, s, es)
    decreases es
  {
    if es == [] then []
    else (if es[0].Take? then [s.pending[0]] else []) + Taken(srv, Step(srv, s, es[0]), es[1..])
  }

  /** The clients that workers have finished with, in that order. */
  ghost function Finished(srv: Server, s: State, es: seq<Event>): seq<int>
    requires Runs(srv, s, es)
    decreases es
  {
    if es == [] then []
    else (if es[0].Finish? then [s.workers[es[0].worker].fd] else []) + Finished(srv, Step(srv, s, es[0]), es[1..])
  }

  /** The clients the handler reads from the pipe, in that order. */
  ghost function ReadBack(srv: Server, s: State, es: seq<Event>): seq<int>
    requires Runs(srv, s, es)
    decreases es
  {
    if es == [] then []
    else (if es[0].ReadPipe? then [s.pipe[0]] else []) + ReadBack(srv, Step(srv, s, es[0]), es[1..])
  }

  lemma PendingAfter(srv: Server, s: State, e: Event)
    requires Enabled(srv, s, e)
    ensures s.pending + (if e.Deliver? then [s.handler.cursor] else [])
            == (if e.Take? then [s.pending[0]] else []) + Step(srv, s, e).pending
    ensures s.pipe + (if e.Finish? then [s.workers[e.worker].fd] else [])
            == (if e.ReadPipe? then [s.pipe[0]] else []) + Step(srv, s, e).pipe
  {
  }

  /** The queue loses nobody and keeps its order: whoever is handed over first is taken first. */
  lemma {:induction false} QueueKeepsItsOrder(srv: Server, s: State, es: seq<Event>)
    requires Runs(srv, s, es)
    ensures s.pending + HandedOver(srv, s, es) == Taken(srv, s, es) + After(srv, s, es).pending
    decreases es
  {
    hide Step;
    if es != [] {
      PendingAfter(srv, s, es[0]);
      QueueKeepsItsOrder(srv, Step(srv, s, es[0]), es[1..]);
      var came: seq<int> := if es[0].Deliver? then [s.handler.cursor] else [];
      var went: seq<int> := if es[0].Take? then [s.pending[0]] else [];
      Regroup(s.pending, came, HandedOver(srv, Step(srv, s, es[0]), es[1..]), went, Step(srv, s, es[0]).pending,
              Taken(srv, Step(srv, s, es[0]), es[1..]), After(srv, s, es).pending);
    }
  }

  /** And so does the pipe. */
  lemma {:induction false} PipeKeepsItsOrder(srv: Server, s: State, es: seq<Event>)
    requires Runs(srv, s, es)
    ensures s.pipe + Finished(srv, s, es) == ReadBack(srv, s, es) + After(srv, s, es).pipe
    decreases es
  {
    hide Step;
    if es != [] {
      PendingAfter(srv, s, es[0]);
      PipeKeepsItsOrder(srv, Step(srv, s, es[0]), es[1..]);
      var came: seq<int> := if es[0].Finish? then [s.workers[es[0].worker].fd] else [];
      var went: seq<int> := if es[0].ReadPipe? then [s.pipe[0]] else [];
      Regroup(s.pipe, came, Finished(srv, Step(srv, s, es[0]), es[1..]), went, Step(srv, s, es[0]).pipe,
              ReadBack(srv, Step(srv, s, es[0]), es[1..]), After(srv, s, es).pipe);
    }
  }

  lemma Regroup(q: seq<int>, came: seq<int>, later: seq<int>, went: seq<int>, q': seq<int>, out: seq<int>,
        last: seq<int>)
    requires q + came == went + q' && q' + later == out + last
    ensures q + (came + later) == (went + out) + last
  {
    calc {
      q + (came + later);
      (q + came) + later;
      (went + q') + later;
      went + (q' + later);
      went + (out + last);
      (went + out) + last;
    }
  }
}
