/**
  server/src/server.c: how a client's descriptor travels between the select loop, the queue of pending
  clients, the workers and the pipe back to the loop. One step per critical section or system call; steps
  of different threads interleave in any order.
*/
module Dispatch {
  import opened Seqs

  /** Awake: about to look at the queue. Asleep: waiting on the condition variable. */
  datatype Worker = Awake | Asleep | Holding(fd: int)

  /**
    Where the connection handler is in its loop. `ready` is the descriptor set select left behind, `cursor`
    the descriptor it looks at next, `rest` the number of ready descriptors still to be accounted for.
  */
  datatype Handler =
    | Polling
    | AtPipe(ready: set<int>, listening: bool, cursor: int, rest: int)
    | AtListener(ready: set<int>, cursor: int, rest: int)
    | Scanning(ready: set<int>, cursor: int, rest: int)
    | Delivering(ready: set<int>, cursor: int, rest: int)

  /** The two descriptors of the server itself: the listening socket and the reading end of the pipe. */
  datatype Server = Server(listener: nat, pipeEnd: nat)

  datatype State = State(
    connected: set<int>, selectSet: set<int>, maxFd: int,
    pending: seq<int>, pipe: seq<int>, workers: seq<Worker>, handler: Handler)

  datatype Event =
    | Select(ready: set<int>, pipeReady: bool, listening: bool)
    | ReadPipe
    | Accept(fd: int)
    | Skip
    | Pick(alive: bool)
    | Deliver(woken: set<nat>)
    | EndScan
    | Take(worker: nat)
    | Sleep(worker: nat)
    | Wake(worker: nat)
    | Finish(worker: nat)
    | Drop(worker: nat)

  function Init(srv: Server, workers: nat): State {
    State({}, {}, if srv.listener > srv.pipeEnd then srv.listener else srv.pipeEnd,
          [], [], seq(workers, _ => Awake), Polling)
  }

  function One(b: bool): int {
    if b then 1 else 0
  }

  predicate IsAsleep(s: State, w: nat) {
    w < |s.workers| && s.workers[w].Asleep?
  }

  predicate IsAwake(s: State, w: nat) {
    w < |s.workers| && s.workers[w].Awake?
  }

  predicate IsHolding(s: State, w: nat) {
    w < |s.workers| && s.workers[w].Holding?
  }

  /** A failed accept returns -1. */
  ghost predicate Enabled(srv: Server, s: State, e: Event) {
    match e
    case Select(ready, pipeReady, listening) =>
      s.handler.Polling? && ready <= s.selectSet && (pipeReady ==> s.pipe != [])
      && (ready != {} || pipeReady || listening)
    case ReadPipe => s.handler.AtPipe? && s.pipe != []
    case Accept(fd) =>
      s.handler.AtListener?
      && (fd == -1 || (fd >= 0 && fd !in s.connected && fd != srv.listener && fd != srv.pipeEnd))
    case Skip =>
      s.handler.Scanning? && s.handler.rest > 0 && s.handler.cursor >= 0 && !Picks(srv, s)
    case Pick(alive) =>
      s.handler.Scanning? && s.handler.rest > 0 && s.handler.cursor >= 0 && Picks(srv, s)
      && (alive ==> s.handler.cursor in s.connected)
    case Deliver(woken) =>
      s.handler.Delivering?
      && (forall w :: w in woken ==> IsAsleep(s, w))
      && (if s.pending == [] then (exists w: nat :: IsAsleep(s, w)) ==> woken != {} else woken == {})
    case EndScan => s.handler.Scanning? && (s.handler.rest <= 0 || s.handler.cursor < 0)
    case Take(w) => IsAwake(s, w) && s.pending != []
    case Sleep(w) => IsAwake(s, w) && s.pending == []
    case Wake(w) => IsAsleep(s, w)
    case Finish(w) => IsHolding(s, w)
    case Drop(w) => IsHolding(s, w)
  }

  predicate Picks(srv: Server, s: State)
    requires s.handler.Scanning?
  {
    s.handler.cursor != srv.listener && s.handler.cursor != srv.pipeEnd && s.handler.cursor in s.handler.ready
  }

  function AfterPipe(ready: set<int>, listening: bool, cursor: int, rest: int): Handler {
    if listening then AtListener(ready, cursor, rest) else Scanning(ready, cursor, rest)
  }

  function SetWorker(s: State, w: nat, to: Worker): State
    requires w < |s.workers|
  {
    s.(workers := s.workers[w := to])
  }

  function WakeAll(workers: seq<Worker>, woken: set<nat>): (r: seq<Worker>)
    ensures |r| == |workers|
    ensures forall w :: 0 <= w < |workers| ==> r[w] == if w in woken then Awake else workers[w]
  {
    seq(|workers|, w requires 0 <= w < |workers| => if w in woken then Awake else workers[w])
  }

  function Step(srv: Server, s: State, e: Event): State
    requires Enabled(srv, s, e)
  {
    match e
    case Select(ready, pipeReady, listening) =>
      var rest := |ready| + One(pipeReady) + One(listening);
      s.(handler := if pipeReady then AtPipe(ready, listening, s.maxFd, rest)
                    else AfterPipe(ready, listening, s.maxFd, rest))
    case ReadPipe =>
      var fd, h := s.pipe[0], s.handler;
      s.(pipe := s.pipe[1..], selectSet := s.selectSet + {fd}, maxFd := if fd > s.maxFd then fd else s.maxFd,
         handler := if h.rest == 1 then Polling else AfterPipe(h.ready, h.listening, h.cursor, h.rest - 1))
    case Accept(fd) =>
      var s' := s.(handler := Scanning(s.handler.ready, s.handler.cursor, s.handler.rest - 1));
      if fd == -1 then s'
      else s'.(connected := s.connected + {fd}, selectSet := s.selectSet + {fd},
               maxFd := if fd > s.maxFd then fd else s.maxFd)
    case Skip => s.(handler := Scanning(s.handler.ready, s.handler.cursor - 1, s.handler.rest))
    case Pick(alive) =>
      var h := s.handler;
      var s' := s.(selectSet := s.selectSet - {h.cursor});
      // a disconnected client leaves the cursor where it is
      if alive then s'.(handler := Delivering(h.ready, h.cursor, h.rest))
      else s'.(connected := s.connected - {h.cursor}, handler := Scanning(h.ready, h.cursor, h.rest - 1))
    case Deliver(woken) =>
      var h := s.handler;
      s.(pending := s.pending + [h.cursor], workers := WakeAll(s.workers, woken),
         handler := Scanning(h.ready, h.cursor - 1, h.rest - 1))
    case EndScan => s.(handler := Polling)
    case Take(w) => SetWorker(s, w, Holding(s.pending[0])).(pending := s.pending[1..])
    case Sleep(w) => SetWorker(s, w, Asleep)
    case Wake(w) => SetWorker(s, w, Awake)
    case Finish(w) => SetWorker(s, w, Awake).(pipe := s.pipe + [s.workers[w].fd])
    case Drop(w) => SetWorker(s, w, Awake).(connected := s.connected - {s.workers[w].fd})
  }

  // Where a descriptor is

  function HeldBy(workers: seq<Worker>, fd: int): nat {
    if workers == [] then 0
    else One(workers[0] == Holding(fd)) + HeldBy(workers[1..], fd)
  }

  /** The number of places a descriptor is in. */
  function Places(s: State, fd: int): nat {
    One(fd in s.selectSet) + multiset(s.pending)[fd] + One(s.handler.Delivering? && s.handler.cursor == fd)
    + HeldBy(s.workers, fd) + multiset(s.pipe)[fd]
  }

  lemma {:induction false} HeldByUpdate(workers: seq<Worker>, w: nat, to: Worker, fd: int)
    requires w < |workers|
    ensures HeldBy(workers[w := to], fd)
            == HeldBy(workers, fd) - One(workers[w] == Holding(fd)) + One(to == Holding(fd))
  {
    if w > 0 {
      assert workers[w := to][1..] == workers[1..][w - 1 := to];
      HeldByUpdate(workers[1..], w - 1, to, fd);
    }
  }

  lemma {:induction false} HeldByWoken(workers: seq<Worker>, woken: seq<Worker>, fd: int)
    requires |workers| == |woken|
    requires forall w :: 0 <= w < |workers| ==> woken[w] == workers[w] || (!woken[w].Holding? && !workers[w].Holding?)
    ensures HeldBy(woken, fd) == HeldBy(workers, fd)
  {
    if workers != [] {
      HeldByWoken(workers[1..], woken[1..], fd);
    }
  }

  lemma {:induction false} HeldByTwo(workers: seq<Worker>, v: nat, w: nat, fd: int)
    requires v < |workers| && w < |workers| && workers[v] == Holding(fd) && workers[w] == Holding(fd)
    ensures HeldBy(workers, fd) >= 1 && (v != w ==> HeldBy(workers, fd) >= 2)
  {
    HeldByUpdate(workers, v, Awake, fd);
    HeldByUpdate(workers[v := Awake], w, Awake, fd);
  }

  // Invariants

  /** What select reported and is still ahead of the scan is in the select set, untouched. */
  ghost predicate ScanInv(srv: Server, s: State) {
    s.handler.Polling? ||
    (var ready, cursor, rest := s.handler.ready, s.handler.cursor, s.handler.rest;
     && srv.listener !in ready && srv.pipeEnd !in ready
     && match s.handler
        case AtPipe(_, listening, _, _) =>
          ready <= s.selectSet && Ahead(ready, cursor) == ready && rest == |ready| + One(listening) + 1
        case AtListener(_, _, _) =>
          ready <= s.selectSet && Ahead(ready, cursor) == ready && rest == |ready| + 1
        case Scanning(_, _, _) =>
          && (forall fd :: fd in ready && fd < cursor ==> fd in s.selectSet)
          && (cursor in ready && cursor !in s.selectSet ==> cursor !in s.connected)
          && 0 <= rest <= |Ahead(ready, cursor)|
        case Delivering(_, _, _) =>
          && (forall fd :: fd in ready && fd < cursor ==> fd in s.selectSet)
          && cursor in ready && 0 < rest <= |Ahead(ready, cursor)|)
  }

  ghost function Ahead(ready: set<int>, cursor: int): set<int> {
    set fd | fd in ready && 0 <= fd <= cursor
  }

  /** Connected clients have descriptors of their own, none above the largest seen. */
  ghost predicate InRange(srv: Server, s: State) {
    forall fd :: fd in s.connected ==> 0 <= fd <= s.maxFd && fd != srv.listener && fd != srv.pipeEnd
  }

  ghost predicate Inv(srv: Server, s: State) {
    && ScanInv(srv, s)
    && (forall fd :: Places(s, fd) == One(fd in s.connected))
    && InRange(srv, s)
  }

  /** A client that waits is never left to sleeping workers alone. */
  ghost predicate SomebodyIsUp(s: State) {
    s.pending != [] ==> exists w: nat :: w < |s.workers| && !s.workers[w].Asleep?
  }

  lemma HeadIsCounted(xs: seq<int>, fd: int)
    requires xs != []
    ensures multiset(xs)[fd] == One(xs[0] == fd) + multiset(xs[1..])[fd]
  {
    assert xs == [xs[0]] + xs[1..];
  }

  lemma LastIsCounted(xs: seq<int>, x: int, fd: int)
    ensures multiset(xs + [x])[fd] == multiset(xs)[fd] + One(x == fd)
  {
  }

  predicate IsWorkerEvent(e: Event) {
    e.Take? || e.Sleep? || e.Wake? || e.Finish? || e.Drop?
  }

  lemma TakeKeepsPlaces(srv: Server, s: State, e: Event, fd: int)
    requires Places(s, fd) == One(fd in s.connected) && Enabled(srv, s, e) && e.Take?
    ensures Places(Step(srv, s, e), fd) == One(fd in Step(srv, s, e).connected)
  {
    hide HeldBy;
    HeadIsCounted(s.pending, fd);
    HeldByUpdate(s.workers, e.worker, Holding(s.pending[0]), fd);
  }

  lemma FinishKeepsPlaces(srv: Server, s: State, e: Event, fd: int)
    requires Places(s, fd) == One(fd in s.connected) && Enabled(srv, s, e) && e.Finish?
    ensures Places(Step(srv, s, e), fd) == One(fd in Step(srv, s, e).connected)
  {
    hide HeldBy;
    LastIsCounted(s.pipe, s.workers[e.worker].fd, fd);
    HeldByUpdate(s.workers, e.worker, Awake, fd);
  }

  lemma OtherWorkerStepKeepsPlaces(srv: Server, s: State, e: Event, fd: int)
    requires Inv(srv, s) && Enabled(srv, s, e) && (e.Sleep? || e.Wake? || e.Drop?)
    ensures Places(Step(srv, s, e), fd) == One(fd in Step(srv, s, e).connected)
  {
    assert Places(s, fd) == One(fd in s.connected);
    hide Inv, HeldBy;
    HeldByUpdate(s.workers, e.worker, Step(srv, s, e).workers[e.worker], fd);
  }

  lemma WorkerStepKeepsPlaces(srv: Server, s: State, e: Event, fd: int)
    requires Inv(srv, s) && Enabled(srv, s, e) && IsWorkerEvent(e)
    ensures Places(Step(srv, s, e), fd) == One(fd in Step(srv, s, e).connected)
  {
    assert Places(s, fd) == One(fd in s.connected);
    hide ScanInv, Step, Places;
    if e.Take? {
      TakeKeepsPlaces(srv, s, e, fd);
    } else if e.Finish? {
      FinishKeepsPlaces(srv, s, e, fd);
    } else {
      OtherWorkerStepKeepsPlaces(srv, s, e, fd);
    }
  }

  lemma DeliveryKeepsPlaces(srv: Server, s: State, e: Event, fd: int)
    requires Inv(srv, s) && Enabled(srv, s, e) && e.Deliver?
    ensures Places(Step(srv, s, e), fd) == One(fd in Step(srv, s, e).connected)
  {
    hide ScanInv, HeldBy, Ahead;
    assert Places(s, fd) == One(fd in s.connected);
    LastIsCounted(s.pending, s.handler.cursor, fd);
    HeldByWoken(s.workers, WakeAll(s.workers, e.woken), fd);
  }

  lemma PickKeepsPlaces(srv: Server, s: State, e: Event, fd: int)
    requires Inv(srv, s) && Enabled(srv, s, e) && e.Pick?
    ensures Places(Step(srv, s, e), fd) == One(fd in Step(srv, s, e).connected)
  {
    assert s.handler.cursor in s.selectSet || s.handler.cursor !in s.connected;
    hide ScanInv, HeldBy, Ahead;
    assert Places(s, fd) == One(fd in s.connected);
  }

  lemma HandlerStepKeepsPlaces(srv: Server, s: State, e: Event, fd: int)
    requires Inv(srv, s) && Enabled(srv, s, e) && !IsWorkerEvent(e) && !e.Deliver? && !e.Pick?
    ensures Places(Step(srv, s, e), fd) == One(fd in Step(srv, s, e).connected)
  {
    hide ScanInv, HeldBy, Ahead;
    assert Places(s, fd) == One(fd in s.connected);
    if e.ReadPipe? {
      HeadIsCounted(s.pipe, fd);
      InPipeIsConnected(srv, s);
    }
  }

  lemma InPipeIsConnected(srv: Server, s: State)
    requires Inv(srv, s)
    ensures s.pipe != [] ==> s.pipe[0] in s.connected && s.pipe[0] !in s.selectSet
    ensures s.selectSet <= s.connected
  {
    if s.pipe != [] {
      var fd := s.pipe[0];
      assert multiset(s.pipe)[fd] >= 1;
      assert Places(s, fd) == One(fd in s.connected);
    }
    forall fd | fd in s.selectSet ensures fd in s.connected {
      assert Places(s, fd) == One(fd in s.connected);
    }
  }

  lemma AheadWithout(ready: set<int>, cursor: int)
    ensures cursor in ready && cursor >= 0 ==> |Ahead(ready, cursor)| == |Ahead(ready, cursor - 1)| + 1
    ensures cursor !in ready ==> Ahead(ready, cursor - 1) == Ahead(ready, cursor)
  {
    if cursor in ready && cursor >= 0 {
      assert Ahead(ready, cursor) == Ahead(ready, cursor - 1) + {cursor};
    } else if cursor !in ready {
      assert forall fd :: fd in ready && fd <= cursor ==> fd <= cursor - 1;
    }
  }

  lemma ListenedIsNotReady(srv: Server, s: State, fd: int)
    requires Inv(srv, s) && (fd == srv.listener || fd == srv.pipeEnd)
    ensures fd !in s.selectSet && fd !in s.pipe
  {
    assert Places(s, fd) == One(fd in s.connected);
  }

  lemma SelectedIsConnected(srv: Server, s: State, fd: int)
    requires Inv(srv, s) && fd in s.selectSet
    ensures fd in s.connected && !(s.handler.Delivering? && s.handler.cursor == fd) && fd !in s.pipe
  {
    hide ScanInv, HeldBy;
    assert Places(s, fd) == One(fd in s.connected);
  }

  lemma ScanInvStays(srv: Server, s: State, s': State)
    requires ScanInv(srv, s) && s'.handler == s.handler && s'.selectSet == s.selectSet && s'.connected <= s.connected
    ensures ScanInv(srv, s')
  {
  }

  lemma ScanBegins(srv: Server, s: State, e: Event)
    requires Inv(srv, s) && Enabled(srv, s, e) && e.Select?
    ensures ScanInv(srv, Step(srv, s, e))
  {
    InPipeIsConnected(srv, s);
    ListenedIsNotReady(srv, s, srv.listener);
    ListenedIsNotReady(srv, s, srv.pipeEnd);
    assert Ahead(e.ready, s.maxFd) == e.ready;
    hide Places;
  }

  lemma ScanGoesOn(srv: Server, s: State, e: Event)
    requires Inv(srv, s) && Enabled(srv, s, e) && !e.Select? && !IsWorkerEvent(e)
    ensures ScanInv(srv, Step(srv, s, e))
  {
    hide Places;
    InPipeIsConnected(srv, s);
    match e {
      case Skip => AheadWithout(s.handler.ready, s.handler.cursor);
      case Pick(_) =>
        if s.handler.cursor in s.selectSet {
          SelectedIsConnected(srv, s, s.handler.cursor);
        }
      case Deliver(_) => AheadWithout(s.handler.ready, s.handler.cursor);
      case _ =>
    }
  }

  /** Everything but the places: who is ahead of the scan, and how many are still counted. */
  lemma StepKeepsScanInv(srv: Server, s: State, e: Event)
    requires Inv(srv, s) && Enabled(srv, s, e)
    ensures ScanInv(srv, Step(srv, s, e))
  {
    if IsWorkerEvent(e) {
      hide Places, Ahead;
      ScanInvStays(srv, s, Step(srv, s, e));
    } else {
      hide Places, Ahead;
      if e.Select? {
        ScanBegins(srv, s, e);
      } else {
        ScanGoesOn(srv, s, e);
      }
    }
  }

  lemma StepKeepsPlaces(srv: Server, s: State, e: Event, fd: int)
    requires Inv(srv, s) && Enabled(srv, s, e)
    ensures Places(Step(srv, s, e), fd) == One(fd in Step(srv, s, e).connected)
  {
    hide Inv, Places, Step, Enabled;
    if IsWorkerEvent(e) {
      WorkerStepKeepsPlaces(srv, s, e, fd);
    } else if e.Deliver? {
      DeliveryKeepsPlaces(srv, s, e, fd);
    } else if e.Pick? {
      PickKeepsPlaces(srv, s, e, fd);
    } else {
      HandlerStepKeepsPlaces(srv, s, e, fd);
    }
  }

  lemma StepKeepsRange(srv: Server, s: State, e: Event)
    requires InRange(srv, s) && Enabled(srv, s, e)
    ensures InRange(srv, Step(srv, s, e))
  {
  }

  lemma StepKeepsInv(srv: Server, s: State, e: Event)
    requires Inv(srv, s) && Enabled(srv, s, e)
    ensures Inv(srv, Step(srv, s, e))
  {
    hide ScanInv, Places, Step, Enabled, InRange;
    StepKeepsScanInv(srv, s, e);
    StepKeepsRange(srv, s, e);
    var s' := Step(srv, s, e);
    forall fd ensures Places(s', fd) == One(fd in s'.connected) {
      StepKeepsPlaces(srv, s, e, fd);
    }
  }

  /** The signal on the step from none to one is enough, whichever worker it reaches. */
  lemma StepKeepsSomebodyUp(srv: Server, s: State, e: Event)
    requires SomebodyIsUp(s) && |s.workers| > 0 && Enabled(srv, s, e)
    ensures SomebodyIsUp(Step(srv, s, e)) && |Step(srv, s, e).workers| == |s.workers|
  {
    var s' := Step(srv, s, e);
    if s'.pending != [] {
      match e {
        case Deliver(woken) =>
          if woken != {} {
            var w :| w in woken;
            assert IsAsleep(s, w) && !s'.workers[w].Asleep?;
          } else if s.pending == [] {
            assert !IsAsleep(s, 0) && !s'.workers[0].Asleep?;
          } else {
            var w: nat :| w < |s.workers| && !s.workers[w].Asleep?;
            assert !s'.workers[w].Asleep?;
          }
        case Take(w) => assert !s'.workers[w].Asleep?;
        case Sleep(w) =>
        case _ =>
          var w: nat :| w < |s.workers| && !s.workers[w].Asleep?;
          assert !s'.workers[w].Asleep?;
      }
    }
  }

  // Whole runs

  ghost predicate Runs(srv: Server, s: State, es: seq<Event>)
    decreases es
  {
    es == [] || (Enabled(srv, s, es[0]) && Runs(srv, Step(srv, s, es[0]), es[1..]))
  }

  ghost function After(srv: Server, s: State, es: seq<Event>): State
    requires Runs(srv, s, es)
    decreases es
  {
    if es == [] then s else After(srv, Step(srv, s, es[0]), es[1..])
  }

  lemma InitIsFine(srv: Server, workers: nat)
    ensures Inv(srv, Init(srv, workers)) && SomebodyIsUp(Init(srv, workers))
  {
    forall fd ensures HeldBy(Init(srv, workers).workers, fd) == 0 {
      AwakeHoldNothing(Init(srv, workers).workers, fd);
    }
  }

  lemma {:induction false} AwakeHoldNothing(workers: seq<Worker>, fd: int)
    requires forall w :: 0 <= w < |workers| ==> !workers[w].Holding?
    ensures HeldBy(workers, fd) == 0
  {
    if workers != [] {
      AwakeHoldNothing(workers[1..], fd);
    }
  }

  lemma {:induction false} RunKeepsInv(srv: Server, s: State, es: seq<Event>)
    requires Inv(srv, s) && SomebodyIsUp(s) && |s.workers| > 0 && Runs(srv, s, es)
    ensures Inv(srv, After(srv, s, es)) && SomebodyIsUp(After(srv, s, es))
    ensures |After(srv, s, es).workers| == |s.workers|
    decreases es
  {
    hide Inv, SomebodyIsUp;
    if es != [] {
      StepKeepsInv(srv, s, es[0]);
      StepKeepsSomebodyUp(srv, s, es[0]);
      RunKeepsInv(srv, Step(srv, s, es[0]), es[1..]);
    }
  }

  /**
    In every interleaving a connected client is in exactly one place and any other descriptor in none, so
    no two workers ever serve the same client.
  */
  lemma EveryClientIsInOnePlace(srv: Server, workers: nat, es: seq<Event>, fd: int)
    requires workers > 0 && Runs(srv, Init(srv, workers), es)
    ensures var s := After(srv, Init(srv, workers), es);
            && Places(s, fd) == One(fd in s.connected)
            && (forall v: nat, w: nat :: v < |s.workers| && w < |s.workers| ==>
                  s.workers[v] == Holding(fd) && s.workers[w] == Holding(fd) ==> v == w)
  {
    var s := After(srv, Init(srv, workers), es);
    InitIsFine(srv, workers);
    RunKeepsInv(srv, Init(srv, workers), es);
    assert Places(s, fd) == One(fd in s.connected);
    forall v: nat, w: nat |
      v < |s.workers| && w < |s.workers| && s.workers[v] == Holding(fd) && s.workers[w] == Holding(fd)
      ensures v == w
    {
      HeldByTwo(s.workers, v, w, fd);
    }
  }

  /** No wake-up is lost: while a client waits in the queue, some worker can take the next step. */
  lemma AWaitingClientFindsAWorker(srv: Server, workers: nat, es: seq<Event>)
    requires workers > 0 && Runs(srv, Init(srv, workers), es)
    ensures var s := After(srv, Init(srv, workers), es);
            s.pending != [] ==> exists w: nat :: Enabled(srv, s, Take(w)) || Enabled(srv, s, Finish(w))
  {
    var s := After(srv, Init(srv, workers), es);
    InitIsFine(srv, workers);
    RunKeepsInv(srv, Init(srv, workers), es);
    if s.pending != [] {
      var w: nat :| w < |s.workers| && !s.workers[w].Asleep?;
      assert Enabled(srv, s, Take(w)) || Enabled(srv, s, Finish(w));
    }
  }

  // One pass of the scan

  /** The loop over descriptors ends because all ready ones are accounted for, never because none is left. */
  lemma ScanEndsWhenAllAreCounted(srv: Server, s: State)
    requires Inv(srv, s) && s.handler.Scanning?
    ensures Enabled(srv, s, EndScan) <==> s.handler.rest == 0
  {
    var h := s.handler;
    if h.cursor < 0 {
      assert Ahead(h.ready, h.cursor) == {};
    }
  }

  /** The scan is at a client it has already found disconnected. */
  ghost predicate Revisits(srv: Server, s: State) {
    && s.handler.Scanning? && Picks(srv, s) && s.handler.cursor >= 0
    && s.handler.cursor !in s.connected && s.handler.cursor !in s.selectSet
  }

  lemma DisconnectionIsRevisited(srv: Server, s: State)
    requires Inv(srv, s) && Enabled(srv, s, Pick(false))
    ensures Revisits(srv, Step(srv, s, Pick(false)))
  {
  }

  lemma RevisitStep(srv: Server, s: State, e: Event)
    requires Inv(srv, s) && Revisits(srv, s) && Enabled(srv, s, e) && !e.EndScan?
    ensures IsWorkerEvent(e) || e == Pick(false)
    ensures var s' := Step(srv, s, e);
            && Revisits(srv, s') && s'.handler.ready == s.handler.ready && s'.handler.cursor == s.handler.cursor
            && s'.selectSet == s.selectSet
  {
    hide ScanInv, Places;
  }

  /**
    From there to the end of the pass it finds the same client disconnected again and again and hands over
    no one; the clients still ahead of it stay in the select set for the next pass.
  */
  lemma {:induction false} RevisitHandsOverNobody(srv: Server, s: State, es: seq<Event>)
    requires Inv(srv, s) && Revisits(srv, s) && Runs(srv, s, es)
    requires forall e :: e in es ==> !e.EndScan?
    ensures var s' := After(srv, s, es);
            && Revisits(srv, s') && s'.handler.ready == s.handler.ready && s'.handler.cursor == s.handler.cursor
            && (forall fd :: fd in s.handler.ready && fd < s.handler.cursor ==> fd in s'.selectSet)
    ensures forall e :: e in es && !IsWorkerEvent(e) ==> e == Pick(false)
    decreases es
  {
    if es != [] {
      assert es[0] in es && forall e :: e in es ==> e == es[0] || e in es[1..];
      RevisitStep(srv, s, es[0]);
      StepKeepsInv(srv, s, es[0]);
      hide Revisits, Places;
      RevisitHandsOverNobody(srv, Step(srv, s, es[0]), es[1..]);
    }
  }

  /** The ready clients the pass has yet to reach. */
  ghost function Left(s: State): set<int> {
    match s.handler
    case Polling => {}
    case AtPipe(ready, _, _, _) => ready
    case AtListener(ready, _, _) => ready
    case Scanning(ready, cursor, _) => Ahead(ready, cursor)
    case Delivering(ready, cursor, _) => Ahead(ready, cursor)
  }

  /** Nobody ready has been lost from the count. */
  ghost predicate Whole(s: State) {
    s.handler.Scanning? || s.handler.Delivering? ==> s.handler.rest == |Left(s)|
  }

  ghost function HandedOver(srv: Server, s: State, es: seq<Event>): seq<int>
    requires Runs(srv, s, es)
    decreases es
  {
    if es == [] then []
    else (if es[0].Deliver? then [s.handler.cursor] else []) + HandedOver(srv, Step(srv, s, es[0]), es[1..])
  }

  lemma DeliveryInPass(srv: Server, s: State, e: Event)
    requires Inv(srv, s) && Enabled(srv, s, e) && Whole(s) && e.Deliver?
    ensures var s' := Step(srv, s, e);
            Whole(s') && s.handler.cursor in Left(s) && Left(s') == Left(s) - {s.handler.cursor}
  {
    var ready, cursor := s.handler.ready, s.handler.cursor;
    AheadWithout(ready, cursor);
    assert cursor < 0 ==> Ahead(ready, cursor) == {};
    assert Ahead(ready, cursor - 1) == Ahead(ready, cursor) - {cursor};
    hide Places, Inv;
  }

  lemma WorkerStepLeavesThePass(srv: Server, s: State, e: Event)
    requires Enabled(srv, s, e) && IsWorkerEvent(e)
    ensures Step(srv, s, e).handler == s.handler
  {
  }

  lemma PassStep(srv: Server, s: State, e: Event)
    requires ScanInv(srv, s) && Enabled(srv, s, e) && Whole(s)
    requires e.ReadPipe? || e.Accept? || e.Skip? || e == Pick(true) || e.EndScan?
    ensures Whole(Step(srv, s, e)) && Left(Step(srv, s, e)) == Left(s)
  {
    if e.Skip? {
      AheadWithout(s.handler.ready, s.handler.cursor);
    } else if e.EndScan? {
      assert s.handler.cursor < 0 ==> Ahead(s.handler.ready, s.handler.cursor) == {};
    }
  }

  lemma AnyStepInPass(srv: Server, s: State, e: Event)
    requires Inv(srv, s) && Enabled(srv, s, e) && Whole(s) && !e.Select? && e != Pick(false)
    ensures var s' := Step(srv, s, e);
            && Inv(srv, s') && Whole(s')
            && if e.Deliver?
               then s.handler.Delivering? && s.handler.cursor in Left(s) && Left(s') == Left(s) - {s.handler.cursor}
               else Left(s') == Left(s)
  {
    StepKeepsInv(srv, s, e);
    if e.Deliver? {
      DeliveryInPass(srv, s, e);
    } else if IsWorkerEvent(e) {
      WorkerStepLeavesThePass(srv, s, e);
    } else {
      PassStep(srv, s, e);
    }
  }

  lemma {:induction false} PassHandsOverWhatIsLeft(srv: Server, s: State, es: seq<Event>)
    requires Inv(srv, s) && Runs(srv, s, es) && Whole(s)
    requires forall e :: e in es ==> !e.Select? && e != Pick(false)
    ensures var s', out := After(srv, s, es), HandedOver(srv, s, es);
            Left(s') <= Left(s) && Elements(out) == Left(s) - Left(s') && |out| == |Left(s) - Left(s')|
    decreases es
  {
    hide Inv, Step, Left, Whole, Enabled;
    if es != [] {
      var e, s1 := es[0], Step(srv, s, es[0]);
      assert e in es && forall x :: x in es[1..] ==> x in es;
      AnyStepInPass(srv, s, e);
      PassHandsOverWhatIsLeft(srv, s1, es[1..]);
      if e.Deliver? {
        assert HandedOver(srv, s, es) == [s.handler.cursor] + HandedOver(srv, s1, es[1..]);
        ElementsCons(HandedOver(srv, s, es));
        LeftAfterOne(Left(s), s.handler.cursor, Left(After(srv, s, es)));
      }
    }
  }

  lemma LeftAfterOne(all: set<int>, fd: int, left: set<int>)
    requires fd in all && left <= all - {fd}
    ensures all - left == {fd} + (all - {fd} - left) && |all - left| == 1 + |all - {fd} - left|
  {
  }

  /** A pass in which nobody turns out disconnected hands over exactly the clients select reported, each once. */
  lemma PassHandsOverExactlyTheReady(srv: Server, s: State, start: Event, es: seq<Event>)
    requires Inv(srv, s) && start.Select? && Enabled(srv, s, start) && Runs(srv, Step(srv, s, start), es)
    requires forall e :: e in es ==> !e.Select? && e != Pick(false)
    requires After(srv, Step(srv, s, start), es).handler.Polling?
    ensures var out := HandedOver(srv, Step(srv, s, start), es);
            Elements(out) == start.ready && |out| == |start.ready|
  {
    var s1 := Step(srv, s, start);
    StepKeepsInv(srv, s, start);
    assert Left(s1) == start.ready by {
      InPipeIsConnected(srv, s);
      assert Ahead(start.ready, s.maxFd) == start.ready;
    }
    PassHandsOverWhatIsLeft(srv, s1, es);
    var left := Left(After(srv, s1, es));
    assert start.ready - left == start.ready;
  }

  // Any pass

  lemma {:induction false} RunsSplit(srv: Server, s: State, a: seq<Event>, b: seq<Event>)
    requires Runs(srv, s, a + b)
    ensures Runs(srv, s, a) && Runs(srv, After(srv, s, a), b)
    ensures HandedOver(srv, s, a + b) == HandedOver(srv, s, a) + HandedOver(srv, After(srv, s, a), b)
    ensures After(srv, s, a + b) == After(srv, After(srv, s, a), b)
    decreases a
  {
    hide Enabled, Step;
    if a == [] {
      assert a + b == b;
    } else {
      assert (a + b)[0] == a[0] && (a + b)[1..] == a[1..] + b;
      RunsSplit(srv, Step(srv, s, a[0]), a[1..], b);
    }
  }

  lemma OneByOne(srv: Server, s: State, e: Event, es: seq<Event>)
    requires Runs(srv, s, [e] + es) && !e.Deliver?
    ensures Enabled(srv, s, e) && Runs(srv, Step(srv, s, e), es)
    ensures HandedOver(srv, s, [e] + es) == HandedOver(srv, Step(srv, s, e), es)
  {
    hide Step, Enabled;
    assert ([e] + es)[1..] == es;
  }

  /** Once the scan has met a disconnected client, and after it, nobody is handed over until the next select. */
  lemma {:induction false} NobodyAfterDisconnection(srv: Server, s: State, es: seq<Event>)
    requires Inv(srv, s) && Runs(srv, s, es) && (Revisits(srv, s) || s.handler.Polling?)
    requires forall e :: e in es ==> !e.Select?
    ensures HandedOver(srv, s, es) == []
    decreases es
  {
    if es != [] {
      var e, s1 := es[0], Step(srv, s, es[0]);
      assert e in es && forall x :: x in es[1..] ==> x in es;
      StepKeepsInv(srv, s, e);
      NobodyIn(srv, s, e);
      hide Inv, Step, Enabled, Revisits;
      NobodyAfterDisconnection(srv, s1, es[1..]);
    }
  }

  lemma NobodyIn(srv: Server, s: State, e: Event)
    requires Inv(srv, s) && Enabled(srv, s, e) && !e.Select? && (Revisits(srv, s) || s.handler.Polling?)
    ensures !e.Deliver?
    ensures Revisits(srv, Step(srv, s, e)) || Step(srv, s, e).handler.Polling?
  {
    if Revisits(srv, s) && !e.EndScan? {
      RevisitStep(srv, s, e);
    }
    hide ScanInv, Places;
  }

  /** The clients above the first one found disconnected. */
  ghost function Above(ready: set<int>, fd: int): set<int> {
    set x | x in ready && x > fd
  }

  /** A pass that finds a client disconnected hands over exactly the ready clients above the first such client. */
  lemma PassEndsAtTheFirstDisconnected(srv: Server, s: State, start: Event, es: seq<Event>, i: nat)
    requires Inv(srv, s) && start.Select? && Enabled(srv, s, start) && Runs(srv, Step(srv, s, start), es)
    requires forall e :: e in es ==> !e.Select?
    requires i < |es| && es[i] == Pick(false) && forall k :: 0 <= k < i ==> es[k] != Pick(false)
    ensures var s1 := Step(srv, s, start);
            && Runs(srv, s1, es[..i])
            && var h := After(srv, s1, es[..i]).handler;
               && h.Scanning? && h.cursor in start.ready
               && Elements(HandedOver(srv, s1, es)) == Above(start.ready, h.cursor)
  {
    var s1 := Step(srv, s, start);
    StepKeepsInv(srv, s, start);
    AllAreLeft(srv, s, start);
    hide Inv, Step, Enabled, Left, Above, Whole, Revisits, HandedOver, Elements, Runs, After;
    var before, after := es[..i], es[i + 1..];
    assert es == before + ([Pick(false)] + after);
    RunsSplit(srv, s1, before, [Pick(false)] + after);
    var t := After(srv, s1, before);
    OneByOne(srv, t, Pick(false), after);
    InvAlong(srv, s1, before);
    PassHandsOverWhatIsLeft(srv, s1, before);
    ReadyIsKept(srv, s1, before);
    DisconnectionIsRevisited(srv, t);
    StepKeepsInv(srv, t, Pick(false));
    NobodyAfterDisconnection(srv, Step(srv, t, Pick(false)), after);
    AheadAndAbove(srv, s1, t, start.ready);
    assert HandedOver(srv, s1, es) == HandedOver(srv, s1, before) + [];
  }

  lemma AllAreLeft(srv: Server, s: State, start: Event)
    requires Inv(srv, s) && start.Select? && Enabled(srv, s, start)
    ensures var s1 := Step(srv, s, start);
            Whole(s1) && Left(s1) == start.ready && !s1.handler.Polling? && s1.handler.ready == start.ready
  {
    InPipeIsConnected(srv, s);
    assert Ahead(start.ready, s.maxFd) == start.ready;
    hide Places;
  }

  lemma AheadAndAbove(srv: Server, s1: State, t: State, ready: set<int>)
    requires Inv(srv, s1) && Left(s1) == ready
    requires t.handler.Scanning? && t.handler.ready == ready && t.handler.cursor >= 0
    ensures forall fd :: fd in ready ==> fd >= 0
    ensures Left(s1) - Left(t) == Above(ready, t.handler.cursor)
  {
    hide Places;
  }

  lemma {:induction false} InvAlong(srv: Server, s: State, es: seq<Event>)
    requires Inv(srv, s) && Runs(srv, s, es)
    ensures Inv(srv, After(srv, s, es))
    decreases es
  {
    hide Inv, Enabled, Step;
    if es != [] {
      StepKeepsInv(srv, s, es[0]);
      InvAlong(srv, Step(srv, s, es[0]), es[1..]);
    }
  }

  /** What select reported stays what the pass goes by. */
  lemma {:induction false} ReadyIsKept(srv: Server, s: State, es: seq<Event>)
    requires Runs(srv, s, es) && forall e :: e in es ==> !e.Select?
    requires !s.handler.Polling?
    ensures var t := After(srv, s, es);
            t.handler.Polling? || t.handler.ready == s.handler.ready
    decreases es
  {
    if es != [] {
      var s1 := Step(srv, s, es[0]);
      assert es[0] in es && forall x :: x in es[1..] ==> x in es;
      assert s1.handler.Polling? || s1.handler.ready == s.handler.ready;
      hide Enabled, Step;
      if s1.handler.Polling? {
        PollingStays(srv, s1, es[1..]);
      } else {
        ReadyIsKept(srv, s1, es[1..]);
      }
    }
  }

  lemma {:induction false} PollingStays(srv: Server, s: State, es: seq<Event>)
    requires Runs(srv, s, es) && s.handler.Polling? && forall e :: e in es ==> !e.Select?
    ensures After(srv, s, es).handler.Polling?
    decreases es
  {
    if es != [] {
      assert es[0] in es && forall x :: x in es[1..] ==> x in es;
      var s1 := Step(srv, s, es[0]);
      assert s1.handler.Polling?;
      hide Enabled, Step;
      PollingStays(srv, s1, es[1..]);
    }
  }

  /** A complete pass hands over exactly the ready clients if and only if it finds none of them disconnected. */
  lemma PassHandsOverTheReadyExactly(srv: Server, s: State, start: Event, es: seq<Event>)
    requires Inv(srv, s) && start.Select? && Enabled(srv, s, start) && Runs(srv, Step(srv, s, start), es)
    requires forall e :: e in es ==> !e.Select?
    requires After(srv, Step(srv, s, start), es).handler.Polling?
    ensures Elements(HandedOver(srv, Step(srv, s, start), es)) == start.ready <==> Pick(false) !in es
  {
    hide Inv, Enabled, Step, Elements, HandedOver;
    if Pick(false) in es {
      var i := IndexOf(es, Pick(false));
      PassEndsAtTheFirstDisconnected(srv, s, start, es, i);
    } else {
      PassHandsOverExactlyTheReady(srv, s, start, es);
    }
  }

  // The limits of the signal

  lemma RunsSnoc(srv: Server, s: State, es: seq<Event>, e: Event)
    requires Runs(srv, s, es) && Enabled(srv, After(srv, s, es), e)
    ensures Runs(srv, s, es + [e]) && After(srv, s, es + [e]) == Step(srv, After(srv, s, es), e)
    decreases es
  {
    if es != [] {
      assert (es + [e])[1..] == es[1..] + [e];
      RunsSnoc(srv, Step(srv, s, es[0]), es[1..], e);
    }
  }

  lemma Connects(srv: Server, s: State, es: seq<Event>, fd: nat) returns (es': seq<Event>)
    requires Runs(srv, s, es) && After(srv, s, es).handler.Polling?
    requires fd !in After(srv, s, es).connected && fd > After(srv, s, es).maxFd
    requires fd != srv.listener && fd != srv.pipeEnd
    ensures Runs(srv, s, es')
    ensures var t := After(srv, s, es);
            After(srv, s, es') == t.(connected := t.connected + {fd}, selectSet := t.selectSet + {fd}, maxFd := fd)
  {
    hide Runs, After;
    es' := es;
    RunsSnoc(srv, s, es', Select({}, false, true));
    es' := es' + [Select({}, false, true)];
    RunsSnoc(srv, s, es', Accept(fd));
    es' := es' + [Accept(fd)];
    RunsSnoc(srv, s, es', EndScan);
    es' := es' + [EndScan];
  }

  /** With nothing to do, the first k workers fall asleep one after the other. */
  lemma {:induction false} FallAsleep(srv: Server, s: State, k: nat) returns (es: seq<Event>)
    requires k <= |s.workers| && s.pending == [] && forall w :: 0 <= w < |s.workers| ==> s.workers[w].Awake?
    ensures Runs(srv, s, es)
    ensures var t := After(srv, s, es);
            && t == s.(workers := t.workers) && |t.workers| == |s.workers|
            && (forall w :: 0 <= w < k ==> t.workers[w].Asleep?)
            && (forall w :: k <= w < |s.workers| ==> t.workers[w].Awake?)
    decreases k
  {
    es := [];
    if k > 0 {
      es := FallAsleep(srv, s, k - 1);
      hide Runs, After;
      RunsSnoc(srv, s, es, Sleep(k - 1));
      es := es + [Sleep(k - 1)];
    }
  }

  /**
    The signal keeps one worker up, not as many as there are clients: with any two workers or more, two clients can
    wait while all workers but one sleep.
  */
  lemma AllButOneCanSleepBesideWork(srv: Server, workers: nat) returns (es: seq<Event>)
    requires workers >= 2
    ensures Runs(srv, Init(srv, workers), es)
    ensures var t := After(srv, Init(srv, workers), es);
            |t.pending| == 2 && |t.workers| == workers && forall w :: 0 < w < workers ==> t.workers[w].Asleep?
  {
    var s := Init(srv, workers);
    var fd := s.maxFd + 1;
    es := FallAsleep(srv, s, workers);
    hide Runs, After;
    es := Connects(srv, s, es, fd);
    es := Connects(srv, s, es, fd + 1);
    es := BothAreHandedOver(srv, s, es, fd);
  }

  lemma BothAreHandedOver(srv: Server, s: State, es: seq<Event>, fd: nat) returns (es': seq<Event>)
    requires Runs(srv, s, es) && fd > srv.listener && fd > srv.pipeEnd
    requires var t := After(srv, s, es);
             && t.connected == t.selectSet == {fd, fd + 1} && t.maxFd == fd + 1
             && t.pending == [] && t.handler.Polling?
             && |t.workers| >= 2 && forall w :: 0 <= w < |t.workers| ==> t.workers[w].Asleep?
    ensures Runs(srv, s, es')
    ensures var t := After(srv, s, es');
            && |t.pending| == 2 && |t.workers| == |After(srv, s, es).workers|
            && forall w :: 0 < w < |t.workers| ==> t.workers[w].Asleep?
  {
    hide Runs, After;
    es' := es;
    assert |{fd, fd + 1}| == 2;
    RunsSnoc(srv, s, es', Select({fd, fd + 1}, false, false));
    es' := es' + [Select({fd, fd + 1}, false, false)];
    RunsSnoc(srv, s, es', Pick(true));
    es' := es' + [Pick(true)];
    assert IsAsleep(After(srv, s, es'), 0);
    RunsSnoc(srv, s, es', Deliver({0}));
    es' := es' + [Deliver({0})];
    RunsSnoc(srv, s, es', Pick(true));
    es' := es' + [Pick(true)];
    RunsSnoc(srv, s, es', Deliver({}));
    es' := es' + [Deliver({})];
  }
}
