/** Whole runs: a file is written at most once, and the memory counter drifts by exactly the lost bytes. */
module WriteRuns {
  import opened Machine
  import opened Files
  import opened Policies
  import opened Stores
  import opened Handlers
  import opened StoreInvariants
  import opened Protocol

  /** The request was carried out; the sender's own note comes first. */
  ghost predicate Accepted(out: Outcome) {
    out.Done? && out.notes != [] && !out.notes[0].reply.Failed?
  }

  predicate Writes(req: Request, p: Path) { req.Write? && req.path == p }
  predicate Appends(req: Request, p: Path) { req.Append? && req.path == p }

  lemma PutContentClosesTheFile(cfg: Config, st: Store, c: int, p: Path, f: File, size: nat, sendBack: bool,
        order: seq<Path>, q: Path)
    requires HandlerPre(cfg, st, c, order) && p in st.files && !f.writable
    ensures var out := PutContent(cfg, st, c, p, f, size, sendBack, order);
            && (Accepted(out) ==> p in out.store.files && !out.store.files[p].writable)
            && (out.Done? && q in st.files && q in out.store.files && !st.files[q].writable ==>
                  !out.store.files[q].writable)
  {
    MakeRoomConserves(cfg, st, p, size, order);
    PutContentOutcome(cfg, st, c, p, f, size, sendBack, order);
    hide MakeRoom, PutContent, StoreInv, PolicyOrder, WaitsNowhere, EvictionNotes, Accounts, CanFree;
  }

  lemma WriteClosesTheFile(cfg: Config, st: Store, c: int, p: Path, sendBack: bool, data: seq<Byte>, now: Time,
        order: seq<Path>, q: Path)
    requires HandlerPre(cfg, st, c, order)
    ensures var out := HandleWrite(cfg, st, c, p, sendBack, data, now, order);
            && (Accepted(out) ==>
                  p in st.files && st.files[p].writable && p in out.store.files && !out.store.files[p].writable)
            && (out.Done? && q in st.files && q in out.store.files && !st.files[q].writable ==>
                  !out.store.files[q].writable)
  {
    hide PutContent, StoreInv, PolicyOrder, WaitsNowhere;
    if p in st.files {
      var f := Touch(ReplaceContent(st.files[p], data).(writable := false), now);
      PutContentClosesTheFile(cfg, st, c, p, f, |data|, sendBack, order, q);
    }
  }

  lemma AppendClosesTheFile(cfg: Config, st: Store, c: int, p: Path, sendBack: bool, data: seq<Byte>, now: Time,
        order: seq<Path>, q: Path)
    requires HandlerPre(cfg, st, c, order)
    ensures var out := HandleAppend(cfg, st, c, p, sendBack, data, now, order);
            && (Accepted(out) ==> p in out.store.files && !out.store.files[p].writable)
            && (out.Done? && q in st.files && q in out.store.files && !st.files[q].writable ==>
                  !out.store.files[q].writable)
  {
    hide PutContent, StoreInv, PolicyOrder, WaitsNowhere;
    if p in st.files {
      var f := Touch(AppendContent(cfg.recordTotal, st.files[p], data).(writable := false), now);
      PutContentClosesTheFile(cfg, st, c, p, f, |data|, sendBack, order, q);
    }
  }

  lemma RestStaysClosed(cfg: Config, st: Store, c: int, p: Path, flags: int, now: Time, q: Path)
    requires q in st.files && !st.files[q].writable
    ensures var out := HandleOpen(cfg, st, c, p, flags, now);
            out.Done? && q in out.store.files ==> !out.store.files[q].writable
    ensures var out := HandleLock(st, c, p, now);
            out.Done? && q in out.store.files ==> !out.store.files[q].writable
    ensures !HandleUnlock(st, c, p, now).store.files[q].writable
    ensures !HandleClose(cfg, st, c, p, now).store.files[q].writable
    ensures !HandleRead(st, c, p, now).store.files[q].writable
    ensures var out := HandleRemove(st, c, p);
            out.Done? && q in out.store.files ==> !out.store.files[q].writable
  {
  }

  /** A file that is no longer open for its first write never is again. */
  lemma HandleStaysClosed(cfg: Config, st: Store, c: int, req: Request, now: Time, order: seq<Path>, q: Path)
    requires HandlerPre(cfg, st, c, order) && q in st.files && !st.files[q].writable
    ensures var out := Handle(cfg, st, c, req, now, order);
            out.Done? && q in out.store.files ==> !out.store.files[q].writable
  {
    match req
    case Open(p, flags) => RestStaysClosed(cfg, st, c, p, flags, now, q);
    case Lock(p) => RestStaysClosed(cfg, st, c, p, 0, now, q);
    case Unlock(p) => RestStaysClosed(cfg, st, c, p, 0, now, q);
    case Read(p) => RestStaysClosed(cfg, st, c, p, 0, now, q);
    case ReadN(n) =>
    case Write(p, sendBack, data) => WriteClosesTheFile(cfg, st, c, p, sendBack, data, now, order, q);
    case Append(p, sendBack, data) => AppendClosesTheFile(cfg, st, c, p, sendBack, data, now, order, q);
    case Close(p) => RestStaysClosed(cfg, st, c, p, 0, now, q);
    case Remove(p) => RestStaysClosed(cfg, st, c, p, 0, now, q);
  }

  ghost predicate Shut(s: State, p: Path) {
    p in s.store.files ==> !s.store.files[p].writable
  }

  /** The event is an accepted write of p, or an accepted append to it. */
  ghost predicate WritesTo(cfg: Config, s: State, e: Event, p: Path)
    requires Enabled(cfg, s, e)
  {
    e.HandleIt? && Writes(s.clients[e.client].request, p) && Accepted(OutcomeOf(cfg, s, e))
  }

  ghost predicate AppendsTo(cfg: Config, s: State, e: Event, p: Path)
    requires Enabled(cfg, s, e)
  {
    e.HandleIt? && Appends(s.clients[e.client].request, p) && Accepted(OutcomeOf(cfg, s, e))
  }

  lemma WriteOrAppendShuts(cfg: Config, s: State, e: Event, s': State, p: Path)
    requires Inv(cfg, s) && Steps(cfg, s, e, s') && (WritesTo(cfg, s, e, p) || AppendsTo(cfg, s, e, p))
    ensures WritesTo(cfg, s, e, p) ==> p in s.store.files && !Shut(s, p)
    ensures p in s'.store.files && Shut(s', p)
  {
    var c, now, order := e.client, e.now, e.order;
    SenderIsFree(cfg, s, c, order);
    var req := s.clients[c].request;
    hide Inv, HandlerPre, HandleWrite, HandleAppend, PolicyOrder;
    if req.Write? {
      WriteClosesTheFile(cfg, s.store, c, req.path, req.sendBack, req.data, now, order, p);
    } else {
      AppendClosesTheFile(cfg, s.store, c, req.path, req.sendBack, req.data, now, order, p);
    }
  }

  /** A write needs the file open for it; a write or an append shuts it, and it stays shut while it exists. */
  lemma StepShuts(cfg: Config, s: State, e: Event, s': State, p: Path)
    requires Inv(cfg, s) && Steps(cfg, s, e, s')
    ensures WritesTo(cfg, s, e, p) ==> p in s.store.files && !Shut(s, p)
    ensures WritesTo(cfg, s, e, p) || AppendsTo(cfg, s, e, p) ==> p in s'.store.files && Shut(s', p)
    ensures p in s.store.files && Shut(s, p) ==> Shut(s', p)
  {
    if WritesTo(cfg, s, e, p) || AppendsTo(cfg, s, e, p) {
      WriteOrAppendShuts(cfg, s, e, s', p);
    } else if e.HandleIt? && p in s.store.files && Shut(s, p) {
      SenderIsFree(cfg, s, e.client, e.order);
      HandleStaysClosed(cfg, s.store, e.client, s.clients[e.client].request, e.now, e.order, p);
      hide Inv, HandlerPre, Handle, PolicyOrder, WritesTo, AppendsTo;
    }
  }

  lemma NthStepShuts(cfg: Config, states: seq<State>, events: seq<Event>, i: nat, p: Path)
    requires Segment(cfg, states, events) && Inv(cfg, states[0]) && i < |events|
    ensures Enabled(cfg, states[i], events[i])
    ensures WritesTo(cfg, states[i], events[i], p) ==> p in states[i].store.files && !Shut(states[i], p)
    ensures WritesTo(cfg, states[i], events[i], p) || AppendsTo(cfg, states[i], events[i], p) ==>
              p in states[i + 1].store.files && Shut(states[i + 1], p)
    ensures p in states[i].store.files && Shut(states[i], p) ==> Shut(states[i + 1], p)
  {
    SegmentKeepsInv(cfg, states, events, i);
    assert Steps(cfg, states[i], events[i], states[i + 1]);
    StepShuts(cfg, states[i], events[i], states[i + 1], p);
  }

  lemma NthStepStaysShut(cfg: Config, states: seq<State>, events: seq<Event>, i: nat, p: Path)
    requires Segment(cfg, states, events) && Inv(cfg, states[0]) && i + 1 < |states|
    requires p in states[i].store.files && Shut(states[i], p)
    ensures Shut(states[i + 1], p)
  {
    NthStepShuts(cfg, states, events, i, p);
  }

  lemma {:induction false} StaysShut(cfg: Config, states: seq<State>, events: seq<Event>, i: nat, j: nat, p: Path)
    requires Segment(cfg, states, events) && Inv(cfg, states[0])
    requires i <= j < |states| && Shut(states[i], p)
    requires forall k :: i <= k <= j ==> p in states[k].store.files
    ensures Shut(states[j], p)
  {
    hide Inv, Segment, Shut;
    if i < j {
      StaysShut(cfg, states, events, i, j - 1, p);
      NthStepStaysShut(cfg, states, events, j - 1, p);
    }
  }

  /**
    Between an accepted write or append and a later accepted write of the same path, the file has been
    out of the store: per incarnation there is at most one write, and none after an append.
  */
  lemma WriteOnce(cfg: Config, states: seq<State>, events: seq<Event>, i: nat, j: nat, p: Path)
    requires Segment(cfg, states, events) && Inv(cfg, states[0]) && i < j < |events|
    requires Enabled(cfg, states[i], events[i]) && Enabled(cfg, states[j], events[j])
    requires WritesTo(cfg, states[i], events[i], p) || AppendsTo(cfg, states[i], events[i], p)
    requires WritesTo(cfg, states[j], events[j], p)
    ensures exists k :: i < k <= j && p !in states[k].store.files
  {
    NthStepShuts(cfg, states, events, i, p);
    NthStepShuts(cfg, states, events, j, p);
    if forall k :: i < k <= j ==> p in states[k].store.files {
      StaysShut(cfg, states, events, i + 1, j, p);
    }
  }

  // Memory

  /** The bytes one step loses track of. */
  ghost function LossOf(cfg: Config, s: State, e: Event): nat
    requires Enabled(cfg, s, e)
  {
    if e.HandleIt? then Loss(cfg, s.store, s.clients[e.client].request, OutcomeOf(cfg, s, e)) else 0
  }

  ghost predicate AllEnabled(cfg: Config, states: seq<State>, events: seq<Event>)
    requires |events| <= |states|
  {
    forall i :: 0 <= i < |events| ==> Enabled(cfg, states[i], events[i])
  }

  lemma EveryEventIsEnabled(cfg: Config, states: seq<State>, events: seq<Event>)
    requires Segment(cfg, states, events)
    ensures AllEnabled(cfg, states, events)
  {
    forall i | 0 <= i < |events| ensures Enabled(cfg, states[i], events[i]) {
      assert Steps(cfg, states[i], events[i], states[i + 1]);
    }
  }

  ghost function Losses(cfg: Config, states: seq<State>, events: seq<Event>): (losses: seq<nat>)
    requires |events| <= |states| && AllEnabled(cfg, states, events)
    ensures |losses| == |events|
    ensures forall i :: 0 <= i < |events| ==> losses[i] == LossOf(cfg, states[i], events[i])
  {
    seq(|events|, i requires 0 <= i < |events| => LossOf(cfg, states[i], events[i]))
  }

  function Sum(xs: seq<nat>, n: nat): nat
    requires n <= |xs|
  {
    if n == 0 then 0 else Sum(xs, n - 1) + xs[n - 1]
  }

  lemma {:induction false} SumOfSteps(values: seq<int>, steps: seq<nat>, n: nat)
    requires n <= |steps| < |values|
    requires forall i :: 0 <= i < n ==> values[i + 1] == values[i] + steps[i]
    ensures values[n] == values[0] + Sum(steps, n)
  {
    if n > 0 {
      SumOfSteps(values, steps, n - 1);
      assert values[n - 1 + 1] == values[n - 1] + steps[n - 1];
    }
  }

  lemma {:induction false} SumIsZero(xs: seq<nat>, n: nat)
    requires n <= |xs|
    ensures Sum(xs, n) == 0 <==> forall i :: 0 <= i < n ==> xs[i] == 0
  {
    if n > 0 {
      SumIsZero(xs, n - 1);
    }
  }

  lemma StepDrifts(cfg: Config, s: State, e: Event, s': State)
    requires Inv(cfg, s) && Steps(cfg, s, e, s')
    ensures Shape(s'.store) && Drift(s'.store) == Drift(s.store) + LossOf(cfg, s, e)
  {
    match e
    case HandleIt(c, now, order) =>
      SenderIsFree(cfg, s, c, order);
      HandleKeepsInv(cfg, s.store, c, s.clients[c].request, now, order);
    case Disconnect(c) => DisconnectKeepsInv(cfg, s.store, c);
    case _ =>
  }

  function DriftOf(s: State): int {
    if forall p :: p in s.store.names ==> p in s.store.files then Drift(s.store) else 0
  }

  lemma NthStepDrifts(cfg: Config, states: seq<State>, events: seq<Event>, i: nat)
    requires Segment(cfg, states, events) && Inv(cfg, states[0]) && i < |events|
    ensures Enabled(cfg, states[i], events[i])
    ensures DriftOf(states[i + 1]) == DriftOf(states[i]) + LossOf(cfg, states[i], events[i])
  {
    SegmentKeepsInv(cfg, states, events, i);
    assert Steps(cfg, states[i], events[i], states[i + 1]);
    StepDrifts(cfg, states[i], events[i], states[i + 1]);
  }

  lemma DriftsAddUp(cfg: Config, states: seq<State>, events: seq<Event>, n: nat)
    requires Segment(cfg, states, events) && Inv(cfg, states[0]) && n < |states|
    requires AllEnabled(cfg, states, events)
    ensures DriftOf(states[n]) == DriftOf(states[0]) + Sum(Losses(cfg, states, events), n)
  {
    var losses := Losses(cfg, states, events);
    var drifts := seq(|states|, i requires 0 <= i < |states| => DriftOf(states[i]));
    forall i | 0 <= i < n ensures drifts[i + 1] == drifts[i] + losses[i] {
      NthStepDrifts(cfg, states, events, i);
    }
    SumOfSteps(drifts, losses, n);
  }

  /**
    In every state of every run the counter exceeds the sizes on record by exactly the bytes that appends
    to non-empty files have taken off the record, and it never exceeds the limit.
  */
  lemma MemoryIsAccountedFor(cfg: Config, states: seq<State>, events: seq<Event>, n: nat)
    requires ConfigOk(cfg) && Run(cfg, states, events) && n < |states|
    ensures AllEnabled(cfg, states, events)
    ensures var st := states[n].store;
            && Shape(st)
            && st.used == Stored(st) + Sum(Losses(cfg, states, events), n)
            && st.used <= st.peak <= cfg.maxMemory
            && st.count == |st.files| <= cfg.maxFiles
  {
    EveryEventIsEnabled(cfg, states, events);
    InitialInv(cfg);
    DriftsAddUp(cfg, states, events, n);
    RunKeepsInv(cfg, states, events, n);
    CountIsTheNumberOfFiles(states[n].store);
  }

  /** An accepted append to a non-empty file, with the record as the server keeps it. */
  ghost predicate AppendsToContent(cfg: Config, s: State, e: Event)
    requires Enabled(cfg, s, e)
  {
    && e.HandleIt? && !cfg.recordTotal
    && var req := s.clients[e.client].request;
       req.Append? && req.data != [] && req.path in s.store.files && s.store.files[req.path].size > 0
       && Accepted(OutcomeOf(cfg, s, e))
  }

  /**
    The counter equals the sizes on record exactly in the runs without an accepted append to a file that
    already has content; with the total recorded, in all runs.
  */
  lemma MemoryIsExactExactlyWithoutSuchAppends(cfg: Config, states: seq<State>, events: seq<Event>, n: nat)
    requires ConfigOk(cfg) && Run(cfg, states, events) && n < |states|
    ensures AllEnabled(cfg, states, events) && Shape(states[n].store)
    ensures states[n].store.used == Stored(states[n].store)
            <==> forall i :: 0 <= i < n ==> !AppendsToContent(cfg, states[i], events[i])
  {
    MemoryIsAccountedFor(cfg, states, events, n);
    var losses := Losses(cfg, states, events);
    SumIsZero(losses, n);
    forall i | 0 <= i < n ensures losses[i] == 0 <==> !AppendsToContent(cfg, states[i], events[i]) {
    }
  }
}
