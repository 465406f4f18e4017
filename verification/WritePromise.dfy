/**
  Whole runs: which writes are accepted, and when that is what server/includes/handle_client.h says, that the
  sender's previous request on the file was the open that created and locked it.
*/
module WritePromise {
  import opened Machine
  import opened Files
  import opened Policies
  import opened Stores
  import opened Handlers
  import opened StoreInvariants
  import opened Routing
  import opened Protocol
  import opened ExclusiveRuns
  import opened WriteRuns
  import opened Promises
  import opened Sessions
  import opened LoneClient

  /** The step after state k creates p, which is stored from then on up to state j. */
  ghost predicate Incarnation(states: seq<State>, k: nat, j: nat, p: Path) {
    && k < j < |states| && p !in states[k].store.files
    && forall i :: k < i <= j ==> p in states[i].store.files
  }

  ghost predicate CreatesLocked(cfg: Config, s: State, e: Event, p: Path) {
    Enabled(cfg, s, e) && Creates(cfg, s, e, p, true)
  }

  /** An accepted write or append, which ends the first write. */
  ghost predicate Fills(cfg: Config, s: State, e: Event, p: Path) {
    Enabled(cfg, s, e) && (WritesTo(cfg, s, e, p) || AppendsTo(cfg, s, e, p))
  }

  lemma StepFills(cfg: Config, s: State, e: Event, s': State, p: Path)
    requires Inv(cfg, s) && Steps(cfg, s, e, s') && p in s.store.files && p in s'.store.files
    ensures s'.store.files[p].writable <==> s.store.files[p].writable && !Fills(cfg, s, e, p)
  {
    StepShuts(cfg, s, e, s', p);
    if s.store.files[p].writable && !Fills(cfg, s, e, p) {
      StepStaysOpen(cfg, s, e, s', p);
    }
    hide Inv, Step, Enabled, WritesTo, AppendsTo;
  }

  lemma NthStepFills(cfg: Config, states: seq<State>, events: seq<Event>, i: nat, p: Path)
    requires Segment(cfg, states, events) && Inv(cfg, states[0]) && i + 1 < |states|
    requires p in states[i].store.files && p in states[i + 1].store.files
    ensures states[i + 1].store.files[p].writable
            <==> states[i].store.files[p].writable && !Fills(cfg, states[i], events[i], p)
  {
    NthStep(cfg, states, events, i);
    SegmentKeepsInv(cfg, states, events, i);
    StepFills(cfg, states[i], events[i], states[i + 1], p);
    hide Inv, Steps, Fills, Segment;
  }

  /** How a file begins. */
  lemma NthCreationLocks(cfg: Config, states: seq<State>, events: seq<Event>, k: nat, p: Path)
    requires Segment(cfg, states, events) && Inv(cfg, states[0]) && k + 1 < |states|
    requires p !in states[k].store.files && p in states[k + 1].store.files
    ensures |states| == |events| + 1 && events[k].HandleIt?
    ensures var f := states[k + 1].store.files[p];
            && (f.writable <==> CreatesLocked(cfg, states[k], events[k], p))
            && f.openers.items == [events[k].client]
            && (f.writable ==> f.owner == events[k].client != NOBODY)
  {
    NthStep(cfg, states, events, k);
    SegmentKeepsInv(cfg, states, events, k);
    SegmentKeepsInv(cfg, states, events, k + 1);
    CreationLocks(cfg, states[k], events[k], states[k + 1], p);
    assert LockInv(states[k + 1].store.files[p]);
    assert events[k].client in states[k + 1].store.files[p].openers.items;
    hide Inv, Steps, CreatesLocked, Segment;
  }

  /** p was created with the lock after state k, and nothing has been stored in it up to state j. */
  ghost predicate Unfilled(cfg: Config, states: seq<State>, events: seq<Event>, k: nat, j: nat, p: Path) {
    && k < j < |states| == |events| + 1
    && CreatesLocked(cfg, states[k], events[k], p)
    && forall i :: k < i < j ==> !Fills(cfg, states[i], events[i], p)
  }

  ghost predicate IsWritable(s: State, p: Path) {
    p in s.store.files && s.store.files[p].writable
  }

  lemma UnfilledGrows(cfg: Config, states: seq<State>, events: seq<Event>, k: nat, j: nat, p: Path)
    requires k < j < |states| == |events| + 1
    ensures j == k + 1 ==> (Unfilled(cfg, states, events, k, j, p) <==> CreatesLocked(cfg, states[k], events[k], p))
    ensures j > k + 1 ==>
              (Unfilled(cfg, states, events, k, j, p) <==>
               Unfilled(cfg, states, events, k, j - 1, p) && !Fills(cfg, states[j - 1], events[j - 1], p))
  {
    hide Fills, CreatesLocked;
  }

  lemma IncarnationShrinks(states: seq<State>, k: nat, j: nat, p: Path)
    requires Incarnation(states, k, j, p)
    ensures k < j < |states| && p in states[j].store.files && p !in states[k].store.files
    ensures j > k + 1 ==> Incarnation(states, k, j - 1, p) && p in states[j - 1].store.files
  {
  }

  lemma SameLength(cfg: Config, states: seq<State>, events: seq<Event>)
    requires Segment(cfg, states, events)
    ensures |states| == |events| + 1
  {
    hide Steps;
  }

  /** A file is open for its first write exactly if it was created with the lock and nothing was stored since. */
  lemma {:induction false} WritableExactly(cfg: Config, states: seq<State>, events: seq<Event>, k: nat, j: nat, p: Path)
    requires |states| > 0 && Segment(cfg, states, events) && Inv(cfg, states[0])
    requires j < |states| && Incarnation(states, k, j, p)
    ensures IsWritable(states[j], p) <==> Unfilled(cfg, states, events, k, j, p)
    decreases j
  {
    hide Steps, Segment, Inv, Fills, CreatesLocked, Incarnation, Unfilled;
    SameLength(cfg, states, events);
    IncarnationShrinks(states, k, j, p);
    UnfilledGrows(cfg, states, events, k, j, p);
    if j == k + 1 {
      NthCreationLocks(cfg, states, events, k, p);
    } else {
      WritableExactly(cfg, states, events, k, j - 1, p);
      NthStepFills(cfg, states, events, j - 1, p);
    }
  }

  lemma CreationLocks(cfg: Config, s: State, e: Event, s': State, p: Path)
    requires Inv(cfg, s) && Steps(cfg, s, e, s') && p !in s.store.files && p in s'.store.files
    ensures s'.store.files[p].writable <==> CreatesLocked(cfg, s, e, p)
    ensures e.HandleIt? && s'.store.files[p].openers.items == [e.client]
    ensures s'.store.files[p].writable ==> s'.store.files[p].owner == e.client
  {
    FilesAreCreated(cfg, s, e, s', p);
    hide Inv, Step, Enabled, Accepted;
  }

  // Which writes are accepted

  /** The event is a write of p by c that the server handles without leaving defined ground. */
  ghost predicate HandlesWrite(cfg: Config, s: State, e: Event, c: int, p: Path) {
    && Enabled(cfg, s, e) && e.HandleIt? && e.client == c && Writes(s.clients[c].request, p)
    && OutcomeOf(cfg, s, e).Done?
  }

  ghost predicate IsAccepted(cfg: Config, s: State, e: Event) {
    Enabled(cfg, s, e) && e.HandleIt? && Accepted(OutcomeOf(cfg, s, e))
  }

  /** The data c asks to write fits. */
  ghost predicate HasRoom(cfg: Config, s: State, c: int, p: Path) {
    && c in s.clients && s.clients[c].Sent? && s.clients[c].request.Write?
    && var data := s.clients[c].request.data;
       data == [] || (Shape(s.store) && p in s.store.files && RoomFor(cfg, s.store, p, |data|))
  }

  ghost predicate IsOwner(s: State, c: int, p: Path) {
    p in s.store.files && s.store.files[p].owner == c
  }

  lemma WriteIsAcceptedInState(cfg: Config, s: State, e: Event, c: int, p: Path)
    requires Inv(cfg, s) && HandlesWrite(cfg, s, e, c, p)
    ensures IsAccepted(cfg, s, e) <==> IsWritable(s, p) && IsOwner(s, c, p) && HasRoom(cfg, s, c, p)
  {
    SenderIsFree(cfg, s, c, e.order);
    assert Shape(s.store);
    hide HandleWrite, HandlerPre, RoomFor, Accepted, PolicyOrder, Inv, Shape;
    var req := s.clients[c].request;
    assert OutcomeOf(cfg, s, e) == HandleWrite(cfg, s.store, c, p, req.sendBack, req.data, e.now, e.order);
    hide OutcomeOf, Enabled;
    WriteIsAcceptedExactly(cfg, s.store, c, p, req.sendBack, req.data, e.now, e.order);
  }

  /**
    In every run a write is accepted exactly if the file was created with the lock, nothing has been stored in it
    since, the sender owns it now, and there is room. What the sender asked for in between does not matter.
  */
  lemma WriteIsAcceptedInRun(cfg: Config, states: seq<State>, events: seq<Event>, k: nat, j: nat, c: int, p: Path)
    requires ConfigOk(cfg) && Run(cfg, states, events) && Incarnation(states, k, j, p)
    requires j < |events| && HandlesWrite(cfg, states[j], events[j], c, p)
    ensures IsAccepted(cfg, states[j], events[j]) <==>
              Unfilled(cfg, states, events, k, j, p) && IsOwner(states[j], c, p) && HasRoom(cfg, states[j], c, p)
  {
    hide Steps;
    InitialInv(cfg);
    RunKeepsInv(cfg, states, events, j);
    hide Inv, Unfilled, HasRoom, IsAccepted, HandlesWrite, Segment, IsOwner, IsWritable;
    WritableExactly(cfg, states, events, k, j, p);
    WriteIsAcceptedInState(cfg, states[j], events[j], c, p);
  }

  // The promise

  /** The server handles a request of c on p. */
  ghost predicate NamedBy(s: State, e: Event, c: int, p: Path) {
    e.HandleIt? && e.client == c && c in s.clients && s.clients[c].Sent? && Names(s.clients[c].request, p)
  }

  /** The previous request of c on the file stored at p was the open that created and locked it. */
  ghost predicate PreviousCreatedAndLocked(cfg: Config, states: seq<State>, events: seq<Event>, j: nat, c: int, p: Path)
    requires j < |events| < |states|
  {
    exists i :: 0 <= i < j && IsThePrevious(cfg, states, events, i, j, c, p)
  }

  ghost predicate IsThePrevious(cfg: Config, states: seq<State>, events: seq<Event>, i: nat, j: nat, c: int, p: Path)
    requires i < j < |events| < |states|
  {
    && CreatesLocked(cfg, states[i], events[i], p) && events[i].client == c
    && (forall m :: i < m < j ==> !NamedBy(states[m], events[m], c, p) && events[m] != Disconnect(c))
    && (forall m :: i < m <= j ==> p in states[m].store.files)
  }

  ghost predicate NamedInBetween(states: seq<State>, events: seq<Event>, k: nat, j: nat, c: int, p: Path)
    requires j < |events| < |states|
  {
    exists m :: k < m < j && NamedBy(states[m], events[m], c, p)
  }

  ghost predicate IsOpener(s: State, c: int, p: Path) {
    p in s.store.files && c in s.store.files[p].openers.items
  }

  lemma StrangerStaysStranger(cfg: Config, s: State, e: Event, s': State, c: int, p: Path)
    requires Inv(cfg, s) && Steps(cfg, s, e, s') && p in s.store.files
    requires !IsOpener(s, c, p) && !NamedBy(s, e, c, p)
    ensures !IsOpener(s', c, p)
  {
    hide Handle, HandlerPre, PolicyOrder;
    match e
    case HandleIt(d, now, order) =>
      SenderIsFree(cfg, s, d, order);
      var req := s.clients[d].request;
      if d == c {
        UnnamedIsUnchanged(cfg, s.store, c, req, now, order, p);
      } else {
        NewOpenerIsTheSender(cfg, s.store, d, req, now, order);
      }
    case Disconnect(d) => ForgetKeepsLockInv(cfg.moveTail, s.store.files[p], d);
    case _ =>
  }

  lemma NthStaysStranger(cfg: Config, states: seq<State>, events: seq<Event>, i: nat, c: int, p: Path)
    requires Segment(cfg, states, events) && Inv(cfg, states[0]) && i + 1 < |states|
    requires p in states[i].store.files
    requires !IsOpener(states[i], c, p) && !NamedBy(states[i], events[i], c, p)
    ensures !IsOpener(states[i + 1], c, p)
  {
    NthStep(cfg, states, events, i);
    SegmentKeepsInv(cfg, states, events, i);
    StrangerStaysStranger(cfg, states[i], events[i], states[i + 1], c, p);
    hide Inv, Steps, NamedBy, IsOpener, Segment;
  }

  lemma {:induction false} StaysStranger(cfg: Config, states: seq<State>, events: seq<Event>, i: nat, j: nat,
        c: int, p: Path)
    requires Segment(cfg, states, events) && Inv(cfg, states[0]) && i <= j < |states|
    requires forall m :: i <= m <= j ==> p in states[m].store.files
    requires forall m :: i <= m < j ==> !NamedBy(states[m], events[m], c, p)
    requires !IsOpener(states[i], c, p)
    ensures !IsOpener(states[j], c, p)
    decreases j
  {
    hide Steps;
    assert |states| == |events| + 1;
    hide Inv, NamedBy, IsOpener, Segment;
    if i < j {
      StaysStranger(cfg, states, events, i, j - 1, c, p);
      NthStaysStranger(cfg, states, events, j - 1, c, p);
    }
  }

  ghost predicate Holds(s: State, c: int, p: Path) {
    IsOwner(s, c, p) && IsWritable(s, p)
  }

  /** What somebody else owns and has yet to write, others neither take nor fill. */
  lemma StepHolds(cfg: Config, s: State, e: Event, s': State, c: int, p: Path)
    requires Inv(cfg, s) && Steps(cfg, s, e, s') && p in s'.store.files && c != NOBODY
    requires Holds(s, c, p) && !NamedBy(s, e, c, p) && e != Disconnect(c)
    ensures Holds(s', c, p)
  {
    if ActsFor(e, c) {
      SenderIsFree(cfg, s, c, e.order);
      UnnamedIsUnchanged(cfg, s.store, c, s.clients[c].request, e.now, e.order, p);
      hide Handle, HandlerPre, PolicyOrder, Inv;
    } else {
      StepProtects(cfg, s, e, s', p, c);
      if e.HandleIt? {
        SenderIsFree(cfg, s, e.client, e.order);
        OwnerIsProtected(cfg, s.store, e.client, s.clients[e.client].request, e.now, e.order, p);
      }
      hide Handle, HandlerPre, PolicyOrder, Inv, Protected, HandleDisconnect;
      StepStaysOpen(cfg, s, e, s', p);
    }
  }

  lemma NthHolds(cfg: Config, states: seq<State>, events: seq<Event>, i: nat, c: int, p: Path)
    requires Segment(cfg, states, events) && Inv(cfg, states[0]) && i + 1 < |states|
    requires p in states[i + 1].store.files && c != NOBODY
    requires Holds(states[i], c, p) && !NamedBy(states[i], events[i], c, p) && events[i] != Disconnect(c)
    ensures Holds(states[i + 1], c, p)
  {
    NthStep(cfg, states, events, i);
    SegmentKeepsInv(cfg, states, events, i);
    StepHolds(cfg, states[i], events[i], states[i + 1], c, p);
    hide Inv, Steps, NamedBy, Holds, Segment;
  }

  lemma {:induction false} HoldsThroughout(cfg: Config, states: seq<State>, events: seq<Event>, i: nat, j: nat,
        c: int, p: Path)
    requires Segment(cfg, states, events) && Inv(cfg, states[0]) && i <= j < |states| && c != NOBODY
    requires forall m :: i <= m <= j ==> p in states[m].store.files
    requires forall m :: i <= m < j ==> !NamedBy(states[m], events[m], c, p) && events[m] != Disconnect(c)
    requires Holds(states[i], c, p)
    ensures Holds(states[j], c, p)
    decreases j
  {
    hide Steps;
    assert |states| == |events| + 1;
    hide Inv, NamedBy, Holds, Segment;
    if i < j {
      HoldsThroughout(cfg, states, events, i, j - 1, c, p);
      NthHolds(cfg, states, events, j - 1, c, p);
    }
  }

  lemma CreationNeedsAbsence(cfg: Config, s: State, e: Event, p: Path)
    requires CreatesLocked(cfg, s, e, p)
    ensures p !in s.store.files
  {
  }

  /** If it is the previous request on the file at all, it is the one that created it. */
  lemma ThePreviousIsTheCreation(cfg: Config, states: seq<State>, events: seq<Event>, k: nat, i: nat, j: nat,
        c: int, p: Path)
    requires j < |events| < |states| && Incarnation(states, k, j, p) && i < j
    requires IsThePrevious(cfg, states, events, i, j, c, p)
    ensures i == k
  {
    CreationNeedsAbsence(cfg, states[i], events[i], p);
    hide CreatesLocked, NamedBy;
  }

  lemma TheCreatorHolds(cfg: Config, states: seq<State>, events: seq<Event>, k: nat, j: nat, c: int, p: Path)
    requires Segment(cfg, states, events) && Inv(cfg, states[0]) && Incarnation(states, k, j, p) && j < |events|
    requires IsThePrevious(cfg, states, events, k, j, c, p)
    ensures Holds(states[j], c, p)
  {
    hide Steps;
    NthCreationLocks(cfg, states, events, k, p);
    hide Inv, CreatesLocked, NamedBy, Segment;
    HoldsThroughout(cfg, states, events, k + 1, j, c, p);
  }

  /** Without a request on the file, nobody but its creator comes to own it, and not after disconnecting. */
  lemma OnlyTheCreatorHolds(cfg: Config, states: seq<State>, events: seq<Event>, k: nat, j: nat, c: int, p: Path)
    requires Segment(cfg, states, events) && Inv(cfg, states[0]) && Incarnation(states, k, j, p) && j < |events|
    requires !NamedInBetween(states, events, k, j, c, p) && Holds(states[j], c, p) && c != NOBODY
    ensures IsThePrevious(cfg, states, events, k, j, c, p)
  {
    hide Steps;
    SegmentKeepsInv(cfg, states, events, j);
    OwnersHaveOpened(cfg, states[j], c, p);
    hide Inv, CreatesLocked, NamedBy, Segment, Holds;
    NthCreationLocks(cfg, states, events, k, p);
    if events[k].client != c {
      StaysStranger(cfg, states, events, k + 1, j, c, p);
    }
    assert CreatesLocked(cfg, states[k], events[k], p) by {
      WritableExactly(cfg, states, events, k, j, p);
      assert IsWritable(states[j], p) by {
        HoldingIsWritable(states[j], c, p);
      }
    }
    forall m | k < m < j ensures events[m] != Disconnect(c) {
      if events[m] == Disconnect(c) {
        LeavesNoTrace(cfg, states, events, m, c, p);
        StaysStranger(cfg, states, events, m + 1, j, c, p);
        assert false;
      }
    }
  }

  lemma HoldingIsWritable(s: State, c: int, p: Path)
    requires Holds(s, c, p)
    ensures IsWritable(s, p)
  {
  }

  /** Without another request of c on the file, c may write it exactly if its own open created and locked it. */
  lemma UndisturbedWrite(cfg: Config, states: seq<State>, events: seq<Event>, k: nat, j: nat, c: int, p: Path)
    requires Segment(cfg, states, events) && Inv(cfg, states[0]) && Incarnation(states, k, j, p) && j < |events|
    requires !NamedInBetween(states, events, k, j, c, p) && c != NOBODY
    ensures Holds(states[j], c, p) <==> PreviousCreatedAndLocked(cfg, states, events, j, c, p)
  {
    hide Steps;
    assert |states| == |events| + 1;
    hide Inv, Segment, Holds, IsThePrevious, NamedInBetween;
    if Holds(states[j], c, p) {
      OnlyTheCreatorHolds(cfg, states, events, k, j, c, p);
    }
    if PreviousCreatedAndLocked(cfg, states, events, j, c, p) {
      var i :| 0 <= i < j && IsThePrevious(cfg, states, events, i, j, c, p);
      ThePreviousIsTheCreation(cfg, states, events, k, i, j, c, p);
      TheCreatorHolds(cfg, states, events, k, j, c, p);
    }
  }

  lemma OwnersHaveOpened(cfg: Config, s: State, c: int, p: Path)
    requires Inv(cfg, s) && c != NOBODY
    ensures Holds(s, c, p) ==> IsOpener(s, c, p)
  {
    if p in s.store.files {
      assert LockInv(s.store.files[p]);
    }
  }

  lemma LeavesNoTrace(cfg: Config, states: seq<State>, events: seq<Event>, m: nat, c: int, p: Path)
    requires Segment(cfg, states, events) && Inv(cfg, states[0]) && m < |events| && events[m] == Disconnect(c)
    ensures !IsOpener(states[m + 1], c, p)
  {
    NthStep(cfg, states, events, m);
    SegmentKeepsInv(cfg, states, events, m);
    DisconnectRoutes(cfg, states[m].store, c);
  }

  lemma OnlyLaterRequestsMatter(cfg: Config, states: seq<State>, events: seq<Event>, k: nat, j: nat, c: int,
        p: Path)
    requires ConfigOk(cfg) && Run(cfg, states, events) && Incarnation(states, k, j, p)
    requires j < |events| && HandlesWrite(cfg, states[j], events[j], c, p)
    ensures if NamedInBetween(states, events, k, j, c, p)
            then !PreviousCreatedAndLocked(cfg, states, events, j, c, p)
            else IsAccepted(cfg, states[j], events[j])
                 <==> PreviousCreatedAndLocked(cfg, states, events, j, c, p) && HasRoom(cfg, states[j], c, p)
  {
    hide Steps;
    InitialInv(cfg);
    RunKeepsInv(cfg, states, events, j);
    WriteIsAcceptedInState(cfg, states[j], events[j], c, p);
    ClientsAreSomebody(cfg, states[j], events[j], c, p);
    assert |states| == |events| + 1;
    hide Inv, HasRoom, IsAccepted, HandlesWrite, Segment, IsOwner, IsWritable, PreviousCreatedAndLocked, NamedInBetween;
    if NamedInBetween(states, events, k, j, c, p) {
      NamedIsNotPrevious(cfg, states, events, k, j, c, p);
    } else {
      UndisturbedWrite(cfg, states, events, k, j, c, p);
    }
  }

  /**
    A write meets the promise, succeeding exactly if the sender's previous request on the file created and locked
    it and there is room, unless and only unless the sender has asked for something else on the file since and yet
    the file, created with the lock and still unfilled, is its own and has room.
  */
  lemma WriteMeetsThePromiseExactly(cfg: Config, states: seq<State>, events: seq<Event>, k: nat, j: nat, c: int,
        p: Path)
    requires ConfigOk(cfg) && Run(cfg, states, events) && Incarnation(states, k, j, p)
    requires j < |events| && HandlesWrite(cfg, states[j], events[j], c, p)
    ensures var promised := PreviousCreatedAndLocked(cfg, states, events, j, c, p) && HasRoom(cfg, states[j], c, p);
            (IsAccepted(cfg, states[j], events[j]) <==> promised)
            <==> !(NamedInBetween(states, events, k, j, c, p) && Unfilled(cfg, states, events, k, j, p)
                   && IsOwner(states[j], c, p) && HasRoom(cfg, states[j], c, p))
  {
    assert |states| == |events| + 1 by {
      hide Steps;
    }
    hide Run, Unfilled, HasRoom, IsAccepted, HandlesWrite, IsOwner, PreviousCreatedAndLocked, NamedInBetween,
      Incarnation;
    WriteIsAcceptedInRun(cfg, states, events, k, j, c, p);
    OnlyLaterRequestsMatter(cfg, states, events, k, j, c, p);
  }

  lemma ClientsAreSomebody(cfg: Config, s: State, e: Event, c: int, p: Path)
    requires Inv(cfg, s) && HandlesWrite(cfg, s, e, c, p)
    ensures c != NOBODY
  {
  }

  lemma NamedIsNotPrevious(cfg: Config, states: seq<State>, events: seq<Event>, k: nat, j: nat, c: int, p: Path)
    requires j < |events| < |states| && Incarnation(states, k, j, p) && NamedInBetween(states, events, k, j, c, p)
    ensures !PreviousCreatedAndLocked(cfg, states, events, j, c, p)
  {
    hide CreatesLocked, NamedBy;
    forall i | 0 <= i < j ensures !IsThePrevious(cfg, states, events, i, j, c, p) {
      var m :| k < m < j && NamedBy(states[m], events[m], c, p);
      if i == k {
        assert NamedBy(states[m], events[m], c, p);
      } else if IsThePrevious(cfg, states, events, i, j, c, p) {
        ThePreviousIsTheCreation(cfg, states, events, k, i, j, c, p);
      }
    }
  }

  // An input on which the promise fails

  lemma OneFileOrder(cfg: Config, p: Path, f: File)
    ensures PolicyOrder(cfg.policy, map[p := f], [p])
  {
    hide Compare, Consistent;
  }

  /** The stores of a client that creates and locks a file, reads it and writes one byte. */
  lemma CreateReadWrite(cfg: Config, a: int, p: Path, b: Byte, now: Time)
    returns (created: Store, read: Store, written: Store)
    requires ConfigOk(cfg) && cfg.maxFiles >= 1 && cfg.maxMemory >= 2
    ensures Handle(cfg, EmptyStore(), a, Open(p, 3), now, []) == Done(created, [Note(a, Ok)])
    ensures Coherent(created) && PolicyOrder(cfg.policy, created.files, [p])
    ensures Handle(cfg, created, a, Read(p), now, [p]) == Done(read, [Note(a, Data([]))])
    ensures Coherent(read) && PolicyOrder(cfg.policy, read.files, [p]) && p in created.files && p in read.files
    ensures Handle(cfg, read, a, Write(p, false, [b]), now, [p]) == Done(written, [Note(a, Ok)])
  {
    hide HandleOpen, HandleRead, HandleWrite, PolicyOrder, Touch, NewFile, AddOpener;
    CreatedStore(cfg, EmptyStore(), a, p, now);
    var f := AddOpener(NewFile(p, now), a).(owner := a, writable := true);
    created := Store([p], map[p := f], 0, 0, 1, 1);
    read := NewFileIsRead(created, a, p, f, now);
    OneFileOrder(cfg, p, f);
    OneFileOrder(cfg, p, read.files[p]);
    written := OneByteIsWritten(cfg, read, a, p, b, now);
  }

  lemma NewFileIsRead(st: Store, a: int, p: Path, f: File, now: Time) returns (st': Store)
    requires f == AddOpener(NewFile(p, now), a).(owner := a, writable := true) && st.files == map[p := f]
    ensures HandleRead(st, a, p, now) == Done(st', [Note(a, Data([]))])
    ensures st' == st.(files := st'.files) && st'.files == map[p := Touch(f, now)]
    ensures st'.files[p].writable && st'.files[p].owner == a
  {
    assert map[p := f][p := Touch(f, now)] == map[p := Touch(f, now)];
    st' := SetFile(st, p, Touch(f, now));
  }

  lemma OneByteIsWritten(cfg: Config, st: Store, a: int, p: Path, b: Byte, now: Time) returns (st': Store)
    requires ConfigOk(cfg) && cfg.maxMemory >= 2 && st.used == 0
    requires p in st.files && st.files[p].writable && st.files[p].owner == a
    ensures HandleWrite(cfg, st, a, p, false, [b], now, [p]) == Done(st', [Note(a, Ok)])
  {
    OneByteFits(cfg, st);
    var f := Touch(ReplaceContent(st.files[p], [b]).(writable := false), now);
    PutContentOutcome(cfg, st, a, p, f, 1, false, [p]);
    st' := SetFile(NotifyMemory(st, 1), p, f);
    hide PutContent, NotifyMemory, Touch, SizeMissing;
  }

  lemma OneByteFits(cfg: Config, st: Store)
    requires ConfigOk(cfg) && cfg.maxMemory >= 2 && st.used == 0
    ensures SizeMissing(cfg, st, 1) <= 0
  {
    SizeMissingIsExactExactlyInRange(cfg, st, 1);
  }

  function StatesOf(a: int, p: Path, b: Byte, created: Store, read: Store, written: Store): seq<State> {
    [Initial(), Alone(EmptyStore(), a, Idle, []), Alone(EmptyStore(), a, Sent(Open(p, 3)), []),
     Alone(created, a, Blocked, [Note(a, Ok)]), Alone(created, a, Idle, []), Alone(created, a, Sent(Read(p)), []),
     Alone(read, a, Blocked, [Note(a, Data([]))]), Alone(read, a, Idle, []),
     Alone(read, a, Sent(Write(p, false, [b])), []), Alone(written, a, Blocked, [Note(a, Ok)])]
  }

  function EventsOf(a: int, p: Path, b: Byte, now: Time): seq<Event> {
    [Connect(a), Send(a, Open(p, 3)), HandleIt(a, now, []), Deliver(0), Send(a, Read(p)), HandleIt(a, now, [p]),
     Deliver(0), Send(a, Write(p, false, [b])), HandleIt(a, now, [p])]
  }

  lemma TheyRun(cfg: Config, a: int, p: Path, b: Byte, now: Time, created: Store, read: Store, written: Store)
    requires a != NOBODY && Coherent(created) && Coherent(read)
    requires PolicyOrder(cfg.policy, created.files, [p]) && PolicyOrder(cfg.policy, read.files, [p])
    requires Handle(cfg, EmptyStore(), a, Open(p, 3), now, []) == Done(created, [Note(a, Ok)])
    requires Handle(cfg, created, a, Read(p), now, [p]) == Done(read, [Note(a, Data([]))])
    requires Handle(cfg, read, a, Write(p, false, [b]), now, [p]) == Done(written, [Note(a, Ok)])
    ensures Run(cfg, StatesOf(a, p, b, created, read, written), EventsOf(a, p, b, now))
  {
    hide Handle, PolicyOrder, Steps, Segment, Alone, Initial, EmptyStore, Coherent;
    Starts(cfg, a);
    var states, events := [Initial(), Alone(EmptyStore(), a, Idle, [])], [Connect(a)];
    states, events := Exchange(cfg, states, events, EmptyStore(), a, Open(p, 3), now, [], created, Ok);
    states, events := Exchange(cfg, states, events, created, a, Read(p), now, [p], read, Data([]));
    Asks(cfg, read, a, Write(p, false, [b]));
    SegmentSnoc(cfg, states, events, Send(a, Write(p, false, [b])), Alone(read, a, Sent(Write(p, false, [b])), []));
    states := states + [Alone(read, a, Sent(Write(p, false, [b])), [])];
    events := events + [Send(a, Write(p, false, [b]))];
    IsServed(cfg, read, a, Write(p, false, [b]), now, [p], written, Ok);
    SegmentSnoc(cfg, states, events, HandleIt(a, now, [p]), Alone(written, a, Blocked, [Note(a, Ok)]));
    assert states + [Alone(written, a, Blocked, [Note(a, Ok)])] == StatesOf(a, p, b, created, read, written);
    assert events + [HandleIt(a, now, [p])] == EventsOf(a, p, b, now);
  }

  lemma LastIsAnAcceptedWrite(cfg: Config, st: Store, st': Store, a: int, p: Path, data: seq<Byte>, now: Time,
        order: seq<Path>)
    requires Coherent(st) && PolicyOrder(cfg.policy, st.files, order)
    requires Handle(cfg, st, a, Write(p, false, data), now, order) == Done(st', [Note(a, Ok)])
    ensures var s, e := Alone(st, a, Sent(Write(p, false, data)), []), HandleIt(a, now, order);
            HandlesWrite(cfg, s, e, a, p) && IsAccepted(cfg, s, e)
  {
    hide Handle, PolicyOrder;
  }

  lemma TheFileStays(a: int, p: Path, b: Byte, created: Store, read: Store, written: Store)
    requires p in created.files && p in read.files
    ensures Incarnation(StatesOf(a, p, b, created, read, written), 2, 8, p)
  {
    var states := StatesOf(a, p, b, created, read, written);
    forall i | 2 < i <= 8 ensures p in states[i].store.files {
      assert states[i].store == created || states[i].store == read;
    }
  }

  lemma TheReadIsInBetween(a: int, p: Path, b: Byte, now: Time, created: Store, read: Store, written: Store)
    ensures NamedInBetween(StatesOf(a, p, b, created, read, written), EventsOf(a, p, b, now), 2, 8, a, p)
  {
    var states, events := StatesOf(a, p, b, created, read, written), EventsOf(a, p, b, now);
    assert states[5] == Alone(created, a, Sent(Read(p)), []) && events[5] == HandleIt(a, now, [p]);
    assert NamedBy(states[5], events[5], a, p);
  }

  /** A client creates and locks a file, reads it, and only then writes it, with success: not what was promised. */
  lemma WriteAfterRead(cfg: Config, a: int, p: Path, b: Byte, now: Time)
    returns (states: seq<State>, events: seq<Event>)
    requires ConfigOk(cfg) && cfg.maxFiles >= 1 && cfg.maxMemory >= 2 && a != NOBODY
    ensures Run(cfg, states, events) && |states| == 10
    ensures events == [Connect(a), Send(a, Open(p, 3)), HandleIt(a, now, []), Deliver(0),
                       Send(a, Read(p)), HandleIt(a, now, [p]), Deliver(0),
                       Send(a, Write(p, false, [b])), HandleIt(a, now, [p])]
    ensures NamedBy(states[5], events[5], a, p) && states[6].outbox == [Note(a, Data([]))]
    ensures HandlesWrite(cfg, states[8], events[8], a, p) && IsAccepted(cfg, states[8], events[8])
    ensures !PreviousCreatedAndLocked(cfg, states, events, 8, a, p)
  {
    var created, read, written := CreateReadWrite(cfg, a, p, b, now);
    states, events := StatesOf(a, p, b, created, read, written), EventsOf(a, p, b, now);
    TheyRun(cfg, a, p, b, now, created, read, written);
    LastIsAnAcceptedWrite(cfg, read, written, a, p, [b], now, [p]);
    TheFileStays(a, p, b, created, read, written);
    TheReadIsInBetween(a, p, b, now, created, read, written);
    assert states[8] == Alone(read, a, Sent(Write(p, false, [b])), []) && events[8] == HandleIt(a, now, [p]);
    hide Handle, PolicyOrder, Run, HandlesWrite, IsAccepted, Incarnation, NamedInBetween, PreviousCreatedAndLocked;
    NamedIsNotPrevious(cfg, states, events, 2, 8, a, p);
  }
}
