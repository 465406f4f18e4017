/**
  Whole runs: what a client may conclude from the answer to a request for a lock. A success means that it owns the file,
  unless the file has left the store since it asked; the failure that says so means that the file has.
*/
module LockAnswers {
  import opened Machine
  import opened Files
  import opened Policies
  import opened Stores
  import opened Handlers
  import opened StoreInvariants
  import opened Routing
  import opened Protocol
  import opened ExclusiveRuns
  import opened Answers
  import opened Effects
  import opened Conversations
  import opened Handover

  predicate WantsTheLock(asked: Asked, p: Path) {
    asked.Last? && AsksForLock(asked.request, p)
  }

  /** Since x sent its last request, p has been out of the store. */
  ghost predicate GoneSince(states: seq<State>, events: seq<Event>, n: nat, x: int, p: Path)
    requires n <= |events| < |states|
  {
    && n > 0 && !(events[n - 1].Send? && events[n - 1].client == x)
    && (p !in states[n].store.files || GoneSince(states, events, n - 1, x, p))
  }

  /** What the answer says of p is so. */
  ghost predicate IsTrue(states: seq<State>, events: seq<Event>, n: nat, note: Note, p: Path)
    requires n <= |events| < |states|
  {
    && (note.reply == Ok ==>
          OwnedBy(states[n].store, note.client, p) || GoneSince(states, events, n, note.client, p))
    && (note.reply == Failed(EIDRM) ==> GoneSince(states, events, n, note.client, p))
  }

  ghost predicate WaitersHaveAsked(events: seq<Event>, n: nat, st: Store)
    requires n <= |events|
  {
    forall p, x :: InQueue(st, p, x) ==> WantsTheLock(LastAsked(events, n, x), p)
  }

  ghost predicate MailIsTrue(states: seq<State>, events: seq<Event>, n: nat)
    requires n <= |events| < |states|
  {
    forall note, p :: note in states[n].outbox && WantsTheLock(LastAsked(events, n, note.client), p) ==>
      IsTrue(states, events, n, note, p)
  }

  /** Requests under way are the ones last sent, and so are those of waiters; answers due to them are true. */
  ghost predicate Truthful(states: seq<State>, events: seq<Event>, n: nat)
    requires n <= |events| < |states|
  {
    var s := states[n];
    && (forall c :: c in s.clients && s.clients[c].Sent? ==> LastAsked(events, n, c) == Last(s.clients[c].request))
    && WaitersHaveAsked(events, n, s.store) && MailIsTrue(states, events, n)
  }

  // Old answers stay true

  lemma StaysTrue(cfg: Config, states: seq<State>, events: seq<Event>, n: nat, note: Note, p: Path)
    requires Segment(cfg, states, events) && n < |events| && Inv(cfg, states[n])
    requires note in states[n].outbox && IsTrue(states, events, n, note, p) && events[n] != Disconnect(note.client)
    ensures |states| == |events| + 1 && IsTrue(states, events, n + 1, note, p)
  {
    NthStep(cfg, states, events, n);
    var s, e, s', x := states[n], events[n], states[n + 1], note.client;
    ToldIsBlocked(cfg, s, note);
    assert !(e.Send? && e.client == x) && !ActsFor(e, x);
    hide Segment;
    if note.reply == Ok && OwnedBy(s.store, x, p) {
      assert x != NOBODY;
      hide Inv, Steps;
      StepProtects(cfg, s, e, s', p, x);
    }
  }

  lemma ToldIsBlocked(cfg: Config, s: State, note: Note)
    requires Inv(cfg, s) && note in s.outbox
    ensures note.client in s.clients && s.clients[note.client].Blocked?
  {
    var i :| 0 <= i < |s.outbox| && s.outbox[i] == note;
    assert Told(s.outbox, note.client);
  }

  lemma {:induction false} KeptMail(notes: seq<Note>, c: int, note: Note)
    requires note in WithoutMail(notes, c)
    ensures note in notes && note.client != c
  {
    if note != notes[0] || notes[0].client == c {
      KeptMail(notes[1..], c, note);
    }
  }

  /** An answer in the mail after a step was there before or is new. */
  lemma OldOrNew(cfg: Config, s: State, e: Event, s': State, note: Note)
    requires Steps(cfg, s, e, s') && note in s'.outbox
    ensures (note in s.outbox && e != Disconnect(note.client)) || note in NewNotes(cfg, s, e)
  {
    hide Handle, HandleDisconnect, PolicyOrder;
    match e
    case Disconnect(c) =>
      if note in WithoutMail(s.outbox, c) {
        KeptMail(s.outbox, c, note);
      }
    case _ =>
  }

  // New answers are true

  /** Without the sender or with it: the failure EIDRM is only for waiters. */
  lemma SenderIsNotToldRemoved(cfg: Config, st: Store, c: int, req: Request, now: Time, order: seq<Path>, p: Path)
    requires HandlerPre(cfg, st, c, order) && AsksForLock(req, p) && Handle(cfg, st, c, req, now, order).Done?
    ensures Note(c, Failed(EIDRM)) !in Handle(cfg, st, c, req, now, order).notes
  {
    hide HandlerPre, TakeLock, IsFull;
    PreMeans(cfg, st, c, order);
    TakeLockTellsNoFailure(st, c, p, now);
  }

  lemma TakeLockTellsNoFailure(st: Store, c: int, p: Path, now: Time)
    ensures forall f: File :: var out := TakeLock(st, c, p, f, now);
              out.Done? ==> Note(c, Failed(EIDRM)) !in out.notes
  {
  }

  lemma NewIsTrue(cfg: Config, states: seq<State>, events: seq<Event>, n: nat, note: Note, p: Path)
    requires Segment(cfg, states, events) && n < |events| && Inv(cfg, states[n])
    requires |states| == |events| + 1 && Truthful(states, events, n) && Enabled(cfg, states[n], events[n])
    requires note in NewNotes(cfg, states[n], events[n])
    requires WantsTheLock(LastAsked(events, n + 1, note.client), p)
    ensures IsTrue(states, events, n + 1, note, p)
  {
    NthStep(cfg, states, events, n);
    var s, e, s' := states[n], events[n], states[n + 1];
    if e.HandleIt? {
      SenderIsFree(cfg, s, e.client, e.order);
      PreMeans(cfg, s.store, e.client, e.order);
    }
    hide Inv, HandlerPre, Handle, HandleDisconnect, PolicyOrder, Accounts, Shape, FilesOk, Segment, SaysWhatHappened;
    if e.HandleIt? && note.client == e.client {
      var req := s.clients[e.client].request;
      GrantedMeansOwned(cfg, s.store, e.client, req, e.now, e.order, p);
      SenderIsNotToldRemoved(cfg, s.store, e.client, req, e.now, e.order, p);
    } else {
      if e.HandleIt? {
        OthersAreToldWhatHappened(cfg, s.store, e.client, s.clients[e.client].request, e.now, e.order, note);
      } else {
        DisconnectSays(cfg, s, e.client, note);
      }
      WhatHappenedIsTrue(states, events, n, note, p);
    }
  }

  lemma DisconnectSays(cfg: Config, s: State, c: int, note: Note)
    requires Inv(cfg, s) && c in s.clients && note in HandleDisconnect(cfg, s.store, c).notes
    ensures SaysWhatHappened(s.store, HandleDisconnect(cfg, s.store, c).store, note)
  {
    HeirsAreTold(cfg, s.store, s.store.names, c, note);
  }

  lemma WhatHappenedIsTrue(states: seq<State>, events: seq<Event>, n: nat, note: Note, p: Path)
    requires n < |events| && |states| == |events| + 1 && Truthful(states, events, n) && !events[n].Send?
    requires SaysWhatHappened(states[n].store, states[n + 1].store, note)
    requires WantsTheLock(LastAsked(events, n + 1, note.client), p)
    ensures IsTrue(states, events, n + 1, note, p)
  {
    var s, s' := states[n], states[n + 1];
    assert LastAsked(events, n + 1, note.client) == LastAsked(events, n, note.client);
    if note.reply == Ok {
      var q :| InQueue(s.store, q, note.client) && OwnedBy(s'.store, note.client, q);
      assert q == p;
    } else {
      var q :| InQueue(s.store, q, note.client) && q !in s'.store.files;
      assert q == p;
    }
  }

  // The invariant

  lemma StepIsTruthful(cfg: Config, states: seq<State>, events: seq<Event>, n: nat)
    requires Segment(cfg, states, events) && n < |events| && Inv(cfg, states[n])
    requires |states| == |events| + 1 && Truthful(states, events, n)
    ensures Truthful(states, events, n + 1)
  {
    NthStep(cfg, states, events, n);
    var s, e, s', m := states[n], events[n], states[n + 1], n + 1;
    SentIsLastAsked(cfg, states, events, n);
    WaitersWantTheLock(cfg, states, events, n);
    forall note, p | note in s'.outbox && WantsTheLock(LastAsked(events, m, note.client), p)
      ensures IsTrue(states, events, m, note, p)
    {
      OldOrNew(cfg, s, e, s', note);
      if note in s.outbox && e != Disconnect(note.client) {
        ToldIsBlocked(cfg, s, note);
        hide Inv, Segment, Step;
        assert LastAsked(events, n + 1, note.client) == LastAsked(events, n, note.client);
        StaysTrue(cfg, states, events, n, note, p);
      } else {
        hide Step;
        NewIsTrue(cfg, states, events, n, note, p);
      }
    }
    hide Inv, Segment, Steps, WantsTheLock, IsTrue, LastAsked, InQueue;
  }

  lemma SentIsLastAsked(cfg: Config, states: seq<State>, events: seq<Event>, n: nat)
    requires Segment(cfg, states, events) && n < |events| < |states| && Truthful(states, events, n)
    ensures var s' := states[n + 1];
            forall c :: c in s'.clients && s'.clients[c].Sent? ==>
              LastAsked(events, n + 1, c) == Last(s'.clients[c].request)
  {
    NthStep(cfg, states, events, n);
    hide Handle, HandleDisconnect, PolicyOrder, IsTrue, WantsTheLock, InQueue, Segment;
  }

  /** A client comes to wait only for the file whose lock it asked for. */
  lemma WaitersWantTheLock(cfg: Config, states: seq<State>, events: seq<Event>, n: nat)
    requires Segment(cfg, states, events) && n < |events| && Inv(cfg, states[n])
    requires |states| == |events| + 1 && Truthful(states, events, n)
    ensures WaitersHaveAsked(events, n + 1, states[n + 1].store)
  {
    NthStep(cfg, states, events, n);
    var s, e, s' := states[n], events[n], states[n + 1];
    forall p, x | InQueue(s'.store, p, x) ensures WantsTheLock(LastAsked(events, n + 1, x), p) {
      if InQueue(s.store, p, x) {
        WaiterIsBlocked(cfg, s, p, x);
      } else {
        hide Segment;
        NewWaiterAsked(cfg, s, e, s', p, x);
      }
    }
  }

  lemma WaiterIsBlocked(cfg: Config, s: State, p: Path, x: int)
    requires Inv(cfg, s) && InQueue(s.store, p, x)
    ensures x in s.clients && s.clients[x].Blocked?
  {
    assert Waits(s.store, x);
  }

  lemma NewWaiterAsked(cfg: Config, s: State, e: Event, s': State, p: Path, x: int)
    requires Inv(cfg, s) && Steps(cfg, s, e, s') && InQueue(s'.store, p, x) && !InQueue(s.store, p, x)
    ensures e.HandleIt? && e.client == x && AsksForLock(s.clients[x].request, p)
  {
    if p !in s.store.files {
      StepCreates(cfg, s, e, s', p);
    }
    match e
    case HandleIt(c, now, order) =>
      SenderIsFree(cfg, s, c, order);
      HandleRoutes(cfg, s.store, c, s.clients[c].request, now, order);
      QueuedHasAsked(cfg, s.store, c, s.clients[c].request, now, order, p);
    case Disconnect(c) =>
      hide HandleDisconnect;
      DisconnectRoutes(cfg, s.store, c);
    case _ =>
  }

  lemma QueuedHasAsked(cfg: Config, st: Store, c: int, req: Request, now: Time, order: seq<Path>, p: Path)
    requires HandlerPre(cfg, st, c, order) && Handle(cfg, st, c, req, now, order).Done? && p in st.files
    requires InQueue(Handle(cfg, st, c, req, now, order).store, p, c)
    ensures AsksForLock(req, p)
  {
    hide HandlerPre;
    PreMeans(cfg, st, c, order);
    hide Handle, PolicyOrder, Accounts, FilesOk, Shape;
    if !AsksForLock(req, p) {
      var out := Handle(cfg, st, c, req, now, order);
      if (req == Unlock(p) || req == Close(p)) && OwnedBy(st, c, p) {
        OwnerHandsOn(cfg, st, c, req, now, order, p);
      } else {
        OtherwiseTheLockStays(cfg, st, c, req, now, order, p);
      }
    }
  }

  lemma {:induction false} RunIsTruthful(cfg: Config, states: seq<State>, events: seq<Event>, n: nat)
    requires ConfigOk(cfg) && Run(cfg, states, events) && n < |states|
    ensures n <= |events| < |states| && Truthful(states, events, n)
  {
    hide Steps;
    assert |states| == |events| + 1;
    if n > 0 {
      hide Inv, Truthful;
      RunIsTruthful(cfg, states, events, n - 1);
      RunKeepsInv(cfg, states, events, n - 1);
      StepIsTruthful(cfg, states, events, n - 1);
    }
  }

  /**
    In every run, when a client that last asked for the lock of p is answered: a success means that it owns p, unless p
    has been out of the store since it asked, and the failure EIDRM that p has.
  */
  lemma LockAnswersAreTrue(cfg: Config, states: seq<State>, events: seq<Event>, n: nat, p: Path)
    requires ConfigOk(cfg) && Run(cfg, states, events) && n < |events| && events[n].Deliver?
    ensures |events| < |states| && events[n].index < |states[n].outbox|
    ensures var note := states[n].outbox[events[n].index];
            WantsTheLock(LastAsked(events, n, note.client), p) ==> IsTrue(states, events, n, note, p)
  {
    NthStep(cfg, states, events, n);
    hide Run, WantsTheLock, IsTrue, LastAsked;
    RunIsTruthful(cfg, states, events, n);
    var note := states[n].outbox[events[n].index];
    assert note in states[n].outbox;
  }

  /** In every run a client waits only for the lock that its last request asks for. */
  lemma WaitersWaitForWhatTheyAsked(cfg: Config, states: seq<State>, events: seq<Event>, n: nat, p: Path, x: int)
    requires ConfigOk(cfg) && Run(cfg, states, events) && n < |states| && InQueue(states[n].store, p, x)
    ensures n <= |events| && WantsTheLock(LastAsked(events, n, x), p)
  {
    RunIsTruthful(cfg, states, events, n);
  }
}
