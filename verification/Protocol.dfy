/**
  The server and its clients as a state machine. A client sends one request and blocks until it is
  answered (client/src/file_storage_api.c). A request is handled in one step, the section under the file
  system lock; the answers it gives rise to, for its sender and for others, are delivered one by one in
  any order, since they are written after the lock is released and by different threads.
*/
module Protocol {
  import opened Seqs
  import opened Chains
  import opened Machine
  import opened Files
  import opened Policies
  import opened Stores
  import opened Handlers
  import opened StoreInvariants
  import opened Routing

  /** Sent: the request is on its way to a handler. Blocked: it has been handled, the answer is due. */
  datatype Phase = Idle | Sent(request: Request) | Blocked

  datatype State = State(store: Store, clients: map<int, Phase>, outbox: seq<Note>)

  datatype Event =
    | Connect(client: int)
    | Send(client: int, request: Request)
    | HandleIt(client: int, now: Time, order: seq<Path>)
    | Deliver(index: nat)
    | Disconnect(client: int)

  datatype Result = Stuck | Next(state: State)

  function Initial(): State {
    State(EmptyStore(), map[], [])
  }

  ghost predicate Enabled(cfg: Config, s: State, e: Event) {
    match e
    case Connect(c) => c != NOBODY && c !in s.clients
    case Send(c, _) => c in s.clients && s.clients[c].Idle?
    case HandleIt(c, _, order) =>
      c in s.clients && s.clients[c].Sent? && Coherent(s.store) && PolicyOrder(cfg.policy, s.store.files, order)
    case Deliver(i) => i < |s.outbox|
    case Disconnect(c) => c in s.clients && Coherent(s.store)
  }

  /** The client whose request, reply or disconnection a step is about. */
  function Actor(s: State, e: Event): int {
    match e
    case Connect(c) => c
    case Send(c, _) => c
    case HandleIt(c, _, _) => c
    case Deliver(i) => if i < |s.outbox| then s.outbox[i].client else NOBODY
    case Disconnect(c) => c
  }

  /** Messages to a closed descriptor are lost. */
  function WithoutMail(notes: seq<Note>, c: int): seq<Note> {
    if notes == [] then []
    else (if notes[0].client == c then [] else [notes[0]]) + WithoutMail(notes[1..], c)
  }

  function OutcomeOf(cfg: Config, s: State, e: Event): Outcome
    requires Enabled(cfg, s, e) && e.HandleIt?
  {
    Handle(cfg, s.store, e.client, s.clients[e.client].request, e.now, e.order)
  }

  function Step(cfg: Config, s: State, e: Event): Result
    requires Enabled(cfg, s, e)
  {
    match e
    case Connect(c) => Next(s.(clients := s.clients[c := Idle]))
    case Send(c, request) => Next(s.(clients := s.clients[c := Sent(request)]))
    case HandleIt(c, now, order) =>
      (match OutcomeOf(cfg, s, e)
       case Undefined => Stuck
       case Done(store, notes) => Next(State(store, s.clients[c := Blocked], s.outbox + notes)))
    case Deliver(i) =>
      var c := s.outbox[i].client;
      Next(State(s.store, if c in s.clients then s.clients[c := Idle] else s.clients, RemoveAt(s.outbox, i)))
    case Disconnect(c) =>
      var out := HandleDisconnect(cfg, s.store, c);
      Next(State(out.store, s.clients - {c}, WithoutMail(s.outbox, c) + out.notes))
  }

  ghost predicate Steps(cfg: Config, s: State, e: Event, s': State) {
    Enabled(cfg, s, e) && Step(cfg, s, e) == Next(s')
  }

  /** A stretch of a run: one more state than there are events. */
  ghost predicate Segment(cfg: Config, states: seq<State>, events: seq<Event>) {
    && |states| == |events| + 1
    && forall i :: 0 <= i < |events| ==> Steps(cfg, states[i], events[i], states[i + 1])
  }

  ghost predicate Run(cfg: Config, states: seq<State>, events: seq<Event>) {
    Segment(cfg, states, events) && states[0] == Initial()
  }

  lemma NthStep(cfg: Config, states: seq<State>, events: seq<Event>, i: nat)
    requires Segment(cfg, states, events) && i < |events|
    ensures |states| == |events| + 1 && Steps(cfg, states[i], events[i], states[i + 1])
  {
  }

  // The invariant

  /** Where a request without an answer is: in dispatch, in a lock queue, or answered but not delivered. */
  ghost predicate Placed(s: State) {
    && AtMostOneQueue(s.store)
    && DistinctClients(s.outbox)
    && (forall x :: Waits(s.store, x) ==> x in s.clients && s.clients[x].Blocked?)
    && (forall x :: Told(s.outbox, x) ==> x in s.clients && s.clients[x].Blocked?)
    && (forall x :: Told(s.outbox, x) ==> !Waits(s.store, x))
    && (forall x :: x in s.clients && s.clients[x].Blocked? ==> Told(s.outbox, x) || Waits(s.store, x))
  }

  ghost predicate Known(st: Store, clients: map<int, Phase>) {
    forall p, x :: p in st.files && x in st.files[p].openers.items ==> x in clients
  }

  ghost predicate Inv(cfg: Config, s: State) {
    && ConfigOk(cfg) && StoreInv(cfg, s.store)
    && Placed(s)
    && Known(s.store, s.clients) && NOBODY !in s.clients
  }

  lemma InitialInv(cfg: Config)
    requires ConfigOk(cfg)
    ensures Inv(cfg, Initial())
  {
  }

  lemma WithoutMailTells(notes: seq<Note>, c: int)
    requires DistinctClients(notes)
    ensures forall x :: Told(WithoutMail(notes, c), x) <==> Told(notes, x) && x != c
    ensures DistinctClients(WithoutMail(notes, c))
  {
    if notes != [] {
      var n, rest := notes[0], notes[1..];
      assert DistinctClients(rest);
      WithoutMailTells(rest, c);
      OneNote(n);
      assert notes == [n] + rest;
      ToldOfSum([n], rest);
      assert forall i :: 0 <= i < |rest| ==> rest[i] == notes[i + 1];
      assert !Told(rest, n.client);
      ToldOfSum([n], WithoutMail(rest, c));
      ToldOfSum([], WithoutMail(rest, c));
    }
  }

  lemma RemoveNoteTells(notes: seq<Note>, i: nat)
    requires DistinctClients(notes) && i < |notes|
    ensures forall x :: Told(RemoveAt(notes, i), x) <==> Told(notes, x) && x != notes[i].client
    ensures DistinctClients(RemoveAt(notes, i))
  {
    var less := RemoveAt(notes, i);
    assert forall j :: 0 <= j < |less| ==> less[j] == notes[if j < i then j else j + 1];
    forall x | Told(notes, x) && x != notes[i].client ensures Told(less, x) {
      var j :| 0 <= j < |notes| && notes[j].client == x;
      assert less[if j < i then j else j - 1].client == x;
    }
  }

  /** One section of the server keeps every pending request in one place. */
  lemma SectionKeepsPlaces(s: State, c: int, store: Store, notes: seq<Note>)
    requires Placed(s) && c in s.clients && !s.clients[c].Blocked?
    requires Routes(s.store, store, c, notes)
    ensures Placed(State(store, s.clients[c := Blocked], s.outbox + notes))
  {
    var s' := State(store, s.clients[c := Blocked], s.outbox + notes);
    forall x | Told(s.outbox, x) ensures !Told(notes, x) {
      assert x != c;
    }
    ToldOfSum(s.outbox, notes);
    OthersStayPlaced(s, c, store, notes);
  }

  /** Of the clients other than c, the ones that left a queue are exactly the ones told. */
  lemma OthersStayPlaced(s: State, c: int, store: Store, notes: seq<Note>)
    requires Placed(s) && RoutesOthers(s.store, store, c, notes)
    ensures forall x :: x != c ==> (Waits(store, x) <==> Waits(s.store, x) && !Told(notes, x))
    ensures forall p, q, x :: x != c && InQueue(store, p, x) && InQueue(store, q, x) ==> p == q
  {
  }

  lemma DisconnectKeepsPlaces(s: State, c: int, store: Store, notes: seq<Note>)
    requires Placed(s) && c in s.clients
    requires RoutesOthers(s.store, store, c, notes) && !Told(notes, c) && NoTrace(store, c)
    ensures Placed(State(store, s.clients - {c}, WithoutMail(s.outbox, c) + notes))
  {
    WithoutMailTells(s.outbox, c);
    var mail := WithoutMail(s.outbox, c);
    forall x | Told(mail, x) ensures !Told(notes, x) {
    }
    ToldOfSum(mail, notes);
    OthersStayPlaced(s, c, store, notes);
    assert !Waits(store, c);
  }

  ghost predicate OnlyOpens(st: Store, st': Store, c: int) {
    forall p, x :: p in st'.files && x in st'.files[p].openers.items ==>
      x == c || (p in st.files && x in st.files[p].openers.items)
  }

  lemma PutContentOpensNothing(cfg: Config, st: Store, c: int, p: Path, f: File, size: nat, sendBack: bool,
        order: seq<Path>)
    requires ConfigOk(cfg) && StoreInv(cfg, st) && PolicyOrder(cfg.policy, st.files, order)
    requires p in st.files && f.openers == st.files[p].openers
    ensures var out := PutContent(cfg, st, c, p, f, size, sendBack, order);
            out.Done? ==> OnlyOpens(st, out.store, c)
  {
    MakeRoomConserves(cfg, st, p, size, order);
  }

  lemma CloseOpensNothing(cfg: Config, st: Store, c: int, p: Path, now: Time)
    requires FilesOk(st)
    ensures OnlyOpens(st, HandleClose(cfg, st, c, p, now).store, c)
  {
    if p in st.files {
      DropItems(cfg.moveTail, st.files[p].openers, c);
      WithoutMembers(st.files[p].openers.items, c);
    }
  }

  lemma TakeLockOpensNothing(st: Store, c: int, p: Path, f: File, now: Time)
    requires p in st.files && forall x :: x in f.openers.items ==> x == c || x in st.files[p].openers.items
    ensures var out := TakeLock(st, c, p, f, now);
            out.Done? ==> OnlyOpens(st, out.store, c)
  {
  }

  lemma LockOpensNothing(st: Store, c: int, p: Path, now: Time)
    ensures var out := HandleLock(st, c, p, now);
            out.Done? ==> OnlyOpens(st, out.store, c)
  {
  }

  lemma OpenOpensForTheSender(cfg: Config, st: Store, c: int, p: Path, flags: int, now: Time)
    ensures var out := HandleOpen(cfg, st, c, p, flags, now);
            out.Done? ==> OnlyOpens(st, out.store, c)
  {
    hide TakeLock, IsFull;
    if p in st.files {
      var f := st.files[p];
      TakeLockOpensNothing(st, c, p, if c in f.openers.items then f else AddOpener(f, c), now);
    }
  }

  lemma WriteOpensNothing(cfg: Config, st: Store, c: int, p: Path, sendBack: bool, data: seq<Byte>, now: Time,
        order: seq<Path>)
    requires ConfigOk(cfg) && StoreInv(cfg, st) && PolicyOrder(cfg.policy, st.files, order)
    ensures var out := HandleWrite(cfg, st, c, p, sendBack, data, now, order);
            out.Done? ==> OnlyOpens(st, out.store, c)
  {
    hide PutContent, StoreInv, Consistent;
    if p in st.files {
      var f := Touch(ReplaceContent(st.files[p], data).(writable := false), now);
      PutContentOpensNothing(cfg, st, c, p, f, |data|, sendBack, order);
    }
  }

  lemma AppendOpensNothing(cfg: Config, st: Store, c: int, p: Path, sendBack: bool, data: seq<Byte>, now: Time,
        order: seq<Path>)
    requires ConfigOk(cfg) && StoreInv(cfg, st) && PolicyOrder(cfg.policy, st.files, order)
    ensures var out := HandleAppend(cfg, st, c, p, sendBack, data, now, order);
            out.Done? ==> OnlyOpens(st, out.store, c)
  {
    hide PutContent, StoreInv, Consistent;
    if p in st.files {
      var f := Touch(AppendContent(cfg.recordTotal, st.files[p], data).(writable := false), now);
      PutContentOpensNothing(cfg, st, c, p, f, |data|, sendBack, order);
    }
  }

  lemma RestOpensNothing(st: Store, c: int, p: Path, now: Time)
    ensures OnlyOpens(st, HandleUnlock(st, c, p, now).store, c)
    ensures OnlyOpens(st, HandleRead(st, c, p, now).store, c)
    ensures HandleRemove(st, c, p).Done? ==> OnlyOpens(st, HandleRemove(st, c, p).store, c)
  {
  }

  lemma NewOpenerIsTheSender(cfg: Config, st: Store, c: int, req: Request, now: Time, order: seq<Path>)
    requires HandlerPre(cfg, st, c, order)
    ensures var out := Handle(cfg, st, c, req, now, order);
            out.Done? ==> OnlyOpens(st, out.store, c)
  {
    match req
    case Open(p, flags) => OpenOpensForTheSender(cfg, st, c, p, flags, now);
    case Lock(p) => LockOpensNothing(st, c, p, now);
    case Unlock(p) => RestOpensNothing(st, c, p, now);
    case Read(p) => RestOpensNothing(st, c, p, now);
    case ReadN(n) =>
    case Write(p, sendBack, data) => WriteOpensNothing(cfg, st, c, p, sendBack, data, now, order);
    case Append(p, sendBack, data) => AppendOpensNothing(cfg, st, c, p, sendBack, data, now, order);
    case Close(p) => CloseOpensNothing(cfg, st, c, p, now);
    case Remove(p) => RestOpensNothing(st, c, p, now);
  }

  lemma DisconnectKeepsKnown(cfg: Config, s: State, c: int)
    requires Inv(cfg, s) && c in s.clients
    ensures Known(HandleDisconnect(cfg, s.store, c).store, s.clients - {c})
  {
    forall p | p in s.store.files
      ensures var g := ForgetClient(cfg.moveTail, s.store.files[p], c);
              c !in g.openers.items && forall x :: x in g.openers.items ==> x in s.clients
    {
      ForgetKeepsLockInv(cfg.moveTail, s.store.files[p], c);
    }
  }

  /** The assumption of the handlers is met whenever a request is handled. */
  lemma SenderIsFree(cfg: Config, s: State, c: int, order: seq<Path>)
    requires Inv(cfg, s) && c in s.clients && !s.clients[c].Blocked?
    requires PolicyOrder(cfg.policy, s.store.files, order)
    ensures HandlerPre(cfg, s.store, c, order)
  {
    forall p | p in s.store.files ensures c !in s.store.files[p].waiters.items {
      assert InQueue(s.store, p, c) ==> Waits(s.store, c);
    }
  }

  lemma HandledRequestKeepsInv(cfg: Config, s: State, c: int, now: Time, order: seq<Path>)
    requires Inv(cfg, s) && c in s.clients && s.clients[c].Sent? && PolicyOrder(cfg.policy, s.store.files, order)
    ensures var out := Handle(cfg, s.store, c, s.clients[c].request, now, order);
            out.Done? ==> Inv(cfg, State(out.store, s.clients[c := Blocked], s.outbox + out.notes))
  {
    var req := s.clients[c].request;
    SenderIsFree(cfg, s, c, order);
    HandleKeepsInv(cfg, s.store, c, req, now, order);
    HandleRoutes(cfg, s.store, c, req, now, order);
    NewOpenerIsTheSender(cfg, s.store, c, req, now, order);
    var out := Handle(cfg, s.store, c, req, now, order);
    hide Handle, HandlerPre, StoreInv, PolicyOrder;
    if out.Done? {
      SectionKeepsPlaces(s, c, out.store, out.notes);
      hide Placed, Routes;
    }
  }

  lemma StepKeepsInv(cfg: Config, s: State, e: Event, s': State)
    requires Inv(cfg, s) && Steps(cfg, s, e, s')
    ensures Inv(cfg, s')
  {
    match e
    case Connect(c) =>
    case Send(c, request) =>
    case HandleIt(c, now, order) =>
      HandledRequestKeepsInv(cfg, s, c, now, order);
    case Deliver(i) =>
      RemoveNoteTells(s.outbox, i);
      assert Told(s.outbox, s.outbox[i].client);
    case Disconnect(c) =>
      DisconnectKeepsInv(cfg, s.store, c);
      DisconnectRoutes(cfg, s.store, c);
      DisconnectKeepsPlaces(s, c, s'.store, HandleDisconnect(cfg, s.store, c).notes);
      DisconnectKeepsKnown(cfg, s, c);
  }

  lemma {:induction false} SegmentKeepsInv(cfg: Config, states: seq<State>, events: seq<Event>, i: nat)
    requires Segment(cfg, states, events) && Inv(cfg, states[0]) && i < |states|
    ensures Inv(cfg, states[i])
  {
    if i > 0 {
      SegmentKeepsInv(cfg, states, events, i - 1);
      StepKeepsInv(cfg, states[i - 1], events[i - 1], states[i]);
    }
  }

  lemma RunBegins(cfg: Config, states: seq<State>, events: seq<Event>)
    requires ConfigOk(cfg) && Run(cfg, states, events)
    ensures Segment(cfg, states, events) && |states| == |events| + 1 && states[0] == Initial() && Inv(cfg, states[0])
  {
    hide Steps;
    InitialInv(cfg);
  }

  /** The invariant holds in every state of every run. */
  lemma RunKeepsInv(cfg: Config, states: seq<State>, events: seq<Event>, i: nat)
    requires ConfigOk(cfg) && Run(cfg, states, events) && i < |states|
    ensures Inv(cfg, states[i])
  {
    InitialInv(cfg);
    SegmentKeepsInv(cfg, states, events, i);
  }

  // Exactly one place

  datatype Place = InDispatch | InLockQueue(path: Path, index: nat) | InMail(index: nat)

  ghost function Places(s: State, c: int): set<Place>
    requires c in s.clients
  {
    (if s.clients[c].Sent? then {InDispatch} else {}) + QueuePlaces(s, c) + MailPlaces(s, c)
  }

  ghost function QueuePlaces(s: State, c: int): set<Place> {
    set p, i | p in s.store.files && 0 <= i < |s.store.files[p].waiters.items|
               && s.store.files[p].waiters.items[i] == c :: InLockQueue(p, i)
  }

  ghost function MailPlaces(s: State, c: int): set<Place> {
    set i | 0 <= i < |s.outbox| && s.outbox[i].client == c :: InMail(i)
  }

  /**
    In every state of every run a client without a pending request is nowhere, and one with a pending
    request is in exactly one place.
  */
  lemma PendingRequestIsInExactlyOnePlace(cfg: Config, s: State, c: int)
    requires Inv(cfg, s) && c in s.clients
    ensures |Places(s, c)| == if s.clients[c].Idle? then 0 else 1
  {
    QueuePlacesAreOne(cfg, s, c);
    MailPlacesAreOne(s, c);
    hide Inv;
    var queued, mailed := QueuePlaces(s, c), MailPlaces(s, c);
    if s.clients[c].Sent? {
      assert Places(s, c) == {InDispatch};
    } else if Told(s.outbox, c) {
      assert Places(s, c) == mailed;
    } else {
      assert Places(s, c) == queued;
    }
  }

  lemma QueuePlacesAreOne(cfg: Config, s: State, c: int)
    requires Inv(cfg, s)
    ensures |QueuePlaces(s, c)| == if Waits(s.store, c) then 1 else 0
  {
    var places := QueuePlaces(s, c);
    if Waits(s.store, c) {
      var p :| InQueue(s.store, p, c);
      var ws := s.store.files[p].waiters.items;
      var i :| 0 <= i < |ws| && ws[i] == c;
      assert LockInv(s.store.files[p]);
      forall place | place in places ensures place == InLockQueue(p, i) {
        assert InQueue(s.store, place.path, c);
      }
      assert places == {InLockQueue(p, i)};
    } else {
      forall place | place in places ensures false {
        assert InQueue(s.store, place.path, c);
      }
      assert places == {};
    }
  }

  lemma MailPlacesAreOne(s: State, c: int)
    requires DistinctClients(s.outbox)
    ensures |MailPlaces(s, c)| == if Told(s.outbox, c) then 1 else 0
  {
    if Told(s.outbox, c) {
      var i :| 0 <= i < |s.outbox| && s.outbox[i].client == c;
      assert MailPlaces(s, c) == {InMail(i)};
    } else {
      assert MailPlaces(s, c) == {};
    }
  }
}
