/**
  Requests, handlers and replies together: a store filled over the wire holds names that fit on the wire, and
  every answer a handler leaves, to its sender or to a client that was waiting, is one its client decodes to
  exactly what was meant.
*/
module Conversations {
  import opened Seqs
  import opened Machine
  import opened Files
  import opened Policies
  import opened Stores
  import opened Handlers
  import opened StoreInvariants
  import opened Routing
  import opened Protocol
  import opened Wire

  ghost predicate NamesFit(st: Store) {
    forall p :: p in st.files ==> 1 <= |p| <= MAX_PATH
  }

  /** The sender gets the kind of answer it waits for, anybody else a bare success or a failure. */
  ghost predicate NotesFit(notes: seq<Note>, c: int, kind: Kind) {
    forall i :: 0 <= i < |notes| ==>
      ReplyFits(if notes[i].client == c then kind else Wire.Nothing, notes[i].reply)
  }

  ghost predicate OutcomeFits(out: Outcome, c: int, kind: Kind) {
    out.Done? ==> NotesFit(out.notes, c, kind)
  }

  lemma RemovalNotesFit(waiters: seq<int>, c: int, kind: Kind)
    ensures NotesFit(RemovalNotes(waiters), c, kind)
  {
  }

  lemma {:induction false} EvictionNotesFit(files: FileMap, victims: seq<Path>, c: int, kind: Kind)
    requires forall v :: v in victims ==> v in files
    ensures NotesFit(EvictionNotes(files, victims), c, kind)
  {
    if victims != [] {
      RemovalNotesFit(files[victims[0]].waiters.items, c, kind);
      EvictionNotesFit(files, victims[1..], c, kind);
    }
  }

  lemma PayloadFits(cfg: Config, st: Store, paths: seq<Path>)
    requires ConfigOk(cfg) && Accounts(cfg, st) && NamesFit(st)
    requires |paths| <= st.count && forall p :: p in paths ==> p in st.files
    ensures ReplyFits(Wire.Files, Several(Payload(st.files, paths)))
    ensures ReplyFits(Wire.Replaced, Several(Payload(st.files, paths)))
  {
    var files := Payload(st.files, paths);
    forall f | f in files ensures FileFits(f) {
      var i :| 0 <= i < |files| && files[i] == f;
      SizeAtMostTotal(st.files, paths[i], st.names);
    }
  }

  lemma ReadFits(cfg: Config, st: Store, c: int, p: Path, now: Time)
    requires ConfigOk(cfg) && Accounts(cfg, st)
    ensures OutcomeFits(HandleRead(st, c, p, now), c, Wire.Content)
  {
    if p in st.files {
      SizeAtMostTotal(st.files, p, st.names);
    }
  }

  lemma ReadNFits(cfg: Config, st: Store, c: int, n: int)
    requires ConfigOk(cfg) && Accounts(cfg, st) && NamesFit(st)
    ensures OutcomeFits(HandleReadN(st, c, n), c, Wire.Files)
  {
    var chosen := st.names[..ReadCount(n, st.count)];
    assert forall p :: p in Reverse(chosen) ==> p in chosen;
    PayloadFits(cfg, st, Reverse(chosen));
  }

  lemma VictimsAreFew(cfg: Config, st: Store, p: Path, size: nat, order: seq<Path>)
    requires ConfigOk(cfg) && Accounts(cfg, st) && PolicyOrder(cfg.policy, st.files, order)
    ensures var room := MakeRoom(cfg, st, p, size, order);
            room.Made? ==> |room.victims| <= st.count && forall v :: v in room.victims ==> v in st.files
  {
    MakeRoomConserves(cfg, st, p, size, order);
    hide MakeRoom;
  }

  lemma PutContentFits(cfg: Config, st: Store, c: int, p: Path, f: File, size: nat, sendBack: bool, order: seq<Path>,
        kind: Kind)
    requires ConfigOk(cfg) && Accounts(cfg, st) && NamesFit(st) && PolicyOrder(cfg.policy, st.files, order)
    requires if sendBack then kind.Files? || kind.Replaced? else kind.Nothing?
    ensures OutcomeFits(PutContent(cfg, st, c, p, f, size, sendBack, order), c, kind)
  {
    hide MakeRoom, PutContent, Payload, EvictionNotes, Accounts, NamesFit, Sorted;
    VictimsAreFew(cfg, st, p, size, order);
    PutContentOutcome(cfg, st, c, p, f, size, sendBack, order);
    var room := MakeRoom(cfg, st, p, size, order);
    if room.Made? {
      EvictionNotesFit(st.files, room.victims, c, kind);
      PayloadFits(cfg, st, room.victims);
    }
  }

  lemma WriteFits(cfg: Config, st: Store, c: int, p: Path, sendBack: bool, data: seq<Byte>, now: Time, order: seq<Path>)
    requires ConfigOk(cfg) && Accounts(cfg, st) && NamesFit(st) && PolicyOrder(cfg.policy, st.files, order)
    ensures OutcomeFits(HandleWrite(cfg, st, c, p, sendBack, data, now, order), c, Expects(Write(p, sendBack, data)))
  {
    hide PutContent, Consistent, NamesFit;
    PayloadFits(cfg, st, []);
    hide Accounts;
    if p in st.files {
      var f := Touch(ReplaceContent(st.files[p], data).(writable := false), now);
      PutContentFits(cfg, st, c, p, f, |data|, sendBack, order, Expects(Write(p, sendBack, data)));
    }
  }

  lemma AppendFits(cfg: Config, st: Store, c: int, p: Path, sendBack: bool, data: seq<Byte>, now: Time,
        order: seq<Path>)
    requires ConfigOk(cfg) && Accounts(cfg, st) && NamesFit(st) && PolicyOrder(cfg.policy, st.files, order)
    ensures OutcomeFits(HandleAppend(cfg, st, c, p, sendBack, data, now, order), c, Expects(Append(p, sendBack, data)))
  {
    hide PutContent, Consistent, NamesFit;
    PayloadFits(cfg, st, []);
    hide Accounts;
    if p in st.files {
      var f := Touch(AppendContent(cfg.recordTotal, st.files[p], data).(writable := false), now);
      PutContentFits(cfg, st, c, p, f, |data|, sendBack, order, Expects(Append(p, sendBack, data)));
    }
  }

  lemma LockRequestsFit(cfg: Config, st: Store, c: int, p: Path, flags: int, now: Time)
    ensures OutcomeFits(HandleOpen(cfg, st, c, p, flags, now), c, Wire.Nothing)
    ensures OutcomeFits(HandleLock(st, c, p, now), c, Wire.Nothing)
    ensures OutcomeFits(HandleUnlock(st, c, p, now), c, Wire.Nothing)
    ensures OutcomeFits(HandleClose(cfg, st, c, p, now), c, Wire.Nothing)
    ensures OutcomeFits(HandleRemove(st, c, p), c, Wire.Nothing)
  {
  }

  lemma HandleFits(cfg: Config, st: Store, c: int, req: Request, now: Time, order: seq<Path>)
    requires HandlerPre(cfg, st, c, order) && NamesFit(st)
    ensures OutcomeFits(Handle(cfg, st, c, req, now, order), c, Expects(req))
  {
    hide HandlerPre, OutcomeFits, NamesFit;
    PreMeans(cfg, st, c, order);
    hide HandleOpen, HandleLock, HandleUnlock, HandleClose, HandleRead, HandleReadN, HandleRemove, HandleWrite,
      HandleAppend, Accounts, PolicyOrder, FilesOk, Shape, WaitsNowhere;
    match req
    case Open(p, flags) => LockRequestsFit(cfg, st, c, p, flags, now);
    case Lock(p) => LockRequestsFit(cfg, st, c, p, 0, now);
    case Unlock(p) => LockRequestsFit(cfg, st, c, p, 0, now);
    case Read(p) => ReadFits(cfg, st, c, p, now);
    case ReadN(n) => ReadNFits(cfg, st, c, n);
    case Write(p, sendBack, data) => WriteFits(cfg, st, c, p, sendBack, data, now, order);
    case Append(p, sendBack, data) => AppendFits(cfg, st, c, p, sendBack, data, now, order);
    case Close(p) => LockRequestsFit(cfg, st, c, p, 0, now);
    case Remove(p) => LockRequestsFit(cfg, st, c, p, 0, now);
  }

  /** The client reads what was sent exactly if its loop bears it, and otherwise misreads it. */
  ghost predicate Understood(kind: Kind, reply: Reply, rest: seq<Byte>) {
    DecodeReply(kind, EncodeReply(reply) + rest) == if Bearable(kind, reply) then Received(reply, rest) else Misread
  }

  /**
    Whatever a request makes the server send, to its sender or to another client, that client decodes to the
    reply that was meant, and nothing after it is consumed, exactly if the reply is one its reader bears.
  */
  lemma EveryAnswerIsUnderstood(cfg: Config, st: Store, c: int, req: Request, now: Time, order: seq<Path>, i: nat,
        rest: seq<Byte>)
    requires HandlerPre(cfg, st, c, order) && NamesFit(st)
    requires var out := Handle(cfg, st, c, req, now, order);
             out.Done? && i < |out.notes|
    ensures var note := Handle(cfg, st, c, req, now, order).notes[i];
            var kind := if note.client == c then Expects(req) else Wire.Nothing;
            Understood(kind, note.reply, rest)
  {
    HandleFits(cfg, st, c, req, now, order);
    var note := Handle(cfg, st, c, req, now, order).notes[i];
    hide Handle, EncodeReply, DecodeReply;
    ReplyRoundTrip(if note.client == c then Expects(req) else Wire.Nothing, note.reply, rest);
  }

  /** Only an open or a lock leaves its sender waiting, and both wait for a bare success. */
  lemma WaitersExpectABareAnswer(cfg: Config, st: Store, c: int, req: Request, now: Time, order: seq<Path>)
    requires HandlerPre(cfg, st, c, order) && AtMostOneQueue(st)
    requires var out := Handle(cfg, st, c, req, now, order);
             out.Done? && Waits(out.store, c)
    ensures Expects(req) == Wire.Nothing && (req.Open? || req.Lock?)
  {
    HandleRoutes(cfg, st, c, req, now, order);
    var out := Handle(cfg, st, c, req, now, order);
    assert !Told(out.notes, c);
    if !req.Open? && !req.Lock? {
      SomebodyIsTold(cfg, st, c, req, now, order);
    }
  }

  /** The first or the last note is the sender's. */
  ghost predicate Answers(out: Outcome, c: int) {
    out.Done? ==> out.notes != [] && (out.notes[0].client == c || out.notes[|out.notes| - 1].client == c)
  }

  lemma SomebodyIsTold(cfg: Config, st: Store, c: int, req: Request, now: Time, order: seq<Path>)
    requires HandlerPre(cfg, st, c, order) && !req.Open? && !req.Lock?
    ensures var out := Handle(cfg, st, c, req, now, order);
            out.Done? ==> Told(out.notes, c)
  {
    match req
    case Unlock(p) => RestIsAnswered(cfg, st, c, p, now);
    case Close(p) => RestIsAnswered(cfg, st, c, p, now);
    case Remove(p) => RestIsAnswered(cfg, st, c, p, now);
    case Read(p) => RestIsAnswered(cfg, st, c, p, now);
    case ReadN(n) => assert HandleReadN(st, c, n).notes[0].client == c;
    case Write(p, sendBack, data) => ContentIsAnswered(cfg, st, c, p, sendBack, data, now, order);
    case Append(p, sendBack, data) => ContentIsAnswered(cfg, st, c, p, sendBack, data, now, order);
  }

  lemma RestIsAnswered(cfg: Config, st: Store, c: int, p: Path, now: Time)
    ensures Answers(HandleUnlock(st, c, p, now), c)
    ensures Answers(HandleClose(cfg, st, c, p, now), c)
    ensures Answers(HandleRemove(st, c, p), c)
    ensures Answers(HandleRead(st, c, p, now), c)
  {
    hide RemoveFile, ReleaseLock, RemovalNotes;
  }

  lemma ContentIsAnswered(cfg: Config, st: Store, c: int, p: Path, sendBack: bool, data: seq<Byte>, now: Time,
        order: seq<Path>)
    requires forall q :: q in order ==> q in st.files
    ensures Answers(HandleWrite(cfg, st, c, p, sendBack, data, now, order), c)
    ensures Answers(HandleAppend(cfg, st, c, p, sendBack, data, now, order), c)
  {
    hide PutContent;
    if p in st.files {
      var f := Touch(ReplaceContent(st.files[p], data).(writable := false), now);
      var g := Touch(AppendContent(cfg.recordTotal, st.files[p], data).(writable := false), now);
      PutContentAnswersTheSender(cfg, st, c, p, f, |data|, sendBack, order);
      PutContentAnswersTheSender(cfg, st, c, p, g, |data|, sendBack, order);
    }
  }

  lemma PutContentAnswersTheSender(cfg: Config, st: Store, c: int, p: Path, f: File, size: nat, sendBack: bool,
        order: seq<Path>)
    requires forall q :: q in order ==> q in st.files
    ensures var out := PutContent(cfg, st, c, p, f, size, sendBack, order);
            out.Done? ==> out.notes != [] && out.notes[0].client == c
  {
  }

  ghost predicate NothingNewBut(st: Store, out: Outcome, p: Path) {
    out.Done? ==> forall q :: q in out.store.files ==> q in st.files || q == p
  }

  lemma PutContentAddsNoName(cfg: Config, st: Store, c: int, p: Path, f: File, size: nat, sendBack: bool,
        order: seq<Path>)
    requires ConfigOk(cfg) && Accounts(cfg, st) && PolicyOrder(cfg.policy, st.files, order)
    ensures NothingNewBut(st, PutContent(cfg, st, c, p, f, size, sendBack, order), p)
  {
    MakeRoomConserves(cfg, st, p, size, order);
    hide MakeRoom;
  }

  lemma ContentAddsNoName(cfg: Config, st: Store, c: int, p: Path, sendBack: bool, data: seq<Byte>, now: Time,
        order: seq<Path>)
    requires ConfigOk(cfg) && Accounts(cfg, st) && PolicyOrder(cfg.policy, st.files, order)
    ensures NothingNewBut(st, HandleWrite(cfg, st, c, p, sendBack, data, now, order), p)
    ensures NothingNewBut(st, HandleAppend(cfg, st, c, p, sendBack, data, now, order), p)
  {
    hide PutContent;
    if p in st.files {
      PutContentAddsNoName(cfg, st, c, p, Touch(ReplaceContent(st.files[p], data).(writable := false), now), |data|,
            sendBack, order);
      var f := Touch(AppendContent(cfg.recordTotal, st.files[p], data).(writable := false), now);
      PutContentAddsNoName(cfg, st, c, p, f, |data|, sendBack, order);
    }
  }

  lemma RestAddsNoOtherName(cfg: Config, st: Store, c: int, p: Path, flags: int, now: Time)
    ensures NothingNewBut(st, HandleOpen(cfg, st, c, p, flags, now), p)
    ensures NothingNewBut(st, HandleLock(st, c, p, now), p)
    ensures NothingNewBut(st, HandleUnlock(st, c, p, now), p)
    ensures NothingNewBut(st, HandleRead(st, c, p, now), p)
    ensures NothingNewBut(st, HandleClose(cfg, st, c, p, now), p)
    ensures NothingNewBut(st, HandleRemove(st, c, p), p)
  {
  }

  /** Names that fit are all a store ever holds if all requests come over the wire. */
  lemma NamesStayFit(cfg: Config, st: Store, c: int, req: Request, now: Time, order: seq<Path>)
    requires HandlerPre(cfg, st, c, order) && NamesFit(st) && 1 <= |PathOf(req)| <= MAX_PATH
    ensures var out := Handle(cfg, st, c, req, now, order);
            out.Done? ==> NamesFit(out.store)
  {
    hide HandleOpen, HandleLock, HandleUnlock, HandleRead, HandleClose, HandleRemove, HandleWrite, HandleAppend;
    hide LockInv, WriteInv, WaitsNowhere, Sorted;
    match req {
      case Write(p, sendBack, data) => ContentAddsNoName(cfg, st, c, p, sendBack, data, now, order);
      case Append(p, sendBack, data) => ContentAddsNoName(cfg, st, c, p, sendBack, data, now, order);
      case ReadN(n) =>
      case Open(p, flags) => RestAddsNoOtherName(cfg, st, c, p, flags, now);
      case Lock(p) => RestAddsNoOtherName(cfg, st, c, p, 0, now);
      case Unlock(p) => RestAddsNoOtherName(cfg, st, c, p, 0, now);
      case Read(p) => RestAddsNoOtherName(cfg, st, c, p, 0, now);
      case Close(p) => RestAddsNoOtherName(cfg, st, c, p, 0, now);
      case Remove(p) => RestAddsNoOtherName(cfg, st, c, p, 0, now);
    }
  }

  // Whole runs

  ghost predicate RequestFits(req: Request) {
    1 <= |PathOf(req)| <= MAX_PATH
  }

  /** All requests in flight, and so all names in the store, came over the wire. */
  ghost predicate OverTheWire(s: State) {
    && NamesFit(s.store)
    && (forall c :: c in s.clients && s.clients[c].Sent? ==> RequestFits(s.clients[c].request))
  }

  lemma StepStaysOverTheWire(cfg: Config, s: State, e: Event, s': State)
    requires Inv(cfg, s) && OverTheWire(s) && Steps(cfg, s, e, s')
    requires e.Send? ==> RequestFits(e.request)
    ensures OverTheWire(s')
  {
    match e
    case HandleIt(c, now, order) =>
      SenderIsFree(cfg, s, c, order);
      NamesStayFit(cfg, s.store, c, s.clients[c].request, now, order);
      hide Inv, NamesFit, RequestFits, Handle;
    case _ =>
  }

  lemma {:induction false} RunStaysOverTheWire(cfg: Config, states: seq<State>, events: seq<Event>, n: nat)
    requires ConfigOk(cfg) && Run(cfg, states, events) && n < |states|
    requires forall e :: e in events && e.Send? ==> RequestFits(e.request)
    ensures OverTheWire(states[n])
  {
    hide Steps;
    if n > 0 {
      NthStep(cfg, states, events, n - 1);
      hide Inv, Steps, OverTheWire, RequestFits, Run;
      RunStaysOverTheWire(cfg, states, events, n - 1);
      RunKeepsInv(cfg, states, events, n - 1);
      assert events[n - 1] in events;
      StepStaysOverTheWire(cfg, states[n - 1], events[n - 1], states[n]);
    }
  }

  // The request an answer is read for

  datatype Asked = Never | Last(request: Request)

  /** The request c sent last in the first n steps. */
  function LastAsked(events: seq<Event>, n: nat, c: int): Asked
    requires n <= |events|
  {
    if n == 0 then Never
    else if events[n - 1].Send? && events[n - 1].client == c then Last(events[n - 1].request)
    else LastAsked(events, n - 1, c)
  }

  ghost predicate AwaitsBare(asked: Asked) {
    asked.Last? && Expects(asked.request) == Wire.Nothing
  }

  ghost predicate FitsTheAsked(asked: Asked, reply: Reply) {
    asked.Last? && ReplyFits(Expects(asked.request), reply)
  }

  /** Waiters wait for a bare answer, and every answer due is of the kind its client's last request waits for. */
  ghost predicate MailFits(events: seq<Event>, n: nat, s: State)
    requires n <= |events|
  {
    && (forall c :: c in s.clients && s.clients[c].Sent? ==> LastAsked(events, n, c) == Last(s.clients[c].request))
    && (forall c :: Waits(s.store, c) ==> AwaitsBare(LastAsked(events, n, c)))
    && OutboxFits(events, n, s.outbox)
  }

  ghost predicate OutboxFits(events: seq<Event>, n: nat, outbox: seq<Note>)
    requires n <= |events|
  {
    forall i :: 0 <= i < |outbox| ==> FitsTheAsked(LastAsked(events, n, outbox[i].client), outbox[i].reply)
  }

  lemma BareFits(asked: Asked, reply: Reply)
    requires AwaitsBare(asked) && ReplyFits(Wire.Nothing, reply)
    ensures FitsTheAsked(asked, reply)
  {
  }

  lemma HandledNotesFit(cfg: Config, events: seq<Event>, n: nat, s: State, c: int, notes: seq<Note>, kind: Kind)
    requires n < |events| && !events[n].Send? && MailFits(events, n, s)
    requires LastAsked(events, n, c).Last? && Expects(LastAsked(events, n, c).request) == kind
    requires NotesFit(notes, c, kind) && forall x :: Told(notes, x) ==> x == c || Waits(s.store, x)
    ensures OutboxFits(events, n + 1, notes)
  {
    hide Expects, ReplyFits, Waits;
    forall i | 0 <= i < |notes| ensures FitsTheAsked(LastAsked(events, n + 1, notes[i].client), notes[i].reply) {
      assert Told(notes, notes[i].client);
      if notes[i].client != c {
        BareFits(LastAsked(events, n, notes[i].client), notes[i].reply);
      }
    }
  }

  lemma HandledWaitersAwaitBare(cfg: Config, events: seq<Event>, n: nat, s: State, c: int, now: Time,
        order: seq<Path>, x: int)
    requires n < |events| && !events[n].Send? && MailFits(events, n, s)
    requires Inv(cfg, s) && c in s.clients && s.clients[c].Sent? && PolicyOrder(cfg.policy, s.store.files, order)
    requires Handle(cfg, s.store, c, s.clients[c].request, now, order).Done?
    requires Waits(Handle(cfg, s.store, c, s.clients[c].request, now, order).store, x)
    ensures AwaitsBare(LastAsked(events, n + 1, x))
  {
    hide Handle, HandlerPre, Consistent, Sorted, Expects;
    var req := s.clients[c].request;
    SenderIsFree(cfg, s, c, order);
    if x == c {
      WaitersExpectABareAnswer(cfg, s.store, c, req, now, order);
    } else {
      HandleRoutes(cfg, s.store, c, req, now, order);
      var p :| InQueue(Handle(cfg, s.store, c, req, now, order).store, p, x);
      assert InQueue(s.store, p, x);
    }
  }

  lemma HandledMailFits(cfg: Config, events: seq<Event>, n: nat, s: State, c: int, now: Time, order: seq<Path>)
    requires n < |events| && events[n] == HandleIt(c, now, order) && MailFits(events, n, s)
    requires Inv(cfg, s) && OverTheWire(s) && Enabled(cfg, s, events[n])
    ensures var out := Handle(cfg, s.store, c, s.clients[c].request, now, order);
            out.Done? ==> MailFits(events, n + 1, State(out.store, s.clients[c := Blocked], s.outbox + out.notes))
  {
    hide Handle, HandlerPre, Consistent, Sorted, Expects, FitsTheAsked, NotesFit, AwaitsBare, Waits, StoreInv;
    var req := s.clients[c].request;
    var out := Handle(cfg, s.store, c, req, now, order);
    SenderIsFree(cfg, s, c, order);
    HandleFits(cfg, s.store, c, req, now, order);
    HandleRoutes(cfg, s.store, c, req, now, order);
    if out.Done? {
      HandledNotesFit(cfg, events, n, s, c, out.notes, Expects(req));
      forall x | Waits(out.store, x) ensures AwaitsBare(LastAsked(events, n + 1, x)) {
        HandledWaitersAwaitBare(cfg, events, n, s, c, now, order, x);
      }
    }
  }

  lemma {:induction false} GrantsAreBare(cfg: Config, files: FileMap, names: seq<Path>, c: int)
    requires forall p :: p in names ==> p in files
    ensures forall i :: 0 <= i < |ForgetNotes(cfg, files, names, c)| ==>
              ForgetNotes(cfg, files, names, c)[i].reply == Ok
  {
    if names != [] {
      GrantsAreBare(cfg, files, names[1..], c);
      hide Heir;
    }
  }

  lemma {:induction false} MailIsKept(events: seq<Event>, n: nat, notes: seq<Note>, c: int)
    requires n <= |events| && OutboxFits(events, n, notes)
    ensures OutboxFits(events, n, WithoutMail(notes, c))
  {
    hide FitsTheAsked, LastAsked;
    if notes != [] {
      assert forall i :: 0 <= i < |notes[1..]| ==> notes[1..][i] == notes[i + 1];
      MailIsKept(events, n, notes[1..], c);
    }
  }

  lemma DisconnectMailFits(cfg: Config, events: seq<Event>, n: nat, s: State, c: int)
    requires n < |events| && events[n] == Disconnect(c) && MailFits(events, n, s)
    requires Inv(cfg, s) && Enabled(cfg, s, events[n])
    ensures var out := HandleDisconnect(cfg, s.store, c);
            MailFits(events, n + 1, State(out.store, s.clients - {c}, WithoutMail(s.outbox, c) + out.notes))
  {
    var out := HandleDisconnect(cfg, s.store, c);
    DisconnectRoutes(cfg, s.store, c);
    GrantsAreBare(cfg, s.store.files, s.store.names, c);
    MailIsKept(events, n, s.outbox, c);
    assert out.notes == ForgetNotes(cfg, s.store.files, s.store.names, c);
    hide HandleDisconnect, ForgetNotes, Inv, FitsTheAsked;
    forall i | 0 <= i < |out.notes|
      ensures FitsTheAsked(LastAsked(events, n + 1, out.notes[i].client), out.notes[i].reply)
    {
      assert Told(out.notes, out.notes[i].client);
      BareFits(LastAsked(events, n, out.notes[i].client), out.notes[i].reply);
    }
    forall x | Waits(out.store, x) ensures AwaitsBare(LastAsked(events, n + 1, x)) {
      var p :| InQueue(out.store, p, x);
      assert x != c && InQueue(s.store, p, x);
    }
  }

  lemma SentMailFits(cfg: Config, events: seq<Event>, n: nat, s: State, c: int, request: Request)
    requires n < |events| && events[n] == Send(c, request) && MailFits(events, n, s) && Placed(s)
    requires c in s.clients && s.clients[c].Idle?
    ensures MailFits(events, n + 1, s.(clients := s.clients[c := Sent(request)]))
  {
    hide FitsTheAsked, AwaitsBare, Waits;
    forall i | 0 <= i < |s.outbox| ensures c != s.outbox[i].client {
      assert Told(s.outbox, s.outbox[i].client);
    }
  }

  lemma OtherMailFits(cfg: Config, events: seq<Event>, n: nat, s: State, s': State)
    requires n < |events| && MailFits(events, n, s) && Steps(cfg, s, events[n], s')
    requires events[n].Connect? || events[n].Deliver?
    ensures MailFits(events, n + 1, s')
  {
    var e := events[n];
    hide FitsTheAsked, AwaitsBare, Waits;
    if e.Deliver? {
      assert forall i :: 0 <= i < |s'.outbox| ==> s'.outbox[i] == s.outbox[if i < e.index then i else i + 1];
    }
  }

  lemma StepMailFits(cfg: Config, events: seq<Event>, n: nat, s: State, s': State)
    requires n < |events| && MailFits(events, n, s) && Inv(cfg, s) && OverTheWire(s) && Steps(cfg, s, events[n], s')
    ensures MailFits(events, n + 1, s')
  {
    match events[n]
    case HandleIt(c, now, order) => HandledMailFits(cfg, events, n, s, c, now, order);
    case Disconnect(c) => DisconnectMailFits(cfg, events, n, s, c);
    case Send(c, request) => SentMailFits(cfg, events, n, s, c, request);
    case _ => OtherMailFits(cfg, events, n, s, s');
  }

  lemma {:induction false} RunMailFits(cfg: Config, states: seq<State>, events: seq<Event>, n: nat)
    requires ConfigOk(cfg) && Run(cfg, states, events) && n < |states|
    requires forall e :: e in events && e.Send? ==> RequestFits(e.request)
    ensures n <= |events| && MailFits(events, n, states[n])
  {
    hide Steps;
    assert |states| == |events| + 1;
    if n > 0 {
      NthStep(cfg, states, events, n - 1);
      hide Inv, OverTheWire, RequestFits, Run, MailFits;
      RunMailFits(cfg, states, events, n - 1);
      RunKeepsInv(cfg, states, events, n - 1);
      RunStaysOverTheWire(cfg, states, events, n - 1);
      StepMailFits(cfg, events, n - 1, states[n - 1], states[n]);
    }
  }

  /**
    In every run of requests that came over the wire, at any time every answer due to a client, whoever's request
    or disconnection brought it about, is decoded for the last request of that client to exactly what was meant.
  */
  lemma AnswersInRunsAreUnderstood(cfg: Config, states: seq<State>, events: seq<Event>, n: nat, i: nat, rest: seq<Byte>)
    requires ConfigOk(cfg) && Run(cfg, states, events) && n < |states| && i < |states[n].outbox|
    requires forall e :: e in events && e.Send? ==> RequestFits(e.request)
    ensures n <= |events|
    ensures var note := states[n].outbox[i];
            var asked := LastAsked(events, n, note.client);
            && asked.Last?
            && Understood(Expects(asked.request), note.reply, rest)
  {
    RunMailFits(cfg, states, events, n);
    var note := states[n].outbox[i];
    var asked := LastAsked(events, n, note.client);
    assert FitsTheAsked(asked, note.reply);
    hide MailFits, Run, DecodeReply, EncodeReply, Expects;
    ReplyRoundTrip(Expects(asked.request), note.reply, rest);
  }

  /** So every answer delivered is understood. */
  lemma DeliveredAnswersAreUnderstood(cfg: Config, states: seq<State>, events: seq<Event>, n: nat, rest: seq<Byte>)
    requires ConfigOk(cfg) && Run(cfg, states, events) && n < |events| && events[n].Deliver?
    requires forall e :: e in events && e.Send? ==> RequestFits(e.request)
    ensures n < |states| && events[n].index < |states[n].outbox|
    ensures var note := states[n].outbox[events[n].index];
            var asked := LastAsked(events, n, note.client);
            && asked.Last?
            && Understood(Expects(asked.request), note.reply, rest)
  {
    NthStep(cfg, states, events, n);
    hide Run, DecodeReply, EncodeReply, Expects, LastAsked, RequestFits;
    AnswersInRunsAreUnderstood(cfg, states, events, n, events[n].index, rest);
  }
}
