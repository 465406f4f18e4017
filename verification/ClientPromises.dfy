/**
  Two promises of client/includes/file_storage_api.h: that operations on a file fail once it is closed, and that
  only its owner reads a locked file. For each, exactly when it holds.
*/
module ClientPromises {
  import opened Seqs
  import opened Machine
  import opened Files
  import opened Policies
  import opened Stores
  import opened Handlers
  import opened StoreInvariants
  import opened Protocol
  import opened Promises
  import opened WritePromise
  import Conversations
  import Wire

  // After closing

  predicate Opener(st: Store, c: int, p: Path) {
    p in st.files && c in st.files[p].openers.items
  }

  /** The sender is told of a failure and nothing has changed. */
  predicate Refused(st: Store, out: Outcome, c: int) {
    Rejects(out, c) && out.store == st
  }

  lemma StrangerIsRefused(cfg: Config, st: Store, c: int, p: Path, sendBack: bool, data: seq<Byte>, now: Time,
        order: seq<Path>)
    requires FilesOk(st) && c != NOBODY && !Opener(st, c, p) && forall q :: q in order ==> q in st.files
    ensures Refused(st, HandleLock(st, c, p, now), c) && Refused(st, HandleUnlock(st, c, p, now), c)
    ensures Refused(st, HandleRead(st, c, p, now), c) && Refused(st, HandleRemove(st, c, p), c)
    ensures Refused(st, HandleWrite(cfg, st, c, p, sendBack, data, now, order), c)
    ensures Refused(st, HandleAppend(cfg, st, c, p, sendBack, data, now, order), c)
  {
    if p in st.files {
      assert LockInv(st.files[p]);
    }
    hide LockInv, WriteInv, PutContent, RemoveFile;
  }

  /** A client that has not opened the file is refused every request on it but an open and, if it is there, a close. */
  lemma StrangerIsRefusedExactly(cfg: Config, st: Store, c: int, req: Request, now: Time, order: seq<Path>, p: Path)
    requires HandlerPre(cfg, st, c, order) && Names(req, p) && !req.Open? && !Opener(st, c, p)
    ensures var out := Handle(cfg, st, c, req, now, order);
            && out.Done? && !Opener(out.store, c, p)
            && (Rejects(out, c) <==> !(req.Close? && p in st.files))
            && (Rejects(out, c) ==> out.store == st)
  {
    hide PolicyOrder, Accounts, HandleLock, HandleUnlock, HandleRead, HandleRemove, HandleWrite, HandleAppend, FilesOk;
    PreMeans(cfg, st, c, order);
    match req
    case Write(_, sendBack, data) => StrangerIsRefused(cfg, st, c, p, sendBack, data, now, order);
    case Append(_, sendBack, data) => StrangerIsRefused(cfg, st, c, p, sendBack, data, now, order);
    case Close(_) => StrangerClosesTwice(cfg, st, c, p, now);
    case _ => StrangerIsRefused(cfg, st, c, p, false, [], now, order);
  }

  lemma StrangerClosesTwice(cfg: Config, st: Store, c: int, p: Path, now: Time)
    requires FilesOk(st) && c != NOBODY && !Opener(st, c, p)
    ensures var out := HandleClose(cfg, st, c, p, now);
            && out.Done? && !Opener(out.store, c, p)
            && (Rejects(out, c) <==> p !in st.files) && (Rejects(out, c) ==> out.store == st)
  {
    if p in st.files {
      StrangerCloses(cfg, st, c, p, now);
    }
  }

  lemma ClosingCloses(cfg: Config, st: Store, c: int, p: Path, now: Time)
    requires FilesOk(st)
    ensures !Opener(HandleClose(cfg, st, c, p, now).store, c, p)
  {
    if p in st.files {
      assert LockInv(st.files[p]);
      Chains.DropItems(cfg.moveTail, st.files[p].openers, c);
      WithoutMembers(st.files[p].openers.items, c);
      hide Without, Chains.Drop;
    }
  }

  // In runs

  /** The server handles a request of c to open p. */
  ghost predicate OpensBy(s: State, e: Event, c: int, p: Path) {
    NamedBy(s, e, c, p) && s.clients[c].request.Open?
  }

  ghost predicate ClosesBy(s: State, e: Event, c: int, p: Path) {
    NamedBy(s, e, c, p) && s.clients[c].request.Close?
  }

  lemma StepStaysClosed(cfg: Config, s: State, e: Event, s': State, c: int, p: Path)
    requires Inv(cfg, s) && Steps(cfg, s, e, s') && !Opener(s.store, c, p) && !OpensBy(s, e, c, p)
    ensures !Opener(s'.store, c, p)
  {
    hide Handle, HandlerPre, PolicyOrder, Inv, HandleDisconnect;
    if p !in s.store.files {
      if p in s'.store.files {
        FilesAreCreated(cfg, s, e, s', p);
      }
    } else if NamedBy(s, e, c, p) {
      SenderIsFree(cfg, s, c, e.order);
      StrangerIsRefusedExactly(cfg, s.store, c, s.clients[c].request, e.now, e.order, p);
    } else {
      assert !IsOpener(s, c, p);
      StrangerStaysStranger(cfg, s, e, s', c, p);
    }
  }

  lemma NthStaysClosed(cfg: Config, states: seq<State>, events: seq<Event>, i: nat, c: int, p: Path)
    requires Segment(cfg, states, events) && Inv(cfg, states[0]) && i + 1 < |states| && i < |events|
    requires !Opener(states[i].store, c, p) && !OpensBy(states[i], events[i], c, p)
    ensures !Opener(states[i + 1].store, c, p)
  {
    hide Inv, Steps, OpensBy, Opener, Segment;
    NthStep(cfg, states, events, i);
    SegmentKeepsInv(cfg, states, events, i);
    StepStaysClosed(cfg, states[i], events[i], states[i + 1], c, p);
  }

  lemma NthCloses(cfg: Config, states: seq<State>, events: seq<Event>, i: nat, c: int, p: Path)
    requires Segment(cfg, states, events) && Inv(cfg, states[0]) && i + 1 < |states| && i < |events|
    requires ClosesBy(states[i], events[i], c, p)
    ensures !Opener(states[i + 1].store, c, p)
  {
    hide Inv, Steps, Segment, Opener, HandleClose, HandlerPre, PolicyOrder;
    NthStep(cfg, states, events, i);
    SegmentKeepsInv(cfg, states, events, i);
    CloseStep(cfg, states[i], events[i], states[i + 1], c, p);
  }

  lemma CloseStep(cfg: Config, s: State, e: Event, s': State, c: int, p: Path)
    requires Inv(cfg, s) && Steps(cfg, s, e, s') && ClosesBy(s, e, c, p)
    ensures !Opener(s'.store, c, p)
  {
    hide Opener, HandleClose, PolicyOrder, Placed, Shape, Stored;
    ClosingCloses(cfg, s.store, c, p, e.now);
  }

  lemma {:induction false} StaysClosed(cfg: Config, states: seq<State>, events: seq<Event>, i: nat, j: nat, c: int,
        p: Path)
    requires Segment(cfg, states, events) && Inv(cfg, states[0]) && i < j < |states| == |events| + 1
    requires ClosesBy(states[i], events[i], c, p)
    requires forall m :: i < m < j ==> !OpensBy(states[m], events[m], c, p)
    ensures !Opener(states[j].store, c, p)
    decreases j
  {
    hide Inv, Steps, Segment, Opener, OpensBy, ClosesBy;
    if j == i + 1 {
      NthCloses(cfg, states, events, i, c, p);
    } else {
      StaysClosed(cfg, states, events, i, j - 1, c, p);
      NthStaysClosed(cfg, states, events, j - 1, c, p);
    }
  }

  /**
    In every run, after a client has closed a file and until it opens it again, a request of its own that names the
    file and is no open fails exactly unless it closes the file once more while it is there; and it fails without
    effect.
  */
  lemma AfterCloseExactly(cfg: Config, states: seq<State>, events: seq<Event>, i: nat, j: nat, c: int, p: Path)
    requires ConfigOk(cfg) && Run(cfg, states, events) && i < j < |events|
    requires ClosesBy(states[i], events[i], c, p)
    requires forall m :: i < m <= j ==> !OpensBy(states[m], events[m], c, p)
    requires NamedBy(states[j], events[j], c, p)
    ensures |states| == |events| + 1
    ensures var s, e := states[j], events[j];
            && Enabled(cfg, s, e)
            && var out := OutcomeOf(cfg, s, e);
               && (Rejects(out, c) <==> !(s.clients[c].request.Close? && p in s.store.files))
               && (Rejects(out, c) ==> out.store == s.store)
  {
    hide Steps;
    InitialInv(cfg);
    RunKeepsInv(cfg, states, events, j);
    hide Inv, Opener, ClosesBy, HandlerPre, PolicyOrder, Handle, Segment;
    StaysClosed(cfg, states, events, i, j, c, p);
    NthIsEnabled(cfg, states, events, j);
    SenderIsFree(cfg, states[j], c, events[j].order);
    StrangerIsRefusedExactly(cfg, states[j].store, c, states[j].clients[c].request, events[j].now, events[j].order, p);
  }

  lemma NthIsEnabled(cfg: Config, states: seq<State>, events: seq<Event>, j: nat)
    requires Segment(cfg, states, events) && j < |events|
    ensures Enabled(cfg, states[j], events[j])
  {
    NthStep(cfg, states, events, j);
  }

  // Reading what others have locked

  /** The content of p is among what c is sent. */
  ghost predicate Sees(st: Store, out: Outcome, c: int, req: Request, p: Path)
    requires p in st.files
  {
    && out.Done?
    && exists i :: 0 <= i < |out.notes| && out.notes[i].client == c && Shows(st.files[p], out.notes[i].reply, req, p)
  }

  predicate Shows(f: File, reply: Reply, req: Request, p: Path) {
    || (req.Read? && req.path == p && reply == Data(Content(f)))
    || (reply.Several? && (p, Content(f)) in reply.files)
  }

  /** What write and append ask of their sender before there is a question of room. */
  predicate MayStore(st: Store, c: int, req: Request) {
    match req
    case Write(q, _, _) => q in st.files && st.files[q].writable && st.files[q].owner == c
    case Append(q, _, _) =>
      q in st.files && c in st.files[q].openers.items && (st.files[q].owner == NOBODY || st.files[q].owner == c)
    case _ => false
  }

  /** The file is one of those the client gets back because its own request drives them out. */
  predicate ComesBack(cfg: Config, st: Store, c: int, req: Request, order: seq<Path>, p: Path)
    requires forall q :: q in order ==> q in st.files
  {
    && (req.Write? || req.Append?) && req.sendBack && MayStore(st, c, req)
    && p in ToReplace(cfg, st, req.path, req.data, order)
  }

  lemma PayloadHolds(files: FileMap, paths: seq<Path>, p: Path)
    requires p in files && (forall q :: q in paths ==> q in files && files[q].path == q)
    ensures (p, Files.Content(files[p])) in Payload(files, paths) <==> p in paths
  {
    var payload := Payload(files, paths);
    if p in paths {
      var i :| 0 <= i < |paths| && paths[i] == p;
      assert payload[i] == (p, Files.Content(files[p]));
    }
    if (p, Files.Content(files[p])) in payload {
      var i :| 0 <= i < |payload| && payload[i] == (p, Files.Content(files[p]));
      assert paths[i] == p;
    }
  }

  /** Bare successes and failures show nothing. */
  lemma BareShowsNothing(st: Store, out: Outcome, c: int, req: Request, p: Path)
    requires p in st.files && Conversations.OutcomeFits(out, c, Wire.Nothing)
    ensures !Sees(st, out, c, req, p)
  {
  }

  lemma OnlyNoteShows(st: Store, out: Outcome, c: int, req: Request, p: Path)
    requires p in st.files && out.Done? && |out.notes| == 1
    ensures Sees(st, out, c, req, p) <==> out.notes[0].client == c && Shows(st.files[p], out.notes[0].reply, req, p)
  {
  }

  lemma ReadShowsExactly(st: Store, c: int, q: Path, now: Time, p: Path)
    requires p in st.files
    ensures Sees(st, HandleRead(st, c, q, now), c, Read(q), p)
            <==> q == p && c in st.files[p].openers.items && (st.files[p].owner == NOBODY || st.files[p].owner == c)
  {
    OnlyNoteShows(st, HandleRead(st, c, q, now), c, Read(q), p);
    hide Sees;
  }

  lemma SameMembers<T>(xs: seq<T>, x: T)
    ensures x in Reverse(xs) <==> x in xs
  {
    hide Reverse;
    assert forall i :: 0 <= i < |xs| ==> Reverse(xs)[|xs| - 1 - i] == xs[i];
  }

  lemma ReadNShowsExactly(st: Store, c: int, n: int, p: Path)
    requires Shape(st) && p in st.files
    ensures Sees(st, HandleReadN(st, c, n), c, ReadN(n), p) <==> p in st.names[..ReadCount(n, st.count)]
  {
    hide Reverse, Payload, Sees;
    var chosen := st.names[..ReadCount(n, st.count)];
    SameMembers(chosen, p);
    assert forall q :: q in Reverse(chosen) ==> q in chosen;
    PayloadHolds(st.files, Reverse(chosen), p);
    OnlyNoteShows(st, HandleReadN(st, c, n), c, ReadN(n), p);
    assert HandleReadN(st, c, n).notes[0] == Note(c, Several(Payload(st.files, Reverse(chosen))));
  }

  /** After the first note come only bare ones. */
  ghost predicate BareAfterFirst(notes: seq<Note>) {
    notes != [] && forall i :: 0 < i < |notes| ==> notes[i].reply.Failed?
  }

  lemma FirstNoteShows(st: Store, out: Outcome, c: int, req: Request, p: Path)
    requires p in st.files && out.Done? && BareAfterFirst(out.notes)
    ensures Sees(st, out, c, req, p) <==> out.notes[0].client == c && Shows(st.files[p], out.notes[0].reply, req, p)
  {
  }

  lemma {:induction false} EvictionNotesAreFailures(files: FileMap, victims: seq<Path>)
    requires forall v :: v in victims ==> v in files
    ensures forall i :: 0 <= i < |EvictionNotes(files, victims)| ==> EvictionNotes(files, victims)[i].reply.Failed?
  {
    if victims != [] {
      EvictionNotesAreFailures(files, victims[1..]);
    }
  }

  lemma RepliesShow(cfg: Config, st: Store, c: int, victims: seq<Path>, req: Request, p: Path, sendBack: bool)
    requires Shape(st) && p in st.files && !req.Read? && forall v :: v in victims ==> v in st.files
    ensures var notes := [WriteReply(c, sendBack, st.files, victims)] + EvictionNotes(st.files, victims);
            && BareAfterFirst(notes) && notes[0].client == c
            && (Shows(st.files[p], notes[0].reply, req, p) <==> sendBack && p in victims)
  {
    hide EvictionNotes, Payload;
    EvictionNotesAreFailures(st.files, victims);
    PayloadHolds(st.files, victims, p);
  }

  lemma PutContentShowsExactly(cfg: Config, st: Store, c: int, q: Path, f: File, size: nat, sendBack: bool,
        order: seq<Path>, req: Request, p: Path)
    requires Shape(st) && p in st.files && !req.Read? && forall o :: o in order ==> o in st.files
    ensures var out, room := PutContent(cfg, st, c, q, f, size, sendBack, order), MakeRoom(cfg, st, q, size, order);
            out.Done? ==> (Sees(st, out, c, req, p) <==> sendBack && room.Made? && p in room.victims)
  {
    hide PutContent, MakeRoom, EvictionNotes, WriteReply, Sees, Shows, Shape, BareAfterFirst;
    var out, room := PutContent(cfg, st, c, q, f, size, sendBack, order), MakeRoom(cfg, st, q, size, order);
    PutContentOutcome(cfg, st, c, q, f, size, sendBack, order);
    if room.Made? {
      RepliesShow(cfg, st, c, room.victims, req, p, sendBack);
      FirstNoteShows(st, out, c, req, p);
    } else if room.Refused? {
      BareShowsNothing(st, out, c, req, p);
    }
  }

  lemma WriteShowsExactly(cfg: Config, st: Store, c: int, q: Path, sendBack: bool, data: seq<Byte>, now: Time,
        order: seq<Path>, p: Path)
    requires Shape(st) && p in st.files && forall o :: o in order ==> o in st.files
    ensures var req := Write(q, sendBack, data);
            var out := HandleWrite(cfg, st, c, q, sendBack, data, now, order);
            out.Done? ==> (Sees(st, out, c, req, p) <==> ComesBack(cfg, st, c, req, order, p))
  {
    hide PutContent, MakeRoom, Sees, Shape;
    var req, out := Write(q, sendBack, data), HandleWrite(cfg, st, c, q, sendBack, data, now, order);
    if !MayStore(st, c, req) {
      BareShowsNothing(st, out, c, req, p);
    } else if data == [] {
      EmptyShowsNothing(st, out, c, req, p, sendBack);
    } else {
      var f := Touch(ReplaceContent(st.files[q], data).(writable := false), now);
      PutContentShowsExactly(cfg, st, c, q, f, |data|, sendBack, order, req, p);
    }
  }

  lemma AppendShowsExactly(cfg: Config, st: Store, c: int, q: Path, sendBack: bool, data: seq<Byte>, now: Time,
        order: seq<Path>, p: Path)
    requires Shape(st) && p in st.files && forall o :: o in order ==> o in st.files
    ensures var req := Append(q, sendBack, data);
            var out := HandleAppend(cfg, st, c, q, sendBack, data, now, order);
            out.Done? ==> (Sees(st, out, c, req, p) <==> ComesBack(cfg, st, c, req, order, p))
  {
    hide PutContent, MakeRoom, Sees, Shape;
    var req, out := Append(q, sendBack, data), HandleAppend(cfg, st, c, q, sendBack, data, now, order);
    if !MayStore(st, c, req) {
      BareShowsNothing(st, out, c, req, p);
    } else if data == [] {
      EmptyShowsNothing(st, out, c, req, p, sendBack);
    } else {
      var f := Touch(AppendContent(cfg.recordTotal, st.files[q], data).(writable := false), now);
      PutContentShowsExactly(cfg, st, c, q, f, |data|, sendBack, order, req, p);
    }
  }

  lemma EmptyShowsNothing(st: Store, out: Outcome, c: int, req: Request, p: Path, sendBack: bool)
    requires p in st.files && !req.Read? && out.Done? && out.notes == [WriteReply(c, sendBack, st.files, [])]
    ensures !Sees(st, out, c, req, p)
  {
    OnlyNoteShows(st, out, c, req, p);
    hide Sees;
  }

  /**
    For every request, whose content its sender is sent: that of the file it may read, of those it reads n of, or of
    those its own data drives out.
  */
  lemma SeesExactly(cfg: Config, st: Store, c: int, req: Request, now: Time, order: seq<Path>, p: Path)
    requires HandlerPre(cfg, st, c, order) && p in st.files && Handle(cfg, st, c, req, now, order).Done?
    ensures Sees(st, Handle(cfg, st, c, req, now, order), c, req, p) <==>
              match req
              case Read(q) =>
                q == p && c in st.files[p].openers.items && (st.files[p].owner == NOBODY || st.files[p].owner == c)
              case ReadN(n) => p in st.names[..ReadCount(n, st.count)]
              case _ => ComesBack(cfg, st, c, req, order, p)
  {
    hide HandleOpen, HandleLock, HandleUnlock, HandleClose, HandleRemove, HandleRead, HandleReadN, HandleWrite,
      HandleAppend, Sees, ToReplace, HandlerPre, Shape, FilesOk, Coherent;
    PreMeans(cfg, st, c, order);
    match req
    case Read(q) => ReadShowsExactly(st, c, q, now, p);
    case ReadN(n) => ReadNShowsExactly(st, c, n, p);
    case Write(q, sendBack, data) => WriteShowsExactly(cfg, st, c, q, sendBack, data, now, order, p);
    case Append(q, sendBack, data) => AppendShowsExactly(cfg, st, c, q, sendBack, data, now, order, p);
    case Open(q, flags) =>
      Conversations.LockRequestsFit(cfg, st, c, q, flags, now);
      BareShowsNothing(st, Handle(cfg, st, c, req, now, order), c, req, p);
    case _ =>
      Conversations.LockRequestsFit(cfg, st, c, req.path, 0, now);
      BareShowsNothing(st, Handle(cfg, st, c, req, now, order), c, req, p);
  }

  /**
    A file that somebody else owns is seen exactly by a read of several that reaches it, and by a write or append
    elsewhere whose data drives it out and that asks for what is driven out; never by a read of the file itself.
  */
  lemma LockedIsSeenExactly(cfg: Config, st: Store, c: int, req: Request, now: Time, order: seq<Path>, p: Path)
    requires HandlerPre(cfg, st, c, order) && p in st.files && Handle(cfg, st, c, req, now, order).Done?
    requires st.files[p].owner != NOBODY && st.files[p].owner != c
    ensures Sees(st, Handle(cfg, st, c, req, now, order), c, req, p) <==>
              match req
              case ReadN(n) => p in st.names[..ReadCount(n, st.count)]
              case _ => ComesBack(cfg, st, c, req, order, p)
  {
    hide Handle, HandlerPre, Sees, ComesBack;
    PreMeans(cfg, st, c, order);
    SeesExactly(cfg, st, c, req, now, order, p);
    ReadsDoNotBringBack(cfg, st, c, req, order, p);
  }

  /** Reading all files shows every one of them to anybody, whoever has locked it. */
  lemma EverythingIsReadByAll(st: Store, c: int, n: int, p: Path)
    requires Shape(st) && p in st.files && n <= 0
    ensures Sees(st, HandleReadN(st, c, n), c, ReadN(n), p)
  {
    ReadNShowsExactly(st, c, n, p);
    assert st.names[..st.count] == st.names;
    hide Sees;
  }

  lemma ReadsDoNotBringBack(cfg: Config, st: Store, c: int, req: Request, order: seq<Path>, p: Path)
    requires forall q :: q in order ==> q in st.files
    ensures req.Read? ==> !ComesBack(cfg, st, c, req, order, p)
    ensures ComesBack(cfg, st, c, req, order, p) ==> req.path != p
  {
    if (req.Write? || req.Append?) && req.data != [] {
      ReplacedIsAnother(cfg, st, req.path, |req.data|, order);
    }
  }

  lemma ReplacedIsAnother(cfg: Config, st: Store, p: Path, size: int, order: seq<Path>)
    requires forall q :: q in order ==> q in st.files
    ensures var room := MakeRoom(cfg, st, p, size, order);
            room.Made? ==> p !in room.victims
  {
  }
}
