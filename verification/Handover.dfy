/**
  Whole runs: the lock of a file changes hands exactly when its owner gives it up or somebody takes a free one, a client
  waits only for the lock it asked for, and a client told that it has the lock has it.
*/
module Handover {
  import opened Seqs
  import opened Machine
  import opened Files
  import opened Policies
  import opened Stores
  import opened Handlers
  import opened StoreInvariants
  import opened Routing
  import opened Protocol
  import opened LockRuns
  import opened Promises
  import opened Answers

  // Steps

  /** The owner of p unlocks or closes it, or is gone. */
  ghost predicate GivesUp(s: State, e: Event, p: Path) {
    && p in s.store.files && s.store.files[p].owner != NOBODY
    && (|| e == Disconnect(s.store.files[p].owner)
        || (e.HandleIt? && e.client == s.store.files[p].owner && e.client in s.clients && s.clients[e.client].Sent?
            && (s.clients[e.client].request == Unlock(p) || s.clients[e.client].request == Close(p))))
  }

  /** Somebody asks for the lock of p, which is free. */
  ghost predicate TakesFree(s: State, e: Event, p: Path) {
    && OwnedBy(s.store, NOBODY, p)
    && e.HandleIt? && e.client in s.clients && s.clients[e.client].Sent?
    && MayLock(s.store, e.client, s.clients[e.client].request, p)
  }

  /** The answers a step gives rise to. */
  ghost function NewNotes(cfg: Config, s: State, e: Event): seq<Note>
    requires Enabled(cfg, s, e)
  {
    match e
    case HandleIt(_, _, _) => (match OutcomeOf(cfg, s, e) case Done(_, notes) => notes case Undefined => [])
    case Disconnect(c) => HandleDisconnect(cfg, s.store, c).notes
    case _ => []
  }

  lemma {:induction false} HeirIsTold(cfg: Config, files: FileMap, names: seq<Path>, c: int, p: Path)
    requires (forall q :: q in names ==> q in files) && p in names
    ensures var heir := Heir(cfg.moveTail, files[p], c);
            heir != NOBODY ==> Note(heir, Ok) in ForgetNotes(cfg, files, names, c)
  {
    hide Heir;
    if p != names[0] {
      HeirIsTold(cfg, files, names[1..], c, p);
    }
  }

  lemma DisconnectHandsOn(cfg: Config, st: Store, c: int, p: Path)
    requires Shape(st) && p in st.files && LockInv(st.files[p]) && st.files[p].owner == c != NOBODY
    ensures var q, st', notes := st.files[p].waiters.items, HandleDisconnect(cfg, st, c).store,
              HandleDisconnect(cfg, st, c).notes;
            && p in st'.files
            && (if q == [] then st'.files[p].owner == NOBODY && st'.files[p].waiters.items == []
                else st'.files[p].owner == q[0] != NOBODY && st'.files[p].waiters.items == q[1..]
                     && Note(q[0], Ok) in notes)
  {
    var f := st.files[p];
    assert Chains.Drop(cfg.moveTail, f.waiters, c) == f.waiters;
    if f.waiters.items != [] {
      assert f.waiters.items[0] in f.waiters.items;
    }
    HeirIsTold(cfg, st.files, st.names, c, p);
    hide ForgetNotes, Chains.Drop;
  }

  /** Giving up the lock hands it to the head of the queue, which is told so; the others move up. */
  lemma GivenUpIsHandedOn(cfg: Config, s: State, e: Event, s': State, p: Path)
    requires Inv(cfg, s) && Steps(cfg, s, e, s') && GivesUp(s, e, p)
    ensures p in s'.store.files
    ensures var q, f' := s.store.files[p].waiters.items, s'.store.files[p];
            if q == [] then f'.owner == NOBODY && f'.waiters.items == []
            else f'.owner == q[0] && f'.waiters.items == q[1..] && Note(q[0], Ok) in NewNotes(cfg, s, e)
    ensures s'.store.files[p].owner != s.store.files[p].owner
  {
    assert LockInv(s.store.files[p]);
    hide Handle, HandleDisconnect, PolicyOrder, Placed, Known, LockInv, Accounts;
    match e
    case HandleIt(c, now, order) =>
      SenderIsFree(cfg, s, c, order);
      OwnerHandsOn(cfg, s.store, c, s.clients[c].request, now, order, p);
      HeadIsNotOwner(s.store.files[p]);
    case Disconnect(c) =>
      DisconnectHandsOn(cfg, s.store, c, p);
      HeadIsNotOwner(s.store.files[p]);
  }

  lemma HeadIsNotOwner(f: File)
    requires LockInv(f)
    ensures f.waiters.items != [] ==> f.waiters.items[0] != f.owner
  {
    if f.waiters.items != [] {
      assert f.waiters.items[0] in f.waiters.items;
    }
  }

  // When the lock changes hands

  ghost predicate SameLockAfter(st: Store, out: Outcome, p: Path)
    requires p in st.files
  {
    out.Done? && p in out.store.files ==>
      out.store.files[p].owner == st.files[p].owner && out.store.files[p].waiters.items == st.files[p].waiters.items
  }

  lemma RestLeavesTheLock(cfg: Config, st: Store, c: int, p: Path, flags: int, now: Time)
    requires p in st.files
    ensures SameLockAfter(st, HandleRead(st, c, p, now), p)
    ensures SameLockAfter(st, HandleRemove(st, c, p), p)
    ensures !OwnedBy(st, c, p) ==> SameLockAfter(st, HandleUnlock(st, c, p, now), p)
    ensures !OwnedBy(st, c, p) ==> SameLockAfter(st, HandleClose(cfg, st, c, p, now), p)
    ensures WantsCreate(flags) || !WantsLock(flags) ==> SameLockAfter(st, HandleOpen(cfg, st, c, p, flags, now), p)
    ensures c !in st.files[p].openers.items ==> SameLockAfter(st, HandleLock(st, c, p, now), p)
  {
    hide TakeLock, IsFull;
  }

  /** Any other request leaves owner and queue as they are. */
  lemma OtherwiseTheLockStays(cfg: Config, st: Store, c: int, req: Request, now: Time, order: seq<Path>, p: Path)
    requires HandlerPre(cfg, st, c, order) && p in st.files
    requires !MayLock(st, c, req, p) && !((req == Unlock(p) || req == Close(p)) && OwnedBy(st, c, p))
    ensures SameLockAfter(st, Handle(cfg, st, c, req, now, order), p)
  {
    hide HandlerPre;
    PreMeans(cfg, st, c, order);
    hide HandleOpen, HandleLock, HandleUnlock, HandleClose, HandleRead, HandleReadN, HandleRemove, HandleWrite,
      HandleAppend, Accounts, PolicyOrder, FilesOk, Shape, WaitsNowhere;
    if !Names(req, p) {
      UnnamedIsUnchanged(cfg, st, c, req, now, order, p);
    } else {
      match req
      case Write(_, sendBack, data) => WriteKeepsLocks(cfg, st, c, p, sendBack, data, now, order, p);
      case Append(_, sendBack, data) => AppendKeepsLocks(cfg, st, c, p, sendBack, data, now, order, p);
      case Open(_, flags) => RestLeavesTheLock(cfg, st, c, p, flags, now);
      case _ => RestLeavesTheLock(cfg, st, c, p, 0, now);
    }
  }

  lemma DisconnectLeavesOtherLocks(cfg: Config, st: Store, c: int, p: Path)
    requires Coherent(st) && p in st.files && st.files[p].owner != c
    ensures p in HandleDisconnect(cfg, st, c).store.files
    ensures HandleDisconnect(cfg, st, c).store.files[p].owner == st.files[p].owner
  {
  }

  lemma HandledChangesOwnerExactly(cfg: Config, s: State, e: Event, s': State, p: Path)
    requires Inv(cfg, s) && Steps(cfg, s, e, s') && p in s.store.files && p in s'.store.files && e.HandleIt?
    ensures s'.store.files[p].owner != s.store.files[p].owner <==> GivesUp(s, e, p) || TakesFree(s, e, p)
    ensures TakesFree(s, e, p) ==> s'.store.files[p].owner == e.client
  {
    var c, req := e.client, s.clients[e.client].request;
    SenderIsFree(cfg, s, c, e.order);
    PreMeans(cfg, s.store, c, e.order);
    if GivesUp(s, e, p) {
      GivenUpIsHandedOn(cfg, s, e, s', p);
    } else {
      hide Handle, HandlerPre, PolicyOrder, Inv, FilesOk, Shape, Accounts;
      if MayLock(s.store, c, req, p) {
        LockIsGrantedExactly(cfg, s.store, c, req, e.now, e.order, p);
      } else {
        OtherwiseTheLockStays(cfg, s.store, c, req, e.now, e.order, p);
      }
    }
  }

  /** The owner of a file that stays changes exactly when it is given up, or free and asked for. */
  lemma OwnerChangesExactly(cfg: Config, s: State, e: Event, s': State, p: Path)
    requires Inv(cfg, s) && Steps(cfg, s, e, s') && p in s.store.files && p in s'.store.files
    ensures s'.store.files[p].owner != s.store.files[p].owner <==> GivesUp(s, e, p) || TakesFree(s, e, p)
    ensures TakesFree(s, e, p) ==> s'.store.files[p].owner == e.client
  {
    match e
    case HandleIt(_, _, _) => HandledChangesOwnerExactly(cfg, s, e, s', p);
    case Disconnect(c) =>
      assert c != NOBODY;
      if GivesUp(s, e, p) {
        GivenUpIsHandedOn(cfg, s, e, s', p);
      } else {
        DisconnectLeavesOtherLocks(cfg, s.store, c, p);
      }
    case _ =>
  }

  /** So every such event, and no other, counts as a handover. */
  lemma HandoversAreCounted(cfg: Config, states: seq<State>, events: seq<Event>, i: nat, p: Path)
    requires Segment(cfg, states, events) && Inv(cfg, states[0]) && i < |events|
    requires forall k :: 0 <= k <= i + 1 ==> k < |states| && p in states[k].store.files
    ensures Handovers(states, i + 1, p)
            == Handovers(states, i, p)
               + if GivesUp(states[i], events[i], p) || TakesFree(states[i], events[i], p) then 1 else 0
  {
    NthStep(cfg, states, events, i);
    SegmentKeepsInv(cfg, states, events, i);
    hide Inv, Steps, GivesUp, TakesFree, Segment;
    OwnerChangesExactly(cfg, states[i], events[i], states[i + 1], p);
  }

  // Who is told what

  /** A success for somebody who waited comes with the lock, a failure with the removal of the file. */
  ghost predicate SaysWhatHappened(st: Store, st': Store, n: Note) {
    || (n.reply == Ok && exists p :: InQueue(st, p, n.client) && OwnedBy(st', n.client, p))
    || (n.reply == Failed(EIDRM) && exists p :: InQueue(st, p, n.client) && p !in st'.files)
  }

  lemma ReleaseSays(cfg: Config, st: Store, c: int, req: Request, now: Time, order: seq<Path>, n: Note)
    requires HandlerPre(cfg, st, c, order) && (req.Unlock? || req.Close?) && Handle(cfg, st, c, req, now, order).Done?
    requires n in Handle(cfg, st, c, req, now, order).notes && n.client != c
    ensures SaysWhatHappened(st, Handle(cfg, st, c, req, now, order).store, n)
  {
    hide HandlerPre;
    PreMeans(cfg, st, c, order);
    var out, p := Handle(cfg, st, c, req, now, order), req.path;
    if OwnedBy(st, c, p) {
      hide Handle, PolicyOrder, Accounts, FilesOk, Shape;
      OwnerHandsOn(cfg, st, c, req, now, order, p);
      var q := st.files[p].waiters.items;
      assert q != [] && n == Note(q[0], Ok) && q[0] in q;
      assert InQueue(st, p, n.client) && OwnedBy(out.store, n.client, p);
    } else {
      NoOwnerNoGrant(cfg, st, c, req.path, now);
    }
  }

  lemma NoOwnerNoGrant(cfg: Config, st: Store, c: int, p: Path, now: Time)
    requires !OwnedBy(st, c, p)
    ensures forall n :: n in HandleUnlock(st, c, p, now).notes ==> n.client == c
    ensures forall n :: n in HandleClose(cfg, st, c, p, now).notes ==> n.client == c
  {
  }

  lemma RemovalSays(st: Store, c: int, p: Path, n: Note)
    requires c != NOBODY && HandleRemove(st, c, p).Done? && n in HandleRemove(st, c, p).notes && n.client != c
    ensures SaysWhatHappened(st, HandleRemove(st, c, p).store, n)
  {
    if OwnedBy(st, c, p) {
      RemoveTells(st, c, p);
      var notes, q := HandleRemove(st, c, p).notes, st.files[p].waiters.items;
      hide RemovalNotes, RemoveFile;
      var i :| 0 <= i < |notes| && notes[i] == n;
      assert InQueue(st, p, n.client);
    }
  }

  lemma ReplacementSays(cfg: Config, st: Store, c: int, p: Path, sendBack: bool, data: seq<Byte>, order: seq<Path>,
        out: Outcome, n: Note)
    requires (forall q :: q in order ==> q in st.files) && Replaces(cfg, st, c, p, sendBack, data, order, out)
    requires n in out.notes && n.client != c
    ensures SaysWhatHappened(st, out.store, n)
  {
    hide ToReplace;
    assert n in out.notes[1..] by {
      var i :| 0 <= i < |out.notes| && out.notes[i] == n;
      assert out.notes[1..][i - 1] == n;
    }
    var v :| v in ToReplace(cfg, st, p, data, order) && n.client in st.files[v].waiters.items;
    assert v !in out.store.files by {
      assert v in Elements(ToReplace(cfg, st, p, data, order)) && v !in out.store.files.Keys;
    }
    assert InQueue(st, v, n.client);
  }

  lemma ContentSays(cfg: Config, st: Store, c: int, req: Request, now: Time, order: seq<Path>, n: Note)
    requires HandlerPre(cfg, st, c, order) && (req.Write? || req.Append?) && Handle(cfg, st, c, req, now, order).Done?
    requires n in Handle(cfg, st, c, req, now, order).notes && n.client != c
    ensures SaysWhatHappened(st, Handle(cfg, st, c, req, now, order).store, n)
  {
    hide HandlerPre;
    PreMeans(cfg, st, c, order);
    hide HandleWrite, HandleAppend, PolicyOrder, Accounts, FilesOk, Shape, Replaces, SaysWhatHappened, RoomFor;
    if req.Write? {
      WriteIsAcceptedExactly(cfg, st, c, req.path, req.sendBack, req.data, now, order);
      WriteReplaces(cfg, st, c, req.path, req.sendBack, req.data, now, order);
    } else {
      AppendIsAcceptedExactly(cfg, st, c, req.path, req.sendBack, req.data, now, order);
      AppendReplaces(cfg, st, c, req.path, req.sendBack, req.data, now, order);
    }
    ReplacementSays(cfg, st, c, req.path, req.sendBack, req.data, order, Handle(cfg, st, c, req, now, order), n);
  }

  lemma RestSays(cfg: Config, st: Store, c: int, p: Path, flags: int, now: Time)
    ensures var out := HandleOpen(cfg, st, c, p, flags, now);
            out.Done? ==> forall n :: n in out.notes ==> n.client == c
    ensures var out := HandleLock(st, c, p, now);
            out.Done? ==> forall n :: n in out.notes ==> n.client == c
    ensures forall n :: n in HandleRead(st, c, p, now).notes ==> n.client == c
  {
  }

  /** Whoever else a request gives an answer to is told what happened to the file it waited for. */
  lemma OthersAreToldWhatHappened(cfg: Config, st: Store, c: int, req: Request, now: Time, order: seq<Path>, n: Note)
    requires HandlerPre(cfg, st, c, order) && Handle(cfg, st, c, req, now, order).Done?
    requires n in Handle(cfg, st, c, req, now, order).notes && n.client != c
    ensures SaysWhatHappened(st, Handle(cfg, st, c, req, now, order).store, n)
  {
    hide SaysWhatHappened, HandlerPre;
    PreMeans(cfg, st, c, order);
    hide HandleOpen, HandleLock, HandleUnlock, HandleClose, HandleRead, HandleReadN, HandleRemove, HandleWrite,
      HandleAppend, Accounts, PolicyOrder, FilesOk, Shape;
    match req
    case Open(p, flags) => RestSays(cfg, st, c, p, flags, now);
    case Lock(p) => RestSays(cfg, st, c, p, 0, now);
    case Read(p) => RestSays(cfg, st, c, p, 0, now);
    case ReadN(k) => ReadNLeavesAll(st, c, k);
    case Unlock(p) => ReleaseSays(cfg, st, c, req, now, order, n);
    case Close(p) => ReleaseSays(cfg, st, c, req, now, order, n);
    case Remove(p) => RemovalSays(st, c, p, n);
    case _ => ContentSays(cfg, st, c, req, now, order, n);
  }

  lemma {:induction false} HeirsAreTold(cfg: Config, st: Store, names: seq<Path>, c: int, n: Note)
    requires Coherent(st) && FilesOk(st) && c != NOBODY && (forall p :: p in names ==> p in st.files)
    requires n in ForgetNotes(cfg, st.files, names, c)
    ensures SaysWhatHappened(st, HandleDisconnect(cfg, st, c).store, n)
  {
    hide SaysWhatHappened, HandleDisconnect, FilesOk;
    var heir := Heir(cfg.moveTail, st.files[names[0]], c);
    if heir != NOBODY && n == Note(heir, Ok) {
      HeirOwns(cfg, st, names[0], c);
    } else {
      HeirsAreTold(cfg, st, names[1..], c, n);
    }
  }

  lemma HeirOwns(cfg: Config, st: Store, p: Path, c: int)
    requires Coherent(st) && FilesOk(st) && c != NOBODY && p in st.files && Heir(cfg.moveTail, st.files[p], c) != NOBODY
    ensures SaysWhatHappened(st, HandleDisconnect(cfg, st, c).store, Note(Heir(cfg.moveTail, st.files[p], c), Ok))
  {
    var heir := Heir(cfg.moveTail, st.files[p], c);
    assert Inherits(cfg, st.files, p, c, heir);
    HeirWaited(cfg, st, p, c, heir);
    assert OwnedBy(HandleDisconnect(cfg, st, c).store, heir, p);
  }
}
