/**
  When the server leaves defined ground. Unlinking a node does not move the tail of a list, so closing by
  the first opener, or losing the last waiter, of several leaves a tail on a removed node; a later step
  that appends to or frees such a list is undefined. Exactly those steps are, and no run has one if no
  step leaves a stale tail behind.
*/
module StaleTails {
  import opened Seqs
  import opened Chains
  import opened Machine
  import opened Files
  import opened Policies
  import opened Stores
  import opened Handlers
  import opened StoreInvariants
  import opened Protocol

  /** The request has to wait for the lock of a stored file. */
  predicate MustWait(st: Store, c: int, req: Request) {
    && ((req.Open? && !WantsCreate(req.flags) && WantsLock(req.flags)) || req.Lock?)
    && req.path in st.files
    && st.files[req.path].owner != NOBODY && st.files[req.path].owner != c
    && (req.Lock? ==> c in st.files[req.path].openers.items)
  }

  predicate MayStore(st: Store, c: int, req: Request) {
    && (req.Write? || req.Append?) && req.data != [] && req.path in st.files
    && var f := st.files[req.path];
       if req.Write? then f.writable && f.owner == c
       else c in f.openers.items && (f.owner == NOBODY || f.owner == c)
  }

  /** The files a request would take out of the store. */
  function Goners(cfg: Config, st: Store, c: int, req: Request, order: seq<Path>): seq<Path>
    requires forall q :: q in order ==> q in st.files
  {
    if req.Remove? && req.path in st.files && st.files[req.path].owner == c && c != NOBODY then [req.path]
    else if MayStore(st, c, req) && |req.data| < cfg.maxMemory then
      var missing := SizeMissing(cfg, st, |req.data|);
      var victims := Select(st.files, order, req.path, missing);
      if missing > 0 && Total(st.files, victims) >= missing then victims else []
    else []
  }

  /** A waiter would be appended to a stale queue, or a file with a stale list freed. */
  predicate HitsStaleTail(cfg: Config, st: Store, c: int, req: Request, order: seq<Path>)
    requires forall q :: q in order ==> q in st.files
  {
    || (MustWait(st, c, req) && !st.files[req.path].waiters.attached)
    || (exists p :: p in Goners(cfg, st, c, req, order) && p in st.files && !CanFree(st.files[p]))
  }

  lemma PutContentUndefinedExactly(cfg: Config, st: Store, c: int, req: Request, f: File, order: seq<Path>)
    requires forall q :: q in order ==> q in st.files
    requires MayStore(st, c, req)
    ensures PutContent(cfg, st, c, req.path, f, |req.data|, req.sendBack, order).Undefined?
            <==> exists p :: p in Goners(cfg, st, c, req, order) && p in st.files && !CanFree(st.files[p])
  {
  }

  lemma RemoveUndefinedExactly(cfg: Config, st: Store, c: int, p: Path, order: seq<Path>)
    requires c != NOBODY && forall q :: q in order ==> q in st.files
    ensures HandleRemove(st, c, p).Undefined?
            <==> exists q :: q in Goners(cfg, st, c, Remove(p), order) && q in st.files && !CanFree(st.files[q])
  {
  }

  /** A request is undefined exactly if it hits a stale tail. */
  lemma UndefinedExactly(cfg: Config, st: Store, c: int, req: Request, now: Time, order: seq<Path>)
    requires Coherent(st) && c != NOBODY && forall q :: q in order ==> q in st.files
    ensures Handle(cfg, st, c, req, now, order).Undefined? <==> HitsStaleTail(cfg, st, c, req, order)
  {
    match req
    case Write(p, sendBack, data) => if MayStore(st, c, req) {
      var f := Touch(ReplaceContent(st.files[p], data).(writable := false), now);
      PutContentUndefinedExactly(cfg, st, c, req, f, order);
      hide PutContent, Goners;
    }
    case Append(p, sendBack, data) => if MayStore(st, c, req) {
      var f := Touch(AppendContent(cfg.recordTotal, st.files[p], data).(writable := false), now);
      PutContentUndefinedExactly(cfg, st, c, req, f, order);
      hide PutContent, Goners;
    }
    case Remove(p) => RemoveUndefinedExactly(cfg, st, c, p, order);
    case _ =>
  }

  // Where stale tails come from

  ghost predicate AllAttached(st: Store) {
    forall p :: p in st.files ==> CanFree(st.files[p])
  }

  predicate LastOfSeveral(items: seq<int>, c: int) {
    |items| > 1 && items[|items| - 1] == c
  }

  /** The step unlinks the last of several nodes. */
  ghost predicate LeavesStaleTail(cfg: Config, s: State, e: Event) {
    && !cfg.moveTail
    && match e
       case HandleIt(c, _, _) =>
         && c in s.clients && s.clients[c].Sent? && s.clients[c].request.Close?
         && var p := s.clients[c].request.path;
            p in s.store.files && LastOfSeveral(s.store.files[p].openers.items, c)
       case Disconnect(c) =>
         exists p :: p in s.store.files &&
           (LastOfSeveral(s.store.files[p].openers.items, c) || LastOfSeveral(s.store.files[p].waiters.items, c))
       case _ => false
  }

  lemma DropDetachesExactly(moveTail: bool, l: Chain<int>, c: int)
    requires l.attached && NoDup(l.items)
    ensures !Drop(moveTail, l, c).attached <==> !moveTail && LastOfSeveral(l.items, c)
  {
  }

  lemma ForgetDetachesExactly(moveTail: bool, f: File, c: int)
    requires LockInv(f) && CanFree(f) && c != NOBODY
    ensures !CanFree(ForgetClient(moveTail, f, c))
            <==> !moveTail && (LastOfSeveral(f.openers.items, c) || LastOfSeveral(f.waiters.items, c))
  {
  }

  lemma PutContentKeepsTails(cfg: Config, st: Store, c: int, p: Path, f: File, size: nat, sendBack: bool,
        order: seq<Path>)
    requires ConfigOk(cfg) && StoreInv(cfg, st) && PolicyOrder(cfg.policy, st.files, order)
    requires AllAttached(st) && p in st.files && CanFree(f)
    ensures var out := PutContent(cfg, st, c, p, f, size, sendBack, order);
            out.Done? ==> AllAttached(out.store)
  {
    MakeRoomConserves(cfg, st, p, size, order);
    hide MakeRoom, LockInv, Accounts;
  }

  lemma CloseDetachesExactly(cfg: Config, st: Store, c: int, p: Path, now: Time)
    requires FilesOk(st) && AllAttached(st)
    ensures var st' := HandleClose(cfg, st, c, p, now).store;
            !AllAttached(st') <==> !cfg.moveTail && p in st.files && LastOfSeveral(st.files[p].openers.items, c)
  {
    if p in st.files {
      DropDetachesExactly(cfg.moveTail, st.files[p].openers, c);
      var st' := HandleClose(cfg, st, c, p, now).store;
      assert CanFree(st'.files[p]) <==> Drop(cfg.moveTail, st.files[p].openers, c).attached;
    }
  }

  lemma RestKeepsTails(cfg: Config, st: Store, c: int, p: Path, flags: int, now: Time)
    requires AllAttached(st)
    ensures HandleOpen(cfg, st, c, p, flags, now).Done? ==> AllAttached(HandleOpen(cfg, st, c, p, flags, now).store)
    ensures HandleLock(st, c, p, now).Done? ==> AllAttached(HandleLock(st, c, p, now).store)
    ensures AllAttached(HandleUnlock(st, c, p, now).store)
    ensures AllAttached(HandleRead(st, c, p, now).store)
    ensures HandleRemove(st, c, p).Done? ==> AllAttached(HandleRemove(st, c, p).store)
  {
  }

  lemma HandleKeepsTails(cfg: Config, st: Store, c: int, req: Request, now: Time, order: seq<Path>)
    requires HandlerPre(cfg, st, c, order) && AllAttached(st) && !req.Close?
    ensures var out := Handle(cfg, st, c, req, now, order);
            out.Done? ==> AllAttached(out.store)
  {
    hide AllAttached;
    match req
    case Open(p, flags) => RestKeepsTails(cfg, st, c, p, flags, now);
    case Lock(p) => RestKeepsTails(cfg, st, c, p, 0, now);
    case Unlock(p) => RestKeepsTails(cfg, st, c, p, 0, now);
    case Read(p) => RestKeepsTails(cfg, st, c, p, 0, now);
    case ReadN(n) =>
    case Write(p, sendBack, data) => WriteKeepsTails(cfg, st, c, p, sendBack, data, now, order);
    case Append(p, sendBack, data) => AppendKeepsTails(cfg, st, c, p, sendBack, data, now, order);
    case Remove(p) => RestKeepsTails(cfg, st, c, p, 0, now);
  }

  lemma WriteKeepsTails(cfg: Config, st: Store, c: int, p: Path, sendBack: bool, data: seq<Byte>, now: Time,
        order: seq<Path>)
    requires HandlerPre(cfg, st, c, order) && AllAttached(st)
    ensures var out := HandleWrite(cfg, st, c, p, sendBack, data, now, order);
            out.Done? ==> AllAttached(out.store)
  {
    hide PutContent;
    if p in st.files {
      var f := Touch(ReplaceContent(st.files[p], data).(writable := false), now);
      PutContentKeepsTails(cfg, st, c, p, f, |data|, sendBack, order);
    }
  }

  lemma AppendKeepsTails(cfg: Config, st: Store, c: int, p: Path, sendBack: bool, data: seq<Byte>, now: Time,
        order: seq<Path>)
    requires HandlerPre(cfg, st, c, order) && AllAttached(st)
    ensures var out := HandleAppend(cfg, st, c, p, sendBack, data, now, order);
            out.Done? ==> AllAttached(out.store)
  {
    hide PutContent;
    if p in st.files {
      var f := Touch(AppendContent(cfg.recordTotal, st.files[p], data).(writable := false), now);
      PutContentKeepsTails(cfg, st, c, p, f, |data|, sendBack, order);
    }
  }

  lemma DisconnectDetachesExactly(cfg: Config, st: Store, c: int)
    requires Shape(st) && FilesOk(st) && AllAttached(st) && c != NOBODY
    ensures AllAttached(HandleDisconnect(cfg, st, c).store) <==>
            forall p :: p in st.files ==>
              cfg.moveTail || !(LastOfSeveral(st.files[p].openers.items,
                    c) || LastOfSeveral(st.files[p].waiters.items, c))
  {
    var st' := HandleDisconnect(cfg, st, c).store;
    forall p | p in st.files
      ensures CanFree(st'.files[p]) <==>
              cfg.moveTail || !(LastOfSeveral(st.files[p].openers.items,
                    c) || LastOfSeveral(st.files[p].waiters.items, c))
    {
      ForgetDetachesExactly(cfg.moveTail, st.files[p], c);
    }
  }

  /** From a state without stale tails, a step leaves one behind exactly if it unlinks the last of several. */
  lemma StaleTailsComeFromUnlinking(cfg: Config, s: State, e: Event, s': State)
    requires Inv(cfg, s) && Steps(cfg, s, e, s') && AllAttached(s.store)
    ensures !AllAttached(s'.store) <==> LeavesStaleTail(cfg, s, e)
  {
    match e
    case HandleIt(c, now, order) =>
      SenderIsFree(cfg, s, c, order);
      var req := s.clients[c].request;
      if req.Close? {
        CloseDetachesExactly(cfg, s.store, c, req.path, now);
      } else {
        HandleKeepsTails(cfg, s.store, c, req, now, order);
      }
    case Disconnect(c) => DisconnectDetachesExactly(cfg, s.store, c);
    case _ =>
  }

  lemma AttachedIsDefined(cfg: Config, s: State, e: Event)
    requires Inv(cfg, s) && Enabled(cfg, s, e) && AllAttached(s.store)
    ensures Step(cfg, s, e).Next?
  {
    if e.HandleIt? {
      UndefinedExactly(cfg, s.store, e.client, s.clients[e.client].request, e.now, e.order);
    }
  }

  lemma {:induction false} TailsStayAttached(cfg: Config, states: seq<State>, events: seq<Event>, n: nat)
    requires ConfigOk(cfg) && Run(cfg, states, events) && n < |states|
    requires forall i :: 0 <= i < n ==> !LeavesStaleTail(cfg, states[i], events[i])
    ensures AllAttached(states[n].store)
  {
    if n > 0 {
      TailsStayAttached(cfg, states, events, n - 1);
      RunKeepsInv(cfg, states, events, n - 1);
      assert Steps(cfg, states[n - 1], events[n - 1], states[n - 1 + 1]);
      StaleTailsComeFromUnlinking(cfg, states[n - 1], events[n - 1], states[n]);
    }
  }

  /**
    In a run in which no step leaves a stale tail, and so in every run of a server whose lists move their
    tails, whatever happens next is defined.
  */
  lemma RunIsDefined(cfg: Config, states: seq<State>, events: seq<Event>, n: nat, e: Event)
    requires ConfigOk(cfg) && Run(cfg, states, events) && n < |states|
    requires cfg.moveTail || forall i :: 0 <= i < n ==> !LeavesStaleTail(cfg, states[i], events[i])
    requires Enabled(cfg, states[n], e)
    ensures Step(cfg, states[n], e).Next?
  {
    TailsStayAttached(cfg, states, events, n);
    RunKeepsInv(cfg, states, events, n);
    AttachedIsDefined(cfg, states[n], e);
  }

  /**
    Five well-behaved requests are enough: a creates a file, b opens it, a closes it, b locks it, and
    removing it is undefined.
  */
  lemma FirstOpenerCloses(cfg: Config, st: Store, a: int, b: int, p: Path, now: Time)
    requires !cfg.moveTail && ConfigOk(cfg) && Accounts(cfg, st)
    requires a != b && a != NOBODY && b != NOBODY && p !in st.files && st.count < cfg.maxFiles
    ensures var out1 := HandleOpen(cfg, st, a, p, 1, now);
            out1.Done? && out1.notes == [Note(a, Ok)] &&
            var out2 := HandleOpen(cfg, out1.store, b, p, 0, now);
            out2.Done? && out2.notes == [Note(b, Ok)] &&
            var out3 := HandleClose(cfg, out2.store, a, p, now);
            out3.Done? && out3.notes == [Note(a, Ok)] &&
            var out4 := HandleLock(out3.store, b, p, now);
            out4.Done? && out4.notes == [Note(b, Ok)] &&
            HandleRemove(out4.store, b, p).Undefined?
  {
    CountersAreExact(cfg, st);
    ToInt32Exact(0);
    var f := Touch(AddOpener(AddOpener(NewFile(p, now), a), b), now);
    assert f.openers.items == [b, a];
    assert RemoveAt(f.openers.items, 1) == [b];
    assert CloseClient(false, f, a).openers == Chain([b], false);
  }
}
