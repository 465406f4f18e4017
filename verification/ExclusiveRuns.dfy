/** Whole runs: what owning the lock protects, and that every request gets exactly one answer. */
module ExclusiveRuns {
  import opened Machine
  import opened Files
  import opened Policies
  import opened Stores
  import opened Handlers
  import opened StoreInvariants
  import opened Routing
  import opened Protocol

  /** The requests the lock excludes others from. */
  predicate Guarded(req: Request, p: Path) {
    match req
    case Read(q) => q == p
    case Write(q, _, _) => q == p
    case Append(q, _, _) => q == p
    case Unlock(q) => q == p
    case Remove(q) => q == p
    case _ => false
  }

  predicate NeedsRoom(req: Request) {
    (req.Write? || req.Append?) && req.data != []
  }

  /** The file still belongs to c and holds the same bytes. */
  ghost predicate Untouched(f: File, f': File) {
    f'.owner == f.owner && f'.data == f.data && f'.size == f.size && f'.created == f.created
  }

  /** The file is untouched, or has gone to make room for another one. */
  ghost predicate Protected(st: Store, st': Store, p: Path, req: Request)
    requires p in st.files
  {
    if p in st'.files then Untouched(st.files[p], st'.files[p]) else NeedsRoom(req) && req.path != p
  }

  lemma PutContentProtects(cfg: Config, st: Store, d: int, q: Path, f: File, size: nat, sendBack: bool,
        order: seq<Path>,
        p: Path)
    requires ConfigOk(cfg) && StoreInv(cfg, st) && PolicyOrder(cfg.policy, st.files, order)
    requires q in st.files && p in st.files && p != q
    ensures var out := PutContent(cfg, st, d, q, f, size, sendBack, order);
            out.Done? && p in out.store.files ==> out.store.files[p] == st.files[p]
  {
    MakeRoomConserves(cfg, st, q, size, order);
  }

  lemma WriteProtects(cfg: Config, st: Store, d: int, q: Path, sendBack: bool, data: seq<Byte>, now: Time,
        order: seq<Path>, p: Path)
    requires HandlerPre(cfg, st, d, order) && p in st.files && st.files[p].owner !in {NOBODY, d}
    ensures var out := HandleWrite(cfg, st, d, q, sendBack, data, now, order);
            out.Done? ==>
              && Protected(st, out.store, p, Write(q, sendBack, data))
              && (p == q ==> exists e :: out == Fail(st, d, e))
  {
    if q in st.files && q != p && data != [] {
      PutContentProtects(cfg, st, d, q, Touch(ReplaceContent(st.files[q], data).(writable := false), now), |data|,
            sendBack, order, p);
    }
  }

  lemma AppendProtects(cfg: Config, st: Store, d: int, q: Path, sendBack: bool, data: seq<Byte>, now: Time,
        order: seq<Path>, p: Path)
    requires HandlerPre(cfg, st, d, order) && p in st.files && st.files[p].owner !in {NOBODY, d}
    ensures var out := HandleAppend(cfg, st, d, q, sendBack, data, now, order);
            out.Done? ==>
              && Protected(st, out.store, p, Append(q, sendBack, data))
              && (p == q ==> exists e :: out == Fail(st, d, e))
  {
    if q in st.files && q != p && data != [] {
      var f := Touch(AppendContent(cfg.recordTotal, st.files[q], data).(writable := false), now);
      PutContentProtects(cfg, st, d, q, f, |data|, sendBack, order, p);
    }
  }

  lemma RestProtects(cfg: Config, st: Store, d: int, q: Path, flags: int, now: Time, p: Path)
    requires ConfigOk(cfg) && StoreInv(cfg, st) && p in st.files && st.files[p].owner !in {NOBODY, d}
    ensures var out := HandleOpen(cfg, st, d, q, flags, now);
            out.Done? ==> p in out.store.files && Untouched(st.files[p], out.store.files[p])
    ensures var out := HandleLock(st, d, q, now);
            out.Done? ==> p in out.store.files && Untouched(st.files[p], out.store.files[p])
    ensures var out := HandleClose(cfg, st, d, q, now);
            Untouched(st.files[p], out.store.files[p])
  {
    hide LockInv, Accounts, TakeLock;
    if q in st.files {
      TakeLockProtects(st, d, q, st.files[q], now, p);
      TakeLockProtects(st, d, q, AddOpener(st.files[q], d), now, p);
    }
  }

  lemma TakeLockProtects(st: Store, d: int, q: Path, f: File, now: Time, p: Path)
    requires p in st.files && q in st.files && Untouched(st.files[q], f)
    requires st.files[p].owner !in {NOBODY, d}
    ensures var out := TakeLock(st, d, q, f, now);
            out.Done? ==> p in out.store.files && Untouched(st.files[p], out.store.files[p])
  {
  }

  lemma GuardedProtects(st: Store, d: int, q: Path, now: Time, p: Path)
    requires p in st.files && st.files[p].owner !in {NOBODY, d}
    ensures var out := HandleUnlock(st, d, q, now);
            Untouched(st.files[p], out.store.files[p]) && (p == q ==> exists e :: out == Fail(st, d, e))
    ensures var out := HandleRead(st, d, q, now);
            Untouched(st.files[p], out.store.files[p]) && (p == q ==> exists e :: out == Fail(st, d, e))
    ensures var out := HandleRemove(st, d, q);
            out.Done? ==> p in out.store.files && Untouched(st.files[p], out.store.files[p])
                          && (p == q ==> exists e :: out == Fail(st, d, e))
  {
  }

  lemma SameIsUntouched(f: File)
    ensures Untouched(f, f)
  {
  }

  /**
    While somebody else owns the lock, a request of d neither changes the file nor takes it out of the
    store, except by making room; a guarded request that names the file fails without any effect.
  */
  lemma OwnerIsProtected(cfg: Config, st: Store, d: int, req: Request, now: Time, order: seq<Path>, p: Path)
    requires HandlerPre(cfg, st, d, order) && p in st.files && st.files[p].owner !in {NOBODY, d}
    ensures var out := Handle(cfg, st, d, req, now, order);
            out.Done? ==>
              && Protected(st, out.store, p, req)
              && (Guarded(req, p) ==> exists e :: out == Fail(st, d, e))
  {
    hide HandlerPre;
    PreMeans(cfg, st, d, order);
    hide HandleOpen, HandleLock, HandleUnlock, HandleClose, HandleRead, HandleRemove, HandleWrite, HandleAppend,
      Accounts, PolicyOrder, FilesOk, Shape, WaitsNowhere, Untouched;
    SameIsUntouched(st.files[p]);
    match req
    case Open(q, flags) => RestProtects(cfg, st, d, q, flags, now, p);
    case Lock(q) => RestProtects(cfg, st, d, q, 0, now, p);
    case Unlock(q) => GuardedProtects(st, d, q, now, p);
    case Read(q) => GuardedProtects(st, d, q, now, p);
    case ReadN(n) =>
    case Write(q, sendBack, data) => WriteProtects(cfg, st, d, q, sendBack, data, now, order, p);
    case Append(q, sendBack, data) => AppendProtects(cfg, st, d, q, sendBack, data, now, order, p);
    case Close(q) => RestProtects(cfg, st, d, q, 0, now, p);
    case Remove(q) => GuardedProtects(st, d, q, now, p);
  }

  predicate ActsFor(e: Event, c: int) {
    (e.HandleIt? || e.Disconnect?) && e.client == c
  }

  /** Only its owner's own requests or disconnection, or a replacement, end the protection of a file. */
  lemma StepProtects(cfg: Config, s: State, e: Event, s': State, p: Path, c: int)
    requires Inv(cfg, s) && Steps(cfg, s, e, s') && p in s.store.files
    requires s.store.files[p].owner == c != NOBODY && !ActsFor(e, c)
    ensures if p in s'.store.files then Untouched(s.store.files[p], s'.store.files[p])
            else e.HandleIt? && NeedsRoom(s.clients[e.client].request) && s.clients[e.client].request.path != p
  {
    match e
    case HandleIt(d, now, order) =>
      SenderIsFree(cfg, s, d, order);
      OwnerIsProtected(cfg, s.store, d, s.clients[d].request, now, order, p);
    case Disconnect(d) => ForgetKeepsLockInv(cfg.moveTail, s.store.files[p], d);
    case _ =>
  }

  /**
    Over any stretch of a run without a request or disconnection of its owner, a file that is not
    replaced keeps its owner and every byte.
  */
  lemma {:induction false} OwnedFileIsFrozen(cfg: Config, states: seq<State>, events: seq<Event>, n: nat, p: Path,
        c: int)
    requires Segment(cfg, states, events) && Inv(cfg, states[0]) && n < |states|
    requires forall i :: 0 <= i <= n ==> p in states[i].store.files
    requires forall i :: 0 <= i < n ==> !ActsFor(events[i], c)
    requires states[0].store.files[p].owner == c != NOBODY
    ensures Untouched(states[0].store.files[p], states[n].store.files[p])
  {
    if n > 0 {
      OwnedFileIsFrozen(cfg, states, events, n - 1, p, c);
      SegmentKeepsInv(cfg, states, events, n - 1);
      StepProtects(cfg, states[n - 1], events[n - 1], states[n], p, c);
    }
  }

  // One answer for every request

  function Pending(s: State, c: int): nat {
    if c in s.clients && !s.clients[c].Idle? then 1 else 0
  }

  /** Requests c sends in the first n steps. */
  function Requests(events: seq<Event>, n: nat, c: int): nat
    requires n <= |events|
  {
    if n == 0 then 0
    else Requests(events, n - 1, c) + if events[n - 1].Send? && events[n - 1].client == c then 1 else 0
  }

  /** Answers delivered to c in the first n steps. */
  function Answers(states: seq<State>, events: seq<Event>, n: nat, c: int): nat
    requires n <= |events| <= |states|
  {
    if n == 0 then 0
    else
      Answers(states, events, n - 1, c)
      + if events[n - 1].Deliver? && Actor(states[n - 1], events[n - 1]) == c then 1 else 0
  }

  /** A request sent is one more pending, an answer delivered one less. */
  ghost predicate Balanced(s: State, e: Event, s': State, c: int) {
    Pending(s', c) == Pending(s, c)
                      + (if e.Send? && e.client == c then 1 else 0)
                      - (if e.Deliver? && Actor(s, e) == c then 1 else 0)
  }

  lemma StepAnswers(cfg: Config, s: State, e: Event, s': State, c: int)
    requires Inv(cfg, s) && Steps(cfg, s, e, s') && c in s.clients && c in s'.clients
    ensures Balanced(s, e, s', c)
  {
    if e.Deliver? {
      assert Told(s.outbox, s.outbox[e.index].client);
    }
  }

  lemma {:induction false} CountsBalance(states: seq<State>, events: seq<Event>, n: nat, c: int)
    requires n <= |events| < |states|
    requires forall i :: 0 <= i < n ==> Balanced(states[i], events[i], states[i + 1], c)
    ensures Pending(states[0], c) + Requests(events, n, c) == Answers(states, events, n, c) + Pending(states[n], c)
  {
    if n > 0 {
      CountsBalance(states, events, n - 1, c);
      assert Balanced(states[n - 1], events[n - 1], states[n - 1 + 1], c);
    }
  }

  /**
    Over any stretch of a run in which c stays connected, the answers delivered to it are as many as the
    requests it sent, up to the one that may be pending at either end.
  */
  lemma OneAnswerPerRequest(cfg: Config, states: seq<State>, events: seq<Event>, n: nat, c: int)
    requires Segment(cfg, states, events) && Inv(cfg, states[0]) && n < |states|
    requires forall i :: 0 <= i <= n ==> c in states[i].clients
    ensures Pending(states[0], c) + Requests(events, n, c) == Answers(states, events, n, c) + Pending(states[n], c)
  {
    forall i | 0 <= i < n ensures Balanced(states[i], events[i], states[i + 1], c) {
      SegmentKeepsInv(cfg, states, events, i);
      StepAnswers(cfg, states[i], events[i], states[i + 1], c);
    }
    CountsBalance(states, events, n, c);
  }
}
