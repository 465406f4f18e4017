/** Whole runs of the lock protocol: fairness, exclusive access, one answer for every request. */
module LockRuns {
  import opened Seqs
  import opened Machine
  import opened Files
  import opened Policies
  import opened Stores
  import opened Handlers
  import opened StoreInvariants
  import opened Routing
  import opened Protocol

  /** All that one step by client c can do to the lock of a file that stays. */
  ghost predicate LockMove(f: File, f': File, c: int) {
    var q, q' := f.waiters.items, f'.waiters.items;
    || (f'.owner == f.owner && q' == q)
    || (f.owner == NOBODY && f'.owner == c && q' == q)
    || (f'.owner == f.owner && q' == q + [c])
    || (f'.owner == f.owner && q' == Without(q, c))
    || (f.owner == c && q == [] && f'.owner == NOBODY && q' == [])
    || (f.owner == c && q != [] && f'.owner == q[0] && q' == q[1..])
  }

  lemma TakeLockMoves(st: Store, c: int, p: Path, f: File, now: Time, q: Path)
    requires q in st.files && p in st.files && f.owner == st.files[p].owner && f.waiters == st.files[p].waiters
    ensures var out := TakeLock(st, c, p, f, now);
            out.Done? ==> q in out.store.files && LockMove(st.files[q], out.store.files[q], c)
  {
  }

  lemma LockAndOpenMove(cfg: Config, st: Store, c: int, p: Path, flags: int, now: Time, q: Path)
    requires q in st.files
    ensures var out := HandleOpen(cfg, st, c, p, flags, now);
            out.Done? ==> q in out.store.files && LockMove(st.files[q], out.store.files[q], c)
    ensures var out := HandleLock(st, c, p, now);
            out.Done? ==> q in out.store.files && LockMove(st.files[q], out.store.files[q], c)
  {
    hide TakeLock;
    if p in st.files {
      TakeLockMoves(st, c, p, st.files[p], now, q);
      TakeLockMoves(st, c, p, AddOpener(st.files[p], c), now, q);
    }
  }

  lemma UnlockAndCloseMove(cfg: Config, st: Store, c: int, p: Path, now: Time, q: Path)
    requires q in st.files
    ensures LockMove(st.files[q], HandleUnlock(st, c, p, now).store.files[q], c)
    ensures LockMove(st.files[q], HandleClose(cfg, st, c, p, now).store.files[q], c)
  {
    hide Without, Grant, Chains.Drop, ToUint32, LockMove;
    StayingMoves(st.files[q], c);
    if p in st.files && st.files[p].owner == c {
      ReleaseMoves(st.files[p], c);
    }
  }

  lemma StayingMoves(f: File, c: int)
    ensures forall f': File :: f'.owner == f.owner && f'.waiters == f.waiters ==> LockMove(f, f', c)
  {
  }

  lemma ReleaseMoves(f: File, c: int)
    requires f.owner == c
    ensures forall f': File :: f'.owner == ReleaseLock(f).owner && f'.waiters == ReleaseLock(f).waiters ==>
              LockMove(f, f', c)
  {
  }

  ghost predicate SameLock(st: Store, out: Outcome, q: Path)
    requires q in st.files
  {
    out.Done? && q in out.store.files ==>
      out.store.files[q].owner == st.files[q].owner && out.store.files[q].waiters == st.files[q].waiters
  }

  lemma PutContentKeepsLocks(cfg: Config, st: Store, c: int, p: Path, f: File, size: nat, sendBack: bool,
        order: seq<Path>, q: Path)
    requires ConfigOk(cfg) && StoreInv(cfg, st) && PolicyOrder(cfg.policy, st.files, order)
    requires p in st.files && f.owner == st.files[p].owner && f.waiters == st.files[p].waiters
    requires q in st.files
    ensures SameLock(st, PutContent(cfg, st, c, p, f, size, sendBack, order), q)
  {
    MakeRoomConserves(cfg, st, p, size, order);
    hide MakeRoom;
  }

  lemma WriteKeepsLocks(cfg: Config, st: Store, c: int, p: Path, sendBack: bool, data: seq<Byte>, now: Time,
        order: seq<Path>, q: Path)
    requires ConfigOk(cfg) && StoreInv(cfg, st) && PolicyOrder(cfg.policy, st.files, order) && q in st.files
    ensures SameLock(st, HandleWrite(cfg, st, c, p, sendBack, data, now, order), q)
  {
    hide PutContent;
    if p in st.files {
      var f := Touch(ReplaceContent(st.files[p], data).(writable := false), now);
      PutContentKeepsLocks(cfg, st, c, p, f, |data|, sendBack, order, q);
    }
  }

  lemma AppendKeepsLocks(cfg: Config, st: Store, c: int, p: Path, sendBack: bool, data: seq<Byte>, now: Time,
        order: seq<Path>, q: Path)
    requires ConfigOk(cfg) && StoreInv(cfg, st) && PolicyOrder(cfg.policy, st.files, order) && q in st.files
    ensures SameLock(st, HandleAppend(cfg, st, c, p, sendBack, data, now, order), q)
  {
    hide PutContent;
    if p in st.files {
      var f := Touch(AppendContent(cfg.recordTotal, st.files[p], data).(writable := false), now);
      PutContentKeepsLocks(cfg, st, c, p, f, |data|, sendBack, order, q);
    }
  }

  lemma RemoveAndReadMove(st: Store, c: int, p: Path, now: Time, q: Path)
    requires q in st.files
    ensures LockMove(st.files[q], HandleRead(st, c, p, now).store.files[q], c)
    ensures var out := HandleRemove(st, c, p);
            out.Done? && q in out.store.files ==> out.store.files[q] == st.files[q]
  {
  }

  lemma HandleMoves(cfg: Config, st: Store, c: int, req: Request, now: Time, order: seq<Path>, q: Path)
    requires HandlerPre(cfg, st, c, order) && q in st.files
    ensures var out := Handle(cfg, st, c, req, now, order);
            out.Done? && q in out.store.files ==> LockMove(st.files[q], out.store.files[q], c)
  {
    match req
    case Open(p, flags) => LockAndOpenMove(cfg, st, c, p, flags, now, q);
    case Lock(p) => LockAndOpenMove(cfg, st, c, p, 0, now, q);
    case Unlock(p) => UnlockAndCloseMove(cfg, st, c, p, now, q);
    case Read(p) => RemoveAndReadMove(st, c, p, now, q);
    case ReadN(n) =>
    case Write(p, sendBack, data) => WriteKeepsLocks(cfg, st, c, p, sendBack, data, now, order, q);
    case Append(p, sendBack, data) => AppendKeepsLocks(cfg, st, c, p, sendBack, data, now, order, q);
    case Close(p) => UnlockAndCloseMove(cfg, st, c, p, now, q);
    case Remove(p) => RemoveAndReadMove(st, c, p, now, q);
  }

  lemma DisconnectMoves(cfg: Config, st: Store, c: int, q: Path)
    requires Shape(st) && FilesOk(st) && q in st.files && c != NOBODY
    ensures LockMove(st.files[q], HandleDisconnect(cfg, st, c).store.files[q], c)
  {
  }

  lemma StepMoves(cfg: Config, s: State, e: Event, s': State, q: Path)
    requires Inv(cfg, s) && Steps(cfg, s, e, s') && q in s.store.files && q in s'.store.files
    ensures LockMove(s.store.files[q], s'.store.files[q], Actor(s, e))
  {
    match e
    case HandleIt(c, now, order) =>
      SenderIsFree(cfg, s, c, order);
      HandleMoves(cfg, s.store, c, s.clients[c].request, now, order, q);
    case Disconnect(c) => DisconnectMoves(cfg, s.store, c, q);
    case _ =>
  }

  // No overtaking

  function Position(st: Store, p: Path, a: int): nat
    requires p in st.files && a in st.files[p].waiters.items
  {
    IndexOf(st.files[p].waiters.items, a)
  }

  /** The owner and those who wait before a. */
  ghost function Ahead(st: Store, p: Path, a: int): set<int>
    requires p in st.files && a in st.files[p].waiters.items
  {
    {st.files[p].owner} + Elements(st.files[p].waiters.items[..Position(st, p, a)])
  }

  /** In q', a stands no further back than in q, and nobody new stands before it. */
  ghost predicate KeepsPlace(q: seq<int>, q': seq<int>, a: int)
    requires a in q && a in q'
  {
    && IndexOf(q', a) <= IndexOf(q, a)
    && Elements(q'[..IndexOf(q', a)]) <= Elements(q[..IndexOf(q, a)])
  }

  lemma AppendKeepsPlace(q: seq<int>, c: int, a: int)
    requires a in q
    ensures KeepsPlace(q, q + [c], a)
  {
    var q', i := q + [c], IndexOf(q, a);
    assert forall k :: 0 <= k <= i ==> q'[k] == q[k];
    assert IndexOf(q', a) == i && q'[..i] == q[..i];
  }

  lemma WithoutKeepsPlace(q: seq<int>, c: int, a: int)
    requires NoDup(q) && a in q && a in Without(q, c)
    ensures KeepsPlace(q, Without(q, c), a)
  {
  }

  lemma TailMovesUp(q: seq<int>, a: int)
    requires NoDup(q) && q != [] && a in q[1..]
    ensures KeepsPlace(q, q[1..], a)
    ensures IndexOf(q[1..], a) < IndexOf(q, a) && q[0] in q[..IndexOf(q, a)]
  {
  }

  lemma MoveKeepsThePlace(f: File, f': File, c: int, a: int)
    requires LockInv(f) && LockMove(f, f', c) && a in f.waiters.items
    ensures a !in f'.waiters.items ==> f'.owner == a || a == c
    ensures a in f'.waiters.items ==>
              && KeepsPlace(f.waiters.items, f'.waiters.items, a)
              && (f'.owner != f.owner ==>
                    && IndexOf(f'.waiters.items, a) < IndexOf(f.waiters.items, a)
                    && f'.owner in f.waiters.items[..IndexOf(f.waiters.items, a)])
  {
    var q, q' := f.waiters.items, f'.waiters.items;
    if q' == q {
    } else if q' == q + [c] {
      AppendKeepsPlace(q, c, a);
    } else if q' == Without(q, c) && f'.owner == f.owner {
      WithoutMembers(q, c);
      if a in q' {
        WithoutKeepsPlace(q, c, a);
      }
    } else if a in q[1..] {
      TailMovesUp(q, a);
    } else {
      assert a == q[0];
    }
  }

  /**
    A waiter leaves the queue only by getting the lock, by disconnecting or with the file. While it
    waits its position never grows, nobody comes to stand before it, and it moves up strictly whenever
    the lock changes hands.
  */
  lemma StepDoesNotOvertake(cfg: Config, s: State, e: Event, s': State, p: Path, a: int)
    requires Inv(cfg, s) && Steps(cfg, s, e, s') && InQueue(s.store, p, a)
    ensures !InQueue(s'.store, p, a) ==>
              e == Disconnect(a) || p !in s'.store.files || s'.store.files[p].owner == a
    ensures InQueue(s'.store, p, a) ==>
              && Position(s'.store, p, a) <= Position(s.store, p, a)
              && Ahead(s'.store, p, a) <= Ahead(s.store, p, a)
              && (s'.store.files[p].owner != s.store.files[p].owner ==>
                    Position(s'.store, p, a) < Position(s.store, p, a))
  {
    if p in s'.store.files {
      StepMoves(cfg, s, e, s', p);
      MoveKeepsThePlace(s.store.files[p], s'.store.files[p], Actor(s, e), a);
      assert Waits(s.store, a);
    }
  }

  ghost predicate WaitsThroughout(states: seq<State>, n: nat, p: Path, a: int)
    requires n < |states|
  {
    forall i :: 0 <= i <= n ==> p in states[i].store.files && a in states[i].store.files[p].waiters.items
  }

  /** How often the lock of p changes hands up to the n-th state. */
  function Handovers(states: seq<State>, n: nat, p: Path): nat
    requires n < |states| && forall i :: 0 <= i <= n ==> p in states[i].store.files
  {
    if n == 0 then 0
    else
      Handovers(states, n - 1, p)
      + if states[n].store.files[p].owner != states[n - 1].store.files[p].owner then 1 else 0
  }

  /**
    Over any stretch of a run in which a waits for p, only clients that were ahead of it from the start
    come to own the lock, and the lock changes hands no more often than a had places to move up.
  */
  lemma {:induction false} NoOvertaking(cfg: Config, states: seq<State>, events: seq<Event>, n: nat, p: Path, a: int)
    requires Segment(cfg, states, events) && Inv(cfg, states[0]) && n < |states|
    requires WaitsThroughout(states, n, p, a)
    ensures var first, last := states[0].store, states[n].store;
            && last.files[p].owner in Ahead(first, p, a)
            && Ahead(last, p, a) <= Ahead(first, p, a)
            && Position(last, p, a) + Handovers(states, n, p) <= Position(first, p, a)
  {
    if n > 0 {
      NoOvertaking(cfg, states, events, n - 1, p, a);
      NthStepDoesNotOvertake(cfg, states, events, n - 1, p, a);
    }
  }

  lemma NthStepDoesNotOvertake(cfg: Config, states: seq<State>, events: seq<Event>, i: nat, p: Path, a: int)
    requires Segment(cfg, states, events) && Inv(cfg, states[0]) && i < |events|
    requires WaitsThroughout(states, i + 1, p, a)
    ensures var s, s' := states[i].store, states[i + 1].store;
            && Position(s', p, a) <= Position(s, p, a)
            && Ahead(s', p, a) <= Ahead(s, p, a)
            && (s'.files[p].owner != s.files[p].owner ==> Position(s', p, a) < Position(s, p, a))
  {
    SegmentKeepsInv(cfg, states, events, i);
    StepDoesNotOvertake(cfg, states[i], events[i], states[i + 1], p, a);
  }

  /** So a client that comes later, or stands behind a, does not own the lock while a still waits. */
  lemma LaterRequesterWaits(cfg: Config, states: seq<State>, events: seq<Event>, n: nat, p: Path, a: int, b: int)
    requires Segment(cfg, states, events) && Inv(cfg, states[0]) && n < |states|
    requires WaitsThroughout(states, n, p, a)
    requires var f := states[0].store.files[p];
             f.owner != b && (b !in f.waiters.items || IndexOf(f.waiters.items, a) <= IndexOf(f.waiters.items, b))
    ensures states[n].store.files[p].owner != b
  {
    NoOvertaking(cfg, states, events, n, p, a);
    var q := states[0].store.files[p].waiters.items;
    assert b !in q[..IndexOf(q, a)];
  }
}
