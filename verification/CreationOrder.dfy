/**
  The names list is the stored files, newest first, as long as the clock strictly increases. So a read of
  N files sends the N newest in the order of their creation, and FIFO replacement takes files off the end
  of the list.
*/
module CreationOrder {
  import opened Seqs
  import opened Machine
  import opened Files
  import opened Policies
  import opened Stores
  import opened Handlers
  import opened StoreInvariants
  import opened Protocol

  predicate Earlier(a: Time, b: Time) {
    a.sec < b.sec || (a.sec == b.sec && a.nsec < b.nsec)
  }

  ghost predicate Descending(files: FileMap, names: seq<Path>)
    requires forall p :: p in names ==> p in files
  {
    forall i, j :: 0 <= i < j < |names| ==> Earlier(files[names[j]].created, files[names[i]].created)
  }

  lemma DescendingWithout(files: FileMap, names: seq<Path>, k: nat)
    requires (forall p :: p in names ==> p in files) && Descending(files, names) && k < |names|
    ensures (forall p :: p in RemoveAt(names, k) ==> p in files) && Descending(files, RemoveAt(names, k))
  {
  }

  lemma DescendingFrame(files: FileMap, files': FileMap, names: seq<Path>)
    requires (forall p :: p in names ==> p in files) && Descending(files, names)
    requires forall p :: p in names ==> p in files' && files'[p].created == files[p].created
    ensures Descending(files', names)
  {
  }

  lemma DescendingCons(files: FileMap, names: seq<Path>, p: Path)
    requires (forall q :: q in names ==> q in files) && Descending(files, names) && p in files
    requires forall q :: q in names ==> Earlier(files[q].created, files[p].created)
    ensures (forall q :: q in [p] + names ==> q in files) && Descending(files, [p] + names)
  {
  }

  ghost predicate NewestFirst(st: Store)
    requires forall p :: p in st.names ==> p in st.files
  {
    Descending(st.files, st.names)
  }

  /** Newest first, and every file was created at one of the given times. */
  ghost predicate Ordered(st: Store, times: iset<Time>) {
    && Shape(st) && NewestFirst(st)
    && forall p :: p in st.files ==> st.files[p].created in times
  }

  lemma SetKeepsOrder(st: Store, p: Path, f: File, times: iset<Time>)
    requires Ordered(st, times) && p in st.files && f.created == st.files[p].created && f.path == p
    ensures Ordered(SetFile(st, p, f), times)
  {
  }

  lemma RemoveKeepsOrder(cfg: Config, st: Store, p: Path, times: iset<Time>)
    requires ConfigOk(cfg) && Accounts(cfg, st) && Ordered(st, times) && p in st.files
    ensures Ordered(RemoveFile(st, p), times)
  {
    RemoveFileKeepsAccounts(cfg, st, p);
    WithoutKeepsNewestFirst(st, p);
    hide Descending;
  }

  lemma WithoutKeepsNewestFirst(st: Store, p: Path)
    requires Shape(st) && NewestFirst(st) && p in st.files
    ensures forall q :: q in RemoveFile(st, p).names ==> q in RemoveFile(st, p).files
    ensures NewestFirst(RemoveFile(st, p))
  {
    WithoutMembers(st.names, p);
    DescendingWithout(st.files, st.names, IndexOf(st.names, p));
    hide Descending;
    DescendingFrame(st.files, st.files - {p}, Without(st.names, p));
  }

  lemma {:induction false} EvictKeepsOrder(cfg: Config, st: Store, victims: seq<Path>, times: iset<Time>)
    requires ConfigOk(cfg) && Accounts(cfg, st) && Ordered(st, times)
    requires NoDup(victims) && forall v :: v in victims ==> v in st.files
    ensures Ordered(Evict(st, victims), times)
    decreases |victims|
  {
    hide Descending;
    if victims != [] {
      RemoveKeepsOrder(cfg, st, victims[0], times);
      RemoveFileKeepsAccounts(cfg, st, victims[0]);
      assert victims[0] !in victims[1..];
      EvictKeepsOrder(cfg, RemoveFile(st, victims[0]), victims[1..], times);
    }
  }

  lemma PutContentKeepsOrder(cfg: Config, st: Store, c: int, p: Path, f: File, size: nat, sendBack: bool,
        order: seq<Path>, times: iset<Time>)
    requires ConfigOk(cfg) && StoreInv(cfg, st) && PolicyOrder(cfg.policy, st.files, order) && Ordered(st, times)
    requires p in st.files && f.created == st.files[p].created && f.path == p
    ensures var out := PutContent(cfg, st, c, p, f, size, sendBack, order);
            out.Done? ==> Ordered(out.store, times)
  {
    hide Descending;
    RoomKeepsOrder(cfg, st, p, size, order, times);
    var room := MakeRoom(cfg, st, p, size, order);
    if room.Made? {
      SetKeepsOrder(room.store, p, f, times);
    }
  }

  lemma RoomKeepsOrder(cfg: Config, st: Store, p: Path, size: nat, order: seq<Path>, times: iset<Time>)
    requires ConfigOk(cfg) && Accounts(cfg, st) && PolicyOrder(cfg.policy, st.files, order) && Ordered(st, times)
    requires p in st.files
    ensures var room := MakeRoom(cfg, st, p, size, order);
            room.Made? ==> Ordered(room.store, times) && p in room.store.files && room.store.files[p] == st.files[p]
  {
    hide Descending;
    MakeRoomConserves(cfg, st, p, size, order);
    MakeRoomEvicts(cfg, st, p, size, order);
    hide MakeRoom, Evict;
    var room := MakeRoom(cfg, st, p, size, order);
    if room.Made? {
      EvictKeepsOrder(cfg, st, room.victims, times);
    }
  }

  lemma WriteKeepsOrder(cfg: Config, st: Store, c: int, p: Path, sendBack: bool, data: seq<Byte>, now: Time,
        order: seq<Path>, times: iset<Time>)
    requires ConfigOk(cfg) && StoreInv(cfg, st) && PolicyOrder(cfg.policy, st.files, order) && Ordered(st, times)
    ensures var out := HandleWrite(cfg, st, c, p, sendBack, data, now, order);
            out.Done? ==> Ordered(out.store, times)
  {
    hide Descending, PutContent, Consistent, StoreInv;
    if p in st.files {
      var f := st.files[p];
      SetKeepsOrder(st, p, f.(writable := false), times);
      PutContentKeepsOrder(cfg, st, c, p, Touch(ReplaceContent(f, data).(writable := false), now), |data|, sendBack,
            order, times);
    }
  }

  lemma AppendKeepsOrder(cfg: Config, st: Store, c: int, p: Path, sendBack: bool, data: seq<Byte>, now: Time,
        order: seq<Path>, times: iset<Time>)
    requires ConfigOk(cfg) && StoreInv(cfg, st) && PolicyOrder(cfg.policy, st.files, order) && Ordered(st, times)
    ensures var out := HandleAppend(cfg, st, c, p, sendBack, data, now, order);
            out.Done? ==> Ordered(out.store, times)
  {
    hide Descending, PutContent, Consistent, StoreInv;
    if p in st.files {
      var f := st.files[p];
      SetKeepsOrder(st, p, Touch(f.(writable := false), now), times);
      PutContentKeepsOrder(cfg, st, c, p, Touch(AppendContent(cfg.recordTotal, f, data).(writable := false), now),
            |data|, sendBack, order, times);
    }
  }

  lemma CreateKeepsOrder(cfg: Config, st: Store, c: int, p: Path, flags: int, now: Time, times: iset<Time>)
    requires ConfigOk(cfg) && StoreInv(cfg, st) && Ordered(st, times) && WantsCreate(flags)
    requires forall t :: t in times ==> Earlier(t, now)
    ensures Ordered(HandleOpen(cfg, st, c, p, flags, now).store, times + iset{now})
  {
    if !IsFull(cfg, st) && p !in st.files {
      CountersAreExact(cfg, st);
      var st' := HandleOpen(cfg, st, c, p, flags, now).store;
      AddKeepsOrder(cfg, st, p, st'.files[p], times);
    }
  }

  lemma AddKeepsOrder(cfg: Config, st: Store, p: Path, f: File, times: iset<Time>)
    requires ConfigOk(cfg) && Accounts(cfg, st) && Ordered(st, times)
    requires p !in st.files && f.path == p && f.size == 0 && st.count < cfg.maxFiles
    requires forall t :: t in times ==> Earlier(t, f.created)
    ensures Ordered(AddFile(st, p, f), times + iset{f.created})
  {
    AddFileKeepsAccounts(cfg, st, p, f);
    hide AddFile, Descending;
    DescendingFrame(st.files, AddFile(st, p, f).files, st.names);
    DescendingCons(AddFile(st, p, f).files, st.names, p);
  }

  lemma LockAndOpenKeepOrder(cfg: Config, st: Store, c: int, p: Path, flags: int, now: Time, times: iset<Time>)
    requires Ordered(st, times) && !WantsCreate(flags)
    ensures var out := HandleOpen(cfg, st, c, p, flags, now);
            out.Done? ==> Ordered(out.store, times)
    ensures var out := HandleLock(st, c, p, now);
            out.Done? ==> Ordered(out.store, times)
  {
    hide Descending;
    if p in st.files {
      var f := st.files[p];
      TakeLockKeepsOrder(st, c, p, f, now, times);
      TakeLockKeepsOrder(st, c, p, AddOpener(f, c), now, times);
      SetKeepsOrder(st, p, Touch(f, now), times);
      SetKeepsOrder(st, p, Touch(AddOpener(f, c), now), times);
    }
  }

  lemma TakeLockKeepsOrder(st: Store, c: int, p: Path, f: File, now: Time, times: iset<Time>)
    requires Ordered(st, times) && p in st.files && f.created == st.files[p].created && f.path == p
    ensures var out := TakeLock(st, c, p, f, now);
            out.Done? ==> Ordered(out.store, times)
  {
    hide Descending;
    SetKeepsOrder(st, p, Touch(f.(owner := c), now), times);
    SetKeepsOrder(st, p, Touch(f, now), times);
    if f.waiters.attached {
      SetKeepsOrder(st, p, Touch(EnqueueLock(f, c), now), times);
    }
  }

  lemma RestKeepsOrder(cfg: Config, st: Store, c: int, p: Path, now: Time, times: iset<Time>)
    requires ConfigOk(cfg) && StoreInv(cfg, st) && Ordered(st, times)
    ensures Ordered(HandleUnlock(st, c, p, now).store, times)
    ensures Ordered(HandleClose(cfg, st, c, p, now).store, times)
    ensures Ordered(HandleRead(st, c, p, now).store, times)
    ensures var out := HandleRemove(st, c, p);
            out.Done? ==> Ordered(out.store, times)
  {
    hide Descending;
    if p in st.files {
      var f := st.files[p];
      var g := if f.owner == c then ReleaseLock(f) else f;
      SetKeepsOrder(st, p, Touch(f, now), times);
      SetKeepsOrder(st, p, Touch(ReleaseLock(f), now), times);
      SetKeepsOrder(st, p, Touch(CloseClient(cfg.moveTail, g, c), now), times);
      RemoveKeepsOrder(cfg, st, p, times);
    }
  }

  lemma OrderedAmongMore(st: Store, times: iset<Time>, now: Time)
    requires Ordered(st, times)
    ensures Ordered(st, times + iset{now})
  {
  }

  lemma HandleKeepsOrder(cfg: Config, st: Store, c: int, req: Request, now: Time, order: seq<Path>, times: iset<Time>)
    requires HandlerPre(cfg, st, c, order) && Ordered(st, times)
    requires forall t :: t in times ==> Earlier(t, now)
    ensures var out := Handle(cfg, st, c, req, now, order);
            out.Done? ==> Ordered(out.store, times + iset{now})
  {
    hide Descending;
    var out := Handle(cfg, st, c, req, now, order);
    if req.Open? && WantsCreate(req.flags) {
      CreateKeepsOrder(cfg, st, c, req.path, req.flags, now, times);
    } else {
      match req {
        case Open(p, flags) => LockAndOpenKeepOrder(cfg, st, c, p, flags, now, times);
        case Lock(p) => LockAndOpenKeepOrder(cfg, st, c, p, 0, now, times);
        case Unlock(p) => RestKeepsOrder(cfg, st, c, p, now, times);
        case Read(p) => RestKeepsOrder(cfg, st, c, p, now, times);
        case ReadN(n) =>
        case Write(p, sendBack, data) => WriteKeepsOrder(cfg, st, c, p, sendBack, data, now, order, times);
        case Append(p, sendBack, data) => AppendKeepsOrder(cfg, st, c, p, sendBack, data, now, order, times);
        case Close(p) => RestKeepsOrder(cfg, st, c, p, now, times);
        case Remove(p) => RestKeepsOrder(cfg, st, c, p, now, times);
      }
      if out.Done? {
        OrderedAmongMore(out.store, times, now);
      }
    }
  }

  /** The times at which the first n events of a run were handled. */
  ghost function Times(events: seq<Event>, n: nat): iset<Time>
    requires n <= |events|
  {
    iset i | 0 <= i < n && events[i].HandleIt? :: events[i].now
  }

  ghost predicate ClockIncreases(events: seq<Event>) {
    forall i, j :: 0 <= i < j < |events| && events[i].HandleIt? && events[j].HandleIt? ==>
      Earlier(events[i].now, events[j].now)
  }

  lemma DisconnectKeepsOrder(cfg: Config, st: Store, c: int, times: iset<Time>)
    requires Ordered(st, times)
    ensures Ordered(HandleDisconnect(cfg, st, c).store, times)
  {
    SameTimesKeepOrder(st, HandleDisconnect(cfg, st, c).store.files, times);
  }

  lemma SameTimesKeepOrder(st: Store, files: FileMap, times: iset<Time>)
    requires Ordered(st, times) && files.Keys == st.files.Keys
    requires forall p :: p in files ==> files[p].created == st.files[p].created && files[p].path == p
    ensures Ordered(st.(files := files), times)
  {
  }

  lemma StepKeepsOrder(cfg: Config, s: State, e: Event, s': State, times: iset<Time>)
    requires Inv(cfg, s) && Steps(cfg, s, e, s') && Ordered(s.store, times)
    requires e.HandleIt? ==> forall t :: t in times ==> Earlier(t, e.now)
    ensures Ordered(s'.store, if e.HandleIt? then times + iset{e.now} else times)
  {
    hide Descending;
    match e
    case HandleIt(c, now, order) =>
      SenderIsFree(cfg, s, c, order);
      HandleKeepsOrder(cfg, s.store, c, s.clients[c].request, now, order, times);
    case Disconnect(c) => DisconnectKeepsOrder(cfg, s.store, c, times);
    case _ =>
  }

  lemma EmptyIsOrdered()
    ensures forall times :: Ordered(EmptyStore(), times)
  {
  }

  lemma LaterThanBefore(events: seq<Event>, i: nat)
    requires ClockIncreases(events) && i < |events|
    ensures events[i].HandleIt? ==> forall t :: t in Times(events, i) ==> Earlier(t, events[i].now)
    ensures Times(events, i + 1)
            == if events[i].HandleIt? then Times(events, i) + iset{events[i].now} else Times(events, i)
  {
  }

  /** In every state of a run with a strictly increasing clock, the list has the newest file first. */
  lemma {:induction false} RunIsOrdered(cfg: Config, states: seq<State>, events: seq<Event>, n: nat)
    requires ConfigOk(cfg) && Run(cfg, states, events) && ClockIncreases(events) && n < |states|
    ensures Ordered(states[n].store, Times(events, n))
  {
    hide Inv, Ordered, Steps, Times, ClockIncreases;
    if n == 0 {
      EmptyIsOrdered();
    } else {
      NthStep(cfg, states, events, n - 1);
      hide Segment;
      RunIsOrdered(cfg, states, events, n - 1);
      RunKeepsInv(cfg, states, events, n - 1);
      LaterThanBefore(events, n - 1);
      StepKeepsOrder(cfg, states[n - 1], events[n - 1], states[n], Times(events, n - 1));
    }
  }

  // Consequences

  /**
    A request for n files is answered with min(n, count) different files, all of them if n is not
    positive: in creation order, and every file that is not sent is older than every one that is.
  */
  lemma ReadNSendsTheNewest(st: Store, c: int, n: int)
    requires Shape(st) && NewestFirst(st)
    ensures var files := HandleReadN(st, c, n).notes[0].reply.files;
            var k := |files|;
            && k == (if n <= 0 || n > |st.names| then |st.names| else n)
            && (forall i :: 0 <= i < k ==>
                  files[i].0 == st.names[k - 1 - i] && files[i].1 == Content(st.files[files[i].0]))
            && (forall i, j :: 0 <= i < j < k ==> Earlier(st.files[files[i].0].created, st.files[files[j].0].created))
            && (forall p, q :: p in st.files && p !in st.names[..k] && q in st.names[..k] ==>
                  Earlier(st.files[p].created, st.files[q].created))
  {
    hide Descending, Earlier, NewestFirst, Reverse, Payload, HandleReadN;
    var k := ReadCount(n, st.count);
    OlderOnesAreLeftOut(st, k);
    SentInOrderOfCreation(st, k);
    SentFromTheList(st, c, n);
    var files := HandleReadN(st, c, n).notes[0].reply.files;
    assert forall i :: 0 <= i < k ==> files[i].0 == Reverse(st.names[..k])[i];
  }

  lemma SentFromTheList(st: Store, c: int, n: int)
    requires Shape(st)
    ensures var out := HandleReadN(st, c, n);
            out.Done? && out.notes != [] && out.notes[0].reply.Several?
    ensures var files, k := HandleReadN(st, c, n).notes[0].reply.files, ReadCount(n, st.count);
            && |files| == k
            && (forall i :: 0 <= i < k ==>
                  files[i].0 == st.names[k - 1 - i] && files[i].1 == Content(st.files[files[i].0]))
  {
  }

  lemma SentInOrderOfCreation(st: Store, k: nat)
    requires Shape(st) && NewestFirst(st) && k <= |st.names|
    ensures forall i, j :: 0 <= i < j < k ==>
              Earlier(st.files[Reverse(st.names[..k])[i]].created, st.files[Reverse(st.names[..k])[j]].created)
  {
  }

  lemma OlderOnesAreLeftOut(st: Store, k: nat)
    requires Shape(st) && NewestFirst(st) && k <= |st.names|
    ensures forall p, q :: p in st.files && p !in st.names[..k] && q in st.names[..k] ==>
              Earlier(st.files[p].created, st.files[q].created)
  {
  }

  lemma EarlierComparesFirst(f: File, g: File)
    requires Earlier(f.created, g.created) && TellsApart(Fifo, g, f)
    ensures Compare(Fifo, g, f) > 0
  {
    CompareIsLexicographicExactly(Fifo, g, f);
    assert Before(RankOf(Fifo, f), RankOf(Fifo, g));
    hide Compare, TellsApart;
  }

  /** An array sorted under FIFO is the names list backwards. */
  lemma {:induction false} FifoOrderIsTheListReversed(files: FileMap, names: seq<Path>, order: seq<Path>)
    requires NoDup(names) && NoDup(order) && (forall p :: p in names <==> p in order)
    requires forall p :: p in names ==> p in files
    requires forall p, q :: p in names && q in names ==> TellsApart(Fifo, files[p], files[q])
    requires forall i, j :: 0 <= i < j < |names| ==> Earlier(files[names[j]].created, files[names[i]].created)
    requires Sorted(Fifo, files, order)
    ensures order == Reverse(names)
    decreases |names|
  {
    NoDupLength(names, Elements(names));
    NoDupLength(order, Elements(names));
    hide TellsApart, Compare, Earlier;
    if names != [] {
      var last := |names| - 1;
      var oldest := names[last];
      assert oldest in order;
      var k :| 0 <= k < |order| && order[k] == oldest;
      assert order[0] in names;
      var i :| 0 <= i < |names| && names[i] == order[0];
      if i < last {
        EarlierComparesFirst(files[oldest], files[order[0]]);
      }
      assert k == 0;
      OldestFirst(names, order);
      FifoOrderIsTheListReversed(files, names[..last], order[1..]);
      ReverseSplits(names);
    }
  }

  lemma OldestFirst(names: seq<Path>, order: seq<Path>)
    requires NoDup(names) && NoDup(order) && (forall p :: p in names <==> p in order)
    requires names != [] && order != [] && order[0] == names[|names| - 1]
    ensures forall p :: p in names[..|names| - 1] <==> p in order[1..]
  {
    forall p ensures p in names[..|names| - 1] <==> p in order[1..] {
      if p in names[..|names| - 1] {
        assert p in names && p in order && p != order[0];
        var i :| 0 <= i < |order| && order[i] == p;
        assert order[1..][i - 1] == p;
      }
      if p in order[1..] {
        assert p in order && p in names && p != order[0];
        var i :| 0 <= i < |names| && names[i] == p;
        assert names[..|names| - 1][i] == p;
      }
    }
  }

  lemma {:induction false} ReverseSplits<T>(xs: seq<T>)
    requires xs != []
    ensures Reverse(xs) == [xs[|xs| - 1]] + Reverse(xs[..|xs| - 1])
  {
  }

  /** Under FIFO the victims are the shortest sufficient suffix of the list, target skipped, oldest first. */
  lemma FifoEvictsTheTail(st: Store, order: seq<Path>, skip: Path, need: int)
    requires Shape(st) && NewestFirst(st) && PolicyOrder(Fifo, st.files, order)
    requires AllTold(Fifo, st.files)
    ensures var victims, others := Select(st.files, order, skip, need), Others(Reverse(st.names), skip);
            && |victims| <= |others| && victims == others[..|victims|]
            && (forall k :: 0 <= k < |victims| ==> Total(st.files, others[..k]) < need)
            && (Total(st.files, victims) >= need <==> Total(st.files, others) >= need)
  {
    ToldFilesCompareConsistently(Fifo, st.files);
    FifoOrderIsTheListReversed(st.files, st.names, order);
    SelectIsTheShortestSufficientPrefix(st.files, order, skip, need);
  }
}
