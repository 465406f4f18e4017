/** Whole runs: the two peaks the server reports are the largest values its counters have had. */
module PeakRuns {
  import opened Machine
  import opened Files
  import opened Policies
  import opened Stores
  import opened Handlers
  import opened StoreInvariants
  import opened Protocol

  /** The peaks go along with the counters. */
  ghost predicate PeaksFollow(st: Store, st': Store) {
    && st'.peak == Max(st.peak, st'.used)
    && st'.peakCount == Max(st.peakCount, st'.count)
  }

  lemma NotifyPeaks(cfg: Config, st: Store, size: nat)
    requires ConfigOk(cfg) && Accounts(cfg, st) && 0 < size < cfg.maxMemory && st.used + size <= cfg.maxMemory
    ensures PeaksFollow(st, NotifyMemory(st, size))
  {
    ToInt32Exact(size);
    hide Shape, Stored;
  }

  lemma PutContentPeaks(cfg: Config, st: Store, c: int, p: Path, f: File, size: nat, sendBack: bool, order: seq<Path>)
    requires ConfigOk(cfg) && Accounts(cfg, st) && PolicyOrder(cfg.policy, st.files, order) && size > 0
    ensures var out := PutContent(cfg, st, c, p, f, size, sendBack, order);
            out.Done? ==> PeaksFollow(st, out.store)
  {
    hide MakeRoom, PutContent, Select, Total, Evict, NotifyMemory, Shape, Stored, Consistent, EvictionNotes, Drift,
      CanFree;
    PutContentOutcome(cfg, st, c, p, f, size, sendBack, order);
    RoomCases(cfg, st, p, size, order);
    MakeRoomConserves(cfg, st, p, size, order);
    var room, missing := MakeRoom(cfg, st, p, size, order), st.used + size - cfg.maxMemory;
    if room.Made? {
      if missing <= 0 {
        NotifyPeaks(cfg, st, size);
      } else {
        SelectHasNoDup(st.files, order, p, missing);
        EvictRemovesExactly(cfg, st, room.victims);
        NotifyPeaks(cfg, Evict(st, room.victims), size);
      }
    }
  }

  lemma WriteAndAppendPeaks(cfg: Config, st: Store, c: int, p: Path, sendBack: bool, data: seq<Byte>, now: Time,
        order: seq<Path>)
    requires HandlerPre(cfg, st, c, order)
    ensures var out := HandleWrite(cfg, st, c, p, sendBack, data, now, order);
            out.Done? ==> PeaksFollow(st, out.store)
    ensures var out := HandleAppend(cfg, st, c, p, sendBack, data, now, order);
            out.Done? ==> PeaksFollow(st, out.store)
  {
    hide PutContent, HandlerPre, Shape, Stored, Consistent;
    PreMeans(cfg, st, c, order);
    if p in st.files && data != [] {
      var f := Touch(ReplaceContent(st.files[p], data).(writable := false), now);
      var g := Touch(AppendContent(cfg.recordTotal, st.files[p], data).(writable := false), now);
      PutContentPeaks(cfg, st, c, p, f, |data|, sendBack, order);
      PutContentPeaks(cfg, st, c, p, g, |data|, sendBack, order);
    }
  }

  lemma OpenPeaks(cfg: Config, st: Store, c: int, p: Path, flags: int, now: Time)
    requires ConfigOk(cfg) && Accounts(cfg, st)
    ensures var out := HandleOpen(cfg, st, c, p, flags, now);
            out.Done? ==> PeaksFollow(st, out.store)
  {
    CountersAreExact(cfg, st);
    ToInt32Exact(0);
    ToSizeExact(st.count + 1);
    hide Shape, Stored, IsFull, ToInt32, ToSize;
  }

  lemma RestPeaks(cfg: Config, st: Store, c: int, p: Path, now: Time)
    requires ConfigOk(cfg) && Accounts(cfg, st)
    ensures var out := HandleLock(st, c, p, now);
            out.Done? ==> PeaksFollow(st, out.store)
    ensures PeaksFollow(st, HandleUnlock(st, c, p, now).store)
    ensures PeaksFollow(st, HandleClose(cfg, st, c, p, now).store)
    ensures PeaksFollow(st, HandleRead(st, c, p, now).store)
    ensures var out := HandleRemove(st, c, p);
            out.Done? ==> PeaksFollow(st, out.store)
  {
    if p in st.files {
      RemovalDoesNotUnderflow(cfg, st, p);
    }
    hide Shape, Stored, ToSize;
  }

  lemma HandlePeaks(cfg: Config, st: Store, c: int, req: Request, now: Time, order: seq<Path>)
    requires HandlerPre(cfg, st, c, order)
    ensures var out := Handle(cfg, st, c, req, now, order);
            out.Done? ==> PeaksFollow(st, out.store)
  {
    hide HandlerPre, PeaksFollow;
    PreMeans(cfg, st, c, order);
    hide HandleOpen, HandleLock, HandleUnlock, HandleClose, HandleRead, HandleRemove, HandleWrite, HandleAppend,
      PolicyOrder, FilesOk, Shape, Stored;
    match req
    case Open(p, flags) => OpenPeaks(cfg, st, c, p, flags, now);
    case Write(p, sendBack, data) => WriteAndAppendPeaks(cfg, st, c, p, sendBack, data, now, order);
    case Append(p, sendBack, data) => WriteAndAppendPeaks(cfg, st, c, p, sendBack, data, now, order);
    case ReadN(n) => SamePeaks(cfg, st);
    case _ => RestPeaks(cfg, st, c, req.path, now);
  }

  lemma SamePeaks(cfg: Config, st: Store)
    requires Accounts(cfg, st)
    ensures PeaksFollow(st, st)
  {
  }

  lemma StepPeaks(cfg: Config, s: State, e: Event, s': State)
    requires Inv(cfg, s) && Steps(cfg, s, e, s')
    ensures PeaksFollow(s.store, s'.store)
  {
    match e
    case HandleIt(c, now, order) =>
      SenderIsFree(cfg, s, c, order);
      HandlePeaks(cfg, s.store, c, s.clients[c].request, now, order);
    case _ =>
  }

  /** The most memory, and the most files, there have been up to the n-th state. */
  ghost function MostUsed(states: seq<State>, n: nat): int
    requires n < |states|
  {
    if n == 0 then 0 else Max(MostUsed(states, n - 1), states[n].store.used)
  }

  ghost function MostFiles(states: seq<State>, n: nat): int
    requires n < |states|
  {
    if n == 0 then 0 else Max(MostFiles(states, n - 1), |states[n].store.files|)
  }

  /** In every run the reported peaks are the largest amounts of memory and of files that there have been. */
  lemma {:induction false} PeaksAreTheMaxima(cfg: Config, states: seq<State>, events: seq<Event>, n: nat)
    requires ConfigOk(cfg) && Run(cfg, states, events) && n < |states|
    ensures states[n].store.peak == MostUsed(states, n) && states[n].store.peakCount == MostFiles(states, n)
  {
    hide Run, Segment, Inv, Steps;
    RunBegins(cfg, states, events);
    if n > 0 {
      PeaksAreTheMaxima(cfg, states, events, n - 1);
      NthStepPeaks(cfg, states, events, n - 1);
      FilesAreCounted(cfg, states, events, n);
    }
  }

  lemma NthStepPeaks(cfg: Config, states: seq<State>, events: seq<Event>, n: nat)
    requires ConfigOk(cfg) && Run(cfg, states, events) && n < |events|
    ensures n + 1 < |states| && PeaksFollow(states[n].store, states[n + 1].store)
  {
    NthStep(cfg, states, events, n);
    hide Steps, PeaksFollow;
    RunKeepsInv(cfg, states, events, n);
    StepPeaks(cfg, states[n], events[n], states[n + 1]);
  }

  lemma FilesAreCounted(cfg: Config, states: seq<State>, events: seq<Event>, n: nat)
    requires ConfigOk(cfg) && Run(cfg, states, events) && n < |states|
    ensures states[n].store.count == |states[n].store.files|
  {
    RunKeepsInv(cfg, states, events, n);
    CountIsTheNumberOfFiles(states[n].store);
  }
}
