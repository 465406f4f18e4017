/**
  What a client sees over several requests: a failure has had no effect, what it wrote is what it reads, what
  it appended is what it reads exactly on an empty file, and one request undoes another.
*/
module Sessions {
  import opened Seqs
  import opened Machine
  import opened Files
  import opened Policies
  import opened Stores
  import opened Handlers
  import opened StoreInvariants
  import opened Routing
  import opened Protocol
  import opened ExclusiveRuns
  import opened WriteRuns

  // Failures

  /** If the sender is told of a failure, that is all that happened. */
  ghost predicate FailsCleanly(st: Store, c: int, out: Outcome) {
    out.Done? ==> forall i :: 0 <= i < |out.notes| && out.notes[i].client == c && out.notes[i].reply.Failed? ==>
                    out.store == st && out.notes == [out.notes[i]]
  }

  lemma VictimsDoNotTellTheSender(cfg: Config, st: Store, c: int, victims: seq<Path>)
    requires FilesOk(st) && WaitsNowhere(st, c) && AtMostOneQueue(st)
    requires NoDup(victims) && forall v :: v in victims ==> v in st.files
    ensures forall i :: 0 <= i < |EvictionNotes(st.files, victims)| ==> EvictionNotes(st.files, victims)[i].client != c
  {
  }

  lemma PutContentFailsCleanly(cfg: Config, st: Store, c: int, p: Path, f: File, size: nat, sendBack: bool,
        order: seq<Path>)
    requires HandlerPre(cfg, st, c, order) && AtMostOneQueue(st) && p in st.files
    ensures FailsCleanly(st, c, PutContent(cfg, st, c, p, f, size, sendBack, order))
  {
    hide MakeRoom, PutContent, EvictionNotes, Accounts, Consistent, LockInv, Total, Others;
    MakeRoomConserves(cfg, st, p, size, order);
    PutContentOutcome(cfg, st, c, p, f, size, sendBack, order);
    var room := MakeRoom(cfg, st, p, size, order);
    if room.Made? {
      VictimsDoNotTellTheSender(cfg, st, c, room.victims);
    }
  }

  lemma LockRequestsFailCleanly(cfg: Config, st: Store, c: int, p: Path, flags: int, now: Time)
    ensures FailsCleanly(st, c, HandleOpen(cfg, st, c, p, flags, now))
    ensures FailsCleanly(st, c, HandleLock(st, c, p, now))
    ensures FailsCleanly(st, c, HandleUnlock(st, c, p, now))
    ensures FailsCleanly(st, c, HandleClose(cfg, st, c, p, now))
    ensures FailsCleanly(st, c, HandleRead(st, c, p, now))
  {
  }

  lemma RemoveFailsCleanly(st: Store, c: int, p: Path)
    requires WaitsNowhere(st, c)
    ensures FailsCleanly(st, c, HandleRemove(st, c, p))
  {
  }

  lemma ContentFailsCleanly(cfg: Config, st: Store, c: int, p: Path, sendBack: bool, data: seq<Byte>, now: Time,
        order: seq<Path>)
    requires HandlerPre(cfg, st, c, order) && AtMostOneQueue(st)
    ensures FailsCleanly(st, c, HandleWrite(cfg, st, c, p, sendBack, data, now, order))
    ensures FailsCleanly(st, c, HandleAppend(cfg, st, c, p, sendBack, data, now, order))
  {
    if p in st.files {
      var f := Touch(ReplaceContent(st.files[p], data).(writable := false), now);
      var g := Touch(AppendContent(cfg.recordTotal, st.files[p], data).(writable := false), now);
      PutContentFailsCleanly(cfg, st, c, p, f, |data|, sendBack, order);
      PutContentFailsCleanly(cfg, st, c, p, g, |data|, sendBack, order);
    }
    hide PutContent, StoreInv, PolicyOrder, WaitsNowhere, AtMostOneQueue;
  }

  /** A request that fails has left the store as it was and told nobody else anything. */
  lemma FailureHasNoEffect(cfg: Config, st: Store, c: int, req: Request, now: Time, order: seq<Path>)
    requires HandlerPre(cfg, st, c, order) && AtMostOneQueue(st)
    ensures FailsCleanly(st, c, Handle(cfg, st, c, req, now, order))
  {
    match req
    case Open(p, flags) => LockRequestsFailCleanly(cfg, st, c, p, flags, now);
    case Lock(p) => LockRequestsFailCleanly(cfg, st, c, p, 0, now);
    case Unlock(p) => LockRequestsFailCleanly(cfg, st, c, p, 0, now);
    case Read(p) => LockRequestsFailCleanly(cfg, st, c, p, 0, now);
    case ReadN(n) =>
    case Write(p, sendBack, data) => ContentFailsCleanly(cfg, st, c, p, sendBack, data, now, order);
    case Append(p, sendBack, data) => ContentFailsCleanly(cfg, st, c, p, sendBack, data, now, order);
    case Close(p) => LockRequestsFailCleanly(cfg, st, c, p, 0, now);
    case Remove(p) => RemoveFailsCleanly(st, c, p);
  }

  // Reading back

  /** What c would read is exactly `content`. */
  ghost predicate Reads(st: Store, c: int, p: Path, content: seq<Byte>) {
    forall now :: HandleRead(st, c, p, now).notes == [Note(c, Data(content))]
  }

  lemma ReadableExactly(st: Store, c: int, p: Path, content: seq<Byte>)
    ensures Reads(st, c, p, content)
            <==> p in st.files && c in st.files[p].openers.items && st.files[p].owner in {NOBODY, c}
                 && Content(st.files[p]) == content
  {
    assert HandleRead(st, c, p, Time(0, 0)).Done?;
  }

  lemma PutContentStores(cfg: Config, st: Store, c: int, p: Path, f: File, size: nat, sendBack: bool, order: seq<Path>)
    requires HandlerPre(cfg, st, c, order) && p in st.files
    ensures var out := PutContent(cfg, st, c, p, f, size, sendBack, order);
            Accepted(out) ==> p in out.store.files && out.store.files[p] == f
  {
    PutContentOutcome(cfg, st, c, p, f, size, sendBack, order);
  }

  /** An accepted write is read back, byte for byte, the empty one included. */
  lemma WriteIsReadBack(cfg: Config, st: Store, c: int, p: Path, sendBack: bool, data: seq<Byte>, now: Time,
        order: seq<Path>)
    requires HandlerPre(cfg, st, c, order)
    ensures var out := HandleWrite(cfg, st, c, p, sendBack, data, now, order);
            Accepted(out) ==> Reads(out.store, c, p, data) && out.store.files[p].owner == c
  {
    var out := HandleWrite(cfg, st, c, p, sendBack, data, now, order);
    if Accepted(out) {
      var f := st.files[p];
      PutContentStores(cfg, st, c, p, Touch(ReplaceContent(f, data).(writable := false), now), |data|, sendBack, order);
      hide PutContent;
      ReadableExactly(out.store, c, p, data);
      assert LockInv(f) && WriteInv(f);
      assert Content(out.store.files[p]) == data;
    }
  }

  /** After an accepted append, the old content followed by the new is read back exactly if one of them is empty. */
  lemma AppendIsReadBackExactly(cfg: Config, st: Store, c: int, p: Path, sendBack: bool, data: seq<Byte>, now: Time,
        order: seq<Path>)
    requires HandlerPre(cfg, st, c, order) && !cfg.recordTotal
    ensures var out := HandleAppend(cfg, st, c, p, sendBack, data, now, order);
            Accepted(out) ==>
              && p in st.files
              && (Reads(out.store, c, p, Content(st.files[p]) + data) <==> st.files[p].size == 0 || data == [])
  {
    var out := HandleAppend(cfg, st, c, p, sendBack, data, now, order);
    if Accepted(out) {
      var f := st.files[p];
      PutContentStores(cfg, st, c, p, Touch(AppendContent(false, f, data).(writable := false), now), |data|, sendBack,
            order);
      ReadableExactly(out.store, c, p, Content(f) + data);
      hide PutContent, AppendContent, HandlerPre;
      if data == [] {
        assert Content(f) + data == Content(f);
      } else {
        AppendMeetsItsNameExactlyOnEmptyFiles(f, data);
      }
    }
  }

  /** With the total recorded, an accepted append is always read back after what was there. */
  lemma RecordedAppendIsReadBack(cfg: Config, st: Store, c: int, p: Path, sendBack: bool, data: seq<Byte>, now: Time,
        order: seq<Path>)
    requires HandlerPre(cfg, st, c, order) && cfg.recordTotal
    ensures var out := HandleAppend(cfg, st, c, p, sendBack, data, now, order);
            Accepted(out) ==> p in st.files && Reads(out.store, c, p, Content(st.files[p]) + data)
  {
    var out := HandleAppend(cfg, st, c, p, sendBack, data, now, order);
    if Accepted(out) {
      var f := st.files[p];
      PutContentStores(cfg, st, c, p, Touch(AppendContent(true, f, data).(writable := false), now), |data|, sendBack,
            order);
      ReadableExactly(out.store, c, p, Content(f) + data);
      hide PutContent, AppendContent, HandlerPre;
      if data == [] {
        assert Content(f) + data == Content(f);
      } else {
        AppendMeetsItsNameExactlyOnEmptyFiles(f, data);
      }
    }
  }

  /**
    In every run: what an accepted write of c stored is what a later read of c returns, if the file has stayed in
    the store and c asked for nothing in between, whatever all other clients did.
  */
  lemma ReadReturnsTheWrite(cfg: Config, states: seq<State>, events: seq<Event>, i: nat, j: nat, p: Path, c: int)
    requires ConfigOk(cfg) && Run(cfg, states, events) && i < j < |events|
    requires Enabled(cfg, states[i], events[i]) && Enabled(cfg, states[j], events[j])
    requires ActsFor(events[i], c) && WritesTo(cfg, states[i], events[i], p)
    requires ActsFor(events[j], c) && events[j].HandleIt? && states[j].clients[c].request == Read(p)
    requires forall k :: i < k < j ==> !ActsFor(events[k], c)
    requires forall k :: i < k <= j ==> p in states[k].store.files
    ensures OutcomeOf(cfg, states[j], events[j]).notes == [Note(c, Data(states[i].clients[c].request.data))]
  {
    var s, e, data := states[i], events[i], states[i].clients[c].request.data;
    WriteIsStored(cfg, states, events, i, p, c);
    RunKeepsInv(cfg, states, events, i + 1);
    hide Inv, HandleRead, HandleWrite, HandleAppend, WritesTo, Reads, Steps;
    StretchIsFrozen(cfg, states, events, i + 1, j, p, c);
    StillOpen(cfg, states, events, j, p, c);
    ReadableExactly(states[j].store, c, p, data);
    ReadsAny(states[j].store, c, p, data, events[j].now);
  }

  lemma ReadsAny(st: Store, c: int, p: Path, content: seq<Byte>, now: Time)
    requires Reads(st, c, p, content)
    ensures HandleRead(st, c, p, now).notes == [Note(c, Data(content))]
  {
  }

  lemma WriteIsStored(cfg: Config, states: seq<State>, events: seq<Event>, i: nat, p: Path, c: int)
    requires ConfigOk(cfg) && Run(cfg, states, events) && i < |events|
    requires Enabled(cfg, states[i], events[i]) && ActsFor(events[i], c) && WritesTo(cfg, states[i], events[i], p)
    ensures var st := states[i + 1].store;
            && p in st.files && st.files[p].owner == c != NOBODY
            && Content(st.files[p]) == states[i].clients[c].request.data
  {
    var s, e, data := states[i], events[i], states[i].clients[c].request.data;
    RunKeepsInv(cfg, states, events, i);
    NthStep(cfg, states, events, i);
    SenderIsFree(cfg, s, c, e.order);
    WriteIsReadBack(cfg, s.store, c, p, s.clients[c].request.sendBack, data, e.now, e.order);
    hide Inv, HandleRead, HandleWrite, Reads;
    ReadableExactly(states[i + 1].store, c, p, data);
  }

  lemma StretchIsFrozen(cfg: Config, states: seq<State>, events: seq<Event>, i: nat, j: nat, p: Path, c: int)
    requires Segment(cfg, states, events) && i <= j < |states| && Inv(cfg, states[i])
    requires forall k :: i <= k <= j ==> p in states[k].store.files
    requires forall k :: i <= k < j ==> !ActsFor(events[k], c)
    requires states[i].store.files[p].owner == c != NOBODY
    ensures Untouched(states[i].store.files[p], states[j].store.files[p])
  {
    var later, between := states[i..], events[i..];
    forall k | 0 <= k < |between| ensures Steps(cfg, later[k], between[k], later[k + 1]) {
      NthStep(cfg, states, events, i + k);
    }
    hide Inv, Steps, Untouched;
    OwnedFileIsFrozen(cfg, later, between, j - i, p, c);
  }

  /** An owner has the file open. */
  lemma StillOpen(cfg: Config, states: seq<State>, events: seq<Event>, j: nat, p: Path, c: int)
    requires ConfigOk(cfg) && Run(cfg, states, events) && j < |states|
    requires p in states[j].store.files && states[j].store.files[p].owner == c != NOBODY
    ensures c in states[j].store.files[p].openers.items
  {
    RunKeepsInv(cfg, states, events, j);
    assert LockInv(states[j].store.files[p]);
  }

  // Undoing

  lemma CreatedStore(cfg: Config, st: Store, c: int, p: Path, now: Time)
    requires ConfigOk(cfg) && Accounts(cfg, st) && p !in st.files && st.count < cfg.maxFiles
    ensures var f := AddOpener(NewFile(p, now), c).(owner := c, writable := true);
            HandleOpen(cfg, st, c, p, 3, now)
            == Done(Store([p] + st.names, st.files[p := f], st.used, st.peak, st.count + 1,
                          Max(st.peakCount, st.count + 1)),
                    [Note(c, Ok)])
  {
    CountersAreExact(cfg, st);
    ToInt32Exact(0);
    ToSizeExact(st.count + 1);
    hide ToInt32, ToSize, IsFull;
  }

  lemma CountersFit(cfg: Config, st: Store)
    requires ConfigOk(cfg) && Accounts(cfg, st)
    ensures ToSize(st.count) == st.count && ToSize(st.used) == st.used
  {
    ToSizeExact(st.count);
    ToSizeExact(st.used);
    hide ToSize;
  }

  /** Removing a file just created and locked gives back the store, but for the peak of the file count. */
  lemma RemoveUndoesCreate(cfg: Config, st: Store, c: int, p: Path, now: Time)
    requires ConfigOk(cfg) && Accounts(cfg, st) && c != NOBODY
    requires p !in st.files && st.count < cfg.maxFiles
    ensures var created := HandleOpen(cfg, st, c, p, 3, now);
            && created.Done? && created.notes == [Note(c, Ok)]
            && HandleRemove(created.store, c, p)
               == Done(st.(peakCount := Max(st.peakCount, st.count + 1)), [Note(c, Ok)])
  {
    hide HandleOpen, ToSize, Accounts, Without;
    CreatedStore(cfg, st, c, p, now);
    CountersFit(cfg, st);
    var created := HandleOpen(cfg, st, c, p, 3, now).store;
    var f := created.files[p];
    FirstIsTakenOut(st.names, p);
    assert st.files[p := f] - {p} == st.files;
    assert RemovalNotes(f.waiters.items) == [];
  }

  lemma FirstIsTakenOut(names: seq<Path>, p: Path)
    ensures Without([p] + names, p) == names
  {
  }

  /** Unlocking gives back who owned and who waited before an uncontended lock. */
  lemma UnlockUndoesLock(st: Store, c: int, p: Path, now: Time, later: Time)
    requires c != NOBODY && p in st.files && LockInv(st.files[p])
    requires st.files[p].owner == NOBODY && c in st.files[p].openers.items
    ensures var locked := HandleLock(st, c, p, now);
            && locked.Done? && locked.notes == [Note(c, Ok)]
            && HandleUnlock(locked.store, c, p, later).notes == [Note(c, Ok)]
            && HandleUnlock(locked.store, c, p, later).store
               == SetFile(st, p, Touch(Touch(st.files[p], now), later))
  {
  }
}
