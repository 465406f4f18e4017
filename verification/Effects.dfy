/**
  What becomes of every field of a stored file: its content, who has it open, when and how often it was used. First for
  one step, then for whole runs, where the last use and the number of uses are those of the file's history, and
  replacement goes by them.
*/
module Effects {
  import opened Seqs
  import opened Machine
  import opened Files
  import opened Policies
  import opened Stores
  import opened Handlers
  import opened StoreInvariants
  import opened Protocol
  import opened Promises
  import opened Answers
  import CreationOrder

  /** The request is carried out and names the file; a write of nothing does not count as a use. */
  predicate Uses(req: Request, out: Outcome, c: int, p: Path) {
    out.Done? && !Rejects(out, c) && Names(req, p) && !(req.Write? && req.data == [])
  }

  /** The request is carried out and puts bytes into the file. */
  predicate Fills(req: Request, out: Outcome, c: int, p: Path) {
    Uses(req, out, c, p) && (req.Write? || req.Append?) && req.data != []
  }

  /** A use is timed and counted, with a counter of 32 bits; the time of creation stays. */
  predicate UsedAt(f: File, f': File, used: bool, now: Time) {
    && f'.created == f.created
    && f'.lastUse == (if used then now else f.lastUse)
    && f'.frequency == (if used then ToUint32(f.frequency + 1) else f.frequency)
  }

  /** What readers get after `data` was stored, by a write or an append. */
  function NewContent(cfg: Config, was: seq<Byte>, req: Request): seq<Byte>
    requires req.Write? || req.Append?
  {
    if req.Write? then req.data
    else if cfg.recordTotal then was + req.data
    else (was + req.data)[..|req.data|]
  }

  /** The content changes only when something is stored, to what was stored. */
  predicate HoldsAfter(cfg: Config, f: File, f': File, req: Request, filled: bool)
    requires filled ==> req.Write? || req.Append?
  {
    f'.data[..f'.size] == if filled then NewContent(cfg, f.data[..f.size], req) else f.data[..f.size]
  }

  /** Of the openers only c comes or goes. */
  ghost predicate OpenersAfter(f: File, f': File, c: int, opens: bool, closes: bool) {
    forall d :: d in f'.openers.items <==> if d == c && opens then true
                                           else if d == c && closes then false
                                           else d in f.openers.items
  }

  /** All of this for a file before and after a request. */
  ghost predicate Effect(cfg: Config, f: File, out: Outcome, c: int, req: Request, now: Time, p: Path) {
    out.Done? && p in out.store.files ==>
      var f' := out.store.files[p];
      && UsedAt(f, f', Uses(req, out, c, p), now)
      && HoldsAfter(cfg, f, f', req, Fills(req, out, c, p))
      && OpenersAfter(f, f', c, req.Open? && Uses(req, out, c, p), req.Close? && Uses(req, out, c, p))
  }

  lemma TouchedEffect(cfg: Config, st: Store, p: Path, g: File, notes: seq<Note>, c: int, req: Request, now: Time)
    requires p in st.files && Names(req, p) && !(req.Write? && req.data == [])
    requires !Rejects(Done(st, notes), c)
    requires g.created == st.files[p].created && g.frequency == st.files[p].frequency
    requires HoldsAfter(cfg, st.files[p], g, req, (req.Write? || req.Append?) && req.data != [])
    requires OpenersAfter(st.files[p], g, c, req.Open?, req.Close?)
    ensures Effect(cfg, st.files[p], Done(SetFile(st, p, Touch(g, now)), notes), c, req, now, p)
  {
    hide ToUint32, NewContent;
  }

  lemma RejectedEffect(cfg: Config, st: Store, p: Path, out: Outcome, c: int, req: Request, now: Time)
    requires p in st.files && Rejects(out, c) && out.store == st
    ensures Effect(cfg, st.files[p], out, c, req, now, p)
  {
    hide ToUint32, NewContent;
  }

  lemma TakeLockEffect(cfg: Config, st: Store, c: int, p: Path, g: File, req: Request, now: Time)
    requires p in st.files && Names(req, p) && (req.Open? || req.Lock?)
    requires g.created == st.files[p].created && g.frequency == st.files[p].frequency
    requires g.data == st.files[p].data && g.size == st.files[p].size
    requires OpenersAfter(st.files[p], g, c, req.Open?, false)
    ensures Effect(cfg, st.files[p], TakeLock(st, c, p, g, now), c, req, now, p)
  {
    hide Effect, Touch;
    if g.owner == NOBODY {
      TouchedEffect(cfg, st, p, g.(owner := c), [Note(c, Ok)], c, req, now);
    } else if g.owner == c {
      TouchedEffect(cfg, st, p, g, [Note(c, Ok)], c, req, now);
    } else if g.waiters.attached {
      TouchedEffect(cfg, st, p, EnqueueLock(g, c), [], c, req, now);
    } else {
      UndefinedEffect(cfg, st.files[p], c, req, now, p);
    }
  }

  lemma UndefinedEffect(cfg: Config, f: File, c: int, req: Request, now: Time, p: Path)
    ensures Effect(cfg, f, Undefined, c, req, now, p)
  {
  }

  lemma OpenEffect(cfg: Config, st: Store, c: int, p: Path, flags: int, now: Time)
    requires p in st.files
    ensures Effect(cfg, st.files[p], HandleOpen(cfg, st, c, p, flags, now), c, Open(p, flags), now, p)
  {
    hide Effect, Touch, TakeLock, IsFull;
    var f, out := st.files[p], HandleOpen(cfg, st, c, p, flags, now);
    if WantsCreate(flags) {
      RejectedEffect(cfg, st, p, out, c, Open(p, flags), now);
    } else {
      var g := if c in f.openers.items then f else AddOpener(f, c);
      if WantsLock(flags) {
        TakeLockEffect(cfg, st, c, p, g, Open(p, flags), now);
      } else {
        TouchedEffect(cfg, st, p, g, [Note(c, Ok)], c, Open(p, flags), now);
      }
    }
  }

  lemma LockAndReadEffect(cfg: Config, st: Store, c: int, p: Path, now: Time)
    requires p in st.files
    ensures Effect(cfg, st.files[p], HandleLock(st, c, p, now), c, Lock(p), now, p)
    ensures Effect(cfg, st.files[p], HandleRead(st, c, p, now), c, Read(p), now, p)
  {
    hide Effect, Touch, TakeLock;
    var f := st.files[p];
    if c in f.openers.items {
      TakeLockEffect(cfg, st, c, p, f, Lock(p), now);
    } else {
      RejectedEffect(cfg, st, p, HandleLock(st, c, p, now), c, Lock(p), now);
    }
    if c in f.openers.items && f.owner in {NOBODY, c} {
      TouchedEffect(cfg, st, p, f, [Note(c, Data(Files.Content(f)))], c, Read(p), now);
    } else {
      RejectedEffect(cfg, st, p, HandleRead(st, c, p, now), c, Read(p), now);
    }
  }

  lemma UnlockEffect(cfg: Config, st: Store, c: int, p: Path, now: Time)
    requires p in st.files
    ensures Effect(cfg, st.files[p], HandleUnlock(st, c, p, now), c, Unlock(p), now, p)
  {
    hide Effect, Touch;
    var f := st.files[p];
    if c in f.openers.items && f.owner == c {
      TouchedEffect(cfg, st, p, ReleaseLock(f), Grant(ReleaseLock(f).owner, c), c, Unlock(p), now);
    } else {
      RejectedEffect(cfg, st, p, HandleUnlock(st, c, p, now), c, Unlock(p), now);
    }
  }

  lemma CloseEffect(cfg: Config, st: Store, c: int, p: Path, now: Time)
    requires p in st.files && LockInv(st.files[p])
    ensures Effect(cfg, st.files[p], HandleClose(cfg, st, c, p, now), c, Close(p), now, p)
  {
    var f := st.files[p];
    Chains.DropItems(cfg.moveTail, f.openers, c);
    WithoutMembers(f.openers.items, c);
    hide Without, Chains.Drop, LockInv, Effect, Touch;
    var g := if f.owner == c then ReleaseLock(f) else f;
    var next := if f.owner == c then g.owner else NOBODY;
    TouchedEffect(cfg, st, p, CloseClient(cfg.moveTail, g, c), Grant(next, c), c, Close(p), now);
  }

  lemma RemoveEffect(cfg: Config, st: Store, c: int, p: Path, now: Time)
    requires p in st.files
    ensures Effect(cfg, st.files[p], HandleRemove(st, c, p), c, Remove(p), now, p)
  {
    hide ToUint32, NewContent, RemovalNotes;
  }

  lemma PutContentEffect(cfg: Config, st: Store, c: int, p: Path, g: File, now: Time, order: seq<Path>, req: Request)
    requires HandlerPre(cfg, st, c, order) && p in st.files && Names(req, p) && (req.Write? || req.Append?)
    requires req.data != [] && g.created == st.files[p].created && g.frequency == st.files[p].frequency
    requires HoldsAfter(cfg, st.files[p], g, req, true) && g.openers == st.files[p].openers
    ensures Effect(cfg, st.files[p], PutContent(cfg, st, c, p, Touch(g, now), |req.data|, req.sendBack, order), c, req,
                   now, p)
  {
    hide HandlerPre;
    PreMeans(cfg, st, c, order);
    hide PutContent, Replaces, Accounts, PolicyOrder, FilesOk, Shape, WaitsNowhere, RoomFor, Effect, Touch, NewContent;
    var out := PutContent(cfg, st, c, p, Touch(g, now), |req.data|, req.sendBack, order);
    PutContentReplaces(cfg, st, c, p, Touch(g, now), req.sendBack, req.data, order);
    PutContentFailsExactly(cfg, st, c, p, Touch(g, now), |req.data|, req.sendBack, order);
    if out.Undefined? {
      UndefinedEffect(cfg, st.files[p], c, req, now, p);
    } else if Rejects(out, c) {
      RejectedEffect(cfg, st, p, out, c, req, now);
    } else {
      TouchedEffect(cfg, st, p, g, out.notes, c, req, now);
      SameFileSameEffect(cfg, st.files[p], Done(SetFile(st, p, Touch(g, now)), out.notes), out, c, req, now, p);
    }
  }

  lemma SameFileSameEffect(cfg: Config, f: File, out: Outcome, out': Outcome, c: int, req: Request, now: Time, p: Path)
    requires out.Done? && out'.Done? && out.notes == out'.notes && Effect(cfg, f, out, c, req, now, p)
    requires p in out.store.files && (p in out'.store.files ==> out'.store.files[p] == out.store.files[p])
    ensures Effect(cfg, f, out', c, req, now, p)
  {
    hide UsedAt, HoldsAfter, OpenersAfter;
  }

  lemma WriteEffect(cfg: Config, st: Store, c: int, p: Path, sendBack: bool, data: seq<Byte>, now: Time,
        order: seq<Path>)
    requires HandlerPre(cfg, st, c, order) && p in st.files
    ensures Effect(cfg, st.files[p], HandleWrite(cfg, st, c, p, sendBack, data, now, order), c,
                   Write(p, sendBack, data), now, p)
  {
    hide PutContent, Effect, Touch, HandlerPre;
    PreMeans(cfg, st, c, order);
    var f, req := st.files[p], Write(p, sendBack, data);
    var out := HandleWrite(cfg, st, c, p, sendBack, data, now, order);
    if !f.writable || f.owner != c {
      RejectedEffect(cfg, st, p, out, c, req, now);
    } else if data == [] {
      EmptyWriteEffect(cfg, st, p, out, c, req, now);
    } else {
      PutContentEffect(cfg, st, c, p, ReplaceContent(f, data).(writable := false), now, order, req);
    }
  }

  lemma EmptyWriteEffect(cfg: Config, st: Store, p: Path, out: Outcome, c: int, req: Request, now: Time)
    requires p in st.files && req.Write? && req.data == [] && out.Done?
    requires out.store == SetFile(st, p, st.files[p].(writable := false))
    ensures Effect(cfg, st.files[p], out, c, req, now, p)
  {
    hide ToUint32, NewContent;
  }

  lemma AppendEffect(cfg: Config, st: Store, c: int, p: Path, sendBack: bool, data: seq<Byte>, now: Time,
        order: seq<Path>)
    requires HandlerPre(cfg, st, c, order) && p in st.files
    ensures Effect(cfg, st.files[p], HandleAppend(cfg, st, c, p, sendBack, data, now, order), c,
                   Append(p, sendBack, data), now, p)
  {
    hide PutContent, Effect, Touch, HandlerPre;
    PreMeans(cfg, st, c, order);
    var f, req := st.files[p], Append(p, sendBack, data);
    var out := HandleAppend(cfg, st, c, p, sendBack, data, now, order);
    if c !in f.openers.items || f.owner !in {NOBODY, c} {
      RejectedEffect(cfg, st, p, out, c, req, now);
    } else if data == [] {
      TouchedEffect(cfg, st, p, f.(writable := false), out.notes, c, req, now);
    } else {
      AppendedHolds(cfg, f, req);
      PutContentEffect(cfg, st, c, p, AppendContent(cfg.recordTotal, f, data).(writable := false), now, order, req);
    }
  }

  lemma AppendedHolds(cfg: Config, f: File, req: Request)
    requires req.Append?
    ensures HoldsAfter(cfg, f, AppendContent(cfg.recordTotal, f, req.data), req, true)
  {
  }

  lemma UnnamedEffect(cfg: Config, f: File, out: Outcome, c: int, req: Request, now: Time, p: Path)
    requires !Names(req, p) && (out.Done? && p in out.store.files ==> out.store.files[p] == f)
    ensures Effect(cfg, f, out, c, req, now, p)
  {
  }

  /** Every request times and counts a use of the file it names, stores what it says, and opens or closes for c only. */
  lemma RequestEffect(cfg: Config, st: Store, c: int, req: Request, now: Time, order: seq<Path>, p: Path)
    requires HandlerPre(cfg, st, c, order) && p in st.files
    ensures Effect(cfg, st.files[p], Handle(cfg, st, c, req, now, order), c, req, now, p)
  {
    hide HandlerPre, Effect;
    PreMeans(cfg, st, c, order);
    assert LockInv(st.files[p]);
    hide HandleOpen, HandleLock, HandleUnlock, HandleClose, HandleRead, HandleReadN, HandleRemove, HandleWrite,
      HandleAppend, Accounts, PolicyOrder, FilesOk, Shape, WaitsNowhere, LockInv;
    if !Names(req, p) {
      UnnamedIsUnchanged(cfg, st, c, req, now, order, p);
      UnnamedEffect(cfg, st.files[p], Handle(cfg, st, c, req, now, order), c, req, now, p);
    } else {
      match req
      case Open(_, flags) => OpenEffect(cfg, st, c, p, flags, now);
      case Lock(_) => LockAndReadEffect(cfg, st, c, p, now);
      case Read(_) => LockAndReadEffect(cfg, st, c, p, now);
      case Unlock(_) => UnlockEffect(cfg, st, c, p, now);
      case Remove(_) => RemoveEffect(cfg, st, c, p, now);
      case Close(_) => CloseEffect(cfg, st, c, p, now);
      case Write(_, sendBack, data) => WriteEffect(cfg, st, c, p, sendBack, data, now, order);
      case Append(_, sendBack, data) => AppendEffect(cfg, st, c, p, sendBack, data, now, order);
    }
  }

  /** A disconnection leaves content, uses and the right to a first write alone, and the client opens nothing. */
  lemma DisconnectEffect(cfg: Config, st: Store, c: int, p: Path)
    requires Coherent(st) && p in st.files && LockInv(st.files[p]) && c != NOBODY
    ensures var st' := HandleDisconnect(cfg, st, c).store;
            && st'.files.Keys == st.files.Keys
            && st' == st.(files := st'.files)
            && var f, f' := st.files[p], st'.files[p];
               && UsedAt(f, f', false, f.created) && f'.data == f.data && f'.size == f.size
               && f'.writable == f.writable && f'.path == f.path && OpenersAfter(f, f', c, false, true)
  {
    ForgetKeepsLockInv(cfg.moveTail, st.files[p], c);
  }

  // Which files there are

  /** Files come by opens that create them; they go by removals, and to make room for what is written or appended. */
  ghost predicate KeysAfter(cfg: Config, st: Store, out: Outcome, c: int, req: Request, order: seq<Path>)
    requires out.Done? && forall q :: q in order ==> q in st.files
  {
    out.store.files.Keys
    == if Rejects(out, c) then st.files.Keys
       else match req
            case Open(p, _) => st.files.Keys + {p}
            case Remove(p) => st.files.Keys - {p}
            case Write(p, _, data) => st.files.Keys - Elements(ToReplace(cfg, st, p, data, order))
            case Append(p, _, data) => st.files.Keys - Elements(ToReplace(cfg, st, p, data, order))
            case _ => st.files.Keys
  }

  lemma SameKeys(cfg: Config, st: Store, out: Outcome, c: int, req: Request, order: seq<Path>)
    requires out.Done? && (forall q :: q in order ==> q in st.files) && out.store.files.Keys == st.files.Keys
    requires !req.Open? && !req.Remove? && !req.Write? && !req.Append?
    ensures KeysAfter(cfg, st, out, c, req, order)
  {
  }

  lemma OpenKeys(cfg: Config, st: Store, c: int, p: Path, flags: int, now: Time, order: seq<Path>)
    requires forall q :: q in order ==> q in st.files
    ensures var out := HandleOpen(cfg, st, c, p, flags, now);
            out.Done? ==> KeysAfter(cfg, st, out, c, Open(p, flags), order)
  {
    hide IsFull, ToInt32, ToSize;
    if p in st.files {
      assert st.files.Keys + {p} == st.files.Keys;
    }
  }

  lemma RestKeys(cfg: Config, st: Store, c: int, p: Path, now: Time)
    ensures var out := HandleLock(st, c, p, now);
            out.Done? ==> out.store.files.Keys == st.files.Keys
    ensures HandleUnlock(st, c, p, now).store.files.Keys == st.files.Keys
    ensures HandleClose(cfg, st, c, p, now).store.files.Keys == st.files.Keys
    ensures HandleRead(st, c, p, now).store.files.Keys == st.files.Keys
  {
    if p in st.files {
      assert st.files.Keys + {p} == st.files.Keys;
    }
  }

  lemma RemoveKeys(cfg: Config, st: Store, c: int, p: Path, order: seq<Path>)
    requires c != NOBODY && forall q :: q in order ==> q in st.files
    ensures var out := HandleRemove(st, c, p);
            out.Done? ==> KeysAfter(cfg, st, out, c, Remove(p), order)
  {
    if OwnedBy(st, c, p) && HandleRemove(st, c, p).Done? {
      RemoveTells(st, c, p);
      hide RemoveFile, RemovalNotes;
    }
  }

  lemma ReplacedKeys(cfg: Config, st: Store, out: Outcome, c: int, req: Request, order: seq<Path>)
    requires (req.Write? || req.Append?) && out.Done? && forall q :: q in order ==> q in st.files
    requires Rejects(out, c) ==> out.store == st
    requires !Rejects(out, c) ==> Replaces(cfg, st, c, req.path, req.sendBack, req.data, order, out)
    ensures KeysAfter(cfg, st, out, c, req, order)
  {
    hide ToReplace, TellsOfReplacement, Rejects;
  }

  lemma WriteKeys(cfg: Config, st: Store, c: int, p: Path, sendBack: bool, data: seq<Byte>, now: Time,
        order: seq<Path>)
    requires HandlerPre(cfg, st, c, order) && HandleWrite(cfg, st, c, p, sendBack, data, now, order).Done?
    ensures KeysAfter(cfg, st, HandleWrite(cfg, st, c, p, sendBack, data, now, order), c, Write(p, sendBack, data),
                      order)
  {
    hide HandlerPre, HandleWrite, RoomFor, Replaces, KeysAfter;
    PreMeans(cfg, st, c, order);
    var out := HandleWrite(cfg, st, c, p, sendBack, data, now, order);
    WriteFailsExactly(cfg, st, c, p, sendBack, data, now, order);
    WriteIsAcceptedExactly(cfg, st, c, p, sendBack, data, now, order);
    WriteReplaces(cfg, st, c, p, sendBack, data, now, order);
    ReplacedKeys(cfg, st, out, c, Write(p, sendBack, data), order);
  }

  lemma AppendKeys(cfg: Config, st: Store, c: int, p: Path, sendBack: bool, data: seq<Byte>, now: Time,
        order: seq<Path>)
    requires HandlerPre(cfg, st, c, order) && HandleAppend(cfg, st, c, p, sendBack, data, now, order).Done?
    ensures KeysAfter(cfg, st, HandleAppend(cfg, st, c, p, sendBack, data, now, order), c, Append(p, sendBack, data),
                      order)
  {
    hide HandlerPre, HandleAppend, RoomFor, Replaces, KeysAfter;
    PreMeans(cfg, st, c, order);
    var out := HandleAppend(cfg, st, c, p, sendBack, data, now, order);
    AppendFailsExactly(cfg, st, c, p, sendBack, data, now, order);
    AppendIsAcceptedExactly(cfg, st, c, p, sendBack, data, now, order);
    AppendReplaces(cfg, st, c, p, sendBack, data, now, order);
    ReplacedKeys(cfg, st, out, c, Append(p, sendBack, data), order);
  }

  /** In every case exactly these files are there after a request. */
  lemma FilesComeAndGoExactly(cfg: Config, st: Store, c: int, req: Request, now: Time, order: seq<Path>)
    requires HandlerPre(cfg, st, c, order) && Handle(cfg, st, c, req, now, order).Done?
    ensures KeysAfter(cfg, st, Handle(cfg, st, c, req, now, order), c, req, order)
  {
    hide HandlerPre, KeysAfter;
    PreMeans(cfg, st, c, order);
    hide HandleOpen, HandleLock, HandleUnlock, HandleClose, HandleRead, HandleReadN, HandleRemove, HandleWrite,
      HandleAppend, Accounts, PolicyOrder, FilesOk, Shape, WaitsNowhere, RoomFor, ToReplace, TellsOfReplacement;
    match req
    case Open(p, flags) => OpenKeys(cfg, st, c, p, flags, now, order);
    case Remove(p) => RemoveKeys(cfg, st, c, p, order);
    case ReadN(n) =>
      ReadNLeavesAll(st, c, n);
      SameKeys(cfg, st, HandleReadN(st, c, n), c, req, order);
    case Write(p, sendBack, data) => WriteKeys(cfg, st, c, p, sendBack, data, now, order);
    case Append(p, sendBack, data) => AppendKeys(cfg, st, c, p, sendBack, data, now, order);
    case _ =>
      RestKeys(cfg, st, c, req.path, now);
      SameKeys(cfg, st, Handle(cfg, st, c, req, now, order), c, req, order);
  }

  // Steps

  ghost predicate UsesIn(cfg: Config, s: State, e: Event, p: Path) {
    && e.HandleIt? && Enabled(cfg, s, e)
    && Uses(s.clients[e.client].request, OutcomeOf(cfg, s, e), e.client, p)
  }

  function TimeOf(e: Event): Time {
    if e.HandleIt? then e.now else Time(0, 0)
  }

  /** Only an accepted request that names the file uses it, and every such request does. */
  lemma StepUses(cfg: Config, s: State, e: Event, s': State, p: Path)
    requires Inv(cfg, s) && Steps(cfg, s, e, s') && p in s.store.files && p in s'.store.files
    ensures UsedAt(s.store.files[p], s'.store.files[p], UsesIn(cfg, s, e, p), TimeOf(e))
  {
    hide Handle, PolicyOrder, HandleDisconnect, HandlerPre, Placed, Known;
    match e
    case HandleIt(c, now, order) =>
      SenderIsFree(cfg, s, c, order);
      RequestEffect(cfg, s.store, c, s.clients[c].request, now, order, p);
    case Disconnect(c) =>
      assert LockInv(s.store.files[p]);
      DisconnectEffect(cfg, s.store, c, p);
    case _ =>
  }

  /** A new file is empty, and its creation is its first use. */
  lemma StepCreates(cfg: Config, s: State, e: Event, s': State, p: Path)
    requires Inv(cfg, s) && Steps(cfg, s, e, s') && p !in s.store.files && p in s'.store.files
    ensures var f := s'.store.files[p];
            && e.HandleIt? && f.created == f.lastUse == e.now && f.frequency == 1
            && f.data == [] && f.size == 0 && f.waiters.items == []
  {
    hide Inv, HandleOpen, PolicyOrder;
    FilesAreCreated(cfg, s, e, s', p);
    CreatedFile(cfg, s.store, e.client, p, s.clients[e.client].request.flags, e.now);
  }

  lemma CreatedFile(cfg: Config, st: Store, c: int, p: Path, flags: int, now: Time)
    requires p !in st.files
    ensures var out := HandleOpen(cfg, st, c, p, flags, now);
            out.Done? && p in out.store.files ==>
              var f := out.store.files[p];
              && f.created == f.lastUse == now && f.frequency == 1
              && f.data == [] && f.size == 0 && f.waiters.items == []
  {
  }

  // Runs

  /** When p was last used before the n-th state, its creation included. */
  ghost function LastUse(cfg: Config, states: seq<State>, events: seq<Event>, n: nat, p: Path): Time
    requires n < |states| && |events| + 1 == |states|
  {
    if n == 0 then Time(0, 0)
    else if p !in states[n - 1].store.files || UsesIn(cfg, states[n - 1], events[n - 1], p) then TimeOf(events[n - 1])
    else LastUse(cfg, states, events, n - 1, p)
  }

  /** When p, as it is in the n-th state, was created. */
  ghost function Creation(states: seq<State>, events: seq<Event>, n: nat, p: Path): Time
    requires n < |states| && |events| + 1 == |states|
  {
    if n == 0 then Time(0, 0)
    else if p !in states[n - 1].store.files then TimeOf(events[n - 1])
    else Creation(states, events, n - 1, p)
  }

  /** How often p has been used since, its creation included. */
  ghost function UseCount(cfg: Config, states: seq<State>, events: seq<Event>, n: nat, p: Path): nat
    requires n < |states| && |events| + 1 == |states|
  {
    if n == 0 then 0
    else if p !in states[n - 1].store.files then 1
    else UseCount(cfg, states, events, n - 1, p) + if UsesIn(cfg, states[n - 1], events[n - 1], p) then 1 else 0
  }

  lemma NthStepUses(cfg: Config, states: seq<State>, events: seq<Event>, i: nat, p: Path)
    requires Segment(cfg, states, events) && Inv(cfg, states[0]) && i < |events| && p in states[i + 1].store.files
    ensures |states| == |events| + 1
    ensures var s, e, f' := states[i], events[i], states[i + 1].store.files[p];
            if p in s.store.files then UsedAt(s.store.files[p], f', UsesIn(cfg, s, e, p), TimeOf(e))
            else f'.created == f'.lastUse == TimeOf(e) && f'.frequency == 1
  {
    NthStep(cfg, states, events, i);
    SegmentKeepsInv(cfg, states, events, i);
    hide Inv, Steps, UsesIn, Segment;
    if p in states[i].store.files {
      StepUses(cfg, states[i], events[i], states[i + 1], p);
    } else {
      StepCreates(cfg, states[i], events[i], states[i + 1], p);
    }
  }

  /** The file bears the times of its creation and of its last use and, in 32 bits, the number of its uses. */
  ghost predicate OnRecord(cfg: Config, states: seq<State>, events: seq<Event>, n: nat, p: Path)
    requires n < |states| && |events| + 1 == |states| && p in states[n].store.files
  {
    var f := states[n].store.files[p];
    && f.created == Creation(states, events, n, p)
    && f.lastUse == LastUse(cfg, states, events, n, p)
    && f.frequency == ToUint32(UseCount(cfg, states, events, n, p))
  }

  lemma UseGoesOnRecord(cfg: Config, states: seq<State>, events: seq<Event>, n: nat, p: Path)
    requires n < |events| && |events| + 1 == |states| && p in states[n].store.files && p in states[n + 1].store.files
    requires OnRecord(cfg, states, events, n, p)
    requires UsedAt(states[n].store.files[p], states[n + 1].store.files[p], UsesIn(cfg, states[n], events[n], p),
                    TimeOf(events[n]))
    ensures OnRecord(cfg, states, events, n + 1, p)
  {
    hide ToUint32, UsesIn;
    ToUint32Wraps(UseCount(cfg, states, events, n, p));
  }

  lemma CreationGoesOnRecord(cfg: Config, states: seq<State>, events: seq<Event>, n: nat, p: Path)
    requires n < |events| && |events| + 1 == |states| && p !in states[n].store.files && p in states[n + 1].store.files
    requires var f := states[n + 1].store.files[p];
             f.created == f.lastUse == TimeOf(events[n]) && f.frequency == 1
    ensures OnRecord(cfg, states, events, n + 1, p)
  {
    hide UsesIn;
  }

  /**
    In every state of every run a stored file bears the time of its creation, the time of its last use and, in 32 bits,
    the number of its uses.
  */
  lemma {:induction false} UsesAreOnRecord(cfg: Config, states: seq<State>, events: seq<Event>, n: nat, p: Path)
    requires ConfigOk(cfg) && Run(cfg, states, events) && n < |states| && p in states[n].store.files
    ensures |states| == |events| + 1
    ensures OnRecord(cfg, states, events, n, p)
  {
    hide Inv, Segment, OnRecord, Steps, UsesIn, Run, UsedAt, ToUint32;
    RunBegins(cfg, states, events);
    NthStepUses(cfg, states, events, n - 1, p);
    if p in states[n - 1].store.files {
      UsesAreOnRecord(cfg, states, events, n - 1, p);
      UseGoesOnRecord(cfg, states, events, n - 1, p);
    } else {
      CreationGoesOnRecord(cfg, states, events, n - 1, p);
    }
  }

  // Replacement goes by these

  /** A file that goes for another one to be stored is one of those to replace. */
  lemma GoneIsReplaced(cfg: Config, st: Store, c: int, req: Request, now: Time, order: seq<Path>, v: Path)
    requires HandlerPre(cfg, st, c, order) && (req.Write? || req.Append?) && Handle(cfg, st, c, req, now, order).Done?
    requires v in st.files && v !in Handle(cfg, st, c, req, now, order).store.files
    ensures req.path in st.files && Replaces(cfg, st, c, req.path, req.sendBack, req.data, order,
                                             Handle(cfg, st, c, req, now, order))
  {
    hide HandlerPre;
    PreMeans(cfg, st, c, order);
    hide HandleWrite, HandleAppend, Replaces, PolicyOrder, Accounts, FilesOk, Shape, RoomFor;
    if req.Write? {
      WriteFailsExactly(cfg, st, c, req.path, req.sendBack, req.data, now, order);
      WriteIsAcceptedExactly(cfg, st, c, req.path, req.sendBack, req.data, now, order);
      WriteReplaces(cfg, st, c, req.path, req.sendBack, req.data, now, order);
    } else {
      AppendFailsExactly(cfg, st, c, req.path, req.sendBack, req.data, now, order);
      AppendIsAcceptedExactly(cfg, st, c, req.path, req.sendBack, req.data, now, order);
      AppendReplaces(cfg, st, c, req.path, req.sendBack, req.data, now, order);
    }
  }

  /** What is to be replaced ranks before what is kept. */
  lemma ReplacedRankFirst(cfg: Config, st: Store, p: Path, data: seq<Byte>, order: seq<Path>, v: Path, kept: Path)
    requires ConfigOk(cfg) && Accounts(cfg, st) && PolicyOrder(cfg.policy, st.files, order) && p in st.files
    requires AllTold(cfg.policy, st.files)
    requires v in ToReplace(cfg, st, p, data, order)
    requires kept in st.files && kept != p && kept !in ToReplace(cfg, st, p, data, order)
    ensures v in st.files && !Before(RankOf(cfg.policy, st.files[kept]), RankOf(cfg.policy, st.files[v]))
  {
    hide MakeRoom, Select, Total, Evict, NotifyMemory, Consistent, Accounts, AllTold, Before, CanFree, RankOf;
    RoomCases(cfg, st, p, |data|, order);
    var missing := st.used + |data| - cfg.maxMemory;
    VictimsRankFirst(cfg.policy, st.files, order, p, missing, v, kept);
  }

  /** A request of the step makes v go while `kept`, which is not what it stores to, stays. */
  ghost predicate Drives(cfg: Config, s: State, e: Event, s': State, v: Path, kept: Path) {
    && Steps(cfg, s, e, s') && e.HandleIt?
    && (s.clients[e.client].request.Write? || s.clients[e.client].request.Append?)
    && v in s.store.files && v !in s'.store.files
    && kept in s.store.files && kept in s'.store.files && kept != s.clients[e.client].request.path
  }

  lemma DrivenRankFirst(cfg: Config, s: State, e: Event, s': State, v: Path, kept: Path)
    requires Inv(cfg, s) && Drives(cfg, s, e, s', v, kept) && AllTold(cfg.policy, s.store.files)
    ensures !Before(RankOf(cfg.policy, s.store.files[kept]), RankOf(cfg.policy, s.store.files[v]))
  {
    hide Inv, Handle, HandlerPre, PolicyOrder, AllTold, Before, RankOf, ToReplace;
    var c, req, order := e.client, s.clients[e.client].request, e.order;
    SenderIsFree(cfg, s, c, order);
    PreMeans(cfg, s.store, c, order);
    GoneIsReplaced(cfg, s.store, c, req, e.now, order, v);
    hide TellsOfReplacement, Accounts, Shape, FilesOk;
    var victims := ToReplace(cfg, s.store, req.path, req.data, order);
    assert v in Elements(victims) by {
      assert v in s.store.files.Keys && v !in s'.store.files.Keys;
    }
    assert kept !in Elements(victims) by {
      assert kept in s'.store.files.Keys;
    }
    ReplacedRankFirst(cfg, s.store, req.path, req.data, order, v, kept);
  }

  /**
    In every run, when files whose records the comparator tells apart are driven out, then under LRU no file is kept
    that was last used earlier, under LFU none that was used less often, under FIFO none that was created earlier.
  */
  lemma ReplacementFollowsHistory(cfg: Config, states: seq<State>, events: seq<Event>, n: nat, v: Path, kept: Path)
    requires ConfigOk(cfg) && Run(cfg, states, events) && n < |events|
    requires Drives(cfg, states[n], events[n], states[n + 1], v, kept)
    requires AllTold(cfg.policy, states[n].store.files)
    ensures |states| == |events| + 1
    ensures match cfg.policy
            case Lru =>
              !CreationOrder.Earlier(LastUse(cfg, states, events, n, kept), LastUse(cfg, states, events, n, v))
            case Lfu =>
              ToUint32(UseCount(cfg, states, events, n, v)) <= ToUint32(UseCount(cfg, states, events, n, kept))
            case Fifo => !CreationOrder.Earlier(Creation(states, events, n, kept), Creation(states, events, n, v))
  {
    hide Steps, AllTold;
    RunKeepsInv(cfg, states, events, n);
    UsesAreOnRecord(cfg, states, events, n, v);
    UsesAreOnRecord(cfg, states, events, n, kept);
    DrivenRankFirst(cfg, states[n], events[n], states[n + 1], v, kept);
    hide Inv, LastUse, UseCount, Creation, Run;
  }
}
