/**
  Two promises of server/includes/handle_client.h that the handlers do not keep as written: that closing fails
  for a client that has not opened the file, and that a write needs the open that created and locked the file
  to be the sender's previous request on it. For each: an input on which it fails, and exactly when it holds.
*/
module Promises {
  import opened Seqs
  import opened Machine
  import opened Files
  import opened Policies
  import opened Stores
  import opened Handlers
  import opened StoreInvariants
  import opened Protocol
  import opened ExclusiveRuns
  import opened WriteRuns

  /** The sender is told of a failure and that is all. */
  predicate Rejects(out: Outcome, c: int) {
    out.Done? && |out.notes| == 1 && out.notes[0].client == c && out.notes[0].reply.Failed?
  }

  // Closing

  predicate CloseShouldFail(st: Store, c: int, p: Path) {
    p !in st.files || c !in st.files[p].openers.items
  }

  /** A client that has not opened the file closes it with success, and nothing but the use of the file changes. */
  lemma StrangerCloses(cfg: Config, st: Store, c: int, p: Path, now: Time)
    requires p in st.files && LockInv(st.files[p]) && c != NOBODY && c !in st.files[p].openers.items
    ensures CloseShouldFail(st, c, p)
    ensures HandleClose(cfg, st, c, p, now) == Done(SetFile(st, p, Touch(st.files[p], now)), [Note(c, Ok)])
  {
  }

  /** Closing fails when it should exactly if the file is missing or the sender is one of its openers. */
  lemma CloseFailsAsPromisedExactly(cfg: Config, st: Store, c: int, p: Path, now: Time)
    ensures (Rejects(HandleClose(cfg, st, c, p, now), c) <==> CloseShouldFail(st, c, p))
            <==> p !in st.files || c in st.files[p].openers.items
  {
  }

  // Room

  lemma {:induction false} TotalOfPermutation(files: FileMap, a: seq<Path>, b: seq<Path>)
    requires NoDup(a) && NoDup(b) && (forall p :: p in a <==> p in b) && forall p :: p in a ==> p in files
    ensures Total(files, a) == Total(files, b)
    decreases |a|
  {
    if a == [] {
      assert forall i :: 0 <= i < |b| ==> b[i] in a;
    } else {
      var rest, less := a[1..], Without(b, a[0]);
      TotalWithout(files, a[0], b);
      WithoutMembers(b, a[0]);
      forall p ensures p in rest <==> p in less {
        assert p in rest ==> p in a && p != a[0];
        assert p in a && p != a[0] ==> p in rest;
      }
      hide Without;
      TotalOfPermutation(files, rest, less);
    }
  }

  lemma {:induction false} OthersAreTheRest(order: seq<Path>, p: Path)
    requires NoDup(order)
    ensures NoDup(Others(order, p))
  {
    if order != [] {
      OthersAreTheRest(order[1..], p);
      assert order[0] !in order[1..];
      DistinctCons(order[0], Others(order[1..], p));
    }
  }

  /** Bytes more for p fit: under the limit, and together with what the counter cannot get back. */
  ghost predicate RoomFor(cfg: Config, st: Store, p: Path, size: nat)
    requires Shape(st) && p in st.files
  {
    size < cfg.maxMemory && Drift(st) + st.files[p].size + size <= cfg.maxMemory
  }

  /** Room is made exactly if the bytes fit, in whatever order the files are tried. */
  lemma RoomIsMadeExactly(cfg: Config, st: Store, p: Path, size: nat, order: seq<Path>)
    requires ConfigOk(cfg) && Accounts(cfg, st) && PolicyOrder(cfg.policy, st.files, order) && p in st.files
    ensures MakeRoom(cfg, st, p, size, order).Refused? <==> !RoomFor(cfg, st, p, size)
  {
    RoomIsRefusedExactly(cfg, st, p, size, order);
    OthersAreTheRest(order, p);
    WithoutMembers(st.names, p);
    TotalWithout(st.files, p, st.names);
    hide MakeRoom, Without, Others, Total, Consistent;
    TotalOfPermutation(st.files, Others(order, p), Without(st.names, p));
  }

  /** The files that a write or append of the data replaces, seen before it is handled. */
  function ToReplace(cfg: Config, st: Store, p: Path, data: seq<Byte>, order: seq<Path>): seq<Path>
    requires forall q :: q in order ==> q in st.files
  {
    if data == [] then []
    else match MakeRoom(cfg, st, p, |data|, order)
         case Made(_, victims) => victims
         case _ => []
  }

  // Writing

  /** A write is accepted exactly on a file open for it, by its owner, with room for the data. */
  lemma WriteIsAcceptedExactly(cfg: Config, st: Store, c: int, p: Path, sendBack: bool, data: seq<Byte>, now: Time,
        order: seq<Path>)
    requires HandlerPre(cfg, st, c, order)
    ensures var out := HandleWrite(cfg, st, c, p, sendBack, data, now, order);
            out.Done? ==>
              && (Rejects(out, c) <==> !Accepted(out))
              && (Accepted(out) <==> p in st.files && st.files[p].writable && st.files[p].owner == c
                                     && (data == [] || RoomFor(cfg, st, p, |data|)))
  {
    hide PutContent, RoomFor, Payload;
    if p in st.files {
      var f := Touch(ReplaceContent(st.files[p], data).(writable := false), now);
      RoomIsMadeExactly(cfg, st, p, |data|, order);
      PutContentIsAcceptedExactly(cfg, st, c, p, f, |data|, sendBack, order);
    }
  }

  lemma PutContentIsAcceptedExactly(cfg: Config, st: Store, c: int, p: Path, f: File, size: nat, sendBack: bool,
        order: seq<Path>)
    requires forall q :: q in order ==> q in st.files
    ensures var out := PutContent(cfg, st, c, p, f, size, sendBack, order);
            out.Done? ==>
              && (Rejects(out, c) <==> !Accepted(out))
              && (Accepted(out) <==> !MakeRoom(cfg, st, p, size, order).Refused?)
  {
    PutContentOutcome(cfg, st, c, p, f, size, sendBack, order);
    hide MakeRoom, PutContent, EvictionNotes;
  }

  // What a request leaves alone

  predicate Names(req: Request, p: Path) {
    !req.ReadN? && req.path == p
  }

  ghost predicate Unchanged(st: Store, out: Outcome, q: Path)
    requires q in st.files
  {
    out.Done? && q in out.store.files ==> out.store.files[q] == st.files[q]
  }

  lemma WriteLeavesOthersAlone(cfg: Config, st: Store, c: int, p: Path, sendBack: bool, data: seq<Byte>, now: Time,
        order: seq<Path>, q: Path)
    requires ConfigOk(cfg) && StoreInv(cfg, st) && PolicyOrder(cfg.policy, st.files, order) && q in st.files && q != p
    ensures Unchanged(st, HandleWrite(cfg, st, c, p, sendBack, data, now, order), q)
  {
    hide PutContent, StoreInv, Consistent, Sorted;
    if p in st.files {
      var f := Touch(ReplaceContent(st.files[p], data).(writable := false), now);
      PutContentProtects(cfg, st, c, p, f, |data|, sendBack, order, q);
    }
  }

  lemma AppendLeavesOthersAlone(cfg: Config, st: Store, c: int, p: Path, sendBack: bool, data: seq<Byte>, now: Time,
        order: seq<Path>, q: Path)
    requires ConfigOk(cfg) && StoreInv(cfg, st) && PolicyOrder(cfg.policy, st.files, order) && q in st.files && q != p
    ensures Unchanged(st, HandleAppend(cfg, st, c, p, sendBack, data, now, order), q)
  {
    hide PutContent, StoreInv, Consistent, Sorted;
    if p in st.files {
      var f := Touch(AppendContent(cfg.recordTotal, st.files[p], data).(writable := false), now);
      PutContentProtects(cfg, st, c, p, f, |data|, sendBack, order, q);
    }
  }

  lemma RestLeavesOthersAlone(cfg: Config, st: Store, c: int, p: Path, flags: int, now: Time, q: Path)
    requires q in st.files && q != p
    ensures Unchanged(st, HandleOpen(cfg, st, c, p, flags, now), q)
    ensures Unchanged(st, HandleLock(st, c, p, now), q)
    ensures Unchanged(st, HandleUnlock(st, c, p, now), q)
    ensures Unchanged(st, HandleClose(cfg, st, c, p, now), q)
    ensures Unchanged(st, HandleRead(st, c, p, now), q)
    ensures Unchanged(st, HandleRemove(st, c, p), q)
  {
  }

  /** A request leaves every file it does not name exactly as it is, if it leaves it at all. */
  lemma UnnamedIsUnchanged(cfg: Config, st: Store, c: int, req: Request, now: Time, order: seq<Path>, q: Path)
    requires HandlerPre(cfg, st, c, order) && q in st.files && !Names(req, q)
    ensures Unchanged(st, Handle(cfg, st, c, req, now, order), q)
  {
    match req
    case Open(p, flags) => RestLeavesOthersAlone(cfg, st, c, p, flags, now, q);
    case Lock(p) => RestLeavesOthersAlone(cfg, st, c, p, 0, now, q);
    case Unlock(p) => RestLeavesOthersAlone(cfg, st, c, p, 0, now, q);
    case Read(p) => RestLeavesOthersAlone(cfg, st, c, p, 0, now, q);
    case ReadN(n) =>
    case Write(p, sendBack, data) => WriteLeavesOthersAlone(cfg, st, c, p, sendBack, data, now, order, q);
    case Append(p, sendBack, data) => AppendLeavesOthersAlone(cfg, st, c, p, sendBack, data, now, order, q);
    case Close(p) => RestLeavesOthersAlone(cfg, st, c, p, 0, now, q);
    case Remove(p) => RestLeavesOthersAlone(cfg, st, c, p, 0, now, q);
  }

  // How files come to be, and to be open for their first write

  lemma PutContentCreatesNothing(cfg: Config, st: Store, c: int, p: Path, f: File, size: nat, sendBack: bool,
        order: seq<Path>)
    requires ConfigOk(cfg) && Accounts(cfg, st) && PolicyOrder(cfg.policy, st.files, order) && p in st.files
    ensures var out := PutContent(cfg, st, c, p, f, size, sendBack, order);
            out.Done? ==> out.store.files.Keys <= st.files.Keys
  {
    hide MakeRoom, PutContent, EvictionNotes, Accounts, Total, Others, Drift, WriteReply, Consistent, Sorted;
    MakeRoomConserves(cfg, st, p, size, order);
    PutContentOutcome(cfg, st, c, p, f, size, sendBack, order);
  }

  lemma ContentCreatesNothing(cfg: Config, st: Store, c: int, p: Path, sendBack: bool, data: seq<Byte>, now: Time,
        order: seq<Path>)
    requires ConfigOk(cfg) && StoreInv(cfg, st) && PolicyOrder(cfg.policy, st.files, order)
    ensures var out := HandleWrite(cfg, st, c, p, sendBack, data, now, order);
            out.Done? ==> out.store.files.Keys <= st.files.Keys
    ensures var out := HandleAppend(cfg, st, c, p, sendBack, data, now, order);
            out.Done? ==> out.store.files.Keys <= st.files.Keys
  {
    hide PutContent, Accounts, FilesOk, Consistent, Sorted;
    if p in st.files {
      var f := Touch(ReplaceContent(st.files[p], data).(writable := false), now);
      var g := Touch(AppendContent(cfg.recordTotal, st.files[p], data).(writable := false), now);
      PutContentCreatesNothing(cfg, st, c, p, f, |data|, sendBack, order);
      PutContentCreatesNothing(cfg, st, c, p, g, |data|, sendBack, order);
    }
  }

  lemma RestCreatesNothing(cfg: Config, st: Store, c: int, p: Path, now: Time)
    ensures var out := HandleLock(st, c, p, now);
            out.Done? ==> out.store.files.Keys <= st.files.Keys
    ensures HandleUnlock(st, c, p, now).store.files.Keys <= st.files.Keys
    ensures HandleClose(cfg, st, c, p, now).store.files.Keys <= st.files.Keys
    ensures HandleRead(st, c, p, now).store.files.Keys <= st.files.Keys
    ensures var out := HandleRemove(st, c, p);
            out.Done? ==> out.store.files.Keys <= st.files.Keys
  {
  }

  /** What an open with the create flag leaves, seen from another name too. */
  lemma OpenCreates(cfg: Config, st: Store, c: int, p: Path, flags: int, now: Time, q: Path)
    requires q !in st.files
    ensures var out := HandleOpen(cfg, st, c, p, flags, now);
            out.Done? && q in out.store.files ==>
              && q == p && WantsCreate(flags) && Accepted(out)
              && out.store.files[q].writable == WantsLock(flags)
              && out.store.files[q].owner == (if WantsLock(flags) then c else NOBODY)
              && out.store.files[q].openers.items == [c]
  {
  }

  /** The event is an accepted open that creates p; `lock` says whether it also locks it. */
  ghost predicate Creates(cfg: Config, s: State, e: Event, p: Path, lock: bool)
    requires Enabled(cfg, s, e)
  {
    && e.HandleIt? && s.clients[e.client].request.Open? && s.clients[e.client].request.path == p
    && WantsCreate(s.clients[e.client].request.flags) && (lock <==> WantsLock(s.clients[e.client].request.flags))
    && Accepted(OutcomeOf(cfg, s, e))
  }

  /** A file appears only by an open that creates it, open for its first write exactly if it was also locked. */
  lemma FilesAreCreated(cfg: Config, s: State, e: Event, s': State, p: Path)
    requires Inv(cfg, s) && Steps(cfg, s, e, s') && p !in s.store.files && p in s'.store.files
    ensures Creates(cfg, s, e, p, s'.store.files[p].writable)
    ensures var f := s'.store.files[p];
            f.owner == (if f.writable then e.client else NOBODY) && f.openers.items == [e.client]
  {
    hide Inv, HandlerPre, HandleOpen, HandleWrite, HandleAppend, HandleLock, HandleUnlock, HandleClose, HandleRead,
      HandleRemove, PolicyOrder, StoreInv;
    match e
    case HandleIt(c, now, order) =>
      SenderIsFree(cfg, s, c, order);
      match s.clients[c].request {
        case Open(q, flags) => OpenCreates(cfg, s.store, c, q, flags, now, p);
        case Write(q, sendBack, data) => ContentCreatesNothing(cfg, s.store, c, q, sendBack, data, now, order);
        case Append(q, sendBack, data) => ContentCreatesNothing(cfg, s.store, c, q, sendBack, data, now, order);
        case ReadN(n) =>
        case Lock(q) => RestCreatesNothing(cfg, s.store, c, q, now);
        case Unlock(q) => RestCreatesNothing(cfg, s.store, c, q, now);
        case Close(q) => RestCreatesNothing(cfg, s.store, c, q, now);
        case Read(q) => RestCreatesNothing(cfg, s.store, c, q, now);
        case Remove(q) => RestCreatesNothing(cfg, s.store, c, q, now);
      }
    case _ =>
  }

  /** Only an accepted write or append ends the first write of a file. */
  lemma RestStaysOpen(cfg: Config, st: Store, c: int, p: Path, flags: int, now: Time, q: Path)
    requires q in st.files && st.files[q].writable
    ensures var out := HandleOpen(cfg, st, c, p, flags, now);
            out.Done? && q in out.store.files ==> out.store.files[q].writable
    ensures var out := HandleLock(st, c, p, now);
            out.Done? && q in out.store.files ==> out.store.files[q].writable
    ensures HandleUnlock(st, c, p, now).store.files[q].writable
    ensures HandleClose(cfg, st, c, p, now).store.files[q].writable
    ensures HandleRead(st, c, p, now).store.files[q].writable
  {
  }

  lemma RejectedContentStaysOpen(cfg: Config, st: Store, c: int, p: Path, sendBack: bool, data: seq<Byte>, now: Time,
        order: seq<Path>)
    requires HandlerPre(cfg, st, c, order) && p in st.files && st.files[p].writable
    ensures var out := HandleWrite(cfg, st, c, p, sendBack, data, now, order);
            out.Done? && !Accepted(out) ==> out.store == st
    ensures var out := HandleAppend(cfg, st, c, p, sendBack, data, now, order);
            out.Done? && !Accepted(out) ==> out.store == st
  {
    var f := Touch(ReplaceContent(st.files[p], data).(writable := false), now);
    var g := Touch(AppendContent(cfg.recordTotal, st.files[p], data).(writable := false), now);
    PutContentOutcome(cfg, st, c, p, f, |data|, sendBack, order);
    PutContentOutcome(cfg, st, c, p, g, |data|, sendBack, order);
    hide MakeRoom, PutContent, HandlerPre, EvictionNotes, Payload;
  }

  lemma HandleStaysOpen(cfg: Config, st: Store, c: int, req: Request, now: Time, order: seq<Path>, p: Path)
    requires HandlerPre(cfg, st, c, order) && p in st.files && st.files[p].writable && Names(req, p)
    ensures var out := Handle(cfg, st, c, req, now, order);
            out.Done? && p in out.store.files && !(Accepted(out) && (req.Write? || req.Append?)) ==>
              out.store.files[p].writable
  {
    match req
    case Write(q, sendBack, data) => RejectedContentStaysOpen(cfg, st, c, q, sendBack, data, now, order);
    case Append(q, sendBack, data) => RejectedContentStaysOpen(cfg, st, c, q, sendBack, data, now, order);
    case Open(q, flags) => RestStaysOpen(cfg, st, c, q, flags, now, p);
    case Lock(q) => RestStaysOpen(cfg, st, c, q, 0, now, p);
    case Unlock(q) => RestStaysOpen(cfg, st, c, q, 0, now, p);
    case Close(q) => RestStaysOpen(cfg, st, c, q, 0, now, p);
    case Read(q) => RestStaysOpen(cfg, st, c, q, 0, now, p);
    case Remove(q) => RemoveAndReadStay(st, c, q);
  }

  lemma StepStaysOpen(cfg: Config, s: State, e: Event, s': State, p: Path)
    requires Inv(cfg, s) && Steps(cfg, s, e, s') && p in s.store.files && p in s'.store.files
    requires s.store.files[p].writable && !WritesTo(cfg, s, e, p) && !AppendsTo(cfg, s, e, p)
    ensures s'.store.files[p].writable
  {
    hide Inv, HandlerPre, Handle, HandleDisconnect, PolicyOrder, Accepted;
    match e
    case HandleIt(c, now, order) =>
      SenderIsFree(cfg, s, c, order);
      var req := s.clients[c].request;
      if Names(req, p) {
        HandleStaysOpen(cfg, s.store, c, req, now, order, p);
      } else {
        UnnamedIsUnchanged(cfg, s.store, c, req, now, order, p);
      }
    case Disconnect(c) => DisconnectKeepsTheRest(cfg, s.store, c, p);
    case _ =>
  }

  lemma DisconnectKeepsTheRest(cfg: Config, st: Store, c: int, p: Path)
    requires Coherent(st) && p in st.files
    ensures var st' := HandleDisconnect(cfg, st, c).store;
            p in st'.files && st'.files[p].writable == st.files[p].writable
  {
  }

  lemma RemoveAndReadStay(st: Store, c: int, p: Path)
    ensures var out := HandleRemove(st, c, p);
            out.Done? && p in out.store.files ==> out.store == st
  {
  }
}
