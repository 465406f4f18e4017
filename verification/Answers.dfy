/**
  What each request brings about: exactly when it succeeds, with which error it fails otherwise, what becomes of the
  lock, and who is told what. Said of the store before and after, not of how a handler gets there.
*/
module Answers {
  import opened Seqs
  import opened Machine
  import opened Files
  import opened Policies
  import opened Stores
  import opened Handlers
  import opened StoreInvariants
  import opened WriteRuns
  import opened Promises

  /** The flags are a bit mask: 1 to create, 2 to lock. */
  lemma FlagBits(flags: int, create: int, lock: int, rest: int)
    requires create in {0, 1} && lock in {0, 1} && flags == create + 2 * lock + 4 * rest
    ensures WantsCreate(flags) <==> create == 1
    ensures WantsLock(flags) <==> lock == 1
  {
    assert flags == 2 * (lock + 2 * rest) + create;
  }

  /** The request failed with this error, and that is all that happened. */
  predicate FailsWith(st: Store, out: Outcome, c: int, error: int) {
    out == Done(st, [Note(c, Failed(error))])
  }

  predicate OpenedBy(st: Store, c: int, p: Path) {
    p in st.files && c in st.files[p].openers.items
  }

  predicate OwnedBy(st: Store, c: int, p: Path) {
    p in st.files && st.files[p].owner == c
  }

  predicate OwnedByNobodyElse(st: Store, c: int, p: Path) {
    OwnedBy(st, c, p) || OwnedBy(st, NOBODY, p)
  }

  // Errors

  lemma OpenFailsExactly(cfg: Config, st: Store, c: int, p: Path, flags: int, now: Time)
    requires ConfigOk(cfg) && StoreInv(cfg, st)
    ensures var out := HandleOpen(cfg, st, c, p, flags, now);
            && (FailsWith(st, out, c, EMLINK) <==> WantsCreate(flags) && st.count == cfg.maxFiles)
            && (FailsWith(st, out, c, EEXIST) <==> WantsCreate(flags) && st.count < cfg.maxFiles && p in st.files)
            && (FailsWith(st, out, c, ENOENT) <==> !WantsCreate(flags) && p !in st.files)
            && (Rejects(out, c) ==> exists e :: e in {EMLINK, EEXIST, ENOENT} && FailsWith(st, out, c, e))
  {
    CountersAreExact(cfg, st);
    hide IsFull, LockInv, WriteInv;
  }

  lemma LockFailsExactly(st: Store, c: int, p: Path, now: Time)
    ensures var out := HandleLock(st, c, p, now);
            && (FailsWith(st, out, c, ENOENT) <==> p !in st.files)
            && (FailsWith(st, out, c, EPERM) <==> p in st.files && !OpenedBy(st, c, p))
            && (Rejects(out, c) ==> exists e :: e in {ENOENT, EPERM} && FailsWith(st, out, c, e))
  {
  }

  lemma UnlockFailsExactly(st: Store, c: int, p: Path, now: Time)
    ensures var out := HandleUnlock(st, c, p, now);
            && (FailsWith(st, out, c, ENOENT) <==> p !in st.files)
            && (FailsWith(st, out, c, EPERM) <==> p in st.files && !OpenedBy(st, c, p))
            && (FailsWith(st, out, c, EACCES) <==> OpenedBy(st, c, p) && !OwnedBy(st, c, p))
            && (Rejects(out, c) ==> exists e :: e in {ENOENT, EPERM, EACCES} && FailsWith(st, out, c, e))
  {
  }

  lemma CloseFailsExactly(cfg: Config, st: Store, c: int, p: Path, now: Time)
    ensures var out := HandleClose(cfg, st, c, p, now);
            && (FailsWith(st, out, c, ENOENT) <==> p !in st.files)
            && (Rejects(out, c) ==> FailsWith(st, out, c, ENOENT))
  {
  }

  lemma RemoveFailsExactly(st: Store, c: int, p: Path)
    requires c != NOBODY
    ensures var out := HandleRemove(st, c, p);
            && (FailsWith(st, out, c, ENOENT) <==> p !in st.files)
            && (FailsWith(st, out, c, EACCES) <==> p in st.files && !OwnedBy(st, c, p))
            && (Rejects(out, c) ==> exists e :: e in {ENOENT, EACCES} && FailsWith(st, out, c, e))
  {
  }

  lemma ReadFailsExactly(st: Store, c: int, p: Path, now: Time)
    ensures var out := HandleRead(st, c, p, now);
            && (FailsWith(st, out, c, ENOENT) <==> p !in st.files)
            && (FailsWith(st, out, c, EPERM) <==> p in st.files && !OpenedBy(st, c, p))
            && (FailsWith(st, out, c, EACCES) <==> OpenedBy(st, c, p) && !OwnedByNobodyElse(st, c, p))
            && (Rejects(out, c) ==> exists e :: e in {ENOENT, EPERM, EACCES} && FailsWith(st, out, c, e))
  {
  }

  lemma PutContentFailsExactly(cfg: Config, st: Store, c: int, p: Path, f: File, size: nat, sendBack: bool,
        order: seq<Path>)
    requires ConfigOk(cfg) && Accounts(cfg, st) && PolicyOrder(cfg.policy, st.files, order) && p in st.files
    ensures var out := PutContent(cfg, st, c, p, f, size, sendBack, order);
            && (FailsWith(st, out, c, EFBIG) <==> !RoomFor(cfg, st, p, size))
            && (Rejects(out, c) ==> FailsWith(st, out, c, EFBIG))
            && (out.Done? ==> (Accepted(out) <==> !Rejects(out, c)))
  {
    hide MakeRoom, PutContent, EvictionNotes, RoomFor, Payload, Accounts, Consistent;
    RoomIsMadeExactly(cfg, st, p, size, order);
    PutContentOutcome(cfg, st, c, p, f, size, sendBack, order);
    var out, room := PutContent(cfg, st, c, p, f, size, sendBack, order), MakeRoom(cfg, st, p, size, order);
    if room.Made? {
      assert out.notes[0] == WriteReply(c, sendBack, st.files, room.victims);
    } else if room.Refused? {
      assert out.notes[0] == Note(c, Failed(EFBIG));
    }
  }

  lemma WriteFailsExactly(cfg: Config, st: Store, c: int, p: Path, sendBack: bool, data: seq<Byte>, now: Time,
        order: seq<Path>)
    requires HandlerPre(cfg, st, c, order)
    ensures var out := HandleWrite(cfg, st, c, p, sendBack, data, now, order);
            && (FailsWith(st, out, c, ENOENT) <==> p !in st.files)
            && (FailsWith(st, out, c, EPERM) <==> p in st.files && !st.files[p].writable)
            && (FailsWith(st, out, c, EACCES) <==> p in st.files && st.files[p].writable && !OwnedBy(st, c, p))
            && (FailsWith(st, out, c, EFBIG) <==> OwnedBy(st, c, p) && st.files[p].writable
                                                  && data != [] && !RoomFor(cfg, st, p, |data|))
            && (Rejects(out, c) ==> exists e :: e in {ENOENT, EPERM, EACCES, EFBIG} && FailsWith(st, out, c, e))
  {
    hide PutContent, RoomFor, Payload, LockInv, WriteInv, Sorted, Consistent;
    if p in st.files && data != [] {
      var f := Touch(ReplaceContent(st.files[p], data).(writable := false), now);
      PutContentFailsExactly(cfg, st, c, p, f, |data|, sendBack, order);
    }
  }

  lemma AppendFailsExactly(cfg: Config, st: Store, c: int, p: Path, sendBack: bool, data: seq<Byte>, now: Time,
        order: seq<Path>)
    requires HandlerPre(cfg, st, c, order)
    ensures var out := HandleAppend(cfg, st, c, p, sendBack, data, now, order);
            && (FailsWith(st, out, c, ENOENT) <==> p !in st.files)
            && (FailsWith(st, out, c, EPERM) <==> p in st.files && !OpenedBy(st, c, p))
            && (FailsWith(st, out, c, EACCES) <==> OpenedBy(st, c, p) && !OwnedByNobodyElse(st, c, p))
            && (FailsWith(st, out, c, EFBIG) <==> OpenedBy(st, c, p) && OwnedByNobodyElse(st, c, p)
                                                  && data != [] && !RoomFor(cfg, st, p, |data|))
            && (Rejects(out, c) ==> exists e :: e in {ENOENT, EPERM, EACCES, EFBIG} && FailsWith(st, out, c, e))
  {
    hide PutContent, RoomFor, Payload, LockInv, WriteInv, Sorted, Consistent;
    if p in st.files && data != [] {
      var f := Touch(AppendContent(cfg.recordTotal, st.files[p], data).(writable := false), now);
      PutContentFailsExactly(cfg, st, c, p, f, |data|, sendBack, order);
    }
  }

  /** An append is accepted exactly on a file its sender has open and nobody else owns, with room for the data. */
  lemma AppendIsAcceptedExactly(cfg: Config, st: Store, c: int, p: Path, sendBack: bool, data: seq<Byte>, now: Time,
        order: seq<Path>)
    requires HandlerPre(cfg, st, c, order)
    ensures var out := HandleAppend(cfg, st, c, p, sendBack, data, now, order);
            out.Done? ==>
              && (Rejects(out, c) <==> !Accepted(out))
              && (Accepted(out) <==> OpenedBy(st, c, p) && OwnedByNobodyElse(st, c, p)
                                     && (data == [] || RoomFor(cfg, st, p, |data|)))
  {
    hide PutContent, RoomFor, Payload, LockInv, WriteInv, Sorted, Consistent;
    if p in st.files && data != [] {
      var f := Touch(AppendContent(cfg.recordTotal, st.files[p], data).(writable := false), now);
      PutContentFailsExactly(cfg, st, c, p, f, |data|, sendBack, order);
    }
  }

  // The lock

  /** The request asks for the lock of p. */
  predicate AsksForLock(req: Request, p: Path) {
    (req.Lock? || (req.Open? && WantsLock(req.flags))) && req.path == p
  }

  /** It asks for the lock of a stored file, and is not turned down. */
  predicate MayLock(st: Store, c: int, req: Request, p: Path) {
    AsksForLock(req, p) && p in st.files && if req.Lock? then OpenedBy(st, c, p) else !WantsCreate(req.flags)
  }

  /**
    Who asks for a lock that is free or its own has it and is told so. Who asks for one that somebody else has is told
    nothing and stands last in the queue, and the owner stays.
  */
  lemma LockIsGrantedExactly(cfg: Config, st: Store, c: int, req: Request, now: Time, order: seq<Path>, p: Path)
    requires HandlerPre(cfg, st, c, order) && MayLock(st, c, req, p) && Handle(cfg, st, c, req, now, order).Done?
    ensures var out := Handle(cfg, st, c, req, now, order);
            && p in out.store.files
            && var f, f' := st.files[p], out.store.files[p];
               if OwnedByNobodyElse(st, c, p)
               then out.notes == [Note(c, Ok)] && f'.owner == c && f'.waiters.items == f.waiters.items
               else out.notes == [] && f'.owner == f.owner && f'.waiters.items == f.waiters.items + [c]
  {
    hide PolicyOrder, Accounts, LockInv, WriteInv;
  }

  /** A success told to who asks for the lock means that it owns the file. */
  lemma GrantedMeansOwned(cfg: Config, st: Store, c: int, req: Request, now: Time, order: seq<Path>, p: Path)
    requires HandlerPre(cfg, st, c, order) && AsksForLock(req, p)
    ensures var out := Handle(cfg, st, c, req, now, order);
            out.Done? && Note(c, Ok) in out.notes ==> OwnedBy(out.store, c, p)
  {
    hide HandlerPre;
    PreMeans(cfg, st, c, order);
    hide HandleOpen, HandleLock, PolicyOrder, Accounts, FilesOk, Shape;
    if MayLock(st, c, req, p) && Handle(cfg, st, c, req, now, order).Done? {
      LockIsGrantedExactly(cfg, st, c, req, now, order, p);
    } else if req.Open? && p !in st.files {
      CreatorOwns(cfg, st, c, p, req.flags, now);
    }
  }

  lemma CreatorOwns(cfg: Config, st: Store, c: int, p: Path, flags: int, now: Time)
    requires WantsLock(flags) && p !in st.files
    ensures var out := HandleOpen(cfg, st, c, p, flags, now);
            out.Done? && Note(c, Ok) in out.notes ==> OwnedBy(out.store, c, p)
  {
  }

  /** The lock of p goes to the head of its queue, which is told, or to nobody; the others move up. */
  ghost predicate HandedOn(st: Store, c: int, out: Outcome, p: Path)
    requires p in st.files
  {
    out.Done? && p in out.store.files
    && var q, f' := st.files[p].waiters.items, out.store.files[p];
       if q == [] then out.notes == [Note(c, Ok)] && f'.owner == NOBODY && f'.waiters.items == []
       else out.notes == [Note(q[0], Ok), Note(c, Ok)] && f'.owner == q[0] && f'.waiters.items == q[1..]
  }

  /** An unlock or close by the owner hands the lock on; every other close leaves it where it is. */
  lemma OwnerHandsOn(cfg: Config, st: Store, c: int, req: Request, now: Time, order: seq<Path>, p: Path)
    requires HandlerPre(cfg, st, c, order) && (req == Unlock(p) || req == Close(p)) && p in st.files
    ensures var out := Handle(cfg, st, c, req, now, order);
            && (OwnedBy(st, c, p) ==> HandedOn(st, c, out, p))
            && (!OwnedBy(st, c, p) && req.Close? ==>
                  && out.Done? && out.notes == [Note(c, Ok)] && p in out.store.files
                  && out.store.files[p].owner == st.files[p].owner
                  && out.store.files[p].waiters == st.files[p].waiters)
  {
    hide PolicyOrder, Accounts, WriteInv;
    assert LockInv(st.files[p]);
    var q := st.files[p].waiters.items;
    if q != [] {
      assert q[0] in q;
    }
  }

  /** What a read, a read of several and a removal tell, and what they leave. */
  lemma ReadTells(st: Store, c: int, p: Path, now: Time)
    requires OpenedBy(st, c, p) && OwnedByNobodyElse(st, c, p)
    ensures HandleRead(st, c, p, now).Done?
    ensures HandleRead(st, c, p, now).notes == [Note(c, Data(st.files[p].data[..st.files[p].size]))]
  {
  }

  lemma ReadNLeavesAll(st: Store, c: int, n: int)
    requires Coherent(st)
    ensures var out := HandleReadN(st, c, n);
            out.Done? && out.store == st && |out.notes| == 1 && out.notes[0].client == c && out.notes[0].reply.Several?
  {
  }

  /** A removal by the owner tells every waiter, in the order of the queue, and then the owner. */
  lemma RemoveTells(st: Store, c: int, p: Path)
    requires OwnedBy(st, c, p) && c != NOBODY && HandleRemove(st, c, p).Done?
    ensures var out, q := HandleRemove(st, c, p), st.files[p].waiters.items;
            && out.store.files == st.files - {p}
            && |out.notes| == |q| + 1 && out.notes[|q|] == Note(c, Ok)
            && forall i :: 0 <= i < |q| ==> out.notes[i] == Note(q[i], Failed(EIDRM))
  {
  }

  // Replacement

  lemma {:induction false} EvictionNotesSayRemoved(files: FileMap, victims: seq<Path>)
    requires forall v :: v in victims ==> v in files
    ensures forall n :: n in EvictionNotes(files, victims) ==>
              n.reply == Failed(EIDRM) && exists v :: v in victims && n.client in files[v].waiters.items
  {
    if victims != [] {
      var ws, rest := files[victims[0]].waiters.items, EvictionNotes(files, victims[1..]);
      EvictionNotesSayRemoved(files, victims[1..]);
      forall n | n in EvictionNotes(files, victims)
        ensures n.reply == Failed(EIDRM) && exists v :: v in victims && n.client in files[v].waiters.items
      {
        if n in RemovalNotes(ws) {
          assert victims[0] in victims;
        } else {
          var v :| v in victims[1..] && n.client in files[v].waiters.items;
          assert v in victims;
        }
      }
    }
  }

  /**
    What an accepted write or append has to replace: nothing while there is memory left; otherwise just enough, and
    without the last of the victims it would not be.
  */
  lemma JustEnoughIsReplaced(cfg: Config, st: Store, p: Path, data: seq<Byte>, order: seq<Path>)
    requires ConfigOk(cfg) && Accounts(cfg, st) && PolicyOrder(cfg.policy, st.files, order) && p in st.files
    requires RoomFor(cfg, st, p, |data|) && data != [] && !MakeRoom(cfg, st, p, |data|, order).Unsafe?
    ensures var victims := ToReplace(cfg, st, p, data, order);
            && NoDup(victims) && p !in victims && (forall v :: v in victims ==> v in st.files)
            && st.used + |data| - Total(st.files, victims) <= cfg.maxMemory
            && forall k :: 0 <= k < |victims| ==> st.used + |data| - Total(st.files, victims[..k]) > cfg.maxMemory
  {
    hide MakeRoom, Select, Total, Others, Evict, NotifyMemory, Consistent, Accounts, RoomFor, CanFree;
    var missing := st.used + |data| - cfg.maxMemory;
    RoomCases(cfg, st, p, |data|, order);
    RoomIsMadeExactly(cfg, st, p, |data|, order);
    SelectIsTheShortestSufficientPrefix(st.files, order, p, missing);
    SelectHasNoDup(st.files, order, p, missing);
    NothingEvicted(st);
    var victims := ToReplace(cfg, st, p, data, order);
    if missing > 0 {
      var others := Others(order, p);
      forall k | 0 <= k < |victims| ensures Total(st.files, victims[..k]) < missing {
        assert victims[..k] == others[..k];
      }
    }
  }

  /** The waiters of what is replaced are told, and its content is sent back if the sender wants it. */
  ghost predicate TellsOfReplacement(st: Store, c: int, sendBack: bool, victims: seq<Path>, notes: seq<Note>)
    requires forall v :: v in victims ==> v in st.files
  {
    && notes != [] && notes[0].client == c
    && (if sendBack
        then notes[0].reply.Several? && |notes[0].reply.files| == |victims|
             && forall i :: 0 <= i < |victims| ==>
                  notes[0].reply.files[i] == (victims[i], st.files[victims[i]].data[..st.files[victims[i]].size])
        else notes[0].reply == Ok)
    && forall n :: n in notes[1..] ==>
         n.reply == Failed(EIDRM) && exists v :: v in victims && n.client in st.files[v].waiters.items
  }

  lemma ReplacementIsTold(st: Store, c: int, sendBack: bool, victims: seq<Path>)
    requires Shape(st) && forall v :: v in victims ==> v in st.files
    ensures TellsOfReplacement(st, c, sendBack, victims,
                               [WriteReply(c, sendBack, st.files, victims)] + EvictionNotes(st.files, victims))
  {
    EvictionNotesSayRemoved(st.files, victims);
    var notes := [WriteReply(c, sendBack, st.files, victims)] + EvictionNotes(st.files, victims);
    assert notes[1..] == EvictionNotes(st.files, victims);
    hide EvictionNotes;
  }

  /** After an accepted write or append exactly the replaced files are gone. */
  ghost predicate Replaces(cfg: Config, st: Store, c: int, p: Path, sendBack: bool, data: seq<Byte>, order: seq<Path>,
        out: Outcome)
    requires forall q :: q in order ==> q in st.files
  {
    var victims := ToReplace(cfg, st, p, data, order);
    && out.Done? && (forall v :: v in victims ==> v in st.files)
    && TellsOfReplacement(st, c, sendBack, victims, out.notes)
    && out.store.files.Keys == st.files.Keys - Elements(victims)
  }

  lemma PutContentReplaces(cfg: Config, st: Store, c: int, p: Path, f: File, sendBack: bool, data: seq<Byte>,
        order: seq<Path>)
    requires ConfigOk(cfg) && Accounts(cfg, st) && PolicyOrder(cfg.policy, st.files, order) && p in st.files
    requires data != []
    ensures var out := PutContent(cfg, st, c, p, f, |data|, sendBack, order);
            Accepted(out) ==> Replaces(cfg, st, c, p, sendBack, data, order, out) && out.store.files[p] == f
  {
    hide MakeRoom, PutContent, Consistent, EvictionNotes, TellsOfReplacement, Drift, Total, Others, WriteReply;
    PutContentOutcome(cfg, st, c, p, f, |data|, sendBack, order);
    MakeRoomConserves(cfg, st, p, |data|, order);
    var room := MakeRoom(cfg, st, p, |data|, order);
    if room.Made? {
      ReplacementIsTold(st, c, sendBack, room.victims);
    }
  }

  lemma NothingIsReplaced(cfg: Config, st: Store, c: int, p: Path, f: File, sendBack: bool, order: seq<Path>)
    requires Shape(st) && p in st.files && forall q :: q in order ==> q in st.files
    ensures Replaces(cfg, st, c, p, sendBack, [], order,
                     Done(SetFile(st, p, f), [WriteReply(c, sendBack, st.files, [])]))
  {
    ReplacementIsTold(st, c, sendBack, []);
    assert [WriteReply(c, sendBack, st.files, [])] + EvictionNotes(st.files, [])
        == [WriteReply(c, sendBack, st.files, [])];
    hide TellsOfReplacement, WriteReply;
    assert SetFile(st, p, f).files.Keys == st.files.Keys - Elements([]);
  }

  lemma WriteReplaces(cfg: Config, st: Store, c: int, p: Path, sendBack: bool, data: seq<Byte>, now: Time,
        order: seq<Path>)
    requires HandlerPre(cfg, st, c, order)
    ensures var out := HandleWrite(cfg, st, c, p, sendBack, data, now, order);
            Accepted(out) ==> Replaces(cfg, st, c, p, sendBack, data, order, out)
  {
    hide PutContent, Replaces, WriteReply, LockInv, WriteInv, WaitsNowhere, Sorted, Consistent;
    if p in st.files {
      var f := st.files[p];
      if data == [] {
        NothingIsReplaced(cfg, st, c, p, f.(writable := false), sendBack, order);
      } else {
        PutContentReplaces(cfg, st, c, p, Touch(ReplaceContent(f, data).(writable := false), now), sendBack, data,
              order);
      }
    }
  }

  lemma AppendReplaces(cfg: Config, st: Store, c: int, p: Path, sendBack: bool, data: seq<Byte>, now: Time,
        order: seq<Path>)
    requires HandlerPre(cfg, st, c, order)
    ensures var out := HandleAppend(cfg, st, c, p, sendBack, data, now, order);
            Accepted(out) ==> Replaces(cfg, st, c, p, sendBack, data, order, out)
  {
    hide PutContent, Replaces, WriteReply, LockInv, WriteInv, WaitsNowhere, Sorted, Consistent;
    if p in st.files {
      var f := st.files[p];
      if data == [] {
        NothingIsReplaced(cfg, st, c, p, Touch(f.(writable := false), now), sendBack, order);
      } else {
        PutContentReplaces(cfg, st, c, p, Touch(AppendContent(cfg.recordTotal, f, data).(writable := false), now),
              sendBack, data, order);
      }
    }
  }
}
