/**
  Every request handler and every disconnection keeps the store invariant: one finite map, the joint
  lock invariant of every file, write-enabled files empty, and exact books up to a known drift.
*/
module StoreInvariants {
  import opened Machine
  import opened Files
  import opened Policies
  import opened Stores
  import opened Handlers

  /** The client waits for the lock of no file. */
  ghost predicate WaitsNowhere(st: Store, c: int) {
    forall p :: p in st.files ==> c !in st.files[p].waiters.items
  }

  /** What a handler may assume: its sender is a client without a pending request, and qsort has sorted. */
  ghost predicate HandlerPre(cfg: Config, st: Store, c: int, order: seq<Path>) {
    && ConfigOk(cfg) && StoreInv(cfg, st)
    && c != NOBODY && WaitsNowhere(st, c)
    && PolicyOrder(cfg.policy, st.files, order)
  }

  lemma PreMeans(cfg: Config, st: Store, c: int, order: seq<Path>)
    requires HandlerPre(cfg, st, c, order)
    ensures ConfigOk(cfg) && Accounts(cfg, st) && FilesOk(st) && Shape(st) && Coherent(st)
    ensures c != NOBODY && WaitsNowhere(st, c)
    ensures PolicyOrder(cfg.policy, st.files, order) && forall q :: q in order ==> q in st.files
  {
  }

  /** Bytes an accepted append leaves on the counter but not on any record. */
  function Loss(cfg: Config, st: Store, req: Request, out: Outcome): nat {
    if out.Done? && req.Append? && req.data != [] && !cfg.recordTotal && req.path in st.files
       && out.notes != [] && !out.notes[0].reply.Failed?
    then st.files[req.path].size else 0
  }

  ghost predicate Kept(cfg: Config, st: Store, out: Outcome, loss: int)
    requires Shape(st)
  {
    out.Done? ==> StoreInv(cfg, out.store) && Drift(out.store) == Drift(st) + loss
  }

  lemma SetFileKeepsInv(cfg: Config, st: Store, p: Path, g: File)
    requires StoreInv(cfg, st) && p in st.files && g.path == p && g.size == st.files[p].size
    requires LockInv(g) && WriteInv(g)
    ensures StoreInv(cfg, SetFile(st, p, g)) && Drift(SetFile(st, p, g)) == Drift(st)
  {
    SetFileKeepsAccounts(cfg, st, p, g);
  }

  lemma TakeLockKeepsInv(cfg: Config, st: Store, c: int, p: Path, f: File, now: Time)
    requires StoreInv(cfg, st) && c != NOBODY && WaitsNowhere(st, c)
    requires p in st.files && f.path == p && f.size == st.files[p].size
    requires LockInv(f) && WriteInv(f) && c in f.openers.items && f.waiters == st.files[p].waiters
    ensures Kept(cfg, st, TakeLock(st, c, p, f, now), 0)
  {
    var out := TakeLock(st, c, p, f, now);
    if f.owner == NOBODY {
      SetFileKeepsInv(cfg, st, p, Touch(f.(owner := c), now));
    } else if f.owner == c {
      SetFileKeepsInv(cfg, st, p, Touch(f, now));
    } else if f.waiters.attached {
      EnqueueKeepsLockInv(f, c);
      SetFileKeepsInv(cfg, st, p, Touch(EnqueueLock(f, c), now));
    }
  }

  lemma AddFileKeepsInv(cfg: Config, st: Store, p: Path, f: File)
    requires StoreInv(cfg, st) && p !in st.files && f.path == p && f.size == 0
    requires ConfigOk(cfg) && st.count < cfg.maxFiles
    requires LockInv(f) && WriteInv(f)
    ensures StoreInv(cfg, AddFile(st, p, f)) && Drift(AddFile(st, p, f)) == Drift(st)
  {
    AddFileKeepsAccounts(cfg, st, p, f);
    hide LockInv, WriteInv, AddFile;
  }

  lemma OpenKeepsInv(cfg: Config, st: Store, c: int, p: Path, flags: int, now: Time)
    requires ConfigOk(cfg) && StoreInv(cfg, st) && c != NOBODY && WaitsNowhere(st, c)
    ensures Kept(cfg, st, HandleOpen(cfg, st, c, p, flags, now), 0)
  {
    if WantsCreate(flags) {
      if !IsFull(cfg, st) && p !in st.files {
        CountersAreExact(cfg, st);
        var f := AddOpener(NewFile(p, now), c);
        AddOpenerKeepsLockInv(NewFile(p, now), c);
        var g := if WantsLock(flags) then f.(owner := c, writable := true) else f;
        AddFileKeepsInv(cfg, st, p, g);
        hide AddFile, StoreInv;
      }
    } else if p in st.files {
      var f := st.files[p];
      var g := if c in f.openers.items then f else AddOpener(f, c);
      if c !in f.openers.items {
        AddOpenerKeepsLockInv(f, c);
      }
      if WantsLock(flags) {
        TakeLockKeepsInv(cfg, st, c, p, g, now);
      } else {
        SetFileKeepsInv(cfg, st, p, Touch(g, now));
      }
    }
  }

  lemma CountersAreExact(cfg: Config, st: Store)
    requires ConfigOk(cfg) && Accounts(cfg, st)
    ensures IsFull(cfg, st) <==> st.count >= cfg.maxFiles
  {
    ToInt32Exact(cfg.maxFiles);
    ToInt32Exact(st.count);
    ToInt32Exact(cfg.maxFiles - st.count);
  }

  lemma UnlockKeepsInv(cfg: Config, st: Store, c: int, p: Path, now: Time)
    requires StoreInv(cfg, st)
    ensures Kept(cfg, st, HandleUnlock(st, c, p, now), 0)
  {
    if p in st.files {
      ReleaseKeepsLockInv(st.files[p]);
      SetFileKeepsInv(cfg, st, p, Touch(ReleaseLock(st.files[p]), now));
      hide LockInv, Accounts;
    }
  }

  lemma CloseKeepsInv(cfg: Config, st: Store, c: int, p: Path, now: Time)
    requires StoreInv(cfg, st) && c != NOBODY && WaitsNowhere(st, c)
    ensures Kept(cfg, st, HandleClose(cfg, st, c, p, now), 0)
  {
    if p in st.files {
      var f := st.files[p];
      var g := ReleaseLock(f);
      ReleaseKeepsLockInv(f);
      var h := if f.owner == c then g else f;
      assert h.owner != c;
      assert forall x :: x in h.waiters.items ==> x in f.waiters.items;
      CloseKeepsLockInv(cfg.moveTail, h, c);
      SetFileKeepsInv(cfg, st, p, Touch(CloseClient(cfg.moveTail, h, c), now));
    }
  }

  lemma RemoveKeepsInv(cfg: Config, st: Store, c: int, p: Path)
    requires ConfigOk(cfg) && StoreInv(cfg, st)
    ensures Kept(cfg, st, HandleRemove(st, c, p), 0)
  {
    if p in st.files {
      RemoveFileKeepsAccounts(cfg, st, p);
    }
  }

  lemma NewContentKeepsInv(cfg: Config, st: Store, room: Store, p: Path, f: File, size: nat)
    requires StoreInv(cfg, st) && Accounts(cfg, room)
    requires p in room.files && forall q :: q in room.files ==> q in st.files && room.files[q] == st.files[q]
    requires f.path == p && LockInv(f) && !f.writable && f.size <= st.files[p].size + size
    requires Drift(room) == Drift(st) + size
    ensures StoreInv(cfg, SetFile(room, p, f))
    ensures Drift(SetFile(room, p, f)) == Drift(st) + st.files[p].size + size - f.size
  {
    SetFileKeepsAccounts(cfg, room, p, f);
  }

  /** New content of a written or appended file: all of it is counted, what was on record before is not. */
  lemma PutContentKeepsInv(cfg: Config, st: Store, c: int, p: Path, f: File, size: nat, sendBack: bool,
        order: seq<Path>)
    requires ConfigOk(cfg) && StoreInv(cfg, st) && PolicyOrder(cfg.policy, st.files, order)
    requires p in st.files && f.path == p && LockInv(f) && !f.writable && f.size <= st.files[p].size + size
    ensures var out := PutContent(cfg, st, c, p, f, size, sendBack, order);
            && Kept(cfg, st, out,
                    if out.Done? && out.notes[0].reply.Failed? then 0 else st.files[p].size + size - f.size)
            && (out.Done? ==> out.notes != [])
  {
    MakeRoomConserves(cfg, st, p, size, order);
    var room := MakeRoom(cfg, st, p, size, order);
    if room.Made? {
      NewContentKeepsInv(cfg, st, room.store, p, f, size);
    }
  }

  lemma WriteKeepsInv(cfg: Config, st: Store, c: int, p: Path, sendBack: bool, data: seq<Byte>, now: Time,
        order: seq<Path>)
    requires HandlerPre(cfg, st, c, order)
    ensures Kept(cfg, st, HandleWrite(cfg, st, c, p, sendBack, data, now, order), 0)
  {
    if p in st.files {
      var f := st.files[p];
      if f.writable && f.owner == c {
        if data == [] {
          SetFileKeepsInv(cfg, st, p, f.(writable := false));
        } else {
          PutContentKeepsInv(cfg, st, c, p, Touch(ReplaceContent(f, data).(writable := false), now), |data|, sendBack,
                order);
        }
      }
    }
  }

  lemma AppendKeepsInv(cfg: Config, st: Store, c: int, p: Path, sendBack: bool, data: seq<Byte>, now: Time,
        order: seq<Path>)
    requires HandlerPre(cfg, st, c, order)
    ensures var out := HandleAppend(cfg, st, c, p, sendBack, data, now, order);
            Kept(cfg, st, out, Loss(cfg, st, Append(p, sendBack, data), out))
  {
    if p in st.files {
      var f := st.files[p];
      if c in f.openers.items && (f.owner == NOBODY || f.owner == c) {
        if data == [] {
          SetFileKeepsInv(cfg, st, p, Touch(f.(writable := false), now));
        } else {
          PutContentKeepsInv(cfg, st, c, p, Touch(AppendContent(cfg.recordTotal, f, data).(writable := false), now),
                         |data|, sendBack, order);
        }
      }
    }
  }

  lemma SameStoreKept(cfg: Config, st: Store, c: int)
    requires StoreInv(cfg, st)
    ensures forall notes :: Kept(cfg, st, Done(st, notes), 0)
  {
  }

  lemma LockKeepsInv(cfg: Config, st: Store, c: int, p: Path, now: Time)
    requires StoreInv(cfg, st) && c != NOBODY && WaitsNowhere(st, c)
    ensures Kept(cfg, st, HandleLock(st, c, p, now), 0)
  {
    if p in st.files && c in st.files[p].openers.items {
      TakeLockKeepsInv(cfg, st, c, p, st.files[p], now);
    }
  }

  lemma ReadKeepsInv(cfg: Config, st: Store, c: int, p: Path, now: Time)
    requires StoreInv(cfg, st)
    ensures Kept(cfg, st, HandleRead(st, c, p, now), 0)
  {
    if p in st.files {
      SetFileKeepsInv(cfg, st, p, Touch(st.files[p], now));
    }
  }

  /** The invariant over requests, with the exact drift. */
  lemma HandleKeepsInv(cfg: Config, st: Store, c: int, req: Request, now: Time, order: seq<Path>)
    requires HandlerPre(cfg, st, c, order)
    ensures var out := Handle(cfg, st, c, req, now, order);
            Kept(cfg, st, out, Loss(cfg, st, req, out))
  {
    hide HandlerPre, Kept;
    PreMeans(cfg, st, c, order);
    SameStoreKept(cfg, st, c);
    hide HandleOpen, HandleLock, HandleUnlock, HandleClose, HandleRead, HandleRemove, HandleWrite, HandleAppend,
      Accounts, PolicyOrder, FilesOk, Shape, WaitsNowhere;
    match req
    case Open(p, flags) => OpenKeepsInv(cfg, st, c, p, flags, now);
    case Lock(p) => LockKeepsInv(cfg, st, c, p, now);
    case Unlock(p) => UnlockKeepsInv(cfg, st, c, p, now);
    case Read(p) => ReadKeepsInv(cfg, st, c, p, now);
    case ReadN(n) =>
    case Write(p, sendBack, data) => WriteKeepsInv(cfg, st, c, p, sendBack, data, now, order);
    case Append(p, sendBack, data) => AppendKeepsInv(cfg, st, c, p, sendBack, data, now, order);
    case Close(p) => CloseKeepsInv(cfg, st, c, p, now);
    case Remove(p) => RemoveKeepsInv(cfg, st, c, p);
  }

  lemma DisconnectKeepsInv(cfg: Config, st: Store, c: int)
    requires StoreInv(cfg, st) && c != NOBODY
    ensures Kept(cfg, st, HandleDisconnect(cfg, st, c), 0)
  {
    var st' := HandleDisconnect(cfg, st, c).store;
    forall p | p in st'.files
      ensures LockInv(st'.files[p]) && WriteInv(st'.files[p])
      ensures st'.files[p].path == p && st'.files[p].size == st.files[p].size
    {
      ForgetKeepsRest(cfg, st.files[p], c);
    }
    SameSizesKeepAccounts(cfg, st, st'.files);
  }

  lemma SameSizesKeepAccounts(cfg: Config, st: Store, files: FileMap)
    requires Accounts(cfg, st) && files.Keys == st.files.Keys
    requires forall p :: p in files ==> files[p].path == p && files[p].size == st.files[p].size
    ensures Accounts(cfg, st.(files := files)) && Drift(st.(files := files)) == Drift(st)
  {
    TotalFrame(st.files, files, st.names);
  }

  lemma ForgetKeepsRest(cfg: Config, f: File, c: int)
    requires LockInv(f) && WriteInv(f) && c != NOBODY
    ensures var g := ForgetClient(cfg.moveTail, f, c);
            LockInv(g) && WriteInv(g) && g.path == f.path && g.size == f.size
  {
    ForgetKeepsLockInv(cfg.moveTail, f, c);
  }
}
