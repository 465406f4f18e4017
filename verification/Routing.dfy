/**
  Where answers go. One section of the server under the file system lock neither loses a waiting client
  nor answers one twice: who leaves a lock queue is told so, in exactly one note, and the sender is
  either told or waits in exactly one queue.
*/
module Routing {
  import opened Seqs
  import opened Machine
  import opened Files
  import opened Policies
  import opened Stores
  import opened Handlers
  import opened StoreInvariants

  ghost predicate InQueue(st: Store, p: Path, x: int) {
    p in st.files && x in st.files[p].waiters.items
  }

  ghost predicate Waits(st: Store, x: int) {
    exists p :: InQueue(st, p, x)
  }

  ghost predicate Told(notes: seq<Note>, x: int) {
    exists i :: 0 <= i < |notes| && notes[i].client == x
  }

  ghost predicate DistinctClients(notes: seq<Note>) {
    forall i, j :: 0 <= i < j < |notes| ==> notes[i].client != notes[j].client
  }

  ghost predicate AtMostOneQueue(st: Store) {
    forall p, q, x :: InQueue(st, p, x) && InQueue(st, q, x) ==> p == q
  }

  /** What happens to the clients other than c. */
  ghost predicate RoutesOthers(st: Store, st': Store, c: int, notes: seq<Note>) {
    && (forall p, x :: InQueue(st', p, x) ==> InQueue(st, p, x) || x == c)
    && (forall p, x :: InQueue(st, p, x) && x != c ==> (InQueue(st', p, x) <==> !Told(notes, x)))
    && (forall x :: Told(notes, x) ==> x == c || Waits(st, x))
    && DistinctClients(notes)
  }

  ghost predicate Routes(st: Store, st': Store, c: int, notes: seq<Note>) {
    && RoutesOthers(st, st', c, notes)
    && (Told(notes, c) <==> !Waits(st', c))
    && (forall p, q :: InQueue(st', p, c) && InQueue(st', q, c) ==> p == q)
  }

  ghost predicate Routed(st: Store, c: int, out: Outcome) {
    out.Done? ==> Routes(st, out.store, c, out.notes)
  }

  lemma OneNote(n: Note)
    ensures DistinctClients([n]) && forall x :: Told([n], x) <==> x == n.client
  {
    assert [n][0].client == n.client;
  }

  /** Queues stay as they were and the sender gets its answer. */
  lemma AnswerRoutes(st: Store, st': Store, c: int, reply: Reply)
    requires WaitsNowhere(st, c)
    requires forall p, x :: InQueue(st', p, x) <==> InQueue(st, p, x)
    ensures Routes(st, st', c, [Note(c, reply)])
  {
    OneNote(Note(c, reply));
  }

  lemma SameQueueRoutes(st: Store, p: Path, g: File, c: int, reply: Reply)
    requires WaitsNowhere(st, c) && p in st.files && g.waiters == st.files[p].waiters
    ensures Routes(st, SetFile(st, p, g), c, [Note(c, reply)])
  {
    AnswerRoutes(st, SetFile(st, p, g), c, reply);
  }

  lemma TakeLockRoutes(st: Store, c: int, p: Path, f: File, now: Time)
    requires WaitsNowhere(st, c) && p in st.files && f.waiters == st.files[p].waiters
    ensures Routed(st, c, TakeLock(st, c, p, f, now))
  {
    if f.owner == NOBODY {
      SameQueueRoutes(st, p, Touch(f.(owner := c), now), c, Ok);
    } else if f.owner == c {
      SameQueueRoutes(st, p, Touch(f, now), c, Ok);
    } else if f.waiters.attached {
      var st' := TakeLock(st, c, p, f, now).store;
      assert forall x :: x in st'.files[p].waiters.items <==> x in f.waiters.items || x == c;
      assert InQueue(st', p, c);
    }
  }

  /** The head of the queue is granted the lock. */
  lemma GrantRoutes(st: Store, p: Path, f: File, g: File, c: int, next: int)
    requires WaitsNowhere(st, c) && AtMostOneQueue(st) && p in st.files && f == st.files[p]
    requires LockInv(f) && c != NOBODY
    requires if f.owner == c && f.waiters.items != []
             then next == f.waiters.items[0] && g.waiters.items == f.waiters.items[1..]
             else next == NOBODY && g.waiters == f.waiters
    ensures Routes(st, SetFile(st, p, g), c, Grant(next, c))
  {
    assert f.waiters.items != [] ==> f.waiters.items[0] in f.openers.items;
    if next == NOBODY {
      assert Grant(next, c) == [Note(c, Ok)];
      SameQueueRoutes(st, p, g, c, Ok);
    } else {
      var st' := SetFile(st, p, g);
      var notes := Grant(next, c);
      assert notes == [Note(next, Ok), Note(c, Ok)];
      assert InQueue(st, p, next);
      assert notes[0].client == next && notes[1].client == c;
      assert forall x :: x in f.waiters.items <==> x == next || x in g.waiters.items;
      assert next !in g.waiters.items;
    }
  }

  lemma ReleaseRoutes(cfg: Config, st: Store, c: int, p: Path, now: Time)
    requires WaitsNowhere(st, c) && AtMostOneQueue(st) && c != NOBODY && FilesOk(st)
    ensures Routed(st, c, HandleUnlock(st, c, p, now))
    ensures Routed(st, c, HandleClose(cfg, st, c, p, now))
  {
    if p in st.files {
      var f := st.files[p];
      var g := if f.owner == c then ReleaseLock(f) else f;
      var next := if f.owner == c then g.owner else NOBODY;
      if f.owner == c {
        GrantRoutes(st, p, f, Touch(g, now), c, next);
      }
      GrantRoutes(st, p, f, Touch(CloseClient(cfg.moveTail, g, c), now), c, next);
    }
    OneNote(Note(c, Failed(ENOENT)));
    OneNote(Note(c, Failed(EPERM)));
    OneNote(Note(c, Failed(EACCES)));
  }

  // Files that go away

  lemma ToldOfSum(a: seq<Note>, b: seq<Note>)
    ensures forall x :: Told(a + b, x) <==> Told(a, x) || Told(b, x)
    ensures DistinctClients(a) && DistinctClients(b) && (forall x :: Told(a, x) ==> !Told(b, x)) ==>
              DistinctClients(a + b)
  {
    var s := a + b;
    forall x ensures Told(s, x) <==> Told(a, x) || Told(b, x) {
      if Told(a, x) {
        var i :| 0 <= i < |a| && a[i].client == x;
        assert s[i].client == x;
      }
      if Told(b, x) {
        var i :| 0 <= i < |b| && b[i].client == x;
        assert s[|a| + i].client == x;
      }
      if Told(s, x) {
        var i :| 0 <= i < |s| && s[i].client == x;
        assert i < |a| ==> a[i].client == x;
        assert i >= |a| ==> b[i - |a|].client == x;
      }
    }
    if DistinctClients(a) && DistinctClients(b) && (forall x :: Told(a, x) ==> !Told(b, x)) {
      forall i, j | 0 <= i < j < |s| ensures s[i].client != s[j].client {
        if i < |a| <= j {
          assert a[i].client == s[i].client && b[j - |a|].client == s[j].client;
          assert Told(a, s[i].client) && Told(b, s[j].client);
        } else if j < |a| {
          assert a[i].client == s[i].client && a[j].client == s[j].client;
        } else {
          assert b[i - |a|].client == s[i].client && b[j - |a|].client == s[j].client;
        }
      }
    }
  }

  lemma RemovalNotesTell(waiters: seq<int>)
    ensures forall x :: Told(RemovalNotes(waiters), x) <==> x in waiters
    ensures NoDup(waiters) ==> DistinctClients(RemovalNotes(waiters))
  {
  }

  /** Exactly the waiters of the victims are told, each once. */
  lemma {:induction false} EvictionNotesTell(st: Store, victims: seq<Path>)
    requires FilesOk(st) && AtMostOneQueue(st)
    requires NoDup(victims) && forall v :: v in victims ==> v in st.files
    ensures forall x :: Told(EvictionNotes(st.files, victims), x) <==> exists v :: v in victims && InQueue(st, v, x)
    ensures DistinctClients(EvictionNotes(st.files, victims))
  {
    if victims != [] {
      var v, rest := victims[0], victims[1..];
      assert v !in rest;
      EvictionNotesTell(st, rest);
      var a, b := RemovalNotes(st.files[v].waiters.items), EvictionNotes(st.files, rest);
      RemovalNotesTell(st.files[v].waiters.items);
      forall x | Told(a, x) ensures !Told(b, x) {
        assert InQueue(st, v, x);
      }
      ToldOfSum(a, b);
      forall x ensures Told(a + b, x) <==> exists w :: w in victims && InQueue(st, w, x) {
        if Told(a, x) {
          assert v in victims && InQueue(st, v, x);
        } else if exists w :: w in victims && InQueue(st, w, x) {
          var w :| w in victims && InQueue(st, w, x);
          assert w == v || w in rest;
        }
      }
    }
  }

  /** Files whose waiters, and only they, are told of the removal; the sender is told something else. */
  lemma RemovalRoutes(st: Store, st': Store, c: int, victims: set<Path>, own: seq<Note>, gone: seq<Note>,
        notes: seq<Note>)
    requires WaitsNowhere(st, c) && AtMostOneQueue(st)
    requires forall p, x :: InQueue(st', p, x) <==> InQueue(st, p, x) && p !in victims
    requires forall x :: Told(gone, x) <==> exists v :: v in victims && InQueue(st, v, x)
    requires DistinctClients(gone)
    requires |own| == 1 && own[0].client == c && (notes == own + gone || notes == gone + own)
    ensures Routes(st, st', c, notes)
  {
    OneNote(own[0]);
    assert own == [own[0]];
    assert !Told(gone, c);
    ToldOfSum(own, gone);
    ToldOfSum(gone, own);
    forall p, x | InQueue(st, p, x) && x != c ensures InQueue(st', p, x) <==> !Told(notes, x) {
      if Told(gone, x) {
        var v :| v in victims && InQueue(st, v, x);
        assert v == p;
      } else {
        assert p !in victims;
      }
    }
  }

  lemma RemoveRoutes(st: Store, c: int, p: Path)
    requires WaitsNowhere(st, c) && AtMostOneQueue(st) && FilesOk(st)
    ensures Routed(st, c, HandleRemove(st, c, p))
  {
    OneNote(Note(c, Failed(ENOENT)));
    OneNote(Note(c, Failed(EACCES)));
    if p in st.files && HandleRemove(st, c, p).Done? && st.files[p].owner == c && c != NOBODY {
      var f := st.files[p];
      var gone := RemovalNotes(f.waiters.items);
      RemovalNotesTell(f.waiters.items);
      forall x ensures Told(gone, x) <==> exists v :: v in {p} && InQueue(st, v, x) {
        if Told(gone, x) {
          assert p in {p} && InQueue(st, p, x);
        }
      }
      RemovalRoutes(st, RemoveFile(st, p), c, {p}, [Note(c, Ok)], gone, gone + [Note(c, Ok)]);
    }
  }

  lemma VictimsLeave(cfg: Config, st: Store, p: Path, f: File, size: nat, order: seq<Path>)
    requires ConfigOk(cfg) && StoreInv(cfg, st) && PolicyOrder(cfg.policy, st.files, order)
    requires p in st.files && f.waiters == st.files[p].waiters
    ensures var room := MakeRoom(cfg, st, p, size, order);
            room.Made? ==>
              && NoDup(room.victims) && (forall v :: v in room.victims ==> v in st.files)
              && forall q, x :: InQueue(SetFile(room.store, p, f), q, x) <==>
                                InQueue(st, q, x) && q !in Elements(room.victims)
  {
    MakeRoomConserves(cfg, st, p, size, order);
    hide MakeRoom, LockInv, Accounts, Consistent;
  }

  lemma PutContentRoutes(cfg: Config, st: Store, c: int, p: Path, f: File, size: nat, sendBack: bool, order: seq<Path>)
    requires HandlerPre(cfg, st, c, order) && AtMostOneQueue(st)
    requires p in st.files && f.waiters == st.files[p].waiters
    ensures Routed(st, c, PutContent(cfg, st, c, p, f, size, sendBack, order))
  {
    VictimsLeave(cfg, st, p, f, size, order);
    FailureRoutes(st, c);
    PutContentOutcome(cfg, st, c, p, f, size, sendBack, order);
    hide MakeRoom, PutContent, Routes, LockInv, Accounts, Consistent, EvictionNotes, InQueue;
    var room := MakeRoom(cfg, st, p, size, order);
    if room.Made? {
      EvictionNotesTell(st, room.victims);
      var own := WriteReply(c, sendBack, st.files, room.victims);
      var gone := EvictionNotes(st.files, room.victims);
      ElementsAreTold(st, room.victims, gone);
      RemovalRoutes(st, SetFile(room.store, p, f), c, Elements(room.victims), [own], gone, [own] + gone);
    }
  }

  lemma ElementsAreTold(st: Store, victims: seq<Path>, gone: seq<Note>)
    requires forall x :: Told(gone, x) <==> exists v :: v in victims && InQueue(st, v, x)
    ensures forall x :: Told(gone, x) <==> exists v :: v in Elements(victims) && InQueue(st, v, x)
  {
  }

  lemma OpenRoutes(cfg: Config, st: Store, c: int, p: Path, flags: int, now: Time)
    requires WaitsNowhere(st, c)
    ensures Routed(st, c, HandleOpen(cfg, st, c, p, flags, now))
  {
    OneNote(Note(c, Failed(EMLINK)));
    OneNote(Note(c, Failed(EEXIST)));
    OneNote(Note(c, Failed(ENOENT)));
    if WantsCreate(flags) {
      var out := HandleOpen(cfg, st, c, p, flags, now);
      if !IsFull(cfg, st) && p !in st.files {
        assert out.store.files[p].waiters.items == [];
        AnswerRoutes(st, out.store, c, Ok);
      }
    } else if p in st.files {
      var f := st.files[p];
      var g := if c in f.openers.items then f else AddOpener(f, c);
      TakeLockRoutes(st, c, p, g, now);
      SameQueueRoutes(st, p, Touch(g, now), c, Ok);
    }
  }

  lemma FailureRoutes(st: Store, c: int)
    requires WaitsNowhere(st, c)
    ensures forall e :: Routed(st, c, Fail(st, c, e))
  {
    forall e ensures Routed(st, c, Fail(st, c, e)) {
      AnswerRoutes(st, st, c, Failed(e));
    }
  }

  lemma LockAndReadRoute(st: Store, c: int, p: Path, now: Time)
    requires WaitsNowhere(st, c)
    ensures Routed(st, c, HandleLock(st, c, p, now))
    ensures Routed(st, c, HandleRead(st, c, p, now))
  {
    FailureRoutes(st, c);
    if p in st.files {
      TakeLockRoutes(st, c, p, st.files[p], now);
      SameQueueRoutes(st, p, Touch(st.files[p], now), c, Data(Content(st.files[p])));
    }
  }

  lemma WriteRoutes(cfg: Config, st: Store, c: int, p: Path, sendBack: bool, data: seq<Byte>, now: Time,
        order: seq<Path>)
    requires HandlerPre(cfg, st, c, order) && AtMostOneQueue(st)
    ensures Routed(st, c, HandleWrite(cfg, st, c, p, sendBack, data, now, order))
  {
    FailureRoutes(st, c);
    if p in st.files {
      var f := st.files[p];
      SameQueueRoutes(st, p, f.(writable := false), c, WriteReply(c, sendBack, st.files, []).reply);
      PutContentRoutes(cfg, st, c, p, Touch(ReplaceContent(f, data).(writable := false), now), |data|, sendBack, order);
    }
  }

  lemma AppendRoutes(cfg: Config, st: Store, c: int, p: Path, sendBack: bool, data: seq<Byte>, now: Time,
        order: seq<Path>)
    requires HandlerPre(cfg, st, c, order) && AtMostOneQueue(st)
    ensures Routed(st, c, HandleAppend(cfg, st, c, p, sendBack, data, now, order))
  {
    FailureRoutes(st, c);
    if p in st.files {
      var f := st.files[p];
      SameQueueRoutes(st, p, Touch(f.(writable := false), now), c, WriteReply(c, sendBack, st.files, []).reply);
      PutContentRoutes(cfg, st, c, p, Touch(AppendContent(cfg.recordTotal, f, data).(writable := false), now),
                   |data|, sendBack, order);
    }
  }

  /** The routing contract of every request. */
  lemma HandleRoutes(cfg: Config, st: Store, c: int, req: Request, now: Time, order: seq<Path>)
    requires HandlerPre(cfg, st, c, order) && AtMostOneQueue(st)
    ensures Routed(st, c, Handle(cfg, st, c, req, now, order))
  {
    match req
    case Open(p, flags) => OpenRoutes(cfg, st, c, p, flags, now);
    case Lock(p) => LockAndReadRoute(st, c, p, now);
    case Unlock(p) => ReleaseRoutes(cfg, st, c, p, now);
    case Read(p) => LockAndReadRoute(st, c, p, now);
    case ReadN(n) => AnswerRoutes(st, st, c, HandleReadN(st, c, n).notes[0].reply);
    case Write(p, sendBack, data) => WriteRoutes(cfg, st, c, p, sendBack, data, now, order);
    case Append(p, sendBack, data) => AppendRoutes(cfg, st, c, p, sendBack, data, now, order);
    case Close(p) => ReleaseRoutes(cfg, st, c, p, now);
    case Remove(p) => RemoveRoutes(st, c, p);
  }

  // Disconnection

  ghost predicate Inherits(cfg: Config, files: FileMap, p: Path, c: int, x: int) {
    p in files && x != NOBODY && Heir(cfg.moveTail, files[p], c) == x
  }

  lemma HeirWaited(cfg: Config, st: Store, p: Path, c: int, x: int)
    requires FilesOk(st) && c != NOBODY && Inherits(cfg, st.files, p, c, x)
    ensures InQueue(st, p, x) && x != c
  {
  }

  lemma {:induction false} ForgetNotesTell(cfg: Config, st: Store, names: seq<Path>, c: int)
    requires FilesOk(st) && AtMostOneQueue(st) && c != NOBODY
    requires NoDup(names) && forall p :: p in names ==> p in st.files
    ensures forall x :: Told(ForgetNotes(cfg, st.files, names, c), x) <==>
              exists p :: p in names && Inherits(cfg, st.files, p, c, x)
    ensures DistinctClients(ForgetNotes(cfg, st.files, names, c))
  {
    if names != [] {
      var p, rest := names[0], names[1..];
      assert p !in rest;
      ForgetNotesTell(cfg, st, rest, c);
      var heir := Heir(cfg.moveTail, st.files[p], c);
      var a: seq<Note> := if heir == NOBODY then [] else [Note(heir, Ok)];
      var b := ForgetNotes(cfg, st.files, rest, c);
      OneNote(Note(heir, Ok));
      forall x | Told(a, x) ensures !Told(b, x) {
        HeirWaited(cfg, st, p, c, x);
        if Told(b, x) {
          var q :| q in rest && Inherits(cfg, st.files, q, c, x);
          HeirWaited(cfg, st, q, c, x);
        }
      }
      ToldOfSum(a, b);
      forall x ensures Told(a + b, x) <==> exists q :: q in names && Inherits(cfg, st.files, q, c, x) {
        if Told(a, x) {
          assert p in names && Inherits(cfg, st.files, p, c, x);
        } else if exists q :: q in names && Inherits(cfg, st.files, q, c, x) {
          var q :| q in names && Inherits(cfg, st.files, q, c, x);
          assert q == p || q in rest;
        }
      }
    }
  }

  /** A client that disconnects is in no queue, on no list of openers and owner of nothing afterwards. */
  ghost predicate NoTrace(st: Store, c: int) {
    forall p :: p in st.files ==>
      c !in st.files[p].openers.items && c !in st.files[p].waiters.items && st.files[p].owner != c
  }

  lemma DisconnectRoutes(cfg: Config, st: Store, c: int)
    requires Shape(st) && FilesOk(st) && AtMostOneQueue(st) && c != NOBODY
    ensures var out := HandleDisconnect(cfg, st, c);
            RoutesOthers(st, out.store, c, out.notes) && !Told(out.notes, c) && NoTrace(out.store, c)
  {
    var out := HandleDisconnect(cfg, st, c);
    ForgetNotesTell(cfg, st, st.names, c);
    forall p | p in st.files
      ensures c !in out.store.files[p].openers.items && c !in out.store.files[p].waiters.items
      ensures out.store.files[p].owner != c
      ensures forall x :: InQueue(out.store, p, x) ==> InQueue(st, p, x)
    {
      ForgetKeepsLockInv(cfg.moveTail, st.files[p], c);
    }
    forall x | Told(out.notes, x) ensures x != c && Waits(st, x) {
      var p :| p in st.names && Inherits(cfg, st.files, p, c, x);
      HeirWaited(cfg, st, p, c, x);
    }
    forall p, x | InQueue(st, p, x) && x != c
      ensures InQueue(out.store, p, x) <==> !Told(out.notes, x)
    {
      ForgetKeepsLockInv(cfg.moveTail, st.files[p], c);
      if Told(out.notes, x) {
        var q :| q in st.names && Inherits(cfg, st.files, q, c, x);
        HeirWaited(cfg, st, q, c, x);
        assert q == p;
        assert out.store.files[p].owner == x;
      } else {
        assert !Inherits(cfg, st.files, p, c, x);
      }
    }
  }
}
