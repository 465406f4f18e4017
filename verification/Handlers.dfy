/**
  server/src/handle_client.c: what each request does to the store while the file system lock is held,
  and which answers it leaves to be sent, to its sender and to others.
*/
module Handlers {
  import opened Seqs
  import opened Machine
  import opened Files
  import opened Policies
  import opened Stores

  datatype Request =
    | Open(path: Path, flags: int)
    | Lock(path: Path)
    | Unlock(path: Path)
    | Read(path: Path)
    | ReadN(n: int)
    | Write(path: Path, sendBack: bool, data: seq<Byte>)
    | Append(path: Path, sendBack: bool, data: seq<Byte>)
    | Close(path: Path)
    | Remove(path: Path)

  datatype Reply = Ok | Failed(error: int) | Data(data: seq<Byte>) | Several(files: seq<(Path, seq<Byte>)>)

  const EPERM := 1
  const ENOENT := 2
  const EACCES := 13
  const EEXIST := 17
  const EFBIG := 27
  const EMLINK := 31
  const EIDRM := 43

  datatype Note = Note(client: int, reply: Reply)

  /** Undefined: the request goes through the stale tail of a list, after which nothing is claimed. */
  datatype Outcome = Undefined | Done(store: Store, notes: seq<Note>)

  predicate WantsCreate(flags: int) { flags % 2 == 1 }
  predicate WantsLock(flags: int) { flags / 2 % 2 == 1 }

  /** Every name on the list is stored, and the counter is the length of the list. */
  predicate Coherent(st: Store) {
    st.count == |st.names| && forall p :: p in st.names ==> p in st.files
  }

  function Fail(st: Store, c: int, error: int): Outcome {
    Done(st, [Note(c, Failed(error))])
  }

  /** The sender gets the lock, has it already, or waits for it without an answer. */
  function TakeLock(st: Store, c: int, p: Path, f: File, now: Time): Outcome {
    if f.owner == NOBODY then Done(SetFile(st, p, Touch(f.(owner := c), now)), [Note(c, Ok)])
    else if f.owner == c then Done(SetFile(st, p, Touch(f, now)), [Note(c, Ok)])
    else if !f.waiters.attached then Undefined
    else Done(SetFile(st, p, Touch(EnqueueLock(f, c), now)), [])
  }

  function HandleOpen(cfg: Config, st: Store, c: int, p: Path, flags: int, now: Time): Outcome {
    if WantsCreate(flags) then
      if IsFull(cfg, st) then Fail(st, c, EMLINK)
      else if p in st.files then Fail(st, c, EEXIST)
      else
        var f := AddOpener(NewFile(p, now), c);
        var g := if WantsLock(flags) then f.(owner := c, writable := true) else f;
        Done(AddFile(st, p, g), [Note(c, Ok)])
    else if p !in st.files then Fail(st, c, ENOENT)
    else
      var f := st.files[p];
      var g := if c in f.openers.items then f else AddOpener(f, c);
      if WantsLock(flags) then TakeLock(st, c, p, g, now)
      else Done(SetFile(st, p, Touch(g, now)), [Note(c, Ok)])
  }

  function HandleLock(st: Store, c: int, p: Path, now: Time): Outcome {
    if p !in st.files then Fail(st, c, ENOENT)
    else if c !in st.files[p].openers.items then Fail(st, c, EPERM)
    else TakeLock(st, c, p, st.files[p], now)
  }

  /** The next owner's answer comes before the sender's own. */
  function Grant(next: int, c: int): seq<Note> {
    (if next == NOBODY then [] else [Note(next, Ok)]) + [Note(c, Ok)]
  }

  function HandleUnlock(st: Store, c: int, p: Path, now: Time): Outcome {
    if p !in st.files then Fail(st, c, ENOENT)
    else
      var f := st.files[p];
      if c !in f.openers.items then Fail(st, c, EPERM)
      else if f.owner != c then Fail(st, c, EACCES)
      else
        var g := ReleaseLock(f);
        Done(SetFile(st, p, Touch(g, now)), Grant(g.owner, c))
  }

  /** Whether the sender had the file open is not looked at. */
  function HandleClose(cfg: Config, st: Store, c: int, p: Path, now: Time): Outcome {
    if p !in st.files then Fail(st, c, ENOENT)
    else
      var f := st.files[p];
      var g := if f.owner == c then ReleaseLock(f) else f;
      var next := if f.owner == c then g.owner else NOBODY;
      Done(SetFile(st, p, Touch(CloseClient(cfg.moveTail, g, c), now)), Grant(next, c))
  }

  /** The waiters of a file that is gone are told so. */
  function RemovalNotes(waiters: seq<int>): (r: seq<Note>)
    ensures |r| == |waiters|
    ensures forall i :: 0 <= i < |waiters| ==> r[i] == Note(waiters[i], Failed(EIDRM))
  {
    if waiters == [] then [] else [Note(waiters[0], Failed(EIDRM))] + RemovalNotes(waiters[1..])
  }

  function HandleRemove(st: Store, c: int, p: Path): Outcome {
    if p !in st.files then Fail(st, c, ENOENT)
    else
      var f := st.files[p];
      if f.owner == NOBODY || f.owner != c then Fail(st, c, EACCES)
      else if !CanFree(f) then Undefined
      else Done(RemoveFile(st, p), RemovalNotes(f.waiters.items) + [Note(c, Ok)])
  }

  function HandleRead(st: Store, c: int, p: Path, now: Time): Outcome {
    if p !in st.files then Fail(st, c, ENOENT)
    else
      var f := st.files[p];
      if c !in f.openers.items then Fail(st, c, EPERM)
      else if f.owner != NOBODY && f.owner != c then Fail(st, c, EACCES)
      else Done(SetFile(st, p, Touch(f, now)), [Note(c, Data(Content(f)))])
  }

  function Payload(files: FileMap, paths: seq<Path>): (r: seq<(Path, seq<Byte>)>)
    requires forall p :: p in paths ==> p in files
    ensures |r| == |paths|
    ensures forall i :: 0 <= i < |paths| ==> r[i] == (files[paths[i]].path, Content(files[paths[i]]))
  {
    if paths == [] then []
    else [(files[paths[0]].path, Content(files[paths[0]]))] + Payload(files, paths[1..])
  }

  function ReadCount(n: int, count: nat): (k: nat)
    ensures k <= count
  {
    if n <= 0 || n > count then count else n
  }

  /** The newest files, the oldest of them first. */
  function HandleReadN(st: Store, c: int, n: int): Outcome
    requires Coherent(st)
  {
    var chosen := st.names[..ReadCount(n, st.count)];
    assert forall p :: p in Reverse(chosen) ==> p in chosen;
    Done(st, [Note(c, Several(Payload(st.files, Reverse(chosen))))])
  }

  function EvictionNotes(files: FileMap, victims: seq<Path>): seq<Note>
    requires forall v :: v in victims ==> v in files
  {
    if victims == [] then []
    else RemovalNotes(files[victims[0]].waiters.items) + EvictionNotes(files, victims[1..])
  }

  function WriteReply(c: int, sendBack: bool, files: FileMap, victims: seq<Path>): Note
    requires forall v :: v in victims ==> v in files
  {
    Note(c, if sendBack then Several(Payload(files, victims)) else Ok)
  }

  /** The last part of write and append: room, new content, and the news of what had to go. */
  function PutContent(cfg: Config, st: Store, c: int, p: Path, f: File, size: nat, sendBack: bool,
        order: seq<Path>): Outcome
    requires forall q :: q in order ==> q in st.files
  {
    match MakeRoom(cfg, st, p, size, order)
    case Refused => Fail(st, c, EFBIG)
    case Unsafe => Undefined
    case Made(room, victims) =>
      MadeVictimsAreStored(cfg, st, p, size, order);
      Done(SetFile(room, p, f), [WriteReply(c, sendBack, st.files, victims)] + EvictionNotes(st.files, victims))
  }

  lemma MadeVictimsAreStored(cfg: Config, st: Store, p: Path, size: int, order: seq<Path>)
    requires forall q :: q in order ==> q in st.files
    requires MakeRoom(cfg, st, p, size, order).Made?
    ensures forall v :: v in MakeRoom(cfg, st, p, size, order).victims ==> v in st.files
  {
  }

  lemma PutContentOutcome(cfg: Config, st: Store, sender: int, p: Path, f: File, size: nat, sendBack: bool,
        order: seq<Path>)
    requires forall q :: q in order ==> q in st.files
    ensures var out := PutContent(cfg, st, sender, p, f, size, sendBack, order);
            var room := MakeRoom(cfg, st, p, size, order);
            && (room.Refused? ==> out == Fail(st, sender, EFBIG))
            && (room.Unsafe? ==> out.Undefined?)
            && (room.Made? ==>
                  && (forall v :: v in room.victims ==> v in st.files)
                  && out == Done(SetFile(room.store, p, f),
                                 [WriteReply(sender, sendBack, st.files, room.victims)]
                                 + EvictionNotes(st.files, room.victims)))
  {
  }

  function HandleWrite(cfg: Config, st: Store, c: int, p: Path, sendBack: bool, data: seq<Byte>, now: Time,
        order: seq<Path>): Outcome
    requires forall q :: q in order ==> q in st.files
  {
    if p !in st.files then Fail(st, c, ENOENT)
    else
      var f := st.files[p];
      if !f.writable then Fail(st, c, EPERM)
      else if f.owner != c then Fail(st, c, EACCES)
      else if data == [] then
        Done(SetFile(st, p, f.(writable := false)), [WriteReply(c, sendBack, st.files, [])])
      else
        PutContent(cfg, st, c, p, Touch(ReplaceContent(f, data).(writable := false), now), |data|, sendBack, order)
  }

  function HandleAppend(cfg: Config, st: Store, c: int, p: Path, sendBack: bool, data: seq<Byte>, now: Time,
        order: seq<Path>): Outcome
    requires forall q :: q in order ==> q in st.files
  {
    if p !in st.files then Fail(st, c, ENOENT)
    else
      var f := st.files[p];
      if c !in f.openers.items then Fail(st, c, EPERM)
      else if f.owner != NOBODY && f.owner != c then Fail(st, c, EACCES)
      else if data == [] then
        Done(SetFile(st, p, Touch(f.(writable := false), now)), [WriteReply(c, sendBack, st.files, [])])
      else
        PutContent(cfg, st, c, p, Touch(AppendContent(cfg.recordTotal, f, data).(writable := false), now), |data|,
              sendBack, order)
  }

  function Handle(cfg: Config, st: Store, c: int, req: Request, now: Time, order: seq<Path>): Outcome
    requires Coherent(st) && forall q :: q in order ==> q in st.files
  {
    match req
    case Open(p, flags) => HandleOpen(cfg, st, c, p, flags, now)
    case Lock(p) => HandleLock(st, c, p, now)
    case Unlock(p) => HandleUnlock(st, c, p, now)
    case Read(p) => HandleRead(st, c, p, now)
    case ReadN(n) => HandleReadN(st, c, n)
    case Write(p, sendBack, data) => HandleWrite(cfg, st, c, p, sendBack, data, now, order)
    case Append(p, sendBack, data) => HandleAppend(cfg, st, c, p, sendBack, data, now, order)
    case Close(p) => HandleClose(cfg, st, c, p, now)
    case Remove(p) => HandleRemove(st, c, p)
  }

  /** Disconnection visits the files in list order; each hands its lock on if c held it. */
  function ForgetNotes(cfg: Config, files: FileMap, names: seq<Path>, c: int): seq<Note>
    requires forall p :: p in names ==> p in files
  {
    if names == [] then []
    else
      var heir := Heir(cfg.moveTail, files[names[0]], c);
      (if heir == NOBODY then [] else [Note(heir, Ok)]) + ForgetNotes(cfg, files, names[1..], c)
  }

  function HandleDisconnect(cfg: Config, st: Store, c: int): Outcome
    requires Coherent(st)
  {
    Done(st.(files := map p | p in st.files :: ForgetClient(cfg.moveTail, st.files[p], c)),
         ForgetNotes(cfg, st.files, st.names, c))
  }
}
