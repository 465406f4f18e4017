/**
  server/src/handle_client.c in the form it has there: handlers that look up, check and update in place.
  Each returns the answers it sends, in order, and is proved to do what its function in module Handlers
  says, whenever that is defined. Descriptor -1 is nobody.
*/
module RequestHandling {
  import opened Seqs
  import opened Chains
  import opened Machine
  import opened Files
  import opened Policies
  import opened Stores
  import opened Handlers
  import opened StoreInvariants
  import opened LinkedLists
  import opened FileStoredObject
  import opened FileSystemObject

  function NotifyGivenLock(client: int): seq<Note> {
    if client == NOBODY then [] else [Note(client, Ok)]
  }

  /** Walks along the nodes of a lock queue. */
  method NotifyFileRemoved(queue: LinkedList<int>) returns (notes: seq<Note>)
    requires queue.Valid()
    ensures notes == RemovalNotes(queue.Items())
  {
    notes := [];
    var node, i := queue.head, 0;
    while node != null
      invariant 0 <= i <= |queue.nodes| && node == NodeAt(queue.nodes, i)
      invariant notes == RemovalNotes(queue.Items())[..i]
      decreases |queue.nodes| - i
    {
      notes := notes + [Note(node.value, Failed(EIDRM))];
      node := node.next;
      i := i + 1;
    }
  }

  // Lock, unlock, open and close

  /** The lock part of open and lock: given, already held, or waited for. */
  method LockFor(file: FileStored, sender: int, now: Time) returns (waits: bool)
    requires file.Valid()
    requires file.lockedBy == NOBODY || file.lockedBy == sender || file.Model().waiters.attached
    modifies file.Repr
    ensures file.Valid() && fresh(file.Repr - old(file.Repr))
    ensures waits == (old(file.lockedBy) != NOBODY && old(file.lockedBy) != sender)
    ensures var f := old(file.Model());
            file.Model() == Touch(if waits then EnqueueLock(f, sender) else f.(owner := sender), now)
  {
    hide FileStored.Model, FileStored.Valid, Touch;
    file.HoldsItself();
    waits := false;
    if file.lockedBy == NOBODY {
      file.SetLockOwner(sender);
    } else if file.lockedBy != sender {
      file.EnqueueLock(sender);
      waits := true;
    }
    file.NotifyUsed(now);
  }

  method TakeLock(fs: FileSystem, sender: int, p: Path, file: FileStored, now: Time) returns (notes: seq<Note>)
    requires fs.Has(p, file)
    requires Handlers.TakeLock(fs.View(), sender, p, file.Model(), now).Done?
    modifies fs.Repr()
    ensures fs.Valid() && fresh(fs.Repr() - old(fs.Repr()))
    ensures Done(fs.View(), notes) == Handlers.TakeLock(old(fs.View()), sender, p, old(file.Model()), now)
  {
    hide FileSystem.Valid, FileSystem.View, FileSystem.Has, FileStored.Model, FileStored.Valid, Touch, SetFile;
    fs.PartsAreDisjoint();
    var waits := LockFor(file, sender, now);
    fs.fileObjects := fs.fileObjects + file.Repr;
    fs.OneFileChanged(p);
    notes := if waits then [] else [Note(sender, Ok)];
  }

  method HandleLock(fs: FileSystem, sender: int, p: Path, now: Time) returns (notes: seq<Note>)
    requires fs.Valid() && Handlers.HandleLock(fs.View(), sender, p, now).Done?
    modifies fs.Repr()
    ensures fs.Valid() && fresh(fs.Repr() - old(fs.Repr()))
    ensures Done(fs.View(), notes) == Handlers.HandleLock(old(fs.View()), sender, p, now)
  {
    hide FileSystem.Valid, FileSystem.View, FileSystem.Has, FileStored.Model, FileStored.Valid, Touch, SetFile,
      Handlers.TakeLock;
    var file := fs.FindFile(p);
    if file == null {
      return [Note(sender, Failed(ENOENT))];
    }
    var isOpen := file.IsOpenedBy(sender);
    if !isOpen {
      return [Note(sender, Failed(EPERM))];
    }
    notes := TakeLock(fs, sender, p, file, now);
  }

  method HandleUnlock(fs: FileSystem, sender: int, p: Path, now: Time) returns (notes: seq<Note>)
    requires fs.Valid()
    modifies fs.Repr()
    ensures fs.Valid() && fresh(fs.Repr() - old(fs.Repr()))
    ensures Done(fs.View(), notes) == Handlers.HandleUnlock(old(fs.View()), sender, p, now)
  {
    hide FileSystem.Valid, FileSystem.View, FileSystem.Has, FileStored.Model, FileStored.Valid, Touch, SetFile,
      ReleaseLock;
    var file := fs.FindFile(p);
    if file == null {
      return [Note(sender, Failed(ENOENT))];
    }
    var isOpen := file.IsOpenedBy(sender);
    if !isOpen {
      return [Note(sender, Failed(EPERM))];
    }
    if file.lockedBy != sender {
      return [Note(sender, Failed(EACCES))];
    }
    var newOwner := Unlock(fs, p, file, now);
    notes := NotifyGivenLock(newOwner) + [Note(sender, Ok)];
  }

  method Unlock(fs: FileSystem, p: Path, file: FileStored, now: Time) returns (newOwner: int)
    requires fs.Has(p, file)
    modifies fs.Repr()
    ensures fs.Valid() && fresh(fs.Repr() - old(fs.Repr()))
    ensures var g := ReleaseLock(old(file.Model()));
            fs.View() == SetFile(old(fs.View()), p, Touch(g, now)) && newOwner == g.owner
  {
    hide FileSystem.Valid, FileSystem.View, FileSystem.Has, FileStored.Model, FileStored.Valid, Touch, SetFile,
      ReleaseLock;
    fs.PartsAreDisjoint();
    newOwner := UnlockFor(file, now);
    fs.fileObjects := fs.fileObjects + file.Repr;
    fs.OneFileChanged(p);
  }

  method UnlockFor(file: FileStored, now: Time) returns (newOwner: int)
    requires file.Valid()
    modifies file.Repr
    ensures file.Valid() && fresh(file.Repr - old(file.Repr))
    ensures var g := ReleaseLock(old(file.Model()));
            file.Model() == Touch(g, now) && newOwner == g.owner
  {
    hide FileStored.Model, FileStored.Valid, Touch, ReleaseLock;
    file.HoldsItself();
    newOwner := file.HandOn();
    file.NotifyUsed(now);
  }

  method HandleClose(fs: FileSystem, sender: int, p: Path, now: Time) returns (notes: seq<Note>)
    requires fs.Valid() && sender != NOBODY
    modifies fs.Repr()
    ensures fs.Valid() && fresh(fs.Repr() - old(fs.Repr()))
    ensures Done(fs.View(), notes) == Handlers.HandleClose(fs.Limits(), old(fs.View()), sender, p, now)
  {
    hide FileSystem.Valid, FileSystem.View, FileSystem.Has, FileStored.Model, FileStored.Valid, Touch, SetFile,
      ReleaseLock, Files.CloseClient;
    var file := fs.FindFile(p);
    if file == null {
      return [Note(sender, Failed(ENOENT))];
    }
    fs.PartsAreDisjoint();
    var nextOwner := CloseFor(file, sender, now);
    fs.fileObjects := fs.fileObjects + file.Repr;
    fs.OneFileChanged(p);
    notes := NotifyGivenLock(nextOwner) + [Note(sender, Ok)];
  }

  /** The lock is handed on before the opener goes. */
  method CloseFor(file: FileStored, sender: int, now: Time) returns (nextOwner: int)
    requires file.Valid() && sender != NOBODY
    modifies file.Repr
    ensures file.Valid() && fresh(file.Repr - old(file.Repr))
    ensures var f := old(file.Model());
            var g := if f.owner == sender then ReleaseLock(f) else f;
            && file.Model() == Touch(Files.CloseClient(false, g, sender), now)
            && nextOwner == if f.owner == sender then g.owner else NOBODY
  {
    hide FileStored.Model, FileStored.Valid, Touch, ReleaseLock, Files.CloseClient;
    file.HoldsItself();
    nextOwner := NOBODY;
    if file.lockedBy == sender {
      nextOwner := file.HandOn();
    }
    var _ := file.CloseClient(sender);
    file.HoldsItself();
    file.NotifyUsed(now);
  }

  method HandleOpen(fs: FileSystem, sender: int, p: Path, flags: int, now: Time) returns (notes: seq<Note>)
    requires fs.Valid() && 0 <= fs.fileCount < TWO32
    requires Handlers.HandleOpen(fs.Limits(), fs.View(), sender, p, flags, now).Done?
    modifies fs.Repr()
    ensures fs.Valid() && fresh(fs.Repr() - old(fs.Repr()))
    ensures Done(fs.View(), notes) == Handlers.HandleOpen(fs.Limits(), old(fs.View()), sender, p, flags, now)
  {
    hide FileSystem.Valid, FileSystem.View, FileSystem.Has, FileStored.Model, FileStored.Valid, Touch, SetFile,
      Handlers.TakeLock, Stores.AddFile, IsFull, NewFile, AddOpener;
    var file := fs.FindFile(p);
    if WantsCreate(flags) {
      var full := fs.IsFileCountFull();
      if full {
        return [Note(sender, Failed(EMLINK))];
      }
      if file != null {
        return [Note(sender, Failed(EEXIST))];
      }
      notes := CreateFile(fs, sender, p, flags, now);
    } else {
      if file == null {
        return [Note(sender, Failed(ENOENT))];
      }
      notes := OpenFile(fs, sender, p, file, flags, now);
    }
  }

  lemma CreateOutcome(cfg: Config, st: Store, sender: int, p: Path, flags: int, now: Time)
    requires p !in st.files && WantsCreate(flags) && !IsFull(cfg, st)
    ensures var f := AddOpener(NewFile(p, now), sender);
            Handlers.HandleOpen(cfg, st, sender, p, flags, now)
            == Done(Stores.AddFile(st, p, if WantsLock(flags) then f.(owner := sender, writable := true) else f),
                    [Note(sender, Ok)])
  {
  }

  method NewOpenFile(sender: int, p: Path, flags: int, now: Time) returns (file: FileStored)
    ensures file.Valid() && file.path == p && fresh(file.Repr)
    ensures var f := AddOpener(NewFile(p, now), sender);
            file.Model() == if WantsLock(flags) then f.(owner := sender, writable := true) else f
  {
    hide FileStored.Model, FileStored.Valid, NewFile, AddOpener;
    file := new FileStored(p, now);
    file.AddClient(sender);
    file.HoldsItself();
    if WantsLock(flags) {
      file.SetLockOwner(sender);
      file.SetWriteEnabled(true);
    }
  }

  method CreateFile(fs: FileSystem, sender: int, p: Path, flags: int, now: Time) returns (notes: seq<Note>)
    requires fs.Valid() && 0 <= fs.fileCount < TWO32 && p !in fs.View().files
    requires WantsCreate(flags) && !IsFull(fs.Limits(), fs.View())
    modifies fs.Repr()
    ensures fs.Valid() && fresh(fs.Repr() - old(fs.Repr()))
    ensures Done(fs.View(), notes) == Handlers.HandleOpen(fs.Limits(), old(fs.View()), sender, p, flags, now)
  {
    hide FileSystem.Valid, FileSystem.View, FileSystem.Has, FileStored.Model, FileStored.Valid, Touch, SetFile,
      Stores.AddFile, Handlers.HandleOpen, IsFull, NewFile, AddOpener;
    CreateOutcome(fs.Limits(), fs.View(), sender, p, flags, now);
    var file := NewOpenFile(sender, p, flags, now);
    assert fs.Valid() && fs.View() == old(fs.View()) && fs.Repr() == old(fs.Repr());
    var _ := fs.AddFile(p, file);
    notes := [Note(sender, Ok)];
  }

  /** The client is among the openers afterwards, once more only if it was not before. */
  method Enroll(fs: FileSystem, sender: int, p: Path, file: FileStored)
    requires fs.Has(p, file)
    modifies fs.Repr()
    ensures fs.Has(p, file) && fresh(fs.Repr() - old(fs.Repr()))
    ensures fs.View() == SetFile(old(fs.View()), p, Enrolled(old(file.Model()), sender))
  {
    hide FileSystem.Valid, FileSystem.View, FileStored.Model, FileStored.Valid, SetFile, AddOpener;
    fs.PartsAreDisjoint();
    var isOpen := file.IsOpenedBy(sender);
    if !isOpen {
      file.AddClient(sender);
    }
    fs.fileObjects := fs.fileObjects + file.Repr;
    fs.OneFileChanged(p);
  }

  function Enrolled(f: File, sender: int): File {
    if sender in f.openers.items then f else AddOpener(f, sender)
  }

  /** A use of the file is counted. */
  method Use(fs: FileSystem, p: Path, file: FileStored, now: Time)
    requires fs.Has(p, file)
    modifies fs.Repr()
    ensures fs.Valid() && fresh(fs.Repr() - old(fs.Repr()))
    ensures fs.View() == SetFile(old(fs.View()), p, Touch(old(file.Model()), now))
  {
    hide FileSystem.Valid, FileSystem.View, FileSystem.Has, FileStored.Model, FileStored.Valid, Touch, SetFile;
    fs.PartsAreDisjoint();
    file.NotifyUsed(now);
    fs.fileObjects := fs.fileObjects + file.Repr;
    fs.OneFileChanged(p);
  }

  method OpenFile(fs: FileSystem, sender: int, p: Path, file: FileStored, flags: int, now: Time)
    returns (notes: seq<Note>)
    requires fs.Has(p, file) && !WantsCreate(flags)
    requires Handlers.HandleOpen(fs.Limits(), fs.View(), sender, p, flags, now).Done?
    modifies fs.Repr()
    ensures fs.Valid() && fresh(fs.Repr() - old(fs.Repr()))
    ensures Done(fs.View(), notes) == Handlers.HandleOpen(fs.Limits(), old(fs.View()), sender, p, flags, now)
  {
    hide FileSystem.Valid, FileSystem.View, FileSystem.Has, FileStored.Model, FileStored.Valid, Touch, SetFile,
      Handlers.TakeLock, AddOpener;
    ghost var st, f := fs.View(), file.Model();
    OpenOverwrites(st, sender, p, Enrolled(f, sender), now);
    Enroll(fs, sender, p, file);
    if WantsLock(flags) {
      notes := TakeLock(fs, sender, p, file, now);
    } else {
      Use(fs, p, file, now);
      notes := [Note(sender, Ok)];
    }
  }

  lemma OpenOverwrites(st: Store, sender: int, p: Path, f: File, now: Time)
    ensures SetFile(st, p, f).files[p] == f
    ensures SetFile(SetFile(st, p, f), p, Touch(f, now)) == SetFile(st, p, Touch(f, now))
    ensures Handlers.TakeLock(SetFile(st, p, f), sender, p, f, now) == Handlers.TakeLock(st, sender, p, f, now)
  {
    forall g: File ensures SetFile(SetFile(st, p, f), p, g) == SetFile(st, p, g) {
      assert st.files[p := f][p := g] == st.files[p := g];
    }
  }

  // Read and remove

  method HandleRead(fs: FileSystem, sender: int, p: Path, now: Time) returns (notes: seq<Note>)
    requires fs.Valid()
    modifies fs.Repr()
    ensures fs.Valid() && fresh(fs.Repr() - old(fs.Repr()))
    ensures Done(fs.View(), notes) == Handlers.HandleRead(old(fs.View()), sender, p, now)
  {
    hide FileSystem.Valid, FileSystem.View, FileSystem.Has, FileStored.Model, FileStored.Valid, Touch, SetFile;
    var file := fs.FindFile(p);
    if file == null {
      return [Note(sender, Failed(ENOENT))];
    }
    var isOpen := file.IsOpenedBy(sender);
    if !isOpen {
      return [Note(sender, Failed(EPERM))];
    }
    if file.lockedBy != NOBODY && file.lockedBy != sender {
      return [Note(sender, Failed(EACCES))];
    }
    notes := [Note(sender, Data(file.data[..file.size]))];
    Use(fs, p, file, now);
  }

  lemma ReadNOutcome(st: Store, sender: int, n: int, payload: seq<(Path, seq<Byte>)>)
    requires Coherent(st)
    requires |payload| == if n <= 0 || n > st.count then st.count else n
    requires forall k :: 0 <= k < |payload| ==>
               var f := st.files[st.names[|payload| - 1 - k]];
               payload[k] == (f.path, Content(f))
    ensures Handlers.HandleReadN(st, sender, n) == Done(st, [Note(sender, Several(payload))])
  {
    var newest := st.names[..|payload|];
    var chosen := Reverse(newest);
    assert forall p :: p in chosen ==> p in newest;
    hide Reverse, Payload;
    forall k | 0 <= k < |payload| ensures payload[k] == Payload(st.files, chosen)[k] {
      assert chosen[k] == newest[|payload| - 1 - k];
    }
    assert payload == Payload(st.files, chosen);
  }

  /** Counts down from the last chosen slot of the array. */
  method Collect(fs: FileSystem, files: array<FileStored?>, count: nat, ghost st: Store)
    returns (payload: seq<(Path, seq<Byte>)>)
    requires fs.Valid() && st == fs.View() && Coherent(st) && count <= files.Length == |st.names|
    requires forall i :: 0 <= i < files.Length ==> files[i] != null && fs.Has(st.names[i], files[i])
    ensures fs.Valid() && fs.View() == st
    ensures |payload| == count
    ensures forall k :: 0 <= k < count ==>
              var f := st.files[st.names[count - 1 - k]];
              payload[k] == (f.path, Content(f))
  {
    hide FileSystem.Valid, FileSystem.View, FileSystem.Has, FileStored.Model, FileStored.Valid;
    payload := [];
    var i := count - 1;
    while i >= 0
      invariant -1 <= i < count && |payload| == count - 1 - i
      invariant forall k :: 0 <= k < |payload| ==>
                  var f := st.files[st.names[count - 1 - k]];
                  payload[k] == (f.path, Content(f))
    {
      var file := files[i];
      assert fs.Has(st.names[i], file);
      payload := payload + [(file.path, file.data[..file.size])];
      i := i - 1;
    }
  }

  method HandleReadN(fs: FileSystem, sender: int, n: int) returns (notes: seq<Note>)
    requires fs.Valid()
    ensures fs.Valid() && Coherent(old(fs.View()))
    ensures Done(fs.View(), notes) == Handlers.HandleReadN(old(fs.View()), sender, n)
  {
    hide FileSystem.Valid, FileSystem.View, FileStored.Model, FileStored.Valid, Coherent, Handlers.HandleReadN;
    ghost var st := fs.View();
    fs.NamesAreTheFiles();
    var files := fs.GetFilesStored();
    assert fs.Repr() == old(fs.Repr()) && fs.Valid() && fs.View() == st;
    var count := if n <= 0 || n > fs.fileCount then fs.fileCount else n;
    var payload := Collect(fs, files, count, st);
    ReadNOutcome(st, sender, n, payload);
    notes := [Note(sender, Several(payload))];
  }

  method HandleRemove(fs: FileSystem, sender: int, p: Path) returns (notes: seq<Note>)
    requires fs.Valid() && fs.fileCount < TWO32
    requires Handlers.HandleRemove(fs.View(), sender, p).Done?
    modifies fs.Repr()
    ensures fs.Valid() && fresh(fs.Repr() - old(fs.Repr()))
    ensures Done(fs.View(), notes) == Handlers.HandleRemove(old(fs.View()), sender, p)
  {
    hide FileSystem.Valid, FileSystem.View, FileSystem.Has, FileStored.Model, FileStored.Valid, Touch, SetFile,
      Stores.RemoveFile, RemovalNotes;
    var file := fs.FindFile(p);
    if file == null {
      return [Note(sender, Failed(ENOENT))];
    }
    if file.lockedBy == NOBODY || file.lockedBy != sender {
      return [Note(sender, Failed(EACCES))];
    }
    file.ListsAreSound();
    var gone := NotifyFileRemoved(file.lockQueue);
    var _ := fs.RemoveFile(p, false);
    notes := gone + [Note(sender, Ok)];
  }

  // Write and append

  /** What qsort may leave: an array of objects of the store, each at most once. */
  ghost predicate MaySort(fs: FileSystem, sorted: seq<FileStored>, st: Store, order: seq<Path>)
    requires fs.Valid()
    reads fs, fs.Repr()
  {
    && fs.fileCount < TWO32 && st == fs.View() && order == Paths(sorted)
    && AllStored(fs.Files(), sorted) && NoDup(order) && forall q :: q in order ==> q in st.files
  }

  /** The list of replaced files holds what is left of the victims, and the store has no part in it. */
  ghost predicate TakenOut(freed: seq<ReplacedFile>, objects: map<Path, FileStored>, files: FileMap, victims: seq<Path>,
        detached: set<object>)
    reads detached
  {
    && Entries(freed, files, objects, victims) && Gone(objects, files, victims, detached)
    && NoDup(victims) && forall v :: v in victims ==> v in files && CanFree(files[v])
  }

  lemma NothingTakenOut(objects: map<Path, FileStored>, files: FileMap)
    ensures TakenOut([], objects, files, [], {}) && objects - Elements<Path>([]) == objects
  {
  }

  /** The admission part of write and append; `sorted` is the array of files as qsort left it. */
  method MakeRoom(fs: FileSystem, p: Path, size: nat, sorted: seq<FileStored>, ghost st: Store, ghost order: seq<Path>)
    returns (ok: bool, freed: seq<ReplacedFile>, ghost victims: seq<Path>, ghost detached: set<object>)
    requires fs.Valid() && MaySort(fs, sorted, st, order) && p in st.files
    requires !Stores.MakeRoom(fs.Limits(), st, p, size, order).Unsafe?
    modifies fs.Repr()
    ensures fs.Valid() && fs.Repr() <= old(fs.Repr())
    ensures Stores.MakeRoom(fs.Limits(), st, p, size, order) == if ok then Made(fs.View(), victims) else Refused
    ensures !ok ==> fs.View() == st && fs.Files() == old(fs.Files())
    ensures ok ==> p !in victims && fs.Files() == old(fs.Files()) - Elements(victims)
    ensures ok ==> fs.View().files == st.files - Elements(victims)
    ensures ok ==> TakenOut(freed, old(fs.Files()), st.files, victims, detached)
    ensures ok ==> detached !! fs.Repr() && detached <= old(fs.Repr())
  {
    hide FileSystem.Valid, FileSystem.View, SizeMissing, Stores.NotifyMemory, Evict, Total, Select, Paths,
      AllStored, Gone, Entries, Elements, CanFree;
    freed, victims, detached := [], [], {};
    NothingTakenOut(fs.Files(), st.files);
    if IsTooBig(fs.Limits(), size) {
      return false, freed, victims, detached;
    }
    var missing := fs.IsSizeAvailable(size);
    if missing > 0 {
      SelectHasNoDup(st.files, order, p, missing);
      ok, freed, victims, detached := fs.RunReplacement(p, missing, sorted, st, order);
      if !ok {
        return;
      }
    }
    ok := true;
    EvictedFiles(st, victims);
    NotifyLeavesFiles(fs.View(), size);
    fs.NotifyMemoryChanged(size);
  }

  lemma {:induction false} EvictedFiles(st: Store, victims: seq<Path>)
    ensures Evict(st, victims).files == st.files - Elements(victims)
    decreases |victims|
  {
    if victims != [] {
      assert Stores.RemoveFile(st, victims[0]).files == st.files - {victims[0]};
      EvictedFiles(Stores.RemoveFile(st, victims[0]), victims[1..]);
      ElementsCons(victims);
      MinusTwice(st.files, {victims[0]}, Elements(victims[1..]));
    }
  }

  lemma NotifyLeavesFiles(st: Store, size: int)
    ensures NotifyMemory(st, size).files == st.files
  {
  }

  /** What the i-th entry holds. */
  lemma EntryOf(freed: seq<ReplacedFile>, objects: map<Path, FileStored>, files: FileMap, victims: seq<Path>,
        detached: set<object>, i: nat)
    requires TakenOut(freed, objects, files, victims, detached) && i < |freed|
    ensures |freed| == |victims| && victims[i] in files
    ensures var entry, f := freed[i], files[victims[i]];
            && entry.queue in detached && entry.queue.Valid()
            && entry.queue.Items() == f.waiters.items && entry.queue.Attached()
            && entry.path == f.path && entry.data == f.data && entry.size == f.size
  {
    hide FileStored.Model, FileStored.Valid, LinkedList.Items, LinkedList.Attached, LinkedList.Valid;
    var v := victims[i];
    assert v in victims;
    objects[v].ListsAreSound();
    objects[v].HoldsItself();
  }

  /** The waiters of every replaced file are told; the files themselves are what may be sent back. */
  method OnFilesReplaced(freed: seq<ReplacedFile>, ghost objects: map<Path, FileStored>, ghost files: FileMap,
        ghost victims: seq<Path>, ghost detached: set<object>)
    returns (payload: seq<(Path, seq<Byte>)>, notes: seq<Note>)
    requires TakenOut(freed, objects, files, victims, detached)
    modifies detached
    ensures forall v :: v in victims ==> v in files
    ensures payload == Payload(files, victims) && notes == EvictionNotes(files, victims)
    ensures forall e :: e in freed ==> e.queue.Valid() && e.queue.View() == EmptyChain()
  {
    hide EvictionNotes, Payload, RemovalNotes, TakenOut, LinkedList.Items, LinkedList.Valid;
    payload, notes := [], [];
    var i := 0;
    VictimsAreStored(freed, objects, files, victims, detached);
    NothingReplaced(files, victims);
    while i < |freed|
      invariant 0 <= i <= |freed| == |victims| && TakenOut(freed, objects, files, victims, detached)
      invariant payload == Payload(files, victims)[..i]
      invariant notes == EvictionNotes(files, victims[..i])
    {
      var entry := freed[i];
      EntryOf(freed, objects, files, victims, detached, i);
      ReplacedStep(files, victims, i);
      var told := NotifyFileRemoved(entry.queue);
      notes := notes + told;
      payload := payload + [(entry.path, entry.data[..entry.size])];
      i := i + 1;
    }
    PrefixIsAll(victims, i);
    PrefixIsAll(Payload(files, victims), i);
    FreeReplaced(freed, objects, files, victims, detached);
  }

  lemma VictimsAreStored(freed: seq<ReplacedFile>, objects: map<Path, FileStored>, files: FileMap, victims: seq<Path>,
        detached: set<object>)
    requires TakenOut(freed, objects, files, victims, detached)
    ensures |freed| == |victims| && forall v :: v in victims ==> v in files
  {
  }

  lemma NothingReplaced(files: FileMap, victims: seq<Path>)
    requires forall v :: v in victims ==> v in files
    ensures EvictionNotes(files, victims[..0]) == [] && Payload(files, victims)[..0] == []
  {
  }

  lemma ReplacedStep(files: FileMap, victims: seq<Path>, i: nat)
    requires i < |victims| && forall v :: v in victims ==> v in files
    ensures var f := files[victims[i]];
            && Payload(files, victims)[..i + 1] == Payload(files, victims)[..i] + [(f.path, Content(f))]
            && EvictionNotes(files, victims[..i + 1])
               == EvictionNotes(files, victims[..i]) + RemovalNotes(f.waiters.items)
  {
    var all := Payload(files, victims);
    assert all[i] == (files[victims[i]].path, Content(files[victims[i]]));
    EvictionNotesSnoc(files, victims[..i], victims[i]);
    hide EvictionNotes, Payload, RemovalNotes;
    PrefixSnoc(victims, i);
    PrefixSnoc(all, i);
  }

  lemma PrefixSnoc<T>(xs: seq<T>, i: nat)
    requires i < |xs|
    ensures xs[..i + 1] == xs[..i] + [xs[i]]
  {
  }

  lemma {:induction false} EvictionNotesSnoc(files: FileMap, victims: seq<Path>, v: Path)
    requires v in files && forall w :: w in victims ==> w in files
    ensures EvictionNotes(files, victims + [v]) == EvictionNotes(files, victims) + RemovalNotes(files[v].waiters.items)
  {
    if victims != [] {
      assert (victims + [v])[1..] == victims[1..] + [v];
      EvictionNotesSnoc(files, victims[1..], v);
    }
  }


  ghost predicate AllEmpty(entries: seq<ReplacedFile>, objects: set<object>)
    reads objects
  {
    forall e :: e in entries ==>
      e.queue in objects && e.queue.nodes == [] && e.queue.Valid() && e.queue.View() == EmptyChain()
  }

  /** Empties the lock queues of the replaced files, the last file's first. */
  method FreeReplaced(freed: seq<ReplacedFile>, ghost objects: map<Path, FileStored>, ghost files: FileMap,
        ghost victims: seq<Path>, ghost detached: set<object>)
    requires TakenOut(freed, objects, files, victims, detached)
    modifies detached
    ensures forall e :: e in freed ==> e.queue.Valid() && e.queue.View() == EmptyChain()
  {
    var i := |freed|;
    ghost var left := detached;
    assert freed[..i] == freed && victims[..i] == victims;
    VictimsAreStored(freed, objects, files, victims, detached);
    hide TakenOut, AllEmpty;
    assert freed[i..] == [];
    NoneEmptied(detached);
    while i > 0
      invariant 0 <= i <= |freed| == |victims| && left <= detached
      invariant TakenOut(freed[..i], objects, files, victims[..i], left)
      invariant AllEmpty(freed[i..], detached - left)
    {
      i := i - 1;
      assert freed[..i + 1][..i] == freed[..i] && victims[..i + 1][..i] == victims[..i];
      ghost var was := left;
      left := FreeLast(freed[..i + 1], objects, files, victims[..i + 1], left);
      assert AllEmpty(freed[i + 1..], detached - was) && freed[..i + 1][i] == freed[i];
      OneMoreEmptied(freed, i, was - left, detached - was);
      assert (was - left) + (detached - was) == detached - left;
    }
    AllEmptied(freed, detached - left);
  }

  lemma NoneEmptied(objects: set<object>)
    ensures AllEmpty([], objects - objects)
  {
  }

  lemma OneMoreEmptied(entries: seq<ReplacedFile>, i: nat, a: set<object>, b: set<object>)
    requires i < |entries| && AllEmpty([entries[i]], a) && AllEmpty(entries[i + 1..], b)
    ensures AllEmpty(entries[i..], a + b)
  {
    assert entries[i..] == [entries[i]] + entries[i + 1..];
  }

  lemma AllEmptied(entries: seq<ReplacedFile>, objects: set<object>)
    requires AllEmpty(entries[0..], objects)
    ensures forall e :: e in entries ==> e.queue.Valid() && e.queue.View() == EmptyChain()
  {
    assert entries[0..] == entries;
  }

  method FreeLast(freed: seq<ReplacedFile>, ghost objects: map<Path, FileStored>, ghost files: FileMap,
        ghost victims: seq<Path>, ghost detached: set<object>)
    returns (ghost left: set<object>)
    requires TakenOut(freed, objects, files, victims, detached) && freed != []
    modifies detached
    ensures |freed| == |victims| && left <= detached
    ensures TakenOut(freed[..|freed| - 1], objects, files, victims[..|freed| - 1], left)
    ensures AllEmpty([freed[|freed| - 1]], detached - left)
  {
    hide FileStored.Model, FileStored.Valid, LinkedList.Items;
    var n := |freed| - 1;
    EntryOf(freed, objects, files, victims, detached, n);
    left := TakenOutButLast(freed, objects, files, victims, detached);
    hide TakenOut;
    var queue := freed[n].queue;
    var _ := queue.Empty();
    assert queue.nodes == [];
  }

  lemma TakenOutButLast(freed: seq<ReplacedFile>, objects: map<Path, FileStored>, files: FileMap, victims: seq<Path>,
        detached: set<object>)
    returns (left: set<object>)
    requires TakenOut(freed, objects, files, victims, detached) && freed != []
    ensures |freed| == |victims| && left <= detached && freed[|freed| - 1].queue in detached - left
    ensures TakenOut(freed[..|freed| - 1], objects, files, victims[..|freed| - 1], left)
  {
    hide FileStored.Model, CanFree;
    var n := |freed| - 1;
    var v := victims[n];
    assert v in victims;
    objects[v].HoldsItself();
    left := detached - objects[v].Repr;
    forall w | w in victims[..n] ensures w in victims && w != v && objects[w] in objects[w].Repr {
    }
  }

  /** Room, and with it what the request will come to once the target holds `f`. */
  method Admit(fs: FileSystem, sender: int, p: Path, file: FileStored, ghost f: File, size: nat, sendBack: bool,
        sorted: seq<FileStored>, ghost st: Store, ghost order: seq<Path>)
    returns (ok: bool, freed: seq<ReplacedFile>, ghost victims: seq<Path>, ghost detached: set<object>)
    requires fs.Has(p, file) && MaySort(fs, sorted, st, order) && st == fs.View() && p in st.files
    requires Handlers.PutContent(fs.Limits(), st, sender, p, f, size, sendBack, order).Done?
    modifies fs.Repr()
    ensures fs.Valid() && fs.Repr() <= old(fs.Repr())
    ensures !ok ==>
              Handlers.PutContent(fs.Limits(), st, sender, p, f, size, sendBack, order)
              == Fail(fs.View(), sender, EFBIG)
    ensures ok ==> fs.Has(p, file) && file.Model() == old(file.Model())
    ensures ok ==> TakenOut(freed, old(fs.Files()), st.files, victims, detached)
    ensures ok ==> detached !! fs.Repr() && detached <= old(fs.Repr())
    ensures ok ==>
              && (forall v :: v in victims ==> v in st.files)
              && Handlers.PutContent(fs.Limits(), st, sender, p, f, size, sendBack, order)
                 == Done(SetFile(fs.View(), p, f),
                         [WriteReply(sender, sendBack, st.files, victims)] + EvictionNotes(st.files, victims))
  {
    hide FileSystem.Valid, FileSystem.View, FileStored.Model, FileStored.Valid, SetFile, Stores.MakeRoom,
      Handlers.PutContent, EvictionNotes, WriteReply, TakenOut;
    PutContentOutcome(fs.Limits(), st, sender, p, f, size, sendBack, order);
    ok, freed, victims, detached := MakeRoom(fs, p, size, sorted, st, order);
  }

  /** The answer to the sender, then those to the waiters of what was replaced. */
  method Answer(fs: FileSystem, sender: int, sendBack: bool, freed: seq<ReplacedFile>, ghost objects: map<Path,
        FileStored>,
        ghost files: FileMap, ghost victims: seq<Path>, ghost detached: set<object>)
    returns (notes: seq<Note>)
    requires fs.Valid() && TakenOut(freed, objects, files, victims, detached) && detached !! fs.Repr()
    modifies detached
    ensures fs.Valid() && fs.View() == old(fs.View()) && fs.Repr() == old(fs.Repr())
    ensures forall v :: v in victims ==> v in files
    ensures notes == [WriteReply(sender, sendBack, files, victims)] + EvictionNotes(files, victims)
  {
    hide FileSystem.Valid, FileSystem.View, EvictionNotes, Payload, TakenOut;
    var payload, told := OnFilesReplaced(freed, objects, files, victims, detached);
    notes := [Note(sender, if sendBack then Several(payload) else Ok)] + told;
  }

  function WriteFilled(f: File, data: seq<Byte>, now: Time): File {
    Touch(Files.ReplaceContent(f, data).(writable := false), now)
  }

  function AppendFilled(f: File, data: seq<Byte>, now: Time): File {
    Touch(Files.AppendContent(false, f, data).(writable := false), now)
  }

  method FillWrite(fs: FileSystem, p: Path, file: FileStored, data: seq<Byte>, now: Time)
    requires fs.Has(p, file)
    modifies fs.Repr()
    ensures fs.Valid() && fresh(fs.Repr() - old(fs.Repr()))
    ensures fs.View() == SetFile(old(fs.View()), p, WriteFilled(old(file.Model()), data, now))
  {
    hide FileSystem.Valid, FileSystem.View, FileSystem.Has, FileStored.Model, FileStored.Valid, Touch, SetFile,
      Files.ReplaceContent;
    fs.PartsAreDisjoint();
    var _ := file.ReplaceContent(data);
    file.SetWriteEnabled(false);
    file.NotifyUsed(now);
    fs.fileObjects := fs.fileObjects + file.Repr;
    fs.OneFileChanged(p);
  }

  method PutWrite(fs: FileSystem, sender: int, p: Path, file: FileStored, sendBack: bool, data: seq<Byte>, now: Time,
        sorted: seq<FileStored>, ghost st: Store, ghost order: seq<Path>, ghost f: File)
    returns (notes: seq<Note>)
    requires fs.Has(p, file) && MaySort(fs, sorted, st, order) && st == fs.View() && p in st.files
    requires f == WriteFilled(st.files[p], data, now)
    requires Handlers.PutContent(fs.Limits(), st, sender, p, f, |data|, sendBack, order).Done?
    modifies fs.Repr()
    ensures fs.Valid() && fresh(fs.Repr() - old(fs.Repr()))
    ensures Done(fs.View(), notes) == Handlers.PutContent(fs.Limits(), st, sender, p, f, |data|, sendBack, order)
  {
    hide FileSystem.Valid, FileSystem.View, FileSystem.Has, FileStored.Model, FileStored.Valid, Touch, SetFile,
      MaySort, Handlers.PutContent, EvictionNotes, WriteReply, WriteFilled, TakenOut;
    var ok, freed, victims, detached := Admit(fs, sender, p, file, f, |data|, sendBack, sorted, st, order);
    if !ok {
      return [Note(sender, Failed(EFBIG))];
    }
    ghost var objects := old(fs.Files());
    FillWrite(fs, p, file, data, now);
    assert TakenOut(freed, objects, st.files, victims, detached);
    notes := Answer(fs, sender, sendBack, freed, objects, st.files, victims, detached);
  }

  method FillAppend(fs: FileSystem, p: Path, file: FileStored, data: seq<Byte>, now: Time)
    requires fs.Has(p, file)
    modifies fs.Repr()
    ensures fs.Valid() && fresh(fs.Repr() - old(fs.Repr()))
    ensures fs.View() == SetFile(old(fs.View()), p, AppendFilled(old(file.Model()), data, now))
  {
    hide FileSystem.Valid, FileSystem.View, FileSystem.Has, FileStored.Model, FileStored.Valid, Touch, SetFile,
      Files.AppendContent;
    fs.PartsAreDisjoint();
    var _ := file.AppendContent(data);
    file.SetWriteEnabled(false);
    file.NotifyUsed(now);
    fs.fileObjects := fs.fileObjects + file.Repr;
    fs.OneFileChanged(p);
  }

  method PutAppend(fs: FileSystem, sender: int, p: Path, file: FileStored, sendBack: bool, data: seq<Byte>, now: Time,
        sorted: seq<FileStored>, ghost st: Store, ghost order: seq<Path>, ghost f: File)
    returns (notes: seq<Note>)
    requires fs.Has(p, file) && MaySort(fs, sorted, st, order) && st == fs.View() && p in st.files
    requires f == AppendFilled(st.files[p], data, now)
    requires Handlers.PutContent(fs.Limits(), st, sender, p, f, |data|, sendBack, order).Done?
    modifies fs.Repr()
    ensures fs.Valid() && fresh(fs.Repr() - old(fs.Repr()))
    ensures Done(fs.View(), notes) == Handlers.PutContent(fs.Limits(), st, sender, p, f, |data|, sendBack, order)
  {
    hide FileSystem.Valid, FileSystem.View, FileSystem.Has, FileStored.Model, FileStored.Valid, Touch, SetFile,
      MaySort, Handlers.PutContent, EvictionNotes, WriteReply, AppendFilled, TakenOut;
    var ok, freed, victims, detached := Admit(fs, sender, p, file, f, |data|, sendBack, sorted, st, order);
    if !ok {
      return [Note(sender, Failed(EFBIG))];
    }
    ghost var objects := old(fs.Files());
    FillAppend(fs, p, file, data, now);
    assert TakenOut(freed, objects, st.files, victims, detached);
    notes := Answer(fs, sender, sendBack, freed, objects, st.files, victims, detached);
  }

  /** Closes a file for its first write, and counts the use if there is one to count. */
  method Shut(fs: FileSystem, p: Path, file: FileStored, used: bool, now: Time)
    requires fs.Has(p, file)
    modifies fs.Repr()
    ensures fs.Valid() && fresh(fs.Repr() - old(fs.Repr()))
    ensures var f := old(file.Model()).(writable := false);
            fs.View() == SetFile(old(fs.View()), p, if used then Touch(f, now) else f)
  {
    hide FileSystem.Valid, FileSystem.View, FileSystem.Has, FileStored.Model, FileStored.Valid, Touch, SetFile;
    fs.PartsAreDisjoint();
    file.SetWriteEnabled(false);
    if used {
      file.NotifyUsed(now);
    }
    fs.fileObjects := fs.fileObjects + file.Repr;
    fs.OneFileChanged(p);
  }

  method HandleWrite(fs: FileSystem, sender: int, p: Path, sendBack: bool, data: seq<Byte>, now: Time,
        sorted: seq<FileStored>, ghost st: Store, ghost order: seq<Path>)
    returns (notes: seq<Note>)
    requires fs.Valid() && MaySort(fs, sorted, st, order) && st == fs.View() && forall q :: q in order ==> q in st.files
    requires Handlers.HandleWrite(fs.Limits(), st, sender, p, sendBack, data, now, order).Done?
    modifies fs.Repr()
    ensures fs.Valid() && fresh(fs.Repr() - old(fs.Repr()))
    ensures Done(fs.View(), notes) == Handlers.HandleWrite(fs.Limits(), st, sender, p, sendBack, data, now, order)
  {
    hide FileSystem.Valid, FileSystem.View, FileSystem.Has, FileStored.Model, FileStored.Valid, Touch, SetFile, MaySort,
      Handlers.PutContent, Files.ReplaceContent;
    var file := fs.FindFile(p);
    if file == null {
      return [Note(sender, Failed(ENOENT))];
    }
    if !file.writeEnabled {
      return [Note(sender, Failed(EPERM))];
    }
    if file.lockedBy != sender {
      return [Note(sender, Failed(EACCES))];
    }
    if data == [] {
      Shut(fs, p, file, false, now);
      return [Note(sender, if sendBack then Several([]) else Ok)];
    }
    ghost var f := WriteFilled(st.files[p], data, now);
    notes := PutWrite(fs, sender, p, file, sendBack, data, now, sorted, st, order, f);
  }

  method HandleAppend(fs: FileSystem, sender: int, p: Path, sendBack: bool, data: seq<Byte>, now: Time,
        sorted: seq<FileStored>, ghost st: Store, ghost order: seq<Path>)
    returns (notes: seq<Note>)
    requires fs.Valid() && MaySort(fs, sorted, st, order) && st == fs.View() && forall q :: q in order ==> q in st.files
    requires Handlers.HandleAppend(fs.Limits(), st, sender, p, sendBack, data, now, order).Done?
    modifies fs.Repr()
    ensures fs.Valid() && fresh(fs.Repr() - old(fs.Repr()))
    ensures Done(fs.View(), notes) == Handlers.HandleAppend(fs.Limits(), st, sender, p, sendBack, data, now, order)
  {
    hide FileSystem.Valid, FileSystem.View, FileSystem.Has, FileStored.Model, FileStored.Valid, Touch, SetFile, MaySort,
      Handlers.PutContent, Files.AppendContent;
    var file := fs.FindFile(p);
    if file == null {
      return [Note(sender, Failed(ENOENT))];
    }
    var isOpen := file.IsOpenedBy(sender);
    if !isOpen {
      return [Note(sender, Failed(EPERM))];
    }
    if file.lockedBy != NOBODY && file.lockedBy != sender {
      return [Note(sender, Failed(EACCES))];
    }
    if data == [] {
      Shut(fs, p, file, true, now);
      return [Note(sender, if sendBack then Several([]) else Ok)];
    }
    ghost var f := AppendFilled(st.files[p], data, now);
    notes := PutAppend(fs, sender, p, file, sendBack, data, now, sorted, st, order, f);
  }

  method ServeLock(fs: FileSystem, sender: int, req: Request, now: Time, ghost st: Store, ghost order: seq<Path>)
    returns (notes: seq<Note>)
    requires fs.Valid() && 0 <= fs.fileCount < TWO32 && sender != NOBODY && st == fs.View() && Coherent(st)
    requires forall q :: q in order ==> q in st.files
    requires req.Open? || req.Lock? || req.Unlock? || req.Close? || req.Remove?
    requires Handle(fs.Limits(), st, sender, req, now, order).Done?
    modifies fs.Repr()
    ensures fs.Valid() && fresh(fs.Repr() - old(fs.Repr()))
    ensures Done(fs.View(), notes) == Handle(fs.Limits(), st, sender, req, now, order)
  {
    hide FileSystem.Valid, FileSystem.View, Coherent, Handlers.HandleOpen, Handlers.HandleLock, Handlers.HandleUnlock,
      Handlers.HandleClose, Handlers.HandleRemove, Handlers.HandleRead, Handlers.HandleReadN, Handlers.HandleWrite,
      Handlers.HandleAppend;
    match req
    case Open(p, flags) => notes := HandleOpen(fs, sender, p, flags, now);
    case Lock(p) => notes := HandleLock(fs, sender, p, now);
    case Unlock(p) => notes := HandleUnlock(fs, sender, p, now);
    case Close(p) => notes := HandleClose(fs, sender, p, now);
    case Remove(p) => notes := HandleRemove(fs, sender, p);
  }

  method ServeContent(fs: FileSystem, sender: int, req: Request, now: Time, sorted: seq<FileStored>, ghost st: Store,
        ghost order: seq<Path>)
    returns (notes: seq<Note>)
    requires fs.Valid() && MaySort(fs, sorted, st, order) && st == fs.View() && Coherent(st)
    requires forall q :: q in order ==> q in st.files
    requires req.Read? || req.ReadN? || req.Write? || req.Append?
    requires Handle(fs.Limits(), st, sender, req, now, order).Done?
    modifies fs.Repr()
    ensures fs.Valid() && fresh(fs.Repr() - old(fs.Repr()))
    ensures Done(fs.View(), notes) == Handle(fs.Limits(), st, sender, req, now, order)
  {
    hide FileSystem.Valid, FileSystem.View, MaySort, Coherent, Handlers.HandleOpen, Handlers.HandleLock,
      Handlers.HandleUnlock, Handlers.HandleClose, Handlers.HandleRemove, Handlers.HandleRead, Handlers.HandleReadN,
      Handlers.HandleWrite, Handlers.HandleAppend;
    match req
    case Read(p) => notes := HandleRead(fs, sender, p, now);
    case ReadN(n) =>
      notes := HandleReadN(fs, sender, n);
      assert fs.Repr() == old(fs.Repr());
    case Write(p, sendBack, data) => notes := HandleWrite(fs, sender, p, sendBack, data, now, sorted, st, order);
    case Append(p, sendBack, data) => notes := HandleAppend(fs, sender, p, sendBack, data, now, sorted, st, order);
  }

  /**
    One request in place: from a store that satisfies the invariant, a defined request leads to the store
    and the answers of the model, and the invariant holds again.
  */
  method Serve(fs: FileSystem, sender: int, req: Request, now: Time, sorted: seq<FileStored>) returns (notes: seq<Note>)
    requires fs.Valid() && HandlerPre(fs.Limits(), fs.View(), sender, Paths(sorted)) && AllStored(fs.Files(), sorted)
    requires Handle(fs.Limits(), fs.View(), sender, req, now, Paths(sorted)).Done?
    modifies fs.Repr()
    ensures fs.Valid() && StoreInv(fs.Limits(), fs.View()) && fresh(fs.Repr() - old(fs.Repr()))
    ensures Done(fs.View(), notes) == Handle(fs.Limits(), old(fs.View()), sender, req, now, Paths(sorted))
  {
    hide FileSystem.Valid, FileSystem.View, StoreInv, HandlerPre, MaySort, AllStored, Coherent, Paths, Handle;
    ghost var st, order := fs.View(), Paths(sorted);
    PreSaysSo(fs.Limits(), st, sender, order);
    ServesWell(fs, sender, req, now, sorted, st, order);
    if req.Read? || req.ReadN? || req.Write? || req.Append? {
      notes := ServeContent(fs, sender, req, now, sorted, st, order);
    } else {
      notes := ServeLock(fs, sender, req, now, st, order);
    }
  }

  lemma ServesWell(fs: FileSystem, sender: int, req: Request, now: Time, sorted: seq<FileStored>, st: Store,
        order: seq<Path>)
    requires fs.Valid() && st == fs.View() && order == Paths(sorted)
    requires HandlerPre(fs.Limits(), st, sender, order) && AllStored(fs.Files(), sorted)
    requires Coherent(st) && (forall q :: q in order ==> q in st.files)
    requires Handle(fs.Limits(), st, sender, req, now, order).Done?
    ensures MaySort(fs, sorted, st, order) && 0 <= fs.fileCount < TWO32 && sender != NOBODY
    ensures StoreInv(fs.Limits(), Handle(fs.Limits(), st, sender, req, now, order).store)
  {
    hide FileSystem.Valid, FileSystem.View, Paths, AllStored;
    HandleKeepsInv(fs.Limits(), st, sender, req, now, order);
    PreSaysSo(fs.Limits(), st, sender, order);
  }

  lemma PreSaysSo(cfg: Config, st: Store, sender: int, order: seq<Path>)
    requires HandlerPre(cfg, st, sender, order)
    ensures 0 <= st.count < TWO32 && NoDup(order) && sender != NOBODY
    ensures Coherent(st) && forall q :: q in order ==> q in st.files
  {
  }
}
