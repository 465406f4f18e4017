/**
  server/src/file_system.c and run_replacement_algorithm of server/src/replacement_policy.c, updating the store
  in place: a hash table of file objects, a linked list of names and the counters, none of which share a heap
  object with another. Each method is proved against the function of module Stores it stands for.
*/
module FileSystemObject {
  import opened Seqs
  import opened Machine
  import opened Files
  import opened Policies
  import opened Stores
  import opened Handlers
  import opened LinkedLists
  import opened HashTables
  import opened FileStoredObject

  /** An entry of the list of replaced files: what is left of a victim, its lock queue included. */
  datatype ReplacedFile = ReplacedFile(path: Path, data: seq<Byte>, size: nat, queue: LinkedList<int>)

  // The table

  /** The table is sound, and it, its buckets and its entries are among the objects. */
  ghost predicate TableIn(table: HashTable<Path, FileStored>, objects: set<object>)
    reads objects
    ensures TableIn(table, objects) ==> table in objects
  {
    table in objects && table.buckets in objects && table.entries <= objects && table.Valid()
  }

  method FindEntry(table: HashTable<Path, FileStored>, p: Path, ghost objects: set<object>) returns (file: FileStored?)
    requires TableIn(table, objects)
    ensures file == if p in table.contents then table.contents[p] else null
  {
    var found, data := table.Find(p);
    file := if found then data[0] else null;
  }

  method InsertEntry(table: HashTable<Path, FileStored>, p: Path, file: FileStored, ghost objects: set<object>)
    returns (ok: bool, ghost more: set<object>)
    requires TableIn(table, objects)
    modifies objects
    ensures objects <= more && fresh(more - objects) && TableIn(table, more)
    ensures ok <==> p !in old(table.contents)
    ensures table.contents == if ok then old(table.contents)[p := file] else old(table.contents)
  {
    ok := table.Insert(p, file);
    hide HashTable.Valid;
    more := objects + table.entries;
  }

  method DeleteEntry(table: HashTable<Path, FileStored>, p: Path, ghost objects: set<object>)
    requires TableIn(table, objects)
    modifies objects
    ensures TableIn(table, objects) && table.contents == old(table.contents) - {p}
  {
    hide HashTable.Valid;
    var _ := table.Delete(p);
  }

  // The names list

  /** The list is sound, has no name twice, and it and its nodes are among the objects. */
  ghost predicate NamesIn(names: LinkedList<Path>, objects: set<object>)
    reads objects
    ensures NamesIn(names, objects) ==>
              names in objects && forall i :: 0 <= i < |names.nodes| ==> names.nodes[i] in objects
  {
    && names in objects && (forall i :: 0 <= i < |names.nodes| ==> names.nodes[i] in objects)
    && names.Valid() && names.Attached() && NoDup(names.Items())
  }

  /** A name goes in at the head. */
  method AddName(names: LinkedList<Path>, p: Path, ghost objects: set<object>) returns (ghost more: set<object>)
    requires NamesIn(names, objects) && p !in names.Items()
    modifies objects
    ensures objects <= more && fresh(more - objects) && NamesIn(names, more)
    ensures names.Items() == [p] + old(names.Items()) && names.count == old(names.count) + 1
  {
    names.AddHead(p);
    more := objects + {names.nodes[0]};
    assert forall i :: 0 < i < |names.nodes| ==> names.nodes[i] == old(names.nodes)[i - 1];
    hide LinkedList.Items, LinkedList.Linked, LinkedList.Ended;
    DistinctCons(p, old(names.Items()));
  }

  /** A name goes out, and the tail is moved with it. */
  method DropName(names: LinkedList<Path>, p: Path, ghost objects: set<object>)
    requires NamesIn(names, objects) && p in names.Items()
    modifies objects
    ensures NamesIn(names, objects)
    ensures names.Items() == Without(old(names.Items()), p) && names.count == old(names.count) - 1
    ensures forall q :: q in names.Items() <==> q in old(names.Items()) && q != p
  {
    names.RemoveValue(p);
    hide LinkedList.Items, LinkedList.Linked, LinkedList.Ended;
    WithoutMembers(old(names.Items()), p);
  }

  // The file objects

  ghost predicate Sound(files: map<Path, FileStored>, objects: set<object>, p: Path)
    requires p in files
    reads objects
  {
    files[p] in objects && files[p].Repr <= objects && files[p].Valid() && files[p].path == p
  }

  /** Every object is valid, kept under its own name, and shares no heap object with another. */
  ghost predicate Owned(files: map<Path, FileStored>, objects: set<object>)
    reads objects
  {
    && (forall p :: p in files ==> Sound(files, objects, p))
    && (forall p, q :: p in files && q in files && p != q ==> files[p].Repr !! files[q].Repr)
  }

  ghost function Models(files: map<Path, FileStored>, objects: set<object>): (r: FileMap)
    requires Owned(files, objects)
    reads objects
  {
    map p | p in files :: files[p].Model()
  }

  /** One more object that shares nothing with those there. */
  lemma OwnedMore(files: map<Path, FileStored>, objects: set<object>, p: Path, file: FileStored)
    requires Owned(files, objects) && file.Valid() && file.path == p && file.Repr !! objects && p !in files
    ensures Owned(files[p := file], objects + file.Repr)
    ensures Models(files[p := file], objects + file.Repr) == Models(files, objects)[p := file.Model()]
  {
    hide FileStored.Model;
    assert file in file.Repr;
    hide FileStored.Valid;
  }

  /** One object fewer, and with it all it is made of. */
  lemma OwnedFewer(files: map<Path, FileStored>, objects: set<object>, p: Path)
    requires Owned(files, objects) && p in files
    ensures Owned(files - {p}, objects - files[p].Repr)
    ensures Models(files - {p}, objects - files[p].Repr) == Models(files, objects) - {p}
  {
    hide FileStored.Model;
    assert files[p] in files[p].Repr;
    hide FileStored.Valid;
  }

  lemma OwnedAgain(files: map<Path, FileStored>, objects: set<object>, was: map<Path, set<object>>, p: Path)
    requires p in files && forall q :: q in files ==> Sound(files, objects, q)
    requires was.Keys == files.Keys && forall q :: q in files && q != p ==> files[q].Repr == was[q]
    requires forall q, r :: q in files && r in files && q != r ==> was[q] !! was[r]
    requires forall q :: q in files && q != p ==> files[q].Repr !! files[p].Repr
    ensures Owned(files, objects)
  {
    hide Sound;
  }

  lemma ModelsSet(was: FileMap, files: map<Path, FileStored>, objects: set<object>, p: Path)
    requires Owned(files, objects) && p in files && was.Keys == files.Keys
    requires forall q :: q in files && q != p ==> files[q].Model() == was[q]
    ensures Models(files, objects) == was[p := files[p].Model()]
  {
    hide FileStored.Model, FileStored.Valid;
  }

  lemma StoredUnder(files: map<Path, FileStored>, objects: set<object>, p: Path)
    requires Owned(files, objects) && p in files
    ensures files[p].Valid() && files[p].path == p && files[p] in files[p].Repr && files[p].Repr <= objects
    ensures Models(files, objects)[p] == files[p].Model()
  {
  }

  lemma AddFileFields(st: Store, p: Path, f: File)
    ensures var counters := NotifyMemory(Store([], map[], st.used, st.peak, 0, 0), f.size);
            Stores.AddFile(st, p, f)
            == if p in st.files then st
               else Store([p] + st.names, st.files[p := f], counters.used, counters.peak, ToSize(st.count + 1),
                          Max(st.peakCount, ToSize(st.count + 1)))
  {
  }

  lemma RemoveFileFields(st: Store, p: Path)
    ensures p !in st.files ==> Stores.RemoveFile(st, p) == st
  {
  }

  class FileSystem {
    const maxMemory: nat
    const maxFiles: nat
    const policy: Policy
    const filesStored: HashTable<Path, FileStored>
    const filenamesStored: LinkedList<Path>
    var usedMemory: int
    var fileCount: int
    var maxMemoryReached: int
    var maxNumFilesReached: int

    // What the table, the list and the stored files are made of.
    ghost var tableObjects: set<object>
    ghost var listObjects: set<object>
    ghost var fileObjects: set<object>

    function Limits(): Config {
      Config(maxMemory, maxFiles, policy, false, false)
    }

    ghost function Repr(): set<object>
      reads this
    {
      {this} + tableObjects + listObjects + fileObjects
    }

    /** The map the hash table holds. */
    ghost function Files(): map<Path, FileStored>
      reads filesStored
    {
      filesStored.contents
    }

    /** The names on the list, newest first. */
    ghost function Names(): seq<Path>
      reads filenamesStored, filenamesStored.nodes
    {
      filenamesStored.Items()
    }

    /** Table and list are sound, share nothing, and name the same files, each once. */
    ghost predicate Indexed()
      reads this, tableObjects, listObjects
      ensures Indexed() ==>
                && this !in tableObjects && this !in listObjects && tableObjects !! listObjects
                && filesStored in tableObjects && TableIn(filesStored, tableObjects)
                && filenamesStored in listObjects && NamesIn(filenamesStored, listObjects)
    {
      && this !in tableObjects && this !in listObjects && tableObjects !! listObjects
      && TableIn(filesStored, tableObjects) && NamesIn(filenamesStored, listObjects)
      && (forall p :: p in Names() <==> p in Files())
    }

    ghost predicate Valid()
      reads this, Repr()
    {
      && Indexed()
      && this !in fileObjects && fileObjects !! tableObjects && fileObjects !! listObjects
      && Owned(Files(), fileObjects)
      && fileCount == filenamesStored.count
    }

    ghost function View(): (st: Store)
      requires Valid()
      reads this, Repr()
      ensures st.names == Names() && st.files.Keys == Files().Keys
      ensures st.used == usedMemory && st.peak == maxMemoryReached
      ensures st.count == fileCount && st.peakCount == maxNumFilesReached
    {
      Store(Names(), Models(Files(), fileObjects), usedMemory, maxMemoryReached, fileCount, maxNumFilesReached)
    }

    /** The file object stored under a name. */
    ghost predicate Has(p: Path, file: FileStored)
      reads this, Repr()
      ensures Has(p, file) ==>
                && Valid() && p in Files() && Files()[p] == file && file.Valid() && file.path == p
                && file in file.Repr && file.Repr <= fileObjects
                && file.Repr !! {this} + tableObjects + listObjects
                && p in View().files && View().files[p] == file.Model()
    {
      Valid() && p in Files() && Files()[p] == file
    }

    /** The list is as long as the table is large. */
    lemma CountsAgree()
      requires Valid()
      ensures filesStored.nentries == filenamesStored.count == fileCount == |Files()|
    {
      NoDupLength(Names(), Files().Keys);
    }

    constructor (maxMemory: nat, maxFiles: nat, policy: Policy)
      ensures Valid() && View() == EmptyStore() && Limits() == Config(maxMemory, maxFiles, policy, false, false)
      ensures fresh(tableObjects) && fresh(listObjects) && fileObjects == {}
    {
      var table := new HashTable<Path, FileStored>(10, k => Pjw(k) as nat);
      var names := new LinkedList<Path>();
      this.maxMemory, this.maxFiles, this.policy := maxMemory, maxFiles, policy;
      filesStored, filenamesStored := table, names;
      usedMemory, fileCount, maxMemoryReached, maxNumFilesReached := 0, 0, 0, 0;
      tableObjects, listObjects, fileObjects := {table, table.buckets}, {names}, {};
      new;
      hide FileStored.Valid, FileStored.Model, HashTable.Valid, LinkedList.Valid, LinkedList.Items, Valid, View;
      assert fresh(table) && fresh(names) && fresh(table.buckets);
      StartsEmpty();
    }

    lemma StartsEmpty()
      requires filesStored.Valid() && Files() == map[] && filesStored.entries == {}
      requires filenamesStored.Valid() && filenamesStored.nodes == []
      requires tableObjects == {filesStored, filesStored.buckets}
      requires listObjects == {filenamesStored} && fileObjects == {}
      requires this !in tableObjects && this !in listObjects
      requires usedMemory == fileCount == maxMemoryReached == maxNumFilesReached == 0
      ensures Valid() && View() == EmptyStore()
    {
      assert NamesIn(filenamesStored, listObjects) && filenamesStored.count == 0 && Names() == [];
      hide NamesIn;
      assert TableIn(filesStored, tableObjects);
    }

    /** Since the old state nothing has changed but the object stored under p, which grew by fresh objects at most. */
    twostate predicate OnlyFileChanged(p: Path)
      reads *
    {
      && p in old(Files())
      && tableObjects == old(tableObjects) && unchanged(old(tableObjects))
      && listObjects == old(listObjects) && unchanged(old(listObjects))
      && usedMemory == old(usedMemory) && fileCount == old(fileCount)
      && maxMemoryReached == old(maxMemoryReached) && maxNumFilesReached == old(maxNumFilesReached)
      && var file := old(Files())[p];
      && file.Valid() && fresh(file.Repr - old(file.Repr)) && fileObjects == old(fileObjects) + file.Repr
      && forall o :: o in old(fileObjects) && o !in old(file.Repr) ==> unchanged(o)
    }

    /** Changing one file object in place is SetFile on the store: no two names share a heap object. */
    twostate lemma OneFileChanged(p: Path)
      requires old(Valid()) && OnlyFileChanged(p)
      ensures Valid() && Files() == old(Files())
      ensures p in Files() && View() == SetFile(old(View()), p, Files()[p].Model())
    {
      hide TableIn, NamesIn, Models, Owned, FileStored.Valid, FileStored.Model, LinkedList.Items;
      assert Files() == old(Files()) && Names() == old(Names()) && filenamesStored.count == old(filenamesStored.count);
      FilesStay(p);
    }

    twostate lemma FilesStay(p: Path)
      requires old(Owned(Files(), fileObjects)) && OnlyFileChanged(p) && Files() == old(Files())
      ensures Owned(Files(), fileObjects) && fresh(fileObjects - old(fileObjects))
      ensures Models(Files(), fileObjects) == old(Models(Files(), fileObjects))[p := Files()[p].Model()]
    {
      assert old(Sound(Files(), fileObjects, p)) && Files()[p] in Files()[p].Repr;
      hide FileStored.Valid, FileStored.Model;
      OthersStay(p);
      OwnedAgain(Files(), fileObjects, old(map q | q in Files() :: Files()[q].Repr), p);
      ModelsSet(old(Models(Files(), fileObjects)), Files(), fileObjects, p);
    }

    /** The other objects are what they were. */
    twostate lemma OthersStay(p: Path)
      requires old(Owned(Files(), fileObjects)) && p in old(Files()) && Files() == old(Files())
      requires fresh(Files()[p].Repr - old(Files()[p].Repr)) && fileObjects == old(fileObjects) + Files()[p].Repr
      requires forall o :: o in old(fileObjects) && o !in old(Files()[p].Repr) ==> unchanged(o)
      ensures forall q :: q in Files() && q != p ==>
                && Files()[q].Repr == old(Files()[q].Repr) && Sound(Files(), fileObjects, q)
                && Files()[q].Repr !! Files()[p].Repr && Files()[q].Model() == old(Models(Files(), fileObjects))[q]
    {
      hide FileStored.Model;
      forall q | q in Files() && q != p
        ensures Files()[q].Repr == old(Files()[q].Repr) && Sound(Files(), fileObjects, q)
        ensures Files()[q].Repr !! Files()[p].Repr && Files()[q].Model() == old(Models(Files(), fileObjects))[q]
      {
        var other := Files()[q];
        assert old(Sound(Files(), fileObjects, q)) && old(other.Repr) !! old(Files()[p].Repr);
        assert old(other.Valid());
      }
    }

    // Table and list together

    /** Enters a name in the table and, if it is new there, in the list. */
    method Enlist(p: Path, file: FileStored) returns (ok: bool)
      requires Indexed()
      modifies tableObjects, listObjects, this`tableObjects, this`listObjects
      ensures Indexed()
      ensures old(tableObjects) <= tableObjects && fresh(tableObjects - old(tableObjects))
      ensures old(listObjects) <= listObjects && fresh(listObjects - old(listObjects))
      ensures ok <==> p !in old(Files())
      ensures Files() == if ok then old(Files())[p := file] else old(Files())
      ensures Names() == if ok then [p] + old(Names()) else old(Names())
      ensures filenamesStored.count == old(filenamesStored.count) + if ok then 1 else 0
    {
      hide TableIn, NamesIn, LinkedList.Items;
      assert p in Names() <==> p in Files();
      ok, tableObjects := InsertEntry(filesStored, p, file, tableObjects);
      assert Names() == old(Names());
      if ok {
        listObjects := AddName(filenamesStored, p, listObjects);
      }
    }

    /** Takes a name out of the list, which moves its tail here, and out of the table. */
    method Delist(p: Path)
      requires Indexed() && p in Files()
      modifies tableObjects, listObjects
      ensures Indexed()
      ensures Files() == old(Files()) - {p} && Names() == Without(old(Names()), p)
      ensures filenamesStored.count == old(filenamesStored.count) - 1
    {
      hide TableIn, NamesIn, LinkedList.Items, Without;
      DropName(filenamesStored, p, listObjects);
      DeleteEntry(filesStored, p, tableObjects);
    }

    // Operations

    method IsSizeAvailable(size: int) returns (missing: int)
      requires Valid()
      ensures missing == SizeMissing(Limits(), View(), size)
    {
      hide View, Valid;
      var remaining := ToInt32(ToSize(maxMemory - ToInt32(usedMemory)));
      missing := ToInt32(ToSize(-ToSize(remaining - size)));
    }

    method IsFileCountFull() returns (full: bool)
      requires Valid()
      ensures full == IsFull(Limits(), View())
    {
      hide View, Valid;
      full := ToInt32(ToInt32(maxFiles) - ToInt32(fileCount)) <= 0;
    }

    method FindFile(p: Path) returns (file: FileStored?)
      requires Valid()
      ensures Valid() && (file == null <==> p !in View().files)
      ensures file != null ==> Has(p, file)
    {
      hide TableIn, NamesIn, Indexed, Owned, Models, FileStored.Valid, FileStored.Model, LinkedList.Items;
      file := FindEntry(filesStored, p, tableObjects);
      assert p in View().files <==> p in View().files.Keys;
    }

    /** The counters after a change of memory. */
    method CountMemory(size: int) returns (used: int, peak: int)
      ensures used == NotifyMemory(Store([], map[], usedMemory, maxMemoryReached, 0, 0), size).used
      ensures peak == NotifyMemory(Store([], map[], usedMemory, maxMemoryReached, 0, 0), size).peak
    {
      var amount := ToInt32(size);
      if amount == 0 {
        return usedMemory, maxMemoryReached;
      }
      used := ToSize(usedMemory + amount);
      peak := Max(maxMemoryReached, used);
    }

    /** Sets the counters once table, list and files are what they are to be. */
    method Settle(used: int, peak: int, count: int, peakCount: int, ghost objects: set<object>)
      requires Indexed() && Owned(Files(), objects) && count == filenamesStored.count
      requires this !in objects && objects !! tableObjects && objects !! listObjects
      modifies this
      ensures Valid() && tableObjects == old(tableObjects) && listObjects == old(listObjects) && fileObjects == objects
      ensures View() == Store(old(Names()), old(Models(Files(), objects)), used, peak, count, peakCount)
    {
      hide TableIn, NamesIn, Owned, Models, LinkedList.Items;
      usedMemory, maxMemoryReached, fileCount, maxNumFilesReached, fileObjects := used, peak, count, peakCount, objects;
      assert Files() == old(Files()) && Names() == old(Names());
      assert Models(Files(), objects) == old(Models(Files(), objects));
    }

    method NotifyMemoryChanged(size: int)
      requires Valid()
      modifies this
      ensures Valid() && View() == NotifyMemory(old(View()), size)
      ensures Repr() == old(Repr())
    {
      hide TableIn, NamesIn, Owned, Models, ToInt32, ToSize;
      var used, peak := CountMemory(size);
      Settle(used, peak, fileCount, maxNumFilesReached, fileObjects);
    }

    /** Counts in a file that table and list have taken up. */
    method CountIn(p: Path, file: FileStored, ghost st: Store, ghost files: map<Path, FileStored>)
      requires Indexed() && Files() == files[p := file] && Names() == [p] + st.names && p !in files && p !in st.files
      requires Owned(files, fileObjects) && Models(files, fileObjects) == st.files
      requires file.Valid() && file.path == p && file.Repr !! Repr()
      requires this !in fileObjects && fileObjects !! tableObjects && fileObjects !! listObjects
      requires st.used == usedMemory && st.peak == maxMemoryReached
      requires st.count == fileCount && st.peakCount == maxNumFilesReached
      requires fileCount + 1 == filenamesStored.count && fileCount + 1 < TWO64
      modifies this
      ensures Valid() && View() == Stores.AddFile(st, p, file.Model())
      ensures tableObjects == old(tableObjects) && listObjects == old(listObjects)
      ensures fileObjects == old(fileObjects) + file.Repr
    {
      hide TableIn, NamesIn, Indexed, Owned, Models, FileStored.Model, ToInt32, ToSize, LinkedList.Items, Names,
        Valid, View, Stores.AddFile, NotifyMemory;
      AddFileFields(st, p, file.Model());
      OwnedMore(files, fileObjects, p, file);
      ToSizeExact(fileCount + 1);
      var used, peak := CountMemory(file.size);
      var count := ToSize(fileCount + 1);
      assert file in file.Repr;
      hide FileStored.Valid;
      Settle(used, peak, count, Max(maxNumFilesReached, count), fileObjects + file.Repr);
    }

    /** Fails exactly on a name that is taken. */
    method AddFile(p: Path, file: FileStored) returns (ok: bool)
      requires Valid() && file.Valid() && file.path == p && file.Repr !! Repr()
      requires fileCount + 1 < TWO64
      modifies Repr()
      ensures Valid() && ok == (p !in old(View()).files)
      ensures View() == Stores.AddFile(old(View()), p, old(file.Model()))
      ensures fresh(Repr() - old(Repr()) - old(file.Repr))
    {
      hide TableIn, NamesIn, Indexed, Owned, Models, FileStored.Model, FileStored.Valid, LinkedList.Items, Names,
        Stores.AddFile, Valid, View;
      Parts();
      file.HoldsItself();
      ghost var st, files := View(), Files();
      AddFileFields(st, p, file.Model());
      assert p in st.files.Keys <==> p in st.files;
      ok := Enlist(p, file);
      assert Owned(files, fileObjects) && Models(files, fileObjects) == st.files;
      if ok {
        assert file.Valid() && file.Model() == old(file.Model());
        CountIn(p, file, st, files);
      } else {
        Whole();
      }
    }

    lemma Parts()
      requires Valid()
      ensures Indexed() && Owned(Files(), fileObjects) && fileCount == filenamesStored.count
      ensures this !in fileObjects && fileObjects !! tableObjects && fileObjects !! listObjects
      ensures View() == Store(Names(), Models(Files(), fileObjects), usedMemory, maxMemoryReached, fileCount,
                              maxNumFilesReached)
    {
    }

    lemma PartsAreDisjoint()
      requires Valid()
      ensures this !in tableObjects && this !in listObjects && this !in fileObjects
      ensures tableObjects !! listObjects && fileObjects !! tableObjects && fileObjects !! listObjects
    {
    }

    lemma Whole()
      requires Indexed() && Owned(Files(), fileObjects) && fileCount == filenamesStored.count
      requires this !in fileObjects && fileObjects !! tableObjects && fileObjects !! listObjects
      ensures Valid()
      ensures View() == Store(Names(), Models(Files(), fileObjects), usedMemory, maxMemoryReached, fileCount,
                              maxNumFilesReached)
    {
    }

    /** Counts out a file that table and list have given up, together with all it is made of. */
    method CountOut(p: Path, size: nat, ghost st: Store, ghost objects: set<object>)
      requires Indexed() && Names() == Without(st.names, p) && p in st.files && st.files[p].size == size
      requires Owned(Files(), objects) && Models(Files(), objects) == st.files - {p}
      requires this !in objects && objects !! tableObjects && objects !! listObjects
      requires st.used == usedMemory && st.peak == maxMemoryReached
      requires st.count == fileCount && st.peakCount == maxNumFilesReached
      requires fileCount - 1 == filenamesStored.count && fileCount < TWO64
      modifies this
      ensures Valid() && View() == Stores.RemoveFile(st, p)
      ensures tableObjects == old(tableObjects) && listObjects == old(listObjects) && fileObjects == objects
    {
      hide TableIn, NamesIn, Indexed, Owned, Models, Without, LinkedList.Items, ToSize, Valid, View, Names;
      ToSizeExact(fileCount - 1);
      Settle(ToSize(usedMemory - size), maxMemoryReached, ToSize(fileCount - 1), maxNumFilesReached, objects);
    }

    /**
      The file leaves table, list and counters, and its openers are freed; so are its waiters, unless it is only
      replaced. Nothing of it stays within reach of the store.
    */
    method RemoveFile(p: Path, isReplacement: bool) returns (ok: bool)
      requires Valid() && fileCount < TWO64
      requires p in View().files ==>
                 View().files[p].openers.attached && (isReplacement || View().files[p].waiters.attached)
      modifies Repr()
      ensures Valid() && Repr() <= old(Repr()) && ok == (p in old(View()).files)
      ensures View() == Stores.RemoveFile(old(View()), p)
      ensures Files() == old(Files()) - {p}
      ensures ok ==> var file := old(Files())[p];
                && file.Valid() && file.Repr == old(file.Repr) && file.Repr !! Repr()
                && (isReplacement ==> file.Model().waiters == old(file.Model()).waiters)
    {
      hide TableIn, NamesIn, Indexed, Owned, Models, FileStored.Model, FileStored.Valid, LinkedList.Items, Valid,
        View, Names, Stores.RemoveFile;
      Parts();
      ghost var st, files := View(), Files();
      RemoveFileFields(st, p);
      assert p in st.files <==> p in st.files.Keys;
      var file := FindEntry(filesStored, p, tableObjects);
      if file == null {
        assert Files() - {p} == Files();
        return false;
      }
      StoredUnder(files, fileObjects, p);
      OwnedFewer(files, fileObjects, p);
      Discard(p, file, isReplacement, st);
      ok := true;
    }

    method Discard(p: Path, file: FileStored, isReplacement: bool, ghost st: Store)
      requires Indexed() && p in Files() && Files()[p] == file && Names() == st.names
      requires file.Valid() && p in st.files && st.files[p] == file.Model()
      requires file.Model().openers.attached && (isReplacement || file.Model().waiters.attached)
      requires file.Repr !! tableObjects && file.Repr !! listObjects && this !in file.Repr
      requires var objects := fileObjects - file.Repr;
               Owned(Files() - {p}, objects) && Models(Files() - {p}, objects) == st.files - {p}
      requires this !in fileObjects && fileObjects !! tableObjects && fileObjects !! listObjects
      requires st.used == usedMemory && st.peak == maxMemoryReached
      requires st.count == fileCount && st.peakCount == maxNumFilesReached
      requires fileCount == filenamesStored.count && fileCount < TWO64
      modifies this, tableObjects, listObjects, file.openedBy, file.lockQueue
      ensures Valid() && View() == Stores.RemoveFile(st, p) && Files() == old(Files()) - {p}
      ensures tableObjects == old(tableObjects) && listObjects == old(listObjects)
      ensures fileObjects == old(fileObjects - file.Repr)
      ensures file.Valid() && file.Repr == old(file.Repr)
      ensures isReplacement ==> file.Model().waiters == old(file.Model()).waiters
    {
      hide TableIn, NamesIn, Indexed, Owned, Models, FileStored.Model, FileStored.Valid, LinkedList.Items, Valid,
        View, Names, Stores.RemoveFile, Without;
      file.HoldsItself();
      ghost var objects := fileObjects - file.Repr;
      Delist(p);
      assert Owned(Files(), objects) && Models(Files(), objects) == st.files - {p};
      file.Free(isReplacement);
      CountOut(p, file.size, st, objects);
    }

    // Walks along the names list

    /** One slot per listed name, in list order, none of them empty. */
    method GetFilesStored() returns (files: array<FileStored?>)
      requires Valid()
      ensures files.Length == fileCount == |Names()| && fresh(files)
      ensures forall i :: 0 <= i < files.Length ==> Names()[i] in Files() && files[i] == Files()[Names()[i]]
    {
      hide TableIn, NamesIn, Indexed, Owned, Models, FileStored.Model, FileStored.Valid, LinkedList.Items, Valid,
        View, Names;
      Parts();
      NodesOf(filenamesStored, listObjects);
      ghost var names, stored := Names(), Files();
      assert Listed(names, stored);
      hide Listed;
      files := new FileStored?[filenamesStored.count](_ => null);
      var node, i := filenamesStored.head, 0;
      while node != null
        invariant 0 <= i <= files.Length == |filenamesStored.nodes|
        invariant node == NodeAt(filenamesStored.nodes, i) && Listed(names, stored)
        invariant forall k :: 0 <= k < i ==> names[k] in stored && files[k] == stored[names[k]]
        decreases files.Length - i
      {
        NextNode(filenamesStored, listObjects, i);
        files[i] := FindEntry(filesStored, node.value, tableObjects);
        node := node.next;
        i := i + 1;
      }
    }

    /** The index as it is while an array is filled. */
    ghost predicate Listed(names: seq<Path>, stored: map<Path, FileStored>)
      reads this, tableObjects, listObjects
      ensures Listed(names, stored) ==>
                && Indexed() && Files() == stored && filenamesStored.Items() == names == Names()
                && forall i :: 0 <= i < |names| ==> names[i] in stored
    {
      Indexed() && Names() == names && Files() == stored
    }

    method ForgetAt(file: FileStored, client: int) returns (newOwner: int)
      requires file.Valid() && client != NOBODY
      modifies file.Repr
      ensures file.Valid() && file.Model() == ForgetClient(false, old(file.Model()), client)
      ensures newOwner == Heir(false, old(file.Model()), client)
      ensures fresh(file.Repr - old(file.Repr))
    {
      hide FileStored.Model, FileStored.Valid;
      var _ := file.CloseClient(client);
      newOwner := file.DeleteLockClient(client);
    }

    method ForgetOne(p: Path, client: int) returns (newOwner: int)
      requires Valid() && p in Files() && client != NOBODY
      modifies fileObjects, this`fileObjects
      ensures Valid() && p in old(View()).files
      ensures View() == SetFile(old(View()), p, ForgetClient(false, old(View()).files[p], client))
      ensures newOwner == Heir(false, old(View()).files[p], client)
      ensures Files() == old(Files()) && fresh(fileObjects - old(fileObjects))
    {
      hide TableIn, NamesIn, Indexed, Owned, Models, FileStored.Model, FileStored.Valid, LinkedList.Items, Valid,
        View, Names, ForgetClient, Heir, SetFile;
      Parts();
      var file := FindEntry(filesStored, p, tableObjects);
      StoredUnder(Files(), fileObjects, p);
      newOwner := ForgetAt(file, client);
      fileObjects := fileObjects + file.Repr;
      OneFileChanged(p);
    }

    /** Names and files of the store correspond, and no name comes twice. */
    lemma NamesAreTheFiles()
      requires Valid()
      ensures NoDup(View().names) && (forall p :: p in View().names <==> p in View().files)
      ensures |View().names| == filenamesStored.count == fileCount && Coherent(View())
    {
      hide TableIn, Owned, Models, LinkedList.Items, HashTable.Valid;
      assert View().files.Keys == Files().Keys;
    }

    /** Visits the files in list order; the notes are the grants that are sent on the way. */
    method NotifyClientDisconnected(client: int) returns (notes: seq<Note>)
      requires Valid() && client != NOBODY
      modifies fileObjects, this`fileObjects
      ensures Valid() && fresh(fileObjects - old(fileObjects))
      ensures Coherent(old(View())) && Done(View(), notes) == HandleDisconnect(Limits(), old(View()), client)
    {
      hide TableIn, NamesIn, Owned, Models, FileStored.Model, FileStored.Valid, LinkedList.Items, Valid, View,
        HandleDisconnect, ForgetNotes, Partly, ForgetClient, Heir, Coherent;
      Parts();
      NamesAreTheFiles();
      NodesOf(filenamesStored, listObjects);
      ghost var st, names, nodes := View(), Names(), filenamesStored.nodes;
      NothingForgotten(Limits(), st.files, names, client);
      notes := [];
      var node, i := filenamesStored.head, 0;
      while node != null
        invariant Valid() && 0 <= i <= |nodes| == |names| && node == NodeAt(nodes, i)
        invariant fresh(fileObjects - old(fileObjects))
        invariant unchanged(old(listObjects)) && listObjects == old(listObjects)
        invariant View() == st.(files := Partly(st.files, names[..i], client))
        invariant notes == ForgetNotes(Limits(), st.files, names[..i], client)
        decreases |nodes| - i
      {
        Parts();
        NextNode(filenamesStored, listObjects, i);
        var p := node.value;
        assert p == names[i] && p in Files();
        PrefixGrows(names, i);
        PartlyStep(st.files, names[..i], p, client);
        ForgetNotesSnoc(Limits(), st.files, names[..i], p, client);
        var newOwner := ForgetOne(p, client);
        if newOwner != NOBODY {
          notes := notes + [Note(newOwner, Ok)];
        }
        node := node.next;
        i := i + 1;
      }
      PrefixIsAll(names, i);
      PartlyAll(Limits(), st, client);
    }

    // Replacement

    /** The simulation that comes first: what would be freed, and how much. */
    method Simulate(skip: Path, need: int, sorted: seq<FileStored>, ghost files: FileMap, ghost order: seq<Path>)
      returns (memFreed: nat, freed: seq<ReplacedFile>, ghost victims: seq<Path>)
      requires Valid() && AllStored(Files(), sorted)
      requires files == View().files && order == Paths(sorted) && forall q :: q in order ==> q in files
      ensures victims == Select(files, order, skip, need) && memFreed == Total(files, victims)
      ensures Entries(freed, files, Files(), victims)
    {
      hide TableIn, NamesIn, Indexed, Owned, Models, FileStored.Model, FileStored.Valid, LinkedList.Items, Valid,
        View, Names, Select, Total, Paths, Simulated, Entries;
      freed, victims := [], [];
      memFreed := 0;
      var i := 0;
      SimulationStarts(files, order, skip, need);
      NothingFreed(files, Files());
      while memFreed < need && i < |sorted|
        invariant 0 <= i <= |sorted| && Valid() && View().files == files && forall v :: v in victims ==> v in files
        invariant Simulated(files, order, i, skip, need, victims)
        invariant memFreed == Total(files, victims) && Entries(freed, files, Files(), victims)
      {
        var curr := sorted[i];
        assert curr in sorted;
        assert Has(curr.path, curr) && order[i] == curr.path;
        SimulationGoesOn(files, order, i, skip, need, victims);
        if curr.path != skip {
          TotalSnoc(files, victims, curr.path);
          var entry := ReplacedFile(curr.path, curr.data, curr.size, curr.lockQueue);
          EntriesSnoc(freed, files, Files(), victims, entry);
          freed := freed + [entry];
          victims := victims + [curr.path];
          memFreed := memFreed + curr.size;
        }
        i := i + 1;
      }
      SimulationEnds(files, order, i, skip, need, victims);
    }

    /** The removal loop over the list of replaced files. */
    method RemoveAll(freed: seq<ReplacedFile>, ghost victims: seq<Path>) returns (ghost detached: set<object>)
      requires Valid() && fileCount < TWO64
      requires |freed| == |victims| && forall k :: 0 <= k < |freed| ==> freed[k].path == victims[k]
      requires NoDup(victims) && forall v :: v in victims ==> v in View().files && View().files[v].openers.attached
      modifies Repr()
      ensures Valid() && Repr() <= old(Repr())
      ensures View() == Evict(old(View()), victims)
      ensures Files() == old(Files()) - Elements(victims)
      ensures detached !! Repr() && detached <= old(Repr()) && Gone(old(Files()), old(View()).files, victims, detached)
    {
      hide TableIn, NamesIn, Indexed, Owned, Models, FileStored.Model, FileStored.Valid, LinkedList.Items, Valid,
        View, Names, Evict, Elements, Gone;
      ghost var st, files := View(), Files();
      detached := {};
      var k := 0;
      EvictionStarts(st, victims);
      NobodyGone(files, st.files);
      assert Files() == files - {};
      assert victims[..0] == [];
      while k < |freed|
        invariant 0 <= k <= |freed| && Valid() && fileCount < TWO64 && Repr() <= old(Repr())
        invariant Evicted(st, victims, k, View()) && Files() == files - Elements(victims[..k])
        invariant detached !! Repr() && detached <= old(Repr()) && Gone(files, st.files, victims[..k], detached)
      {
        var p := freed[k].path;
        EvictionGoesOn(st, victims, k, View());
        assert p in View().files.Keys && Has(p, files[p]);
        var _ := RemoveFile(p, true);
        MinusElements(files, victims[..k], p);
        GoneSnoc(files, st.files, victims[..k], detached, p);
        detached := detached + files[p].Repr;
        k := k + 1;
      }
      PrefixIsAll(victims, k);
      EvictionEnds(st, victims, View());
    }

    /**
      Victim selection and removal. `sorted` is the array of stored files as qsort left it. Nothing changes unless
      enough is freed.
    */
    method RunReplacement(skip: Path, need: int, sorted: seq<FileStored>, ghost st: Store, ghost order: seq<Path>)
      returns (ok: bool, freed: seq<ReplacedFile>, ghost victims: seq<Path>, ghost detached: set<object>)
      requires Valid() && fileCount < TWO64 && AllStored(Files(), sorted)
      requires st == View() && order == Paths(sorted) && NoDup(order) && forall q :: q in order ==> q in st.files
      requires var chosen := Select(st.files, order, skip, need);
               need <= Total(st.files, chosen) ==> forall v :: v in chosen ==> CanFree(st.files[v])
      modifies Repr()
      ensures Valid() && Repr() <= old(Repr())
      ensures victims == Select(st.files, order, skip, need)
      ensures ok <==> need <= Total(st.files, victims)
      ensures View() == if ok then Evict(st, victims) else st
      ensures Files() == if ok then old(Files()) - Elements(victims) else old(Files())
      ensures ok ==> Entries(freed, st.files, old(Files()), victims)
      ensures ok ==> detached !! Repr() && detached <= old(Repr()) && Gone(old(Files()), st.files, victims, detached)
    {
      hide TableIn, NamesIn, Indexed, Owned, Models, FileStored.Model, FileStored.Valid, LinkedList.Items, Valid,
        View, Names, Select, Total, Paths, Evict, Elements, Gone, AllStored;
      var memFreed;
      detached := {};
      memFreed, freed, victims := Simulate(skip, need, sorted, st.files, order);
      ok := need <= memFreed;
      if ok {
        SelectHasNoDup(st.files, order, skip, need);
        detached := RemoveAll(freed, victims);
      }
    }
  }

  /** The array holds file objects of the store. */
  ghost predicate AllStored(files: map<Path, FileStored>, sorted: seq<FileStored>) {
    forall f :: f in sorted ==> f.path in files && files[f.path] == f
  }

  ghost function Paths(files: seq<FileStored>): (r: seq<Path>)
    ensures |r| == |files|
    ensures forall i :: 0 <= i < |files| ==> r[i] == files[i].path
  {
    seq(|files|, i requires 0 <= i < |files| => files[i].path)
  }

  /** What the list of replaced files takes over from each victim; the queues are those of the objects themselves. */
  ghost predicate Entries(freed: seq<ReplacedFile>, files: FileMap, objects: map<Path, FileStored>,
        victims: seq<Path>) {
    && |freed| == |victims|
    && forall k :: 0 <= k < |freed| ==>
         && victims[k] in files && victims[k] in objects && freed[k].path == victims[k]
         && var f := files[victims[k]];
            freed[k] == ReplacedFile(f.path, f.data, f.size, objects[victims[k]].lockQueue)
  }

  /** The queues of the victims are what they were, apart from each other. */
  ghost predicate Gone(objects: map<Path, FileStored>, files: FileMap, victims: seq<Path>, detached: set<object>)
    reads detached
  {
    && (forall v :: v in victims ==>
          && v in objects && v in files && objects[v] in detached && objects[v].Repr <= detached
          && objects[v].Valid() && objects[v].Model().waiters == files[v].waiters)
    && (forall v, w :: v in victims && w in victims && v != w ==> objects[v].Repr !! objects[w].Repr)
  }

  lemma NobodyGone(objects: map<Path, FileStored>, files: FileMap)
    ensures Gone(objects, files, [], {})
  {
  }

  lemma GoneSnoc(objects: map<Path, FileStored>, files: FileMap, victims: seq<Path>, detached: set<object>, p: Path)
    requires Gone(objects, files, victims, detached) && p in objects && p in files
    requires objects[p].Valid() && objects[p].Model().waiters == files[p].waiters && objects[p].Repr !! detached
    ensures Gone(objects, files, victims + [p], detached + objects[p].Repr)
  {
    hide FileStored.Model;
    assert objects[p] in objects[p].Repr;
    hide FileStored.Valid;
  }

  lemma MinusElements<V>(m: map<Path, V>, xs: seq<Path>, x: Path)
    ensures m - Elements(xs) - {x} == m - Elements(xs + [x])
  {
    assert Elements(xs + [x]) == Elements(xs) + {x};
    MinusTwice(m, Elements(xs), {x});
  }

  /** The store on the way: the first k victims are out, and evicting the rest leads where it has to. */
  ghost predicate Evicted(st: Store, victims: seq<Path>, k: nat, now: Store)
    requires k <= |victims|
  {
    Evict(now, victims[k..]) == Evict(st, victims) && now.files == st.files - Elements(victims[..k])
  }

  lemma EvictionStarts(st: Store, victims: seq<Path>)
    ensures Evicted(st, victims, 0, st) && Elements(victims[..0]) == {}
  {
    assert victims[0..] == victims;
  }

  lemma EvictionGoesOn(st: Store, victims: seq<Path>, k: nat, now: Store)
    requires k < |victims| && NoDup(victims) && (forall v :: v in victims ==> v in st.files)
    requires Evicted(st, victims, k, now)
    ensures var p := victims[k];
            && p in now.files && now.files[p] == st.files[p] && victims[..k + 1] == victims[..k] + [p]
            && Evicted(st, victims, k + 1, Stores.RemoveFile(now, p))
  {
    assert victims[k..][0] == victims[k] && victims[k..][1..] == victims[k + 1..];
    assert victims[..k + 1] == victims[..k] + [victims[k]];
    MinusElements(st.files, victims[..k], victims[k]);
  }

  lemma EvictionEnds(st: Store, victims: seq<Path>, now: Store)
    requires Evicted(st, victims, |victims|, now)
    ensures now == Evict(st, victims)
  {
  }

  lemma NothingFreed(files: FileMap, objects: map<Path, FileStored>)
    ensures Entries([], files, objects, []) && Total(files, []) == 0
  {
  }

  lemma EntriesSnoc(freed: seq<ReplacedFile>, files: FileMap, objects: map<Path, FileStored>, victims: seq<Path>,
        entry: ReplacedFile)
    requires Entries(freed, files, objects, victims) && entry.path in files && entry.path in objects
    requires var f := files[entry.path];
             entry == ReplacedFile(f.path, f.data, f.size, objects[entry.path].lockQueue)
    ensures Entries(freed + [entry], files, objects, victims + [entry.path])
  {
  }

  /** The victims so far and those still to be chosen make up the selection. */
  ghost predicate Simulated(files: FileMap, order: seq<Path>, i: nat, skip: Path, need: int, victims: seq<Path>)
    requires i <= |order| && (forall p :: p in order ==> p in files) && forall v :: v in victims ==> v in files
  {
    victims + Select(files, order[i..], skip, need - Total(files, victims)) == Select(files, order, skip, need)
  }

  lemma SimulationStarts(files: FileMap, order: seq<Path>, skip: Path, need: int)
    requires forall p :: p in order ==> p in files
    ensures Simulated(files, order, 0, skip, need, [])
  {
  }

  lemma SimulationGoesOn(files: FileMap, order: seq<Path>, i: nat, skip: Path, need: int, victims: seq<Path>)
    requires i < |order| && (forall p :: p in order ==> p in files) && forall v :: v in victims ==> v in files
    requires Simulated(files, order, i, skip, need, victims) && Total(files, victims) < need
    ensures Simulated(files, order, i + 1, skip, need, if order[i] == skip then victims else victims + [order[i]])
  {
    var p, rest := order[i], order[i + 1..];
    var less := need - Total(files, victims);
    assert order[i..][0] == p && order[i..][1..] == rest;
    TotalSnoc(files, victims, p);
    if p != skip {
      Regroup(victims, p, Select(files, rest, skip, less - files[p].size));
    }
  }

  lemma SimulationEnds(files: FileMap, order: seq<Path>, i: nat, skip: Path, need: int, victims: seq<Path>)
    requires i <= |order| && (forall p :: p in order ==> p in files) && forall v :: v in victims ==> v in files
    requires Simulated(files, order, i, skip, need, victims) && (need <= Total(files, victims) || i == |order|)
    ensures victims == Select(files, order, skip, need)
  {
  }

  lemma Regroup<T>(xs: seq<T>, x: T, ys: seq<T>)
    ensures xs + ([x] + ys) == (xs + [x]) + ys
  {
  }

  lemma {:induction false} TotalSnoc(files: FileMap, paths: seq<Path>, p: Path)
    requires p in files && forall q :: q in paths ==> q in files
    ensures Total(files, paths + [p]) == Total(files, paths) + files[p].size
  {
    if paths != [] {
      assert (paths + [p])[1..] == paths[1..] + [p];
      TotalSnoc(files, paths[1..], p);
    }
  }

  /** The i-th node, or null past the last one. */
  ghost function NodeAt<T>(nodes: seq<Node<T>>, i: nat): Node?<T> {
    if i < |nodes| then nodes[i] else null
  }

  lemma NodesOf(names: LinkedList<Path>, objects: set<object>)
    requires NamesIn(names, objects)
    ensures names.count == |names.nodes| && names.head == NodeAt(names.nodes, 0)
  {
  }

  lemma NextNode(names: LinkedList<Path>, objects: set<object>, i: nat)
    requires NamesIn(names, objects) && i < |names.nodes|
    ensures names.nodes[i].next == NodeAt(names.nodes, i + 1) && names.nodes[i].value == names.Items()[i]
  {
  }

  lemma PrefixGrows<T>(xs: seq<T>, i: nat)
    requires NoDup(xs) && i < |xs|
    ensures xs[..i + 1] == xs[..i] + [xs[i]] && xs[i] !in xs[..i]
  {
  }

  lemma PrefixIsAll<T>(xs: seq<T>, i: nat)
    requires i == |xs|
    ensures xs[..i] == xs
  {
  }

  lemma {:induction false} ForgetNotesSnoc(cfg: Config, files: FileMap, names: seq<Path>, p: Path, c: int)
    requires p in files && forall q :: q in names ==> q in files
    ensures var heir := Heir(cfg.moveTail, files[p], c);
            ForgetNotes(cfg, files, names + [p], c)
            == ForgetNotes(cfg, files, names, c) + if heir == NOBODY then [] else [Note(heir, Ok)]
  {
    if names != [] {
      assert (names + [p])[1..] == names[1..] + [p];
      ForgetNotesSnoc(cfg, files, names[1..], p, c);
    }
  }

  /** The files after the client has been forgotten in some of them. */
  ghost function Partly(files: FileMap, done: seq<Path>, client: int): FileMap {
    map p | p in files :: if p in done then ForgetClient(false, files[p], client) else files[p]
  }

  lemma NothingForgotten(cfg: Config, files: FileMap, names: seq<Path>, client: int)
    requires forall p :: p in names ==> p in files
    ensures Partly(files, names[..0], client) == files && ForgetNotes(cfg, files, names[..0], client) == []
  {
  }

  lemma PartlyAll(cfg: Config, st: Store, client: int)
    requires Coherent(st) && !cfg.moveTail && forall p :: p in st.files ==> p in st.names
    ensures HandleDisconnect(cfg, st, client)
            == Done(st.(files := Partly(st.files, st.names, client)), ForgetNotes(cfg, st.files, st.names, client))
  {
  }

  lemma PartlyStep(files: FileMap, done: seq<Path>, p: Path, client: int)
    requires p in files && p !in done
    ensures Partly(files, done, client)[p := ForgetClient(false, files[p], client)] == Partly(files, done + [p], client)
    ensures Partly(files, done, client)[p] == files[p]
  {
  }
}
