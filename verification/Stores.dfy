/** server/src/file_system.c: the bounded store, as a value. */
module Stores {
  import opened Seqs
  import opened Machine
  import opened Files
  import opened Policies

  /**
    Limits and policy of a server. `moveTail` and `recordTotal` stand for two corrections: a list that
    moves its tail when the last node is unlinked, an append that records the total length. The server
    as it is has both false.
  */
  datatype Config = Config(maxMemory: nat, maxFiles: nat, policy: Policy, moveTail: bool, recordTotal: bool)

  ghost predicate ConfigOk(cfg: Config) {
    cfg.maxMemory < TWO31 && cfg.maxFiles < TWO31
  }

  /** `names` has the newest file first. The counters are size_t values. */
  datatype Store = Store(names: seq<Path>, files: FileMap, used: int, peak: int, count: int, peakCount: int)

  function EmptyStore(): Store {
    Store([], map[], 0, 0, 0, 0)
  }

  function Max(a: int, b: int): int {
    if a > b then a else b
  }

  /** Mixed int and size_t arithmetic, as it is written. */
  function SizeMissing(cfg: Config, st: Store, size: int): int {
    var remaining := ToInt32(ToSize(cfg.maxMemory - ToInt32(st.used)));
    ToInt32(ToSize(-ToSize(remaining - size)))
  }

  function IsTooBig(cfg: Config, size: int): bool {
    cfg.maxMemory <= size
  }

  function IsFull(cfg: Config, st: Store): bool {
    ToInt32(ToInt32(cfg.maxFiles) - ToInt32(st.count)) <= 0
  }

  /** The amount arrives as an int. */
  function NotifyMemory(st: Store, size: int): Store {
    var amount := ToInt32(size);
    if amount == 0 then st
    else var used := ToSize(st.used + amount); st.(used := used, peak := Max(st.peak, used))
  }

  function AddFile(st: Store, p: Path, f: File): Store {
    if p in st.files then st
    else
      var st' := NotifyMemory(st.(names := [p] + st.names, files := st.files[p := f]), f.size);
      var count := ToSize(st.count + 1);
      st'.(count := count, peakCount := Max(st.peakCount, count))
  }

  function RemoveFile(st: Store, p: Path): Store {
    if p !in st.files then st
    else st.(names := Without(st.names, p), files := st.files - {p},
             used := ToSize(st.used - st.files[p].size), count := ToSize(st.count - 1))
  }

  function Evict(st: Store, victims: seq<Path>): Store
    decreases |victims|
  {
    if victims == [] then st else Evict(RemoveFile(st, victims[0]), victims[1..])
  }

  function SetFile(st: Store, p: Path, f: File): Store {
    st.(files := st.files[p := f])
  }

  /** Freeing a file empties its lists from the last node, through the tail pointers. */
  function CanFree(f: File): bool {
    f.openers.attached && f.waiters.attached
  }

  datatype Room = Refused | Unsafe | Made(store: Store, victims: seq<Path>)

  /** The admission of `size` more bytes for p; `order` is the array as qsort left it. */
  function MakeRoom(cfg: Config, st: Store, p: Path, size: int, order: seq<Path>): Room
    requires forall q :: q in order ==> q in st.files
  {
    if IsTooBig(cfg, size) then Refused
    else
      var missing := SizeMissing(cfg, st, size);
      if missing <= 0 then Made(NotifyMemory(st, size), [])
      else
        var victims := Select(st.files, order, p, missing);
        if Total(st.files, victims) < missing then Refused
        else if exists v :: v in victims && !CanFree(st.files[v]) then Unsafe
        else Made(NotifyMemory(Evict(st, victims), size), victims)
  }

  // Invariants

  /** Hash keys, names list, path names and counter describe one finite map. */
  ghost predicate Shape(st: Store) {
    && NoDup(st.names)
    && (forall p :: p in st.names <==> p in st.files)
    && (forall p :: p in st.files ==> st.files[p].path == p)
    && st.count == |st.names|
  }

  function Stored(st: Store): nat
    requires forall p :: p in st.names ==> p in st.files
  {
    Total(st.files, st.names)
  }

  ghost predicate Accounts(cfg: Config, st: Store) {
    && Shape(st)
    && Stored(st) <= st.used <= st.peak <= cfg.maxMemory
    && st.count <= st.peakCount <= cfg.maxFiles
  }

  ghost predicate FilesOk(st: Store) {
    forall p :: p in st.files ==> LockInv(st.files[p]) && WriteInv(st.files[p])
  }

  ghost predicate StoreInv(cfg: Config, st: Store) {
    Accounts(cfg, st) && FilesOk(st)
  }

  /** Bytes the counter holds beyond the sizes on record. */
  function Drift(st: Store): int
    requires forall p :: p in st.names ==> p in st.files
  {
    st.used - Stored(st)
  }

  lemma CountIsTheNumberOfFiles(st: Store)
    requires Shape(st)
    ensures st.count == |st.files|
  {
    NoDupLength(st.names, st.files.Keys);
  }

  // Machine arithmetic

  /** Whatever the operands, the result is used + size - max, cut down to int. */
  lemma SizeMissingWraps(cfg: Config, st: Store, size: int)
    ensures SizeMissing(cfg, st, size) == ToInt32(st.used + size - cfg.maxMemory)
  {
    var a := ToInt32(st.used);
    var b := ToInt32(ToSize(cfg.maxMemory - a));
    var c := ToSize(b - size);
    assert SizeMissing(cfg, st, size) == ToInt32(ToSize(-c));
    LowBitsOfSize(cfg.maxMemory - a);
    LowBitsOfSize(b - size);
    LowBitsOfSize(-c);
    var ka := (a - st.used) / TWO32;
    var kb := (b - (cfg.maxMemory - a)) / TWO32;
    var kc := (c - (b - size)) / TWO32;
    DividesExactly(a, st.used);
    DividesExactly(b, cfg.maxMemory - a);
    DividesExactly(c, b - size);
    SameLowBits(-c, st.used + size - cfg.maxMemory, ka - kb - kc);
  }

  lemma DividesExactly(a: int, b: int)
    requires a % TWO32 == b % TWO32
    ensures a == b + (a - b) / TWO32 * TWO32
  {
  }

  /** So it is exact if and only if that value fits in an int. */
  lemma SizeMissingIsExactExactlyInRange(cfg: Config, st: Store, size: int)
    ensures SizeMissing(cfg, st, size) == st.used + size - cfg.maxMemory
            <==> -TWO31 <= st.used + size - cfg.maxMemory < TWO31
  {
    SizeMissingWraps(cfg, st, size);
    ToInt32Exact(st.used + size - cfg.maxMemory);
  }

  /** In every state of a server whose limits fit in an int, the arithmetic is exact. */
  lemma ArithmeticIsExact(cfg: Config, st: Store, size: nat)
    requires ConfigOk(cfg) && Accounts(cfg, st) && size < cfg.maxMemory
    ensures SizeMissing(cfg, st, size) == st.used + size - cfg.maxMemory
    ensures NotifyMemory(st, size).used == st.used + size
    ensures IsFull(cfg, st) <==> st.count >= cfg.maxFiles
  {
    hide ToInt32, ToSize, SizeMissing;
    ToSizeExact(st.used + size);
    SizeMissingIsExactExactlyInRange(cfg, st, size);
    ToInt32Exact(size);
    ToInt32Exact(cfg.maxFiles);
    ToInt32Exact(st.count);
    ToInt32Exact(cfg.maxFiles - st.count);
  }

  lemma RemovalDoesNotUnderflow(cfg: Config, st: Store, p: Path)
    requires ConfigOk(cfg) && Accounts(cfg, st) && p in st.files
    ensures RemoveFile(st, p).used == st.used - st.files[p].size >= 0
    ensures RemoveFile(st, p).count == st.count - 1 >= 0
  {
    SizeAtMostTotal(st.files, p, st.names);
    hide ToSize, Without;
    ToSizeExact(st.used - st.files[p].size);
    ToSizeExact(st.count - 1);
  }

  // Effects on the accounts

  lemma SetFileKeepsAccounts(cfg: Config, st: Store, p: Path, f: File)
    requires Accounts(cfg, st) && p in st.files && f.path == p
    requires Stored(st) - st.files[p].size + f.size <= st.used
    ensures Accounts(cfg, SetFile(st, p, f))
    ensures Drift(SetFile(st, p, f)) == Drift(st) + st.files[p].size - f.size
  {
    TotalUpdate(st.files, p, f, st.names);
  }

  lemma AddFileKeepsAccounts(cfg: Config, st: Store, p: Path, f: File)
    requires Accounts(cfg, st) && p !in st.files && f.path == p && f.size == 0
    requires ConfigOk(cfg) && st.count < cfg.maxFiles
    ensures Accounts(cfg, AddFile(st, p, f))
    ensures AddFile(st, p, f).names == [p] + st.names && AddFile(st, p, f).files == st.files[p := f]
    ensures Drift(AddFile(st, p, f)) == Drift(st)
  {
    ToInt32Exact(0);
    var st' := AddFile(st, p, f);
    assert st'.files == st.files[p := f] && st'.names == [p] + st.names && st'.used == st.used && st'.peak == st.peak;
    assert st'.count == st.count + 1 && st'.peakCount == Max(st.peakCount, st.count + 1);
    hide NotifyMemory, AddFile;
    assert st'.names[1..] == st.names;
    TotalFrame(st.files, st'.files, st.names);
  }

  lemma RemoveFileKeepsShape(cfg: Config, st: Store, p: Path)
    requires Accounts(cfg, st) && p in st.files && ConfigOk(cfg)
    ensures Shape(RemoveFile(st, p))
    ensures RemoveFile(st, p).count == st.count - 1
    ensures RemoveFile(st, p).used == st.used - st.files[p].size
  {
    RemovalDoesNotUnderflow(cfg, st, p);
    WithoutMembers(st.names, p);
    assert |Without(st.names, p)| == |st.names| - 1;
    hide ToSize, Without, Total;
  }

  lemma RemoveFileTakesItsSize(st: Store, p: Path)
    requires Shape(st) && Shape(RemoveFile(st, p)) && p in st.files
    ensures Stored(RemoveFile(st, p)) == Stored(st) - st.files[p].size
  {
    TotalWithout(st.files, p, st.names);
    hide Without, Total;
    TotalFrame(st.files, st.files - {p}, Without(st.names, p));
  }

  lemma RemoveFileKeepsAccounts(cfg: Config, st: Store, p: Path)
    requires Accounts(cfg, st) && p in st.files && ConfigOk(cfg)
    ensures Accounts(cfg, RemoveFile(st, p))
    ensures RemoveFile(st, p).count == st.count - 1
    ensures RemoveFile(st, p).used == st.used - st.files[p].size
    ensures Drift(RemoveFile(st, p)) == Drift(st)
  {
    RemoveFileKeepsShape(cfg, st, p);
    RemoveFileTakesItsSize(st, p);
    assert RemoveFile(st, p).peak == st.peak && RemoveFile(st, p).peakCount == st.peakCount;
    hide Shape, Stored, RemoveFile;
  }

  /** Evicting removes exactly the victims and gives back exactly their sizes. */
  lemma {:induction false} EvictRemovesExactly(cfg: Config, st: Store, victims: seq<Path>)
    requires Accounts(cfg, st) && ConfigOk(cfg)
    requires NoDup(victims) && forall v :: v in victims ==> v in st.files
    ensures var st' := Evict(st, victims);
            && Accounts(cfg, st')
            && st'.files == st.files - Elements(victims)
            && st'.count == st.count - |victims|
            && st'.used == st.used - Total(st.files, victims)
            && st'.peak == st.peak && st'.peakCount == st.peakCount
            && Drift(st') == Drift(st)
    decreases |victims|
  {
    if victims != [] {
      var v, rest := victims[0], victims[1..];
      var st1 := RemoveFile(st, v);
      RemoveFileKeepsAccounts(cfg, st, v);
      assert v !in rest;
      TotalFrame(st.files, st1.files, rest);
      EvictRemovesExactly(cfg, st1, rest);
      ElementsCons(victims);
      MinusTwice(st.files, {v}, Elements(rest));
    }
  }

  /** The outcomes of MakeRoom where the arithmetic is exact. */
  lemma RoomCases(cfg: Config, st: Store, p: Path, size: nat, order: seq<Path>)
    requires ConfigOk(cfg) && Accounts(cfg, st) && forall q :: q in order ==> q in st.files
    ensures var missing := st.used + size - cfg.maxMemory;
            var victims := Select(st.files, order, p, missing);
            MakeRoom(cfg, st, p, size, order)
            == if cfg.maxMemory <= size then Refused
               else if missing <= 0 then Made(NotifyMemory(st, size), [])
               else if Total(st.files, victims) < missing then Refused
               else if exists v :: v in victims && !CanFree(st.files[v]) then Unsafe
               else Made(NotifyMemory(Evict(st, victims), size), victims)
  {
    hide SizeMissing, NotifyMemory, Evict, Select, Total, ToInt32, ToSize, Accounts, CanFree;
    if size < cfg.maxMemory {
      ArithmeticIsExact(cfg, st, size);
    }
  }

  /** Room is refused exactly if the limit itself or the other files together are too small. */
  lemma RoomIsRefusedExactly(cfg: Config, st: Store, p: Path, size: nat, order: seq<Path>)
    requires ConfigOk(cfg) && Accounts(cfg, st) && PolicyOrder(cfg.policy, st.files, order)
    ensures MakeRoom(cfg, st, p, size, order).Refused? <==>
              (size >= cfg.maxMemory || Total(st.files, Others(order, p)) < st.used + size - cfg.maxMemory)
  {
    hide MakeRoom, SizeMissing, NotifyMemory, Consistent, Sorted, Select, Others, Total, Evict, Accounts, CanFree;
    RoomCases(cfg, st, p, size, order);
    SelectIsTheShortestSufficientPrefix(st.files, order, p, st.used + size - cfg.maxMemory);
  }

  lemma RoomMadeConserves(cfg: Config, st: Store, p: Path, size: nat, order: seq<Path>)
    requires ConfigOk(cfg) && Accounts(cfg, st) && PolicyOrder(cfg.policy, st.files, order)
    requires MakeRoom(cfg, st, p, size, order).Made?
    ensures var room := MakeRoom(cfg, st, p, size, order);
            && Accounts(cfg, room.store)
            && NoDup(room.victims) && p !in room.victims
            && (forall v :: v in room.victims ==> v in st.files && CanFree(st.files[v]))
            && room.store.files == st.files - Elements(room.victims)
            && room.store.count == st.count - |room.victims|
            && room.store.used == st.used - Total(st.files, room.victims) + size
            && Drift(room.store) == Drift(st) + size
            && (room.victims != [] ==> st.used + size > cfg.maxMemory)
  {
    hide MakeRoom, SizeMissing, NotifyMemory, Consistent, Sorted, Select, Total, Evict, Drift, Shape, CanFree;
    RoomCases(cfg, st, p, size, order);
    var missing := st.used + size - cfg.maxMemory;
    if missing <= 0 {
      NotifyAddsExactly(cfg, st, size);
      NothingEvicted(st);
      assert st.files - Elements([]) == st.files;
    } else {
      var victims := Select(st.files, order, p, missing);
      SelectHasNoDup(st.files, order, p, missing);
      EvictRemovesExactly(cfg, st, victims);
      NotifyAddsExactly(cfg, Evict(st, victims), size);
    }
  }

  /**
    Room is made all or nothing, and refused exactly if the limit itself or the other files together are
    too small. The target survives; the new total is within the limit.
  */
  lemma MakeRoomConserves(cfg: Config, st: Store, p: Path, size: nat, order: seq<Path>)
    requires ConfigOk(cfg) && Accounts(cfg, st) && PolicyOrder(cfg.policy, st.files, order)
    ensures var room := MakeRoom(cfg, st, p, size, order);
            && (room.Refused? <==>
                  (size >= cfg.maxMemory || Total(st.files, Others(order, p)) < st.used + size - cfg.maxMemory))
            && (room.Made? ==>
                  && Accounts(cfg, room.store)
                  && NoDup(room.victims) && p !in room.victims
                  && (forall v :: v in room.victims ==> v in st.files && CanFree(st.files[v]))
                  && room.store.files == st.files - Elements(room.victims)
                  && room.store.count == st.count - |room.victims|
                  && room.store.used == st.used - Total(st.files, room.victims) + size
                  && Drift(room.store) == Drift(st) + size
                  && (room.victims != [] ==> st.used + size > cfg.maxMemory))
  {
    RoomIsRefusedExactly(cfg, st, p, size, order);
    hide MakeRoom, Total, Others, Elements, Drift, Shape, Consistent;
    if MakeRoom(cfg, st, p, size, order).Made? {
      RoomMadeConserves(cfg, st, p, size, order);
    }
  }

  lemma NothingEvicted(st: Store)
    ensures Total(st.files, []) == 0
  {
  }

  lemma MakeRoomEvicts(cfg: Config, st: Store, p: Path, size: nat, order: seq<Path>)
    requires forall q :: q in order ==> q in st.files
    ensures var room := MakeRoom(cfg, st, p, size, order);
            room.Made? ==> room.store == NotifyMemory(Evict(st, room.victims), size)
  {
  }

  lemma NotifyAddsExactly(cfg: Config, st: Store, size: nat)
    requires ConfigOk(cfg) && Accounts(cfg, st) && size < cfg.maxMemory && st.used + size <= cfg.maxMemory
    ensures var st' := NotifyMemory(st, size);
            && Accounts(cfg, st') && st'.used == st.used + size && Drift(st') == Drift(st) + size
            && st'.names == st.names && st'.files == st.files && st'.count == st.count
  {
    ToInt32Exact(size);
  }
}
