/** server/src/file_stored.c: a stored file as a value, and what each of its functions makes of it. */
module Files {
  import opened Seqs
  import opened Chains
  import opened Machine

  /** A client is a descriptor; no client is -1. */
  const NOBODY := -1

  datatype Time = Time(sec: int, nsec: int)

  /**
    `data` is the buffer and `size` the length on record; the content a reader gets is the first `size`
    bytes.
  */
  datatype FileRecord = FileRecord(
    path: Path, data: seq<Byte>, size: nat,
    owner: int, openers: Chain<int>, waiters: Chain<int>, writable: bool,
    created: Time, lastUse: Time, frequency: int)

  type File = f: FileRecord | f.size <= |f.data|
    witness FileRecord([], [], 0, NOBODY, EmptyChain(), EmptyChain(), false, Time(0, 0), Time(0, 0), 0)

  function Content(f: File): seq<Byte> {
    f.data[..f.size]
  }

  function NewFile(path: Path, now: Time): File {
    FileRecord(path, [], 0, NOBODY, EmptyChain(), EmptyChain(), false, now, now, 1)
  }

  function ReplaceContent(f: File, content: seq<Byte>): File {
    f.(data := content, size := |content|)
  }

  /** The buffer grows from the length on record, but the new length on record is that of the addition. */
  function AppendContent(recordTotal: bool, f: File, content: seq<Byte>): File {
    f.(data := f.data[..f.size] + content, size := if recordTotal then f.size + |content| else |content|)
  }

  /** Appending a non-empty piece gives old content followed by the piece exactly on an empty file. */
  lemma AppendMeetsItsNameExactlyOnEmptyFiles(f: File, content: seq<Byte>)
    requires content != []
    ensures Content(AppendContent(false, f, content)) == Content(f) + content <==> f.size == 0
    ensures Content(AppendContent(true, f, content)) == Content(f) + content
  {
  }

  function AddOpener(f: File, c: int): File {
    f.(openers := PushHead(f.openers, c))
  }

  function CloseClient(moveTail: bool, f: File, c: int): File {
    f.(openers := Drop(moveTail, f.openers, c))
  }

  function EnqueueLock(f: File, c: int): File
    requires f.waiters.attached
  {
    f.(waiters := PushTail(f.waiters, c))
  }

  /** The lock goes to the head of the queue, or to nobody. */
  function ReleaseLock(f: File): File {
    if f.waiters.items == [] then f.(owner := NOBODY)
    else f.(owner := f.waiters.items[0], waiters := PopHead(f.waiters))
  }

  function LeaveQueue(moveTail: bool, f: File, c: int): File {
    f.(waiters := Drop(moveTail, f.waiters, c))
  }

  /** What a disconnection does to a file. */
  function ForgetClient(moveTail: bool, f: File, c: int): File {
    var g := LeaveQueue(moveTail, CloseClient(moveTail, f, c), c);
    if g.owner == c then ReleaseLock(g) else g
  }

  /** The client that gets the lock when c disconnects: the owner may change only if it was c. */
  function Heir(moveTail: bool, f: File, c: int): int {
    if f.owner == c then ForgetClient(moveTail, f, c).owner else NOBODY
  }

  function Touch(f: File, now: Time): File {
    f.(frequency := ToUint32(f.frequency + 1), lastUse := now)
  }

  /** The joint lock invariant. No part of it is kept by all operations on its own. */
  ghost predicate LockInv(f: File) {
    && NoDup(f.waiters.items)
    && NoDup(f.openers.items)
    && (f.waiters.items != [] ==> f.owner != NOBODY)
    && f.owner !in f.waiters.items
    && (f.owner != NOBODY ==> f.owner in f.openers.items)
    && (forall c :: c in f.waiters.items ==> c in f.openers.items)
    && NOBODY !in f.openers.items
  }

  /** A file open for its first write is empty. */
  ghost predicate WriteInv(f: File) {
    f.writable ==> f.size == 0
  }

  lemma AddOpenerKeepsLockInv(f: File, c: int)
    requires LockInv(f) && c != NOBODY && c !in f.openers.items
    ensures LockInv(AddOpener(f, c))
  {
  }

  lemma EnqueueKeepsLockInv(f: File, c: int)
    requires LockInv(f) && f.waiters.attached
    requires f.owner != NOBODY && f.owner != c && c in f.openers.items && c !in f.waiters.items
    ensures LockInv(EnqueueLock(f, c))
  {
  }

  lemma ReleaseKeepsLockInv(f: File)
    requires LockInv(f)
    ensures LockInv(ReleaseLock(f))
    ensures ReleaseLock(f).owner != f.owner || f.owner == NOBODY
    ensures f.owner !in ReleaseLock(f).waiters.items
  {
  }

  /** Closing needs c to hold no claim on the lock any more. */
  lemma CloseKeepsLockInv(moveTail: bool, f: File, c: int)
    requires LockInv(f) && f.owner != c && c !in f.waiters.items
    ensures LockInv(CloseClient(moveTail, f, c))
    ensures c !in CloseClient(moveTail, f, c).openers.items
    ensures forall d :: d != c ==> (d in CloseClient(moveTail, f, c).openers.items <==> d in f.openers.items)
  {
    DropItems(moveTail, f.openers, c);
    WithoutMembers(f.openers.items, c);
  }

  /** After a disconnection the client has left no trace, and the invariant holds again. */
  lemma ForgetKeepsLockInv(moveTail: bool, f: File, c: int)
    requires LockInv(f) && c != NOBODY
    ensures var g := ForgetClient(moveTail, f, c);
            && LockInv(g)
            && c !in g.openers.items && c !in g.waiters.items && g.owner != c
            && (forall d :: d != c ==> (d in g.openers.items <==> d in f.openers.items))
            && (forall d :: d != c && d in f.waiters.items ==> d in g.waiters.items || d == g.owner)
            && (forall d :: d in g.waiters.items ==> d in f.waiters.items)
            && (g.owner != f.owner ==> f.owner == c && (g.owner == NOBODY || g.owner in f.waiters.items))
  {
    DropItems(moveTail, f.openers, c);
    WithoutMembers(f.openers.items, c);
    DropItems(moveTail, f.waiters, c);
    WithoutMembers(f.waiters.items, c);
    hide Without, Drop;
    var q := LeaveQueue(moveTail, CloseClient(moveTail, f, c), c).waiters.items;
    if q != [] {
      HeadOrTail(q);
    }
  }

  lemma HeadOrTail(q: seq<int>)
    requires q != [] && NoDup(q)
    ensures NoDup(q[1..]) && q[0] in q && q[0] !in q[1..]
    ensures forall d :: d in q <==> d == q[0] || d in q[1..]
  {
  }
}
