/**
  server/src/file_stored.c as an object whose methods update it in place, with its two linked lists on the
  heap; each method is proved against the function of module Files that it stands for.
*/
module FileStoredObject {
  import opened Seqs
  import opened Chains
  import opened Machine
  import opened Files
  import opened LinkedLists

  class FileStored {
    const path: Path
    const creationTime: Time
    var data: seq<Byte>
    var size: nat
    var lockedBy: int
    const openedBy: LinkedList<int>
    const lockQueue: LinkedList<int>
    var lastUseTime: Time
    var writeEnabled: bool
    var useFrequency: int

    /** The object, its two lists and all nodes they ever had. */
    ghost var Repr: set<object>

    ghost predicate Valid()
      reads this, Repr
    {
      && this in Repr && openedBy in Repr && lockQueue in Repr
      && (forall i :: 0 <= i < |openedBy.nodes| ==> openedBy.nodes[i] in Repr)
      && (forall i :: 0 <= i < |lockQueue.nodes| ==> lockQueue.nodes[i] in Repr)
      && size <= |data|
      && openedBy != lockQueue && Apart(openedBy.nodes, lockQueue.nodes)
      && openedBy.Valid() && lockQueue.Valid()
    }

    ghost function Model(): (f: File)
      requires Valid()
      reads this, Repr
      ensures f.path == path && f.data == data && f.size == size && f.owner == lockedBy && f.writable == writeEnabled
    {
      FileRecord(path, data, size, lockedBy, openedBy.View(), lockQueue.View(), writeEnabled, creationTime,
                 lastUseTime, useFrequency)
    }

    lemma HoldsItself()
      requires Valid()
      ensures this in Repr && openedBy in Repr && lockQueue in Repr
    {
    }

    lemma ListsAreSound()
      requires Valid()
      ensures openedBy.Valid() && openedBy.View() == Model().openers
      ensures lockQueue.Valid() && lockQueue.View() == Model().waiters && lockQueue.Items() == Model().waiters.items
    {
    }

    constructor (path: Path, now: Time)
      ensures Valid() && Model() == NewFile(path, now)
      ensures fresh(Repr) && this.path == path
    {
      this.path, creationTime, lastUseTime := path, now, now;
      data, size, lockedBy := [], 0, NOBODY;
      openedBy := new LinkedList();
      lockQueue := new LinkedList();
      writeEnabled, useFrequency := false, 1;
      Repr := {this, openedBy, lockQueue};
    }

    /** The old size comes back as an int. */
    method ReplaceContent(content: seq<Byte>) returns (previous: int)
      requires Valid()
      modifies this
      ensures Repr == old(Repr)
      ensures Valid() && Model() == Files.ReplaceContent(old(Model()), content)
      ensures previous == ToInt32(old(size))
    {
      data := content;
      previous := ToInt32(size);
      size := |content|;
    }

    /** The buffer is cut to the length on record before it is extended; the total comes back as an int. */
    method AppendContent(content: seq<Byte>) returns (total: int)
      requires Valid()
      modifies this
      ensures Repr == old(Repr)
      ensures Valid() && Model() == Files.AppendContent(false, old(Model()), content)
      ensures total == ToInt32(ToSize(old(size) + |content|))
    {
      data := data[..size] + content;
      total := ToInt32(ToSize(size + |content|));
      size := |content|;
    }

    method AddClient(client: int)
      requires Valid()
      modifies Repr
      ensures Valid() && Model() == AddOpener(old(Model()), client)
      ensures fresh(Repr - old(Repr))
    {
      openedBy.AddHead(client);
      Repr := Repr + {openedBy.nodes[0]};
      assert forall i :: 0 < i < |openedBy.nodes| ==> openedBy.nodes[i] == old(openedBy.nodes)[i - 1];
    }

    /** The first node of a list that holds the client, and its place. */
    static method FindNode(list: LinkedList<int>, client: int) returns (node: Node?<int>, ghost k: nat)
      requires list.Valid()
      ensures node == null <==> client !in list.Items()
      ensures node != null ==> k < |list.nodes| && node == list.nodes[k] && k == IndexOf(list.Items(), client)
    {
      node, k := list.head, 0;
      while node != null && node.value != client
        invariant 0 <= k <= |list.nodes|
        invariant node == if k < |list.nodes| then list.nodes[k] else null
        invariant forall j :: 0 <= j < k ==> list.Items()[j] != client
        decreases |list.nodes| - k
      {
        assert list.Items()[k] == node.value;
        node := node.next;
        k := k + 1;
      }
      assert node != null ==> list.Items()[k] == client;
    }

    method IsOpenedBy(client: int) returns (found: bool)
      requires Valid()
      ensures Valid() && Model() == old(Model())
      ensures found <==> client in Model().openers.items
    {
      var node, _ := FindNode(openedBy, client);
      found := node != null;
    }

    /** Unlinks the first node that holds the client, if there is one, with the tail left where it was. */
    static method RemoveClient(list: LinkedList<int>, client: int) returns (removed: bool)
      requires list.Valid()
      modifies list, list.nodes
      ensures list.Valid() && list.View() == Drop(false, old(list.View()), client)
      ensures forall n :: n in list.nodes ==> n in old(list.nodes)
      ensures removed == (client in old(list.Items()))
    {
      var node, k := FindNode(list, client);
      removed := node != null;
      if removed {
        RemoveFound(list, node, k);
      }
    }

    /** Unlinks the k-th node, which the caller has just found. */
    static method RemoveFound(list: LinkedList<int>, node: Node<int>, ghost k: nat)
      requires list.Valid() && k < |list.nodes| && node == list.nodes[k]
      modifies list, list.nodes
      ensures list.Valid() && list.View() == Unlink(false, old(list.View()), k)
      ensures forall n :: n in list.nodes ==> n in old(list.nodes)
    {
      IndexIsUnique(list.nodes, k);
      RemoveAtMembers(list.nodes, k);
      var found := list.RemoveNode(node);
    }

    method CloseClient(client: int) returns (removed: bool)
      requires Valid()
      modifies Repr
      ensures Valid() && Model() == Files.CloseClient(false, old(Model()), client)
      ensures fresh(Repr - old(Repr))
      ensures removed == (client in old(Model()).openers.items)
    {
      removed := RemoveClient(openedBy, client);
      hide Drop;
      FewerNodes(old(openedBy.nodes), openedBy.nodes, lockQueue.nodes, Repr);
      assert lockQueue.Valid() && lockQueue.View() == old(lockQueue.View());
    }

    method LeaveQueue(client: int)
      requires Valid()
      modifies Repr
      ensures Valid() && Model() == Files.LeaveQueue(false, old(Model()), client)
      ensures fresh(Repr - old(Repr))
    {
      var _ := RemoveClient(lockQueue, client);
      hide Drop;
      FewerNodes(old(lockQueue.nodes), lockQueue.nodes, openedBy.nodes, Repr);
      assert openedBy.Valid() && openedBy.View() == old(openedBy.View());
    }

    /** Appends through the tail of the queue, which must therefore not be stale. */
    method EnqueueLock(client: int)
      requires Valid() && Model().waiters.attached
      modifies Repr
      ensures Valid() && Model() == Files.EnqueueLock(old(Model()), client)
      ensures fresh(Repr - old(Repr))
    {
      assert lockQueue.nodes != [] ==> lockQueue.tail in lockQueue.nodes;
      lockQueue.AddTail(client);
      Repr := Repr + {lockQueue.nodes[|lockQueue.nodes| - 1]};
      assert openedBy.Valid() && openedBy.View() == old(openedBy.View());
      assert forall i :: 0 <= i < |lockQueue.nodes| - 1 ==> lockQueue.nodes[i] == old(lockQueue.nodes)[i];
    }

    method DequeueLock() returns (client: int)
      requires Valid()
      modifies Repr
      ensures Valid()
      ensures Model().(owner := client) == ReleaseLock(old(Model())) && lockedBy == old(lockedBy)
      ensures fresh(Repr - old(Repr))
    {
      var value := lockQueue.RemoveFirst();
      client := if value == [] then NOBODY else value[0];
    }

    /** The head of the queue, or nobody, becomes the owner. */
    method HandOn() returns (newOwner: int)
      requires Valid()
      modifies Repr
      ensures Valid() && Model() == ReleaseLock(old(Model())) && newOwner == lockedBy
      ensures fresh(Repr - old(Repr))
    {
      newOwner := DequeueLock();
      SetLockOwner(newOwner);
    }

    /** The new owner if the client held the lock, nobody otherwise. */
    method DeleteLockClient(client: int) returns (newOwner: int)
      requires Valid() && client != NOBODY
      modifies Repr
      ensures Valid()
      ensures var g := Files.LeaveQueue(false, old(Model()), client);
              && Model() == (if g.owner == client then ReleaseLock(g) else g)
              && newOwner == (if old(lockedBy) == client then lockedBy else NOBODY)
      ensures fresh(Repr - old(Repr))
    {
      LeaveQueue(client);
      newOwner := NOBODY;
      if lockedBy == client {
        newOwner := HandOn();
      }
    }

    method NotifyUsed(now: Time)
      requires Valid()
      modifies this
      ensures Repr == old(Repr)
      ensures Valid() && Model() == Touch(old(Model()), now)
    {
      useFrequency := ToUint32(useFrequency + 1);
      lastUseTime := now;
    }

    method SetLockOwner(client: int)
      requires Valid()
      modifies this
      ensures Repr == old(Repr)
      ensures Valid() && Model() == old(Model()).(owner := client)
    {
      lockedBy := client;
    }

    method SetWriteEnabled(enabled: bool)
      requires Valid()
      modifies this
      ensures Repr == old(Repr)
      ensures Valid() && Model() == old(Model()).(writable := enabled)
    {
      writeEnabled := enabled;
    }

    /** Frees the openers and, unless the file is only replaced, the waiters, last to first. */
    method Free(keepQueue: bool)
      requires Valid() && Model().openers.attached && (keepQueue || Model().waiters.attached)
      modifies openedBy, lockQueue
      ensures Valid() && Model() == old(Model()).(openers := EmptyChain(),
                                                  waiters := if keepQueue then old(Model()).waiters else EmptyChain())
      ensures Repr == old(Repr)
    {
      var _ := openedBy.Empty();
      if !keepQueue {
        var _ := lockQueue.Empty();
      }
    }
  }
}
