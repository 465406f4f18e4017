/**
  shared_lib/src/linked_list.c: a singly linked list with head, tail and count. The nodes reached from
  the head are named by a ghost sequence; every method is proved against a function on Chains.
  Freeing a node is not modelled: a removed node is simply no longer reached from the head.
*/
module LinkedLists {
  import opened Seqs
  import opened Chains

  class Node<T> {
    var value: T
    var next: Node?<T>

    constructor (value: T, next: Node?<T>)
      ensures this.value == value && this.next == next
    {
      this.value, this.next := value, next;
    }
  }

  class LinkedList<T(==)> {
    var count: nat
    var head: Node?<T>
    var tail: Node?<T>
    ghost var nodes: seq<Node<T>>

    /** The first `count` nodes from the head are `nodes`; what the last one's next holds is left open. */
    ghost predicate Linked()
      reads this, nodes
    {
      && count == |nodes|
      && NoDup(nodes)
      && (nodes == [] ==> head == null && tail == null)
      && (nodes != [] ==> head == nodes[0] && tail != null)
      && forall i :: 0 <= i < |nodes| - 1 ==> nodes[i].next == nodes[i + 1] && tail != nodes[i]
    }

    ghost predicate Ended()
      reads this, nodes
    {
      nodes != [] ==> nodes[|nodes| - 1].next == null
    }

    /** The tail is the count-th node from the head. */
    ghost predicate Attached()
      reads this, nodes
    {
      nodes != [] ==> tail == nodes[|nodes| - 1]
    }

    ghost predicate Valid()
      reads this, nodes
    {
      Linked() && Ended()
    }

    ghost function Items(): (s: seq<T>)
      reads this, nodes
      ensures |s| == |nodes|
    {
      seq(|nodes|, i requires 0 <= i < |nodes| reads this, nodes => nodes[i].value)
    }

    ghost function View(): Chain<T>
      reads this, nodes
    {
      Chain(Items(), Attached())
    }

    constructor ()
      ensures Valid() && View() == EmptyChain() && nodes == []
    {
      count, head, tail, nodes := 0, null, null, [];
    }

    /** Needs nothing of the last node's next pointer, and leaves it as it was. */
    method AddHead(v: T)
      requires Linked()
      modifies this
      ensures Linked() && View() == PushHead(old(View()), v)
      ensures Ended() <==> old(Ended())
      ensures nodes[1..] == old(nodes) && fresh(nodes[0])
    {
      var item := new Node(v, head);
      head := item;
      if tail == null {
        tail := item;
      }
      count := count + 1;
      nodes := [item] + nodes;
      assert forall i :: 0 < i < |nodes| ==> nodes[i] == old(nodes)[i - 1];
    }

    /** Also repairs the next pointer that RemoveLast leaves behind. */
    method AddTail(v: T)
      requires Linked() && Attached()
      modifies this, tail
      ensures Valid() && View() == PushTail(old(View()), v)
      ensures nodes[..|nodes| - 1] == old(nodes) && fresh(nodes[|nodes| - 1])
    {
      var item := new Node(v, null);
      if count == 0 {
        head, tail := item, item;
      } else {
        tail.next := item;
        tail := item;
      }
      count := count + 1;
      nodes := nodes + [item];
    }

    /**
      The value of the first node, if there is one, as a sequence of at most one element. What is left is a list
      exactly unless the first node was the only one and its next pointer was left behind by a removal.
    */
    method RemoveFirst() returns (value: seq<T>)
      requires Linked()
      modifies this
      ensures Linked() <==> old(Ended() || count != 1)
      ensures value == if old(Items()) == [] then [] else old(Items())[..1]
      ensures value == [] ==> View() == old(View()) && nodes == old(nodes)
      ensures value != [] ==> nodes == old(nodes)[1..]
      ensures value != [] && old(Ended() || count != 1) ==> View() == PopHead(old(View()))
      ensures old(Ended() || count != 1) ==> (Ended() <==> old(Ended()))
    {
      if count == 0 {
        return [];
      }
      var first := head;
      var next := first.next;
      value := [first.value];
      assert |nodes| > 1 ==> next == nodes[1];
      if next == null {
        head, tail := null, null;
      } else {
        head := next;
      }
      count := count - 1;
      nodes := nodes[1..];
    }

    /** Walks to the node before the tail. The new tail keeps pointing at the removed node. */
    method RemoveLast() returns (value: seq<T>)
      requires Linked() && Attached()
      modifies this
      ensures Linked() && Attached()
      ensures old(Items()) == Items() + value
      ensures |value| == if old(count) == 0 then 0 else 1
      ensures count == old(count) - |value| && nodes == old(nodes)[..count]
      ensures value != [] && old(count) > 1 ==> !Ended()
    {
      if count == 0 {
        return [];
      }
      var last := tail;
      value := [last.value];
      if count == 1 {
        head, tail := null, null;
      } else {
        var curr, prev := head, null;
        ghost var i := 0;
        while curr != last
          invariant 0 <= i < |nodes| && curr == nodes[i]
          invariant i > 0 ==> prev == nodes[i - 1]
          invariant i == 0 ==> prev == null
          decreases |nodes| - i
        {
          prev := curr;
          curr := curr.next;
          i := i + 1;
        }
        assert i == |nodes| - 1;
        tail := prev;
      }
      count := count - 1;
      nodes := nodes[..|nodes| - 1];
    }

    /**
      Unlinks a given node. The tail is not moved, so the list stays attached exactly when the node is
      the first one or not the last one.
    */
    method RemoveNode(node: Node<T>) returns (found: bool)
      requires Valid()
      modifies this, nodes
      ensures Valid() && found == (node in old(nodes))
      ensures !found ==> View() == old(View()) && nodes == old(nodes)
      ensures found ==> View() == Unlink(false, old(View()), IndexOf(old(nodes), node))
      ensures found ==> nodes == RemoveAt(old(nodes), IndexOf(old(nodes), node))
    {
      var curr, prev := head, null;
      ghost var i := 0;
      while curr != null && curr != node
        invariant 0 <= i <= |nodes|
        invariant curr == if i < |nodes| then nodes[i] else null
        invariant i > 0 ==> prev == nodes[i - 1]
        invariant i == 0 ==> prev == null
        invariant node !in nodes[..i]
        decreases |nodes| - i
      {
        prev := curr;
        curr := curr.next;
        i := i + 1;
      }
      if curr == null {
        return false;
      }
      IndexIsUnique(nodes, i);
      UnlinkAt(prev, curr, i);
      found := true;
    }

    /** Unlike RemoveNode, this one moves the tail when it unlinks the last node. */
    method RemoveValue(v: T)
      requires Valid()
      modifies this, nodes
      ensures Valid() && View() == Drop(true, old(View()), v)
      ensures nodes == if v in old(Items()) then RemoveAt(old(nodes), IndexOf(old(Items()), v)) else old(nodes)
    {
      var curr, prev := head, null;
      ghost var i := 0;
      while curr != null && curr.value != v
        invariant 0 <= i <= |nodes|
        invariant curr == if i < |nodes| then nodes[i] else null
        invariant i > 0 ==> prev == nodes[i - 1]
        invariant i == 0 ==> prev == null
        invariant forall j :: 0 <= j < i ==> Items()[j] != v
        decreases |nodes| - i
      {
        assert Items()[i] == nodes[i].value;
        prev := curr;
        curr := curr.next;
        i := i + 1;
      }
      ghost var was := Items();
      if curr == null {
        assert v !in was;
        return;
      }
      assert was[i] == v && IndexOf(was, v) == i;
      UnlinkAt(prev, curr, i);
      if prev != null && curr == tail {
        tail := prev;
      }
    }

    /** The unlinking step of both removals: curr is the i-th node and prev the one before it. */
    method UnlinkAt(prev: Node?<T>, curr: Node<T>, ghost i: nat)
      requires Valid() && i < |nodes| && curr == nodes[i]
      requires prev == if i == 0 then null else nodes[i - 1]
      modifies this, nodes
      ensures Valid() && View() == Unlink(false, old(View()), i)
      ensures nodes == RemoveAt(old(nodes), i)
      ensures nodes != [] ==> tail == old(tail)
    {
      RemoveAtMembers(nodes, i);
      ghost var was := Items();
      assert i < |nodes| - 1 ==> curr.next == nodes[i + 1];
      if prev == null {
        head := curr.next;
        if head == null {
          tail := null;
        }
      } else {
        prev.next := curr.next;
      }
      count := count - 1;
      nodes := RemoveAt(nodes, i);
      assert forall j :: 0 <= j < |nodes| ==> nodes[j] == old(nodes)[if j < i then j else j + 1];
      assert Items() == RemoveAt(was, i);
    }

    /** Frees every value exactly once, the last one first. */
    method Empty() returns (freed: seq<T>)
      requires Linked() && Attached()
      modifies this
      ensures Valid() && View() == EmptyChain()
      ensures freed == Reverse(old(Items()))
    {
      freed := [];
      while count > 0
        invariant Linked() && Attached()
        invariant |freed| + count == |old(Items())|
        invariant Items() == old(Items())[..count]
        invariant forall i :: 0 <= i < |freed| ==> freed[i] == old(Items())[|old(Items())| - 1 - i]
        invariant count < |old(nodes)| || nodes == old(nodes)
        decreases count
      {
        var value := RemoveLast();
        assert value[0] == old(Items())[count];
        freed := freed + value;
      }
    }
  }

  /** Two lists share no node. */
  ghost predicate Apart<T>(a: seq<Node<T>>, b: seq<Node<T>>) {
    forall i, j :: 0 <= i < |a| && 0 <= j < |b| ==> a[i] != b[j]
  }

  lemma FewerNodes<T>(a: seq<Node<T>>, fewer: seq<Node<T>>, b: seq<Node<T>>, repr: set<object>)
    requires Apart(a, b) && forall n :: n in fewer ==> n in a
    requires forall i :: 0 <= i < |a| ==> a[i] in repr
    ensures Apart(fewer, b) && Apart(b, fewer)
    ensures forall i :: 0 <= i < |fewer| ==> fewer[i] in repr
  {
    forall i | 0 <= i < |fewer|
      ensures fewer[i] in repr && forall j :: 0 <= j < |b| ==> fewer[i] != b[j]
    {
      assert fewer[i] in a;
    }
  }
}
