/**
  What a linked list of shared_lib/src/linked_list.c holds, as a value: the elements reached from the
  head, and whether the tail pointer still points at the last of them.
*/
module Chains {
  import opened Seqs

  datatype Chain<T> = Chain(items: seq<T>, attached: bool)

  function EmptyChain<T>(): Chain<T> {
    Chain([], true)
  }

  function PushHead<T>(l: Chain<T>, v: T): Chain<T> {
    Chain([v] + l.items, l.attached)
  }

  /** Appending writes through the tail pointer. */
  function PushTail<T>(l: Chain<T>, v: T): Chain<T>
    requires l.attached
  {
    Chain(l.items + [v], true)
  }

  function PopHead<T>(l: Chain<T>): Chain<T>
    requires l.items != []
  {
    Chain(l.items[1..], l.attached || |l.items| == 1)
  }

  /**
    Unlinking the node at k. Only when the list becomes empty is the tail pointer reset: taking out a
    last node that is not also the first leaves the tail on the removed node. `moveTail` is the
    behaviour of a list that would move it.
  */
  function Unlink<T>(moveTail: bool, l: Chain<T>, k: nat): Chain<T>
    requires k < |l.items|
  {
    Chain(RemoveAt(l.items, k),
          if |l.items| == 1 then true
          else l.attached && (moveTail || k == 0 || k < |l.items| - 1))
  }

  /** Unlinking detaches the tail of a list exactly when it takes the last of several nodes. */
  lemma UnlinkDetachesExactlyTheLastOfSeveral<T>(l: Chain<T>, k: nat)
    requires k < |l.items| && l.attached
    ensures !Unlink(false, l, k).attached <==> 0 < k == |l.items| - 1
    ensures Unlink(true, l, k).attached
  {
  }

  function Drop<T(==)>(moveTail: bool, l: Chain<T>, v: T): Chain<T> {
    if v in l.items then Unlink(moveTail, l, IndexOf(l.items, v)) else l
  }

  lemma DropItems<T>(moveTail: bool, l: Chain<T>, v: T)
    ensures Drop(moveTail, l, v).items == Without(l.items, v)
  {
  }
}
