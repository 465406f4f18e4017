/**
  shared_lib/src/icl_hash.c: a chained hash table. The entries of every bucket are named by a ghost
  sequence of chains, and the table as a whole by a ghost map; the methods are proved to be the map
  operations for any hash function.
*/
module HashTables {
  import opened Seqs
  import opened Machine

  class Entry<K, V> {
    const key: K
    const data: V
    var next: Entry?<K, V>

    constructor (key: K, data: V, next: Entry?<K, V>)
      ensures this.key == key && this.data == data && this.next == next
    {
      this.key, this.data, this.next := key, data, next;
    }
  }

  ghost predicate Chained<K, V>(first: Entry?<K, V>, chain: seq<Entry<K, V>>)
    reads chain
  {
    && first == (if chain == [] then null else chain[0])
    && (chain != [] ==> chain[|chain| - 1].next == null)
    && forall i :: 0 <= i < |chain| - 1 ==> chain[i].next == chain[i + 1]
  }

  ghost predicate Within<K, V>(chain: seq<Entry<K, V>>, entries: set<Entry<K, V>>) {
    forall j :: 0 <= j < |chain| ==> chain[j] in entries
  }

  lemma ChainedCons<K, V>(e: Entry<K, V>, chain: seq<Entry<K, V>>)
    requires Chained(e.next, chain)
    ensures Chained(e, [e] + chain)
  {
  }

  lemma ChainedTail<K, V>(first: Entry?<K, V>, chain: seq<Entry<K, V>>)
    requires Chained(first, chain) && chain != []
    ensures Chained(chain[0].next, chain[1..])
  {
  }

  /** Relinks the entry before the j-th one past it. */
  method Bypass<K, V>(prev: Entry<K, V>, curr: Entry<K, V>, ghost first: Entry?<K, V>, ghost chain: seq<Entry<K, V>>,
        ghost j: nat)
    requires Chained(first, chain) && DistinctKeys(chain)
    requires 0 < j < |chain| && curr == chain[j] && prev == chain[j - 1]
    modifies prev
    ensures Chained(first, RemoveAt(chain, j))
  {
    prev.next := curr.next;
    ghost var shorter := RemoveAt(chain, j);
    assert forall i :: 0 <= i < |shorter| ==> shorter[i] == chain[if i < j then i else i + 1];
    assert forall i :: 0 <= i < |chain| && i != j - 1 ==> chain[i] != prev;
  }

  ghost predicate DistinctKeys<K, V>(chain: seq<Entry<K, V>>) {
    forall i, j :: 0 <= i < j < |chain| ==> chain[i].key != chain[j].key
  }

  /** The entry holds what the map says of its key. */
  ghost predicate Agrees<K, V>(e: Entry<K, V>, contents: map<K, V>) {
    e.key in contents && contents[e.key] == e.data
  }

  ghost predicate Holds<K, V>(chain: seq<Entry<K, V>>, key: K) {
    exists j :: 0 <= j < |chain| && chain[j].key == key
  }

  /** A chain holds exactly the keys of the map that hash to its slot, each once. */
  ghost predicate ChainHolds<K, V>(chain: seq<Entry<K, V>>, slot: nat, size: nat, hash: K -> nat, contents: map<K, V>)
    requires size > 0
  {
    && DistinctKeys(chain)
    && (forall j :: 0 <= j < |chain| ==> Agrees(chain[j], contents) && hash(chain[j].key) % size == slot)
    && (forall k :: k in contents && hash(k) % size == slot ==> Holds(chain, k))
  }

  lemma ChainHoldsAfterInsert<K, V>(chain: seq<Entry<K, V>>, e: Entry<K, V>, size: nat, hash: K -> nat,
        contents: map<K, V>)
    requires size > 0 && ChainHolds(chain, hash(e.key) % size, size, hash, contents)
    requires e.key !in contents
    ensures ChainHolds([e] + chain, hash(e.key) % size, size, hash, contents[e.key := e.data])
  {
    var longer := [e] + chain;
    assert forall j :: 0 < j < |longer| ==> longer[j] == chain[j - 1];
    forall k | k in contents[e.key := e.data] && hash(k) % size == hash(e.key) % size
      ensures Holds(longer, k)
    {
      if k == e.key {
        assert longer[0].key == k;
      } else {
        assert Holds(chain, k);
        var j :| 0 <= j < |chain| && chain[j].key == k;
        assert longer[j + 1].key == k;
      }
    }
  }

  lemma ChainHoldsAfterDelete<K, V>(chain: seq<Entry<K, V>>, gone: nat, slot: nat, size: nat, hash: K -> nat,
        contents: map<K, V>)
    requires size > 0 && ChainHolds(chain, slot, size, hash, contents)
    requires gone < |chain|
    ensures ChainHolds(RemoveAt(chain, gone), slot, size, hash, contents - {chain[gone].key})
  {
    var shorter := RemoveAt(chain, gone);
    assert forall j :: 0 <= j < |shorter| ==> shorter[j] == chain[if j < gone then j else j + 1];
    forall k | k in contents - {chain[gone].key} && hash(k) % size == slot
      ensures Holds(shorter, k)
    {
      assert Holds(chain, k);
      var j :| 0 <= j < |chain| && chain[j].key == k;
      assert shorter[if j > gone then j - 1 else j].key == k;
    }
  }

  ghost predicate AllHold<K, V>(chains: seq<seq<Entry<K, V>>>, hash: K -> nat, contents: map<K, V>) {
    forall i :: 0 <= i < |chains| ==> ChainHolds(chains[i], i, |chains|, hash, contents)
  }

  lemma AllHoldAfterInsert<K, V>(chains: seq<seq<Entry<K, V>>>, slot: nat, e: Entry<K, V>, hash: K -> nat,
        contents: map<K, V>)
    requires AllHold(chains, hash, contents) && e.key !in contents
    requires slot < |chains| && slot == hash(e.key) % |chains|
    ensures AllHold(chains[slot := [e] + chains[slot]], hash, contents[e.key := e.data])
  {
    ChainHoldsAfterInsert(chains[slot], e, |chains|, hash, contents);
    forall i | 0 <= i < |chains| && i != slot
      ensures ChainHolds(chains[i], i, |chains|, hash, contents[e.key := e.data])
    {
      assert ChainHolds(chains[i], i, |chains|, hash, contents);
    }
  }

  lemma AllHoldAfterDelete<K, V>(chains: seq<seq<Entry<K, V>>>, slot: nat, gone: nat, hash: K -> nat,
        contents: map<K, V>)
    requires AllHold(chains, hash, contents)
    requires slot < |chains| && gone < |chains[slot]|
    ensures AllHold(chains[slot := RemoveAt(chains[slot], gone)], hash, contents - {chains[slot][gone].key})
    ensures |contents - {chains[slot][gone].key}| == |contents| - 1
  {
    var key := chains[slot][gone].key;
    assert ChainHolds(chains[slot], slot, |chains|, hash, contents);
    ChainHoldsAfterDelete(chains[slot], gone, slot, |chains|, hash, contents);
    assert Agrees(chains[slot][gone], contents);
    assert contents.Keys == (contents - {key}).Keys + {key};
    forall i | 0 <= i < |chains| && i != slot
      ensures ChainHolds(chains[i], i, |chains|, hash, contents - {key})
    {
      assert ChainHolds(chains[i], i, |chains|, hash, contents);
    }
  }

  class HashTable<K(==), V> {
    const hash: K -> nat
    const buckets: array<Entry?<K, V>>
    var nentries: nat
    ghost var chains: seq<seq<Entry<K, V>>>
    ghost var entries: set<Entry<K, V>>
    ghost var contents: map<K, V>

    /** The bucket a key belongs to. */
    function Slot(key: K): (i: nat)
      requires buckets.Length > 0
      ensures i < buckets.Length
    {
      hash(key) % buckets.Length
    }

    ghost predicate Valid()
      reads this, buckets, entries
    {
      && |chains| == buckets.Length > 0
      && (forall i :: 0 <= i < |chains| ==> Within(chains[i], entries))
      && (forall i :: 0 <= i < |chains| ==> Chained(buckets[i], chains[i]))
      && AllHold(chains, hash, contents)
      && nentries == |contents|
    }

    /** No entry is reached from two buckets or twice from one. */
    lemma ChainsAreDisjoint(i: nat, j: nat, i': nat, j': nat)
      requires Valid()
      requires i < |chains| && j < |chains[i]| && i' < |chains| && j' < |chains[i']|
      ensures chains[i][j] == chains[i'][j'] ==> i == i' && j == j'
    {
      if chains[i][j] == chains[i'][j'] {
        assert ChainHolds(chains[i], i, buckets.Length, hash, contents);
        assert ChainHolds(chains[i'], i', buckets.Length, hash, contents);
      }
    }

    constructor (nbuckets: nat, hash: K -> nat)
      requires nbuckets > 0
      ensures Valid() && contents == map[] && this.hash == hash
      ensures fresh(buckets) && buckets.Length == nbuckets && entries == {}
    {
      this.hash := hash;
      nentries := 0;
      buckets := new Entry?<K, V>[nbuckets](_ => null);
      chains := seq(nbuckets, _ => []);
      entries, contents := {}, map[];
    }

    method Find(key: K) returns (found: bool, data: seq<V>)
      requires Valid()
      ensures found <==> key in contents
      ensures data == if key in contents then [contents[key]] else []
    {
      var slot := Slot(key);
      var curr := buckets[slot];
      ghost var j := 0;
      ghost var chain := chains[slot];
      assert ChainHolds(chain, slot, buckets.Length, hash, contents);
      while curr != null
        invariant Chained(buckets[slot], chain)
        invariant 0 <= j <= |chain|
        invariant curr == if j < |chain| then chain[j] else null
        invariant forall k :: 0 <= k < j ==> chain[k].key != key
        decreases |chain| - j
      {
        assert Agrees(chain[j], contents);
        if curr.key == key {
          return true, [curr.data];
        }
        curr := curr.next;
        j := j + 1;
      }
      assert !Holds(chain, key);
      found, data := false, [];
    }

    /** Fails exactly on a key that is present, and then changes nothing. */
    method Insert(key: K, data: V) returns (ok: bool)
      requires Valid()
      modifies this, buckets
      ensures Valid() && fresh(entries - old(entries))
      ensures ok <==> key !in old(contents)
      ensures contents == if ok then old(contents)[key := data] else old(contents)
    {
      var present, _ := Find(key);
      if present {
        return false;
      }
      var slot := Slot(key);
      var entry := new Entry(key, data, buckets[slot]);
      ghost var was := chains;
      AllHoldAfterInsert(was, slot, entry, hash, contents);
      buckets[slot] := entry;
      nentries := nentries + 1;
      entries := entries + {entry};
      chains := chains[slot := [entry] + was[slot]];
      contents := contents[key := data];
      ok := true;
      forall i | 0 <= i < |chains| ensures Chained(buckets[i], chains[i]) {
        assert Chained(old(buckets[i]), was[i]);
        if i == slot {
          ChainedCons(entry, was[i]);
        }
      }
    }

    /** Succeeds exactly on a key that is present, and then takes out that key and no other. */
    method Delete(key: K) returns (ok: bool)
      requires Valid()
      modifies this, buckets, entries
      ensures Valid() && entries == old(entries)
      ensures ok <==> key in old(contents)
      ensures contents == old(contents) - {key}
    {
      var slot := Slot(key);
      var curr, prev := buckets[slot], null;
      ghost var j := 0;
      ghost var chain := chains[slot];
      assert ChainHolds(chain, slot, buckets.Length, hash, contents);
      while curr != null && curr.key != key
        invariant Chained(buckets[slot], chain)
        invariant 0 <= j <= |chain|
        invariant curr == if j < |chain| then chain[j] else null
        invariant prev == if j == 0 then null else chain[j - 1]
        invariant forall k :: 0 <= k < j ==> chain[k].key != key
        decreases |chain| - j
      {
        prev := curr;
        curr := curr.next;
        j := j + 1;
      }
      if curr == null {
        assert !Holds(chain, key);
        assert contents - {key} == contents;
        return false;
      }
      assert Agrees(chain[j], contents);
      Unlink(slot, prev, curr, j);
      ok := true;
    }

    /** Takes the j-th entry out of its chain: prev is the one before it. */
    method Unlink(slot: nat, prev: Entry?<K, V>, curr: Entry<K, V>, ghost j: nat)
      requires Valid() && slot < |chains| && j < |chains[slot]| && curr == chains[slot][j]
      requires prev == if j == 0 then null else chains[slot][j - 1]
      modifies this, buckets, entries
      ensures Valid() && entries == old(entries)
      ensures contents == old(contents) - {curr.key}
    {
      ghost var now := chains[slot := RemoveAt(chains[slot], j)];
      ghost var rest := contents - {curr.key};
      AllHoldAfterDelete(chains, slot, j, hash, contents);
      assert ChainHolds(chains[slot], slot, |chains|, hash, contents);
      if j > 0 {
        InOneChain(slot, j - 1);
      }
      WithinAfterDelete(slot, j, now);
      Relink(slot, prev, curr, j, now);
      Settle(now, rest);
    }

    /** One entry fewer, with the chains and contents that are left. */
    method Settle(ghost now: seq<seq<Entry<K, V>>>, ghost rest: map<K, V>)
      requires |now| == buckets.Length > 0 && nentries == |rest| + 1
      requires forall i :: 0 <= i < |now| ==> Within(now[i], entries)
      requires forall i :: 0 <= i < |now| ==> Chained(buckets[i], now[i])
      requires AllHold(now, hash, rest)
      modifies this
      ensures Valid() && contents == rest && entries == old(entries)
    {
      nentries, chains, contents := nentries - 1, now, rest;
    }

    lemma WithinAfterDelete(slot: nat, j: nat, now: seq<seq<Entry<K, V>>>)
      requires slot < |chains| && j < |chains[slot]| && now == chains[slot := RemoveAt(chains[slot], j)]
      requires forall i :: 0 <= i < |chains| ==> Within(chains[i], entries)
      ensures forall i :: 0 <= i < |chains| ==> Within(now[i], entries)
    {
    }

    lemma InOneChain(slot: nat, j: nat)
      requires Valid() && slot < |chains| && j < |chains[slot]|
      ensures forall i :: 0 <= i < |chains| && i != slot ==> chains[slot][j] !in chains[i]
    {
      forall i | 0 <= i < |chains| && i != slot ensures chains[slot][j] !in chains[i] {
        if chains[slot][j] in chains[i] {
          var k :| 0 <= k < |chains[i]| && chains[i][k] == chains[slot][j];
          ChainsAreDisjoint(i, k, slot, j);
        }
      }
    }

    method Relink(slot: nat, prev: Entry?<K, V>, curr: Entry<K, V>, ghost j: nat, ghost now: seq<seq<Entry<K, V>>>)
      requires |chains| == buckets.Length && slot < |chains| && j < |chains[slot]| && curr == chains[slot][j]
      requires now == chains[slot := RemoveAt(chains[slot], j)]
      requires prev == if j == 0 then null else chains[slot][j - 1]
      requires DistinctKeys(chains[slot])
      requires prev != null ==> forall i :: 0 <= i < |chains| && i != slot ==> prev !in chains[i]
      requires forall i :: 0 <= i < |chains| ==> Chained(buckets[i], chains[i])
      modifies buckets, prev
      ensures forall i :: 0 <= i < |chains| ==> Chained(buckets[i], now[i])
    {
      ghost var chain := chains[slot];
      assert Chained(buckets[slot], chain);
      if prev == null {
        ChainedTail(buckets[slot], chain);
        assert RemoveAt(chain, j) == chain[1..];
        buckets[slot] := curr.next;
      } else {
        Bypass(prev, curr, buckets[slot], chain, j);
      }
    }
  }

  /** The default hash, byte by byte; char is signed, so bytes from 0x80 count as negative. */
  function PjwStep(hash: bv32, b: Byte): (r: bv32)
    ensures r & 0xF000_0000 == 0
  {
    var shifted := (hash << 4) + SignedChar(b);
    var high := shifted & 0xF000_0000;
    if high != 0 then (shifted ^ (high >> 24)) & 0x0FFF_FFFF else shifted
  }

  function SignedChar(b: Byte): bv32 {
    if b < 0x80 then b as bv32 else (TWO32 - 0x100 + b) as bv32
  }

  function Pjw(key: Path): bv32 {
    if key == [] then 0 else PjwStep(Pjw(key[..|key| - 1]), key[|key| - 1])
  }

  method HashPjw(key: Path) returns (hash: bv32)
    ensures hash == Pjw(key)
    ensures hash & 0xF000_0000 == 0
  {
    hash := 0;
    var i := 0;
    while i < |key|
      invariant 0 <= i <= |key|
      invariant hash == Pjw(key[..i]) && hash & 0xF000_0000 == 0
    {
      assert key[..i + 1][..i] == key[..i];
      hash := PjwStep(hash, key[i]);
      i := i + 1;
    }
    assert key[..|key|] == key;
  }
}
