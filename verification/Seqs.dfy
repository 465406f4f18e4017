/** Sequence facts shared by the other modules. */
module Seqs {

  ghost predicate NoDup<T>(xs: seq<T>) {
    forall i, j :: 0 <= i < j < |xs| ==> xs[i] != xs[j]
  }

  /** The position of the first occurrence of x. */
  function IndexOf<T(==)>(xs: seq<T>, x: T): (k: nat)
    requires x in xs
    ensures k < |xs| && xs[k] == x
    ensures forall j :: 0 <= j < k ==> xs[j] != x
  {
    if xs[0] == x then 0 else 1 + IndexOf(xs[1..], x)
  }

  function RemoveAt<T>(xs: seq<T>, k: nat): seq<T>
    requires k < |xs|
  {
    xs[..k] + xs[k + 1..]
  }

  /** xs with the first occurrence of x taken out, if there is one. */
  function Without<T(==)>(xs: seq<T>, x: T): seq<T> {
    if x in xs then RemoveAt(xs, IndexOf(xs, x)) else xs
  }

  lemma RemoveAtMembers<T>(xs: seq<T>, k: nat)
    requires k < |xs| && NoDup(xs)
    ensures NoDup(RemoveAt(xs, k))
    ensures forall y :: y in RemoveAt(xs, k) <==> y in xs && y != xs[k]
  {
  }

  lemma WithoutMembers<T>(xs: seq<T>, x: T)
    requires NoDup(xs)
    ensures NoDup(Without(xs, x))
    ensures forall y :: y in Without(xs, x) <==> y in xs && y != x
  {
    if x in xs {
      RemoveAtMembers(xs, IndexOf(xs, x));
    }
  }

  lemma IndexIsUnique<T>(xs: seq<T>, k: nat)
    requires NoDup(xs) && k < |xs|
    ensures IndexOf(xs, xs[k]) == k
  {
  }

  lemma DistinctCons<T>(x: T, xs: seq<T>)
    requires NoDup(xs) && x !in xs
    ensures NoDup([x] + xs)
  {
  }

  function Elements<T(==)>(xs: seq<T>): set<T> {
    set x | x in xs
  }

  lemma ElementsCons<T>(xs: seq<T>)
    requires xs != []
    ensures Elements(xs) == {xs[0]} + Elements(xs[1..])
  {
  }

  lemma MinusTwice<K, V>(m: map<K, V>, a: set<K>, b: set<K>)
    ensures m - a - b == m - (a + b)
  {
  }

  function Reverse<T>(xs: seq<T>): (r: seq<T>)
    ensures |r| == |xs|
    ensures forall i :: 0 <= i < |xs| ==> r[i] == xs[|xs| - 1 - i]
  {
    if xs == [] then [] else Reverse(xs[1..]) + [xs[0]]
  }

  /** A duplicate-free sequence is as long as its set of elements is large. */
  lemma {:induction false} NoDupLength<T>(xs: seq<T>, elements: set<T>)
    requires NoDup(xs)
    requires forall x :: x in xs <==> x in elements
    ensures |xs| == |elements|
  {
    if xs == [] {
      assert elements == {};
    } else {
      var rest := xs[1..];
      assert forall x :: x in rest ==> x in xs;
      forall x ensures x in rest <==> x in elements - {xs[0]} {
        if x in elements - {xs[0]} {
          var i :| 0 <= i < |xs| && xs[i] == x;
          assert x == rest[i - 1];
        }
      }
      NoDupLength(rest, elements - {xs[0]});
    }
  }
}
