/** server/src/replacement_policy.c: the three orders victims are tried in, and the choice of victims. */
module Policies {
  import opened Seqs
  import opened Machine
  import opened Files

  datatype Policy = Fifo | Lru | Lfu

  type FileMap = map<Path, File>

  /** Differences of 64-bit values cut down to int, as the comparators return them. */
  function CompareTimes(a: Time, b: Time): int {
    if a.sec != b.sec then ToInt32(a.sec - b.sec) else ToInt32(a.nsec - b.nsec)
  }

  function Compare(policy: Policy, f: File, g: File): int {
    var c := match policy
      case Fifo => CompareTimes(f.created, g.created)
      case Lru => CompareTimes(f.lastUse, g.lastUse)
      case Lfu => ToInt32(ToInt32(f.frequency) - ToInt32(g.frequency));
    if c == 0 then ToInt32(ToSize(f.size - g.size)) else c
  }

  datatype Rank = Rank(major: int, minor: int, size: int)

  function RankOf(policy: Policy, f: File): Rank {
    match policy
    case Fifo => Rank(f.created.sec, f.created.nsec, f.size)
    case Lru => Rank(f.lastUse.sec, f.lastUse.nsec, f.size)
    case Lfu => Rank(f.frequency, 0, f.size)
  }

  predicate Before(a: Rank, b: Rank) {
    || a.major < b.major
    || (a.major == b.major && a.minor < b.minor)
    || (a.major == b.major && a.minor == b.minor && a.size < b.size)
  }

  /** The first field in which two ranks differ, subtracted; 0 for equal ranks. */
  function FirstDifference(a: Rank, b: Rank): (d: int)
    ensures Before(a, b) <==> d < 0
    ensures Before(b, a) <==> d > 0
  {
    if a.major != b.major then a.major - b.major
    else if a.minor != b.minor then a.minor - b.minor
    else a.size - b.size
  }

  /** The comparator cuts the first difference down to int, and looks at the sizes if nothing is left of it. */
  lemma CompareCutsTheFirstDifference(policy: Policy, f: File, g: File)
    ensures var d := ToInt32(FirstDifference(RankOf(policy, f), RankOf(policy, g)));
            Compare(policy, f, g) == if d == 0 then ToInt32(f.size - g.size) else d
  {
    LowBitsOfSize(f.size - g.size);
    if policy == Lfu {
      CutTwice(f.frequency, g.frequency);
    }
    hide ToInt32, ToSize;
    assert ToInt32(0) == 0;
  }

  lemma CutTwice(a: int, b: int)
    ensures ToInt32(ToInt32(a) - ToInt32(b)) == ToInt32(a - b)
  {
    var k, m := (ToInt32(a) - a) / TWO32, (ToInt32(b) - b) / TWO32;
    assert ToInt32(a) == a + k * TWO32 && ToInt32(b) == b + m * TWO32;
    SameLowBits(ToInt32(a) - ToInt32(b), a - b, k - m);
  }

  ghost predicate SignIsRight(policy: Policy, f: File, g: File) {
    && (Compare(policy, f, g) < 0 <==> Before(RankOf(policy, f), RankOf(policy, g)))
    && (Compare(policy, f, g) > 0 <==> Before(RankOf(policy, g), RankOf(policy, f)))
  }

  /** The low 32 bits of n, read as an int, are not zero and have the given sign. */
  predicate LowBitsSay(n: int, positive: bool) {
    n % TWO32 != 0 && (positive <==> n % TWO32 < TWO31)
  }

  /** What is left of the first difference says which rank is first; if nothing is, the sizes happen to. */
  predicate TellsApart(policy: Policy, f: File, g: File) {
    var d := FirstDifference(RankOf(policy, f), RankOf(policy, g));
    || d == 0
    || LowBitsSay(d, d > 0)
    || (d % TWO32 == 0 && LowBitsSay(f.size - g.size, d > 0))
  }

  /** For any two files the sign of the comparator is the order of their ranks exactly if it tells them apart. */
  lemma CompareIsLexicographicExactly(policy: Policy, f: File, g: File)
    ensures SignIsRight(policy, f, g) <==> TellsApart(policy, f, g)
  {
    var a, b := RankOf(policy, f), RankOf(policy, g);
    var d := FirstDifference(a, b);
    hide Compare, RankOf, FirstDifference, Before, LowBitsSay, ToInt32;
    SameRankSameSize(policy, f, g);
    CompareCutsTheFirstDifference(policy, f, g);
    CutSign(d);
    CutSign(f.size - g.size);
    CutSign(0);
  }

  lemma CutSign(d: int)
    ensures ToInt32(d) == 0 <==> d % TWO32 == 0
    ensures LowBitsSay(d, true) <==> ToInt32(d) > 0
    ensures LowBitsSay(d, false) <==> ToInt32(d) < 0
  {
  }

  lemma CutOpposite(d: int)
    ensures ToInt32(d) >= 0 ==> ToInt32(-d) <= 0
    ensures ToInt32(d) == 0 ==> ToInt32(-d) == 0
  {
    var q, r := d / TWO32, d % TWO32;
    assert -d == (-q - 1) * TWO32 + (TWO32 - r);
    if r == 0 {
      SameLowBits(-d, 0, -q);
    } else {
      SameLowBits(-d, TWO32 - r, -q - 1);
    }
  }

  /** Short of a difference of 2^32, which is 136 years, that is: if the first difference fits in an int. */
  lemma TellsApartWithinInt(policy: Policy, f: File, g: File)
    requires -TWO32 < FirstDifference(RankOf(policy, f), RankOf(policy, g)) < TWO32
    ensures TellsApart(policy, f, g) <==> IsInt(FirstDifference(RankOf(policy, f), RankOf(policy, g)))
  {
    hide FirstDifference, RankOf;
  }

  lemma CompareIsTotal(policy: Policy, f: File, g: File)
    ensures Compare(policy, f, f) == 0
    ensures Compare(policy, f, g) <= 0 || Compare(policy, g, f) <= 0
  {
    hide Compare, RankOf, FirstDifference, Before;
    SignsAreOpposite(policy, f, g);
    SignsAreOpposite(policy, f, f);
    Opposite(RankOf(policy, f), RankOf(policy, f));
  }

  lemma SameRankSameSize(policy: Policy, f: File, g: File)
    ensures FirstDifference(RankOf(policy, f), RankOf(policy, g)) == 0 ==> f.size == g.size
  {
  }

  lemma SignsAreOpposite(policy: Policy, f: File, g: File)
    ensures Compare(policy, f, g) >= 0 ==> Compare(policy, g, f) <= 0
    ensures !(Before(RankOf(policy, f), RankOf(policy, g)) && Before(RankOf(policy, g), RankOf(policy, f)))
    ensures !Before(RankOf(policy, f), RankOf(policy, g)) && !Before(RankOf(policy, g), RankOf(policy, f)) ==>
              Compare(policy, f, g) == 0
  {
    hide Compare, RankOf, FirstDifference, Before, ToInt32;
    var d, e := FirstDifference(RankOf(policy, f), RankOf(policy, g)), f.size - g.size;
    SameRankSameSize(policy, f, g);
    Opposite(RankOf(policy, f), RankOf(policy, g));
    CompareCutsTheFirstDifference(policy, f, g);
    CompareCutsTheFirstDifference(policy, g, f);
    CutOpposite(d);
    CutOpposite(e);
    CutSign(0);
    assert g.size - f.size == -e;
  }

  lemma Opposite(a: Rank, b: Rank)
    ensures FirstDifference(b, a) == -FirstDifference(a, b) && FirstDifference(a, a) == 0
  {
  }

  /** Files told apart two by two are totally preordered. */
  lemma CompareIsTotalPreorder(policy: Policy, f: File, g: File, h: File)
    requires TellsApart(policy, f, g) && TellsApart(policy, g, h) && TellsApart(policy, f, h)
    ensures Compare(policy, f, f) == 0
    ensures Compare(policy, f, g) <= 0 || Compare(policy, g, f) <= 0
    ensures Compare(policy, f, g) <= 0 && Compare(policy, g, h) <= 0 ==> Compare(policy, f, h) <= 0
  {
    CompareIsTotal(policy, f, g);
    CompareIsLexicographicExactly(policy, f, g);
    CompareIsLexicographicExactly(policy, g, h);
    CompareIsLexicographicExactly(policy, f, h);
    hide Compare, TellsApart, RankOf;
  }

  /** A file created 2^31 seconds after another compares as the earlier one. */
  lemma CompareFailsAcrossTheSignBit(f: File, g: File)
    requires f.created == Time(TWO31, 0) && g.created == Time(0, 0)
    ensures Before(RankOf(Fifo, g), RankOf(Fifo, f)) && Compare(Fifo, f, g) < 0
  {
  }

  /** Three files each created 51 years after the one before form a cycle: this is no preorder. */
  lemma CompareCycles(f: File, g: File, h: File)
    requires f.created == Time(0, 0) && g.created == Time(0x6000_0000, 0) && h.created == Time(0xC000_0000, 0)
    ensures Compare(Fifo, f, g) < 0 && Compare(Fifo, g, h) < 0 && Compare(Fifo, h, f) < 0 < Compare(Fifo, f, h)
  {
  }

  ghost predicate Sorted(policy: Policy, files: FileMap, order: seq<Path>)
    requires forall p :: p in order ==> p in files
  {
    forall i, j :: 0 <= i < j < |order| ==> Compare(policy, files[order[i]], files[order[j]]) <= 0
  }

  /** What qsort asks of its comparator: a total preorder on the array. */
  ghost predicate Consistent(policy: Policy, files: FileMap) {
    && (forall p, q :: p in files && q in files ==>
          Compare(policy, files[p], files[q]) <= 0 || Compare(policy, files[q], files[p]) <= 0)
    && (forall p, q, r :: p in files && q in files && r in files ==>
          Compare(policy, files[p], files[q]) <= 0 && Compare(policy, files[q], files[r]) <= 0 ==>
          Compare(policy, files[p], files[r]) <= 0)
  }

  ghost predicate AllTold(policy: Policy, files: FileMap) {
    forall p, q :: p in files && q in files ==> TellsApart(policy, files[p], files[q])
  }

  lemma ToldFilesCompareConsistently(policy: Policy, files: FileMap)
    requires AllTold(policy, files)
    ensures Consistent(policy, files)
  {
    hide Compare, TellsApart;
    forall p, q, r | p in files && q in files && r in files
      ensures Compare(policy, files[p], files[q]) <= 0 || Compare(policy, files[q], files[p]) <= 0
      ensures Compare(policy, files[p], files[q]) <= 0 && Compare(policy, files[q], files[r]) <= 0 ==>
                Compare(policy, files[p], files[r]) <= 0
    {
      CompareIsTotalPreorder(policy, files[p], files[q], files[r]);
    }
  }

  /**
    What qsort may leave in the array: the stored files, each once, and in policy order if the comparator
    keeps its promises on them.
  */
  ghost predicate PolicyOrder(policy: Policy, files: FileMap, order: seq<Path>) {
    && NoDup(order)
    && (forall p :: p in order <==> p in files)
    && (Consistent(policy, files) ==> Sorted(policy, files, order))
  }

  function Insert(policy: Policy, files: FileMap, p: Path, order: seq<Path>): (r: seq<Path>)
    requires p in files && forall q :: q in order ==> q in files
    ensures forall q :: q in r <==> q == p || q in order
    ensures |r| == |order| + 1
  {
    if order == [] then [p]
    else if Compare(policy, files[p], files[order[0]]) <= 0 then [p] + order
    else [order[0]] + Insert(policy, files, p, order[1..])
  }

  lemma {:induction false} InsertKeepsDistinct(policy: Policy, files: FileMap, p: Path, order: seq<Path>)
    requires p in files && p !in order && NoDup(order) && forall q :: q in order ==> q in files
    ensures NoDup(Insert(policy, files, p, order))
  {
    hide Compare;
    if order != [] {
      assert forall q :: q in order[1..] ==> q in order && order[0] != q;
      InsertKeepsDistinct(policy, files, p, order[1..]);
      DistinctCons(order[0], Insert(policy, files, p, order[1..]));
      DistinctCons(p, order);
    }
  }

  lemma {:induction false} InsertKeepsOrder(policy: Policy, files: FileMap, p: Path, order: seq<Path>)
    requires p in files && forall q :: q in order ==> q in files
    requires Consistent(policy, files) && Sorted(policy, files, order)
    ensures Sorted(policy, files, Insert(policy, files, p, order))
  {
    hide Compare;
    if order != [] {
      var first, rest := order[0], order[1..];
      SortedTail(policy, files, order);
      if Compare(policy, files[p], files[first]) <= 0 {
        forall j | 0 <= j < |order| ensures Compare(policy, files[p], files[order[j]]) <= 0 {
          LeastOfAll(policy, files, p, first, order[j]);
        }
        SortedCons(policy, files, p, order);
      } else {
        assert Compare(policy, files[first], files[p]) <= 0;
        InsertKeepsOrder(policy, files, p, rest);
        hide Sorted, Consistent;
        SortedCons(policy, files, first, Insert(policy, files, p, rest));
      }
    }
  }

  lemma LeastOfAll(policy: Policy, files: FileMap, p: Path, first: Path, q: Path)
    requires p in files && first in files && q in files && Consistent(policy, files)
    requires Compare(policy, files[p], files[first]) <= 0
    requires q == first || Compare(policy, files[first], files[q]) <= 0
    ensures Compare(policy, files[p], files[q]) <= 0
  {
    hide Compare;
  }

  lemma SortedCons(policy: Policy, files: FileMap, p: Path, order: seq<Path>)
    requires p in files && (forall q :: q in order ==> q in files) && Sorted(policy, files, order)
    requires forall j :: 0 <= j < |order| ==> Compare(policy, files[p], files[order[j]]) <= 0
    ensures Sorted(policy, files, [p] + order)
  {
  }

  lemma SortedTail(policy: Policy, files: FileMap, order: seq<Path>)
    requires order != [] && (forall q :: q in order ==> q in files) && Sorted(policy, files, order)
    ensures Sorted(policy, files, order[1..])
    ensures forall q :: q in order[1..] ==> Compare(policy, files[order[0]], files[q]) <= 0
  {
  }

  lemma {:induction false} OrderOf(policy: Policy, files: FileMap, keys: set<Path>) returns (order: seq<Path>)
    requires keys <= files.Keys
    ensures NoDup(order) && (forall p :: p in order <==> p in keys)
    ensures Consistent(policy, files) ==> Sorted(policy, files, order)
    decreases |keys|
  {
    hide Compare, Consistent, Insert;
    order := [];
    if keys != {} {
      var p :| p in keys;
      var rest := OrderOf(policy, files, keys - {p});
      if Consistent(policy, files) {
        InsertKeepsDistinct(policy, files, p, rest);
        InsertKeepsOrder(policy, files, p, rest);
        order := Insert(policy, files, p, rest);
      } else {
        order := [p] + rest;
      }
    }
  }

  /** There is always an array for qsort to leave, so no request is held up for want of one. */
  lemma PolicyOrderExists(policy: Policy, files: FileMap)
    ensures exists order :: PolicyOrder(policy, files, order)
  {
    var order := OrderOf(policy, files, files.Keys);
    assert PolicyOrder(policy, files, order);
  }

  function Total(files: FileMap, paths: seq<Path>): (n: nat)
    requires forall p :: p in paths ==> p in files
  {
    if paths == [] then 0 else files[paths[0]].size + Total(files, paths[1..])
  }

  function Others(order: seq<Path>, skip: Path): (r: seq<Path>)
    ensures forall p :: p in r <==> p in order && p != skip
  {
    if order == [] then [] else (if order[0] == skip then [] else [order[0]]) + Others(order[1..], skip)
  }

  /** Files are taken in order, the target skipped, until `need` bytes are freed or none is left. */
  function Select(files: FileMap, order: seq<Path>, skip: Path, need: int): (victims: seq<Path>)
    requires forall p :: p in order ==> p in files
    ensures forall p :: p in victims ==> p in order && p != skip
  {
    if need <= 0 || order == [] then []
    else if order[0] == skip then Select(files, order[1..], skip, need)
    else [order[0]] + Select(files, order[1..], skip, need - files[order[0]].size)
  }

  /**
    The victims are the shortest prefix of the other files that frees enough, or all of them if none
    does; so enough is freed if and only if the other files together hold enough.
  */
  lemma {:induction false} SelectIsTheShortestSufficientPrefix(files: FileMap, order: seq<Path>, skip: Path, need: int)
    requires forall p :: p in order ==> p in files
    ensures var victims, others := Select(files, order, skip, need), Others(order, skip);
            && |victims| <= |others| && victims == others[..|victims|]
            && (forall k :: 0 <= k < |victims| ==> Total(files, others[..k]) < need)
            && (Total(files, victims) >= need <==> Total(files, others) >= need)
            && (Total(files, victims) < need ==> victims == others)
  {
    var victims, others := Select(files, order, skip, need), Others(order, skip);
    if need <= 0 {
      assert victims == others[..0];
    } else if order != [] {
      var rest := order[1..];
      if order[0] == skip {
        SelectIsTheShortestSufficientPrefix(files, rest, skip, need);
      } else {
        var less := need - files[order[0]].size;
        SelectIsTheShortestSufficientPrefix(files, rest, skip, less);
        PrefixCons(files, order[0], Select(files, rest, skip, less), Others(rest, skip), need);
      }
    }
  }

  lemma PrefixCons(files: FileMap, p: Path, victims: seq<Path>, others: seq<Path>, need: int)
    requires p in files && (forall q :: q in others ==> q in files) && need > 0
    requires |victims| <= |others| && victims == others[..|victims|]
    requires forall k :: 0 <= k < |victims| ==> Total(files, others[..k]) < need - files[p].size
    ensures [p] + victims == ([p] + others)[..1 + |victims|]
    ensures forall k :: 0 <= k < 1 + |victims| ==> Total(files, ([p] + others)[..k]) < need
    ensures Total(files, [p] + victims) == files[p].size + Total(files, victims)
    ensures Total(files, [p] + others) == files[p].size + Total(files, others)
  {
    forall k | 0 <= k < 1 + |victims| ensures Total(files, ([p] + others)[..k]) < need {
      if k > 0 {
        assert ([p] + others)[..k] == [p] + others[..k - 1];
        assert ([p] + others[..k - 1])[1..] == others[..k - 1];
      }
    }
    assert ([p] + victims)[1..] == victims && ([p] + others)[1..] == others;
  }

  lemma {:induction false} OthersStaySorted(policy: Policy, files: FileMap, order: seq<Path>, skip: Path)
    requires (forall p :: p in order ==> p in files) && Sorted(policy, files, order)
    ensures Sorted(policy, files, Others(order, skip))
  {
    if order != [] {
      SortedTail(policy, files, order);
      OthersStaySorted(policy, files, order[1..], skip);
      hide Compare, Sorted;
      if order[0] != skip {
        SortedCons(policy, files, order[0], Others(order[1..], skip));
      }
    }
  }

  ghost predicate Ranked(policy: Policy, files: FileMap, order: seq<Path>)
    requires forall p :: p in order ==> p in files
  {
    forall i, j :: 0 <= i < j < |order| ==> !Before(RankOf(policy, files[order[j]]), RankOf(policy, files[order[i]]))
  }

  /** Sorted files that are told apart rank in order. */
  lemma SortedRanks(policy: Policy, files: FileMap, order: seq<Path>)
    requires (forall p :: p in order ==> p in files) && Sorted(policy, files, order) && AllTold(policy, files)
    ensures Ranked(policy, files, order)
  {
    hide Compare, Before, RankOf, TellsApart;
    forall i, j | 0 <= i < j < |order|
      ensures !Before(RankOf(policy, files[order[j]]), RankOf(policy, files[order[i]]))
    {
      CompareIsLexicographicExactly(policy, files[order[i]], files[order[j]]);
    }
  }

  /** Files not told apart include two of which the later in rank compares as no later. */
  lemma UntoldPair(policy: Policy, files: FileMap) returns (p: Path, q: Path)
    requires !AllTold(policy, files)
    ensures p in files && q in files && Compare(policy, files[p], files[q]) <= 0
    ensures Before(RankOf(policy, files[q]), RankOf(policy, files[p]))
  {
    hide Compare, RankOf, TellsApart, FirstDifference, Before;
    var a, b :| a in files && b in files && !TellsApart(policy, files[a], files[b]);
    CompareIsLexicographicExactly(policy, files[a], files[b]);
    SignsAreOpposite(policy, files[a], files[b]);
    if Before(RankOf(policy, files[b]), RankOf(policy, files[a])) {
      p, q := a, b;
    } else {
      p, q := b, a;
    }
  }

  lemma {:induction false} InsertPutsBefore(policy: Policy, files: FileMap, p: Path, order: seq<Path>, q: Path)
    returns (i: nat, j: nat)
    requires p in files && (forall r :: r in order ==> r in files) && q in order
    requires Compare(policy, files[p], files[q]) <= 0
    ensures var s := Insert(policy, files, p, order);
            i < j < |s| && s[i] == p && s[j] == q
  {
    hide Compare;
    if Compare(policy, files[p], files[order[0]]) <= 0 {
      i, j := 0, 1 + IndexOf(order, q);
    } else {
      i, j := InsertPutsBefore(policy, files, p, order[1..], q);
      i, j := i + 1, j + 1;
    }
  }

  /** An array that sorting may leave with p somewhere before q. */
  lemma OrderWith(policy: Policy, files: FileMap, p: Path, q: Path) returns (order: seq<Path>, i: nat, j: nat)
    requires p in files && q in files && p != q && Compare(policy, files[p], files[q]) <= 0
    ensures PolicyOrder(policy, files, order)
    ensures i < j < |order| && order[i] == p && order[j] == q
  {
    hide Compare, Consistent, Insert;
    var rest := OrderOf(policy, files, files.Keys - {p});
    if Consistent(policy, files) {
      InsertKeepsDistinct(policy, files, p, rest);
      InsertKeepsOrder(policy, files, p, rest);
      order := Insert(policy, files, p, rest);
      i, j := InsertPutsBefore(policy, files, p, rest, q);
    } else {
      order, i, j := [p] + rest, 0, 1 + IndexOf(rest, q);
    }
  }

  /** Sorting leaves the files in the order of the policy, whatever it does, exactly if they are told apart. */
  lemma PolicyIsFollowedExactly(policy: Policy, files: FileMap)
    ensures (forall order :: PolicyOrder(policy, files, order) ==> Ranked(policy, files, order))
            <==> AllTold(policy, files)
  {
    hide Compare, Consistent, Ranked, Before, RankOf;
    if AllTold(policy, files) {
      ToldFilesCompareConsistently(policy, files);
      hide AllTold;
      forall order | PolicyOrder(policy, files, order) ensures Ranked(policy, files, order) {
        SortedRanks(policy, files, order);
      }
    } else {
      var p, q := UntoldPair(policy, files);
      Opposite(RankOf(policy, files[p]), RankOf(policy, files[q]));
      var order, i, j := OrderWith(policy, files, p, q);
      OutOfRank(policy, files, order, i, j);
    }
  }

  lemma OutOfRank(policy: Policy, files: FileMap, order: seq<Path>, i: nat, j: nat)
    requires (forall p :: p in order ==> p in files) && i < j < |order|
    requires Before(RankOf(policy, files[order[j]]), RankOf(policy, files[order[i]]))
    ensures !Ranked(policy, files, order)
  {
    hide Before, RankOf;
  }

  /** No victim ranks after a file that is kept. */
  lemma VictimsRankFirst(policy: Policy, files: FileMap, order: seq<Path>, skip: Path, need: int, v: Path, kept: Path)
    requires PolicyOrder(policy, files, order) && AllTold(policy, files)
    requires v in Select(files, order, skip, need)
    requires kept in files && kept != skip && kept !in Select(files, order, skip, need)
    ensures !Before(RankOf(policy, files[kept]), RankOf(policy, files[v]))
  {
    hide Compare, Before, RankOf, TellsApart, Consistent, Total;
    ToldFilesCompareConsistently(policy, files);
    OthersStaySorted(policy, files, order, skip);
    SelectIsTheShortestSufficientPrefix(files, order, skip, need);
    SortedRanks(policy, files, Others(order, skip));
    var victims, others := Select(files, order, skip, need), Others(order, skip);
    hide Select, Others, AllTold;
    var i :| 0 <= i < |victims| && victims[i] == v;
    var j :| 0 <= j < |others| && others[j] == kept;
    assert others[i] == v && i < j;
  }

  lemma {:induction false} SelectHasNoDup(files: FileMap, order: seq<Path>, skip: Path, need: int)
    requires NoDup(order) && forall p :: p in order ==> p in files
    ensures NoDup(Select(files, order, skip, need))
  {
    if need > 0 && order != [] {
      assert order[0] !in order[1..];
      SelectHasNoDup(files, order[1..], skip, need);
      SelectHasNoDup(files, order[1..], skip, need - files[order[0]].size);
    }
  }

  // Sums of sizes

  lemma {:induction false} TotalFrame(files: FileMap, files': FileMap, paths: seq<Path>)
    requires forall p :: p in paths ==> p in files && p in files' && files'[p].size == files[p].size
    ensures Total(files', paths) == Total(files, paths)
  {
    if paths != [] {
      TotalFrame(files, files', paths[1..]);
    }
  }

  lemma {:induction false} TotalUpdate(files: FileMap, p: Path, f: File, paths: seq<Path>)
    requires NoDup(paths) && p in paths && forall q :: q in paths ==> q in files
    ensures Total(files[p := f], paths) == Total(files, paths) - files[p].size + f.size
  {
    if paths[0] == p {
      assert p !in paths[1..];
      TotalFrame(files, files[p := f], paths[1..]);
    } else {
      TotalUpdate(files, p, f, paths[1..]);
    }
  }

  lemma WithoutCons(paths: seq<Path>, p: Path)
    requires p in paths && paths[0] != p
    ensures Without(paths, p) == [paths[0]] + Without(paths[1..], p)
  {
  }

  lemma {:induction false} TotalWithout(files: FileMap, p: Path, paths: seq<Path>)
    requires p in paths && forall q :: q in paths ==> q in files
    ensures forall q :: q in Without(paths, p) ==> q in files
    ensures Total(files, Without(paths, p)) == Total(files, paths) - files[p].size
  {
    if paths[0] == p {
      assert Without(paths, p) == paths[1..];
    } else {
      WithoutCons(paths, p);
      TotalWithout(files, p, paths[1..]);
      hide Without;
      assert Without(paths, p)[1..] == Without(paths[1..], p);
    }
  }

  lemma {:induction false} SizeAtMostTotal(files: FileMap, p: Path, paths: seq<Path>)
    requires p in paths && forall q :: q in paths ==> q in files
    ensures files[p].size <= Total(files, paths)
  {
    if paths[0] != p {
      SizeAtMostTotal(files, p, paths[1..]);
    }
  }
}
