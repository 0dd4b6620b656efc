/** Which processes get a detail row: half the budget by CPU, the rest by memory. */
module TopPids {
  import opened Bytes
  import opened Collections

  datatype Key = Key(pid: nat, cpu: real, mem: nat)

  datatype Order = ByCpu | ByMemory

  predicate CpuBefore(a: Key, b: Key) {
    a.cpu > b.cpu || (a.cpu == b.cpu && (a.mem > b.mem || (a.mem == b.mem && a.pid < b.pid)))
  }

  /** Ties in memory keep their order by CPU. */
  predicate Prior(o: Order, a: Key, b: Key) {
    match o
    case ByCpu => CpuBefore(a, b)
    case ByMemory => a.mem > b.mem || (a.mem == b.mem && CpuBefore(a, b))
  }

  predicate Ranked(o: Order, ks: seq<Key>) {
    forall i, j :: 0 <= i < j < |ks| ==> Prior(o, ks[i], ks[j])
  }

  predicate DistinctPids(ks: seq<Key>) {
    forall i, j :: 0 <= i < j < |ks| ==> ks[i].pid != ks[j].pid
  }

  /** A stable insertion: by memory, equals stay where they were. */
  function Place(o: Order, ks: seq<Key>, x: Key): (more: seq<Key>)
    ensures |more| == |ks| + 1
    ensures forall k :: k in more <==> k in ks || k == x
  {
    Placed(ks, x, (k: Key) => if o.ByCpu? then CpuBefore(x, k) else x.mem > k.mem)
  }

  function Sort(o: Order, ks: seq<Key>): (sorted: seq<Key>)
    ensures |sorted| == |ks|
    ensures forall k :: k in sorted <==> k in ks
  {
    if ks == [] then []
    else
      var last := |ks| - 1;
      assert ks == ks[..last] + [ks[last]];
      Place(o, Sort(o, ks[..last]), ks[last])
  }

  function TwoHalves(sorted: seq<Key>, max: nat): seq<Key>
    requires |sorted| > max
  {
    var budget := max / 2;
    var rest := Sort(ByMemory, sorted[budget..]);
    sorted[..budget] + rest[..Min(max - budget, |rest|)]
  }

  function Select(ks: seq<Key>, max: nat): seq<Key> {
    var sorted := Sort(ByCpu, ks);
    if |sorted| <= max then sorted else Sort(ByCpu, TwoHalves(sorted, max))
  }

  method SortBy(o: Order, ks: seq<Key>) returns (sorted: seq<Key>)
    ensures sorted == Sort(o, ks)
  {
    sorted := [];
    var i := 0;
    while i < |ks|
      invariant i <= |ks| && sorted == Sort(o, ks[..i])
    {
      assert ks[..i + 1][..i] == ks[..i];
      sorted := Place(o, sorted, ks[i]);
      i := i + 1;
    }
    assert ks[..i] == ks;
  }

  method SelectTopPids(ks: seq<Key>, max: nat) returns (pids: seq<nat>)
    ensures |pids| == |Select(ks, max)| && forall i :: 0 <= i < |pids| ==> pids[i] == Select(ks, max)[i].pid
  {
    hide Sort;
    var keys := SortBy(ByCpu, ks);
    if |keys| > max {
      var budget := max / 2;
      var rest := SortBy(ByMemory, keys[budget..]);
      keys := keys[..budget] + rest[..Min(max - budget, |rest|)];
      keys := SortBy(ByCpu, keys);
    }
    pids := seq(|keys|, i requires 0 <= i < |keys| => keys[i].pid);
  }

  // ---------------------------------------------------------------- sorting

  /** What is placed comes, by CPU, after everything there, or the order is by CPU. */
  lemma {:induction false} PlaceRanks(o: Order, ks: seq<Key>, x: Key)
    requires Ranked(o, ks)
    requires forall k :: k in ks ==> k.pid != x.pid && (o.ByMemory? ==> CpuBefore(k, x))
    ensures Ranked(o, Place(o, ks, x))
  {
    if ks != [] {
      var first, rest := ks[0], ks[1..];
      PlaceRanks(o, rest, x);
      var placed := Place(o, ks, x);
      if placed[0] == first && |placed| > 1 && placed == [first] + Place(o, rest, x) {
        forall j | 0 < j < |placed| ensures Prior(o, first, placed[j]) {
          assert placed[j] == Place(o, rest, x)[j - 1] && placed[j] in Place(o, rest, x);
        }
      }
    }
  }

  lemma {:induction false} SortRanks(o: Order, ks: seq<Key>)
    requires DistinctPids(ks) && (o.ByMemory? ==> Ranked(ByCpu, ks))
    ensures Ranked(o, Sort(o, ks))
  {
    if ks != [] {
      var last := |ks| - 1;
      SortRanks(o, ks[..last]);
      forall k | k in Sort(o, ks[..last]) ensures k.pid != ks[last].pid && (o.ByMemory? ==> CpuBefore(k, ks[last])) {
        var i :| 0 <= i < last && ks[..last][i] == k;
        assert ks[i] == k;
      }
      PlaceRanks(o, Sort(o, ks[..last]), ks[last]);
    }
  }

  lemma RankedDistinct(o: Order, ks: seq<Key>)
    requires Ranked(o, ks)
    ensures Distinct(ks)
  {
  }

  // ---------------------------------------------------------------- who is selected

  function Ahead(o: Order, all: set<Key>, x: Key): set<Key> {
    set k | k in all && Prior(o, k, x)
  }

  /** In a ranking, exactly `i` elements are ahead of the `i`th. */
  lemma AheadIsIndex(o: Order, ks: seq<Key>, i: nat)
    requires Ranked(o, ks) && i < |ks|
    ensures |Ahead(o, Elements(ks), ks[i])| == i
  {
    forall k | k in Ahead(o, Elements(ks), ks[i]) ensures k in ks[..i] {
      var j :| 0 <= j < |ks| && ks[j] == k;
    }
    assert Ahead(o, Elements(ks), ks[i]) == Elements(ks[..i]);
    RankedDistinct(o, ks);
    Counted(ks[..i]);
  }

  /** The first `n` of a ranking are those that fewer than `n` are ahead of. */
  lemma TakenIffFewAhead(o: Order, ks: seq<Key>, n: nat, x: Key)
    requires Ranked(o, ks) && n <= |ks| && x in ks
    ensures x in ks[..n] <==> |Ahead(o, Elements(ks), x)| < n
    ensures x in ks[n..] <==> |Ahead(o, Elements(ks), x)| >= n
  {
    var i :| 0 <= i < |ks| && ks[i] == x;
    AheadIsIndex(o, ks, i);
    RankedDistinct(o, ks);
    assert i < n ==> ks[..n][i] == x;
    assert i >= n ==> ks[n..][i - n] == x;
  }

  /** Those in the CPU half of the budget. */
  function CpuHalf(all: set<Key>, max: nat): set<Key> {
    set k | k in all && |Ahead(ByCpu, all, k)| < max / 2
  }

  predicate Chosen(all: set<Key>, max: nat, x: Key) {
    || x in CpuHalf(all, max)
    || |Ahead(ByMemory, all - CpuHalf(all, max), x)| < max - max / 2
  }

  lemma SubsetCount(a: set<Key>, b: set<Key>)
    requires a <= b
    ensures |a| <= |b|
  {
    assert b == a + (b - a);
    assert |b| == |a| + |b - a|;
  }

  lemma DistinctKeys(ks: seq<Key>)
    requires DistinctPids(ks)
    ensures |Elements(ks)| == |ks|
    ensures forall a, b :: a in ks && b in ks && a != b ==> a.pid != b.pid
  {
    Counted(ks);
  }

  lemma RankedKeys(o: Order, sorted: seq<Key>, ks: seq<Key>)
    requires DistinctPids(ks) && Ranked(o, sorted) && forall k :: k in sorted ==> k in ks
    ensures DistinctPids(sorted)
  {
    DistinctKeys(ks);
    RankedDistinct(o, sorted);
    forall i, j | 0 <= i < j < |sorted| ensures sorted[i].pid != sorted[j].pid {
      assert sorted[i] in sorted && sorted[j] in sorted;
    }
  }

  /** Everyone, if there is room; else exactly the chosen, as many as the budget allows, in CPU
      order. */
  lemma SelectMeans(ks: seq<Key>, max: nat)
    requires DistinctPids(ks)
    ensures var all, got := Elements(ks), Select(ks, max);
            && Ranked(ByCpu, got)
            && (forall i, j :: 0 <= i < j < |got| ==>
                  || got[i].cpu > got[j].cpu
                  || (got[i].cpu == got[j].cpu
                      && (got[i].mem > got[j].mem || (got[i].mem == got[j].mem && got[i].pid < got[j].pid))))
            && |got| == Min(|ks|, max)
            && (forall x :: x in got ==> x in ks)
            && (|ks| <= max ==> forall x :: x in ks ==> x in got)
            && (|ks| > max ==> forall x :: x in ks ==> (x in got <==> Chosen(all, max, x)))
  {
    SortRanks(ByCpu, ks);
    if |ks| > max {
      var sorted := Sort(ByCpu, ks);
      var got := TwoHalves(sorted, max);
      RankedKeys(ByCpu, sorted, ks);
      assert Elements(sorted) == Elements(ks);
      TwoHalvesChosen(sorted, max);
      SortRanks(ByCpu, got);
      hide Chosen, Ranked, DistinctPids, Sort, TwoHalves;
      assert Select(ks, max) == Sort(ByCpu, got);
    }
  }

  lemma SplitByCpu(sorted: seq<Key>, max: nat)
    requires Ranked(ByCpu, sorted) && max / 2 <= |sorted|
    ensures Elements(sorted[..max / 2]) == CpuHalf(Elements(sorted), max)
    ensures Elements(sorted[max / 2..]) == Elements(sorted) - CpuHalf(Elements(sorted), max)
  {
    var budget := max / 2;
    assert sorted == sorted[..budget] + sorted[budget..];
    forall x | x in sorted
      ensures x in sorted[..budget] <==> x in CpuHalf(Elements(sorted), max)
      ensures x in sorted[budget..] <==> x !in CpuHalf(Elements(sorted), max)
    {
      TakenIffFewAhead(ByCpu, sorted, budget, x);
    }
  }

  /** The CPU half of a ranking, then the best of the rest by memory. */
  lemma TwoHalvesChosen(sorted: seq<Key>, max: nat)
    requires DistinctPids(sorted) && Ranked(ByCpu, sorted) && |sorted| > max
    ensures var got := TwoHalves(sorted, max);
            && |got| == max && DistinctPids(got)
            && (forall x :: x in got ==> x in sorted)
            && (forall x :: x in sorted ==> (x in got <==> Chosen(Elements(sorted), max, x)))
  {
    var budget := max / 2;
    var all, half, others := Elements(sorted), sorted[..budget], sorted[budget..];
    var rest := Sort(ByMemory, others);
    SortRanks(ByMemory, others);
    SplitByCpu(sorted, max);
    Halves(sorted, rest, budget, max - budget);
    hide Sort, Ranked, DistinctPids, CpuHalf, Ahead, Chosen;
    assert sorted == half + others;
    assert Elements(rest) == Elements(others);
    forall x | x in sorted ensures x in half + rest[..max - budget] <==> Chosen(all, max, x) {
      InHalves(all, max, half, rest, x);
    }
    assert forall x :: x in rest[..max - budget] ==> x in rest;
  }

  lemma InHalves(all: set<Key>, max: nat, half: seq<Key>, rest: seq<Key>, x: Key)
    requires Ranked(ByMemory, rest) && max - max / 2 <= |rest|
    requires Elements(half) == CpuHalf(all, max) && Elements(rest) == all - CpuHalf(all, max)
    requires x in half || x in rest
    ensures x in half + rest[..max - max / 2] <==> Chosen(all, max, x)
  {
    hide Ranked, CpuHalf, Ahead;
    assert x in half <==> x in Elements(half);
    if x in rest { TakenIffFewAhead(ByMemory, rest, max - max / 2, x); }
  }

  lemma Halves(sorted: seq<Key>, rest: seq<Key>, budget: nat, n: nat)
    requires DistinctPids(sorted) && budget <= |sorted| && n <= |rest|
    requires Ranked(ByMemory, rest) && forall k :: k in rest <==> k in sorted[budget..]
    ensures DistinctPids(sorted[..budget] + rest[..n])
  {
    var half, taken := sorted[..budget], rest[..n];
    forall k | k in taken ensures exists j :: budget <= j < |sorted| && sorted[j] == k {
      assert k in rest && k in sorted[budget..];
      var j :| 0 <= j < |sorted[budget..]| && sorted[budget..][j] == k;
      assert sorted[budget + j] == k;
    }
    RankedKeys(ByMemory, rest, sorted);
    forall i, j | 0 <= i < j < |half + taken| ensures (half + taken)[i].pid != (half + taken)[j].pid {
      if i < |half| <= j {
        assert taken[j - |half|] in taken;
      }
    }
  }

  /** However busy the machine, the biggest memory users keep their place, and so do the biggest
      CPU users. */
  lemma NeitherHalfIsPushedOut(ks: seq<Key>, max: nat, x: Key)
    requires DistinctPids(ks) && x in ks
    requires || |Ahead(ByCpu, Elements(ks), x)| < max / 2
             || |Ahead(ByMemory, Elements(ks), x)| < max - max / 2
    ensures x in Select(ks, max)
  {
    SelectMeans(ks, max);
    var all := Elements(ks);
    SubsetCount(Ahead(ByMemory, all - CpuHalf(all, max), x), Ahead(ByMemory, all, x));
  }

  /** Who is ahead of `x`: by CPU, whoever uses more, or as much and holds more, or as much of both
      and has the smaller pid; by memory, whoever holds more, or as much and is ahead by CPU. */
  lemma AheadMeans(all: set<Key>, x: Key)
    ensures Ahead(ByCpu, all, x)
         == set k | k in all
                    && (|| k.cpu > x.cpu || (k.cpu == x.cpu && k.mem > x.mem)
                        || (k.cpu == x.cpu && k.mem == x.mem && k.pid < x.pid))
    ensures Ahead(ByMemory, all, x)
         == set k | k in all
                    && (|| k.mem > x.mem || (k.mem == x.mem && k.cpu > x.cpu)
                        || (k.mem == x.mem && k.cpu == x.cpu && k.pid < x.pid))
  {
  }
}
