/** Summing a process table per tree root, and ranking the sums. */
module ProcessGroups {
  import opened Bytes
  import opened Collections
  import opened ProcessTree

  datatype Totals = Totals(
    root: Pid, count: nat, cpu: real, mem: nat, footprintSum: nat, anyFootprint: bool,
    read: Option<nat>, written: Option<nat>)

  // ---------------------------------------------------------------- accumulation

  function Fresh(root: Pid): Totals {
    Totals(root, 0, 0.0, 0, 0, false, None, None)
  }

  function HeldBytes(node: Node): nat {
    match node.footprint case Some(f) => f case None => node.mem
  }

  function Add(entry: Totals, node: Node): Totals {
    Totals(
      entry.root, entry.count + 1, entry.cpu + node.cpu,
      SaturatingAdd(entry.mem, node.mem),
      SaturatingAdd(entry.footprintSum, HeldBytes(node)),
      entry.anyFootprint || node.footprint.Some?,
      if node.io.None? then entry.read else Some(SaturatingAdd(OrZero(entry.read), node.io.value.0)),
      if node.io.None? then entry.written else Some(SaturatingAdd(OrZero(entry.written), node.io.value.1)))
  }

  /** One entry per root, filled in place as the table is listed. */
  method SumGroups(table: Table, roots: map<Pid, Pid>, order: seq<Pid>) returns (totals: map<Pid, Totals>)
    requires IsOrder(table, order) && table.Keys <= roots.Keys
    ensures Tallied(table, roots, table.Keys, totals)
  {
    totals := map[];
    ghost var seen: set<Pid> := {};
    TallyNothing(table, roots);
    hide Tallied, Add;
    var i := 0;
    while i < |order|
      invariant i <= |order|
      invariant forall p :: p in seen <==> exists j :: 0 <= j < i && order[j] == p
      invariant Tallied(table, roots, seen, totals)
    {
      var pid := order[i];
      var root := roots[pid];
      var entry := if root in totals then totals[root] else Fresh(root);
      TallyStep(table, roots, seen, totals, pid);
      totals := totals[root := Add(entry, table[pid])];
      seen := seen + {pid};
      i := i + 1;
    }
    assert seen == table.Keys;
  }

  // ---------------------------------------------------------------- what a group's totals mean

  function Members(pids: set<Pid>, roots: map<Pid, Pid>, root: Pid): set<Pid> {
    set p | p in pids && p in roots && roots[p] == root
  }

  function RootSet(table: Table, roots: map<Pid, Pid>): set<Pid> {
    set p | p in table && p in roots :: roots[p]
  }

  datatype Figure = Resident | BestFootprint | ReadBytes | WrittenBytes

  function Value(table: Table, figure: Figure, p: Pid): nat {
    if p !in table then 0
    else
      match figure
      case Resident => table[p].mem
      case BestFootprint => HeldBytes(table[p])
      case ReadBytes => if table[p].io.Some? then table[p].io.value.0 else 0
      case WrittenBytes => if table[p].io.Some? then table[p].io.value.1 else 0
  }

  /** The exact sum of a figure over a set of processes. */
  ghost function Sum(table: Table, figure: Figure, pids: set<Pid>): nat {
    if pids == {} then 0
    else
      var p :| p in pids;
      Value(table, figure, p) + Sum(table, figure, pids - {p})
  }

  lemma {:induction false} SumTakes(table: Table, figure: Figure, pids: set<Pid>, p: Pid)
    requires p in pids
    ensures Sum(table, figure, pids) == Value(table, figure, p) + Sum(table, figure, pids - {p})
  {
    var q :| q in pids && Sum(table, figure, pids) == Value(table, figure, q) + Sum(table, figure, pids - {q});
    hide Value;
    if q != p {
      SumTakes(table, figure, pids - {q}, p);
      SumTakes(table, figure, pids - {p}, q);
      assert pids - {q} - {p} == pids - {p} - {q};
    }
  }

  function Cpu(table: Table, p: Pid): real {
    if p in table then table[p].cpu else 0.0
  }

  ghost function CpuSum(table: Table, pids: set<Pid>): real {
    if pids == {} then 0.0
    else
      var p :| p in pids;
      Cpu(table, p) + CpuSum(table, pids - {p})
  }

  lemma {:induction false} CpuTakes(table: Table, pids: set<Pid>, p: Pid)
    requires p in pids
    ensures CpuSum(table, pids) == Cpu(table, p) + CpuSum(table, pids - {p})
  {
    var q :| q in pids && CpuSum(table, pids) == Cpu(table, q) + CpuSum(table, pids - {q});
    hide Cpu;
    if q != p {
      CpuTakes(table, pids - {q}, p);
      CpuTakes(table, pids - {p}, q);
      assert pids - {q} - {p} == pids - {p} - {q};
    }
  }

  predicate HasIo(table: Table, pids: set<Pid>) {
    exists p :: p in pids && p in table && table[p].io.Some?
  }

  predicate HasFootprint(table: Table, pids: set<Pid>) {
    exists p :: p in pids && p in table && table[p].footprint.Some?
  }

  ghost function IoSum(table: Table, figure: Figure, pids: set<Pid>): Option<nat> {
    if HasIo(table, pids) then Some(Capped(Sum(table, figure, pids))) else None
  }

  /** A group's totals, said of the set of its members alone. */
  ghost function Summary(table: Table, root: Pid, pids: set<Pid>): Totals {
    Totals(root, |pids|, CpuSum(table, pids), Capped(Sum(table, Resident, pids)),
           Capped(Sum(table, BestFootprint, pids)), HasFootprint(table, pids),
           IoSum(table, ReadBytes, pids), IoSum(table, WrittenBytes, pids))
  }

  /** Without disk IO anywhere in a set, its IO sums are zero. */
  lemma {:induction false} NoIo(table: Table, figure: Figure, pids: set<Pid>)
    requires !HasIo(table, pids) && (figure == ReadBytes || figure == WrittenBytes)
    ensures Sum(table, figure, pids) == 0
  {
    if pids != {} {
      var p :| p in pids;
      SumTakes(table, figure, pids, p);
      NoIo(table, figure, pids - {p});
    }
  }

  lemma IoAdds(table: Table, figure: Figure, pids: set<Pid>, p: Pid)
    requires p !in pids && p in table && (figure == ReadBytes || figure == WrittenBytes)
    ensures IoSum(table, figure, pids + {p})
         == if table[p].io.None? then IoSum(table, figure, pids)
            else Some(SaturatingAdd(OrZero(IoSum(table, figure, pids)), Value(table, figure, p)))
  {
    assert pids + {p} - {p} == pids;
    SumTakes(table, figure, pids + {p}, p);
    if !HasIo(table, pids) { NoIo(table, figure, pids); }
    assert HasIo(table, pids + {p}) <==> HasIo(table, pids) || table[p].io.Some?;
  }

  lemma SummaryAdds(table: Table, root: Pid, pids: set<Pid>, p: Pid)
    requires p !in pids && p in table
    ensures Summary(table, root, pids + {p}) == Add(Summary(table, root, pids), table[p])
  {
    assert HasFootprint(table, pids + {p}) <==> HasFootprint(table, pids) || table[p].footprint.Some?;
    hide Sum, CpuSum, IoSum, HasFootprint, HasIo;
    assert pids + {p} - {p} == pids;
    SumTakes(table, Resident, pids + {p}, p);
    SumTakes(table, BestFootprint, pids + {p}, p);
    CpuTakes(table, pids + {p}, p);
    IoAdds(table, ReadBytes, pids, p);
    IoAdds(table, WrittenBytes, pids, p);
  }

  /** What the figures of a group are, member by member: nothing for no members, and each member
      counts once, adds its CPU and its resident memory, its footprint or else its resident
      memory, and its disk traffic if that is known, every sum but CPU stopping at the largest
      64-bit value. */
  lemma FiguresAdd(table: Table, root: Pid, pids: set<Pid>, p: Pid)
    requires p !in pids && p in table
    ensures var none := Summary(table, root, {});
            none.count == 0 && none.cpu == 0.0 && none.mem == none.footprintSum == 0 && !none.anyFootprint
            && none.read == none.written == None
    ensures var was, now, node := Summary(table, root, pids), Summary(table, root, pids + {p}), table[p];
            && now.root == root && now.count == was.count + 1 && now.cpu == was.cpu + node.cpu
            && now.mem == Min(was.mem + node.mem, 0xFFFF_FFFF_FFFF_FFFF)
            && now.footprintSum
               == Min(was.footprintSum + (if node.footprint.Some? then node.footprint.value else node.mem),
                      0xFFFF_FFFF_FFFF_FFFF)
            && (now.anyFootprint <==> was.anyFootprint || node.footprint.Some?)
            && (node.io.None? ==> now.read == was.read && now.written == was.written)
            && (node.io.Some? ==>
                  && now.read == Some(Min(OrZero(was.read) + node.io.value.0, 0xFFFF_FFFF_FFFF_FFFF))
                  && now.written == Some(Min(OrZero(was.written) + node.io.value.1, 0xFFFF_FFFF_FFFF_FFFF)))
  {
    SummaryOfNone(table, root);
    SummaryAdds(table, root, pids, p);
    hide Summary;
  }

  /** There is an entry for exactly the roots of `pids`, each the summary of its members. */
  ghost predicate Tallied(table: Table, roots: map<Pid, Pid>, pids: set<Pid>, totals: map<Pid, Totals>) {
    forall r ::
      && (r in totals <==> Members(pids, roots, r) != {})
      && (r in totals ==> totals[r] == Summary(table, r, Members(pids, roots, r)))
  }

  lemma TallyNothing(table: Table, roots: map<Pid, Pid>)
    ensures Tallied(table, roots, {}, map[])
  {
  }

  lemma TallyStep(table: Table, roots: map<Pid, Pid>, pids: set<Pid>, totals: map<Pid, Totals>, p: Pid)
    requires Tallied(table, roots, pids, totals) && p !in pids && p in table && p in roots
    ensures var entry := if roots[p] in totals then totals[roots[p]] else Fresh(roots[p]);
            Tallied(table, roots, pids + {p}, totals[roots[p] := Add(entry, table[p])])
  {
    hide Summary, Add, Members, Fresh;
    var root := roots[p];
    var was := Members(pids, roots, root);
    SummaryOfNone(table, root);
    assert p !in was by { MembersNext(pids, roots, p); }
    SummaryAdds(table, root, was, p);
    MembersNext(pids, roots, p);
  }

  lemma SummaryOfNone(table: Table, root: Pid)
    ensures Summary(table, root, {}) == Fresh(root)
  {
  }

  lemma MembersNext(pids: set<Pid>, roots: map<Pid, Pid>, p: Pid)
    requires p !in pids && p in roots
    ensures p !in Members(pids, roots, roots[p])
    ensures Members(pids + {p}, roots, roots[p]) == Members(pids, roots, roots[p]) + {p}
    ensures forall r :: r != roots[p] ==> Members(pids + {p}, roots, r) == Members(pids, roots, r)
  {
    forall r | r != roots[p] ensures Members(pids + {p}, roots, r) == Members(pids, roots, r) { }
  }

  // ---------------------------------------------------------------- the groups partition the table

  /** The sizes of the groups of `rs`, added up. */
  ghost function SizeSum(pids: set<Pid>, roots: map<Pid, Pid>, rs: set<Pid>): nat {
    if rs == {} then 0
    else
      var r :| r in rs;
      |Members(pids, roots, r)| + SizeSum(pids, roots, rs - {r})
  }

  lemma {:induction false} SizeTakes(pids: set<Pid>, roots: map<Pid, Pid>, rs: set<Pid>, r: Pid)
    requires r in rs
    ensures SizeSum(pids, roots, rs) == |Members(pids, roots, r)| + SizeSum(pids, roots, rs - {r})
  {
    var q :| q in rs && SizeSum(pids, roots, rs) == |Members(pids, roots, q)| + SizeSum(pids, roots, rs - {q});
    hide Members;
    if q != r {
      SizeTakes(pids, roots, rs - {q}, r);
      SizeTakes(pids, roots, rs - {r}, q);
      assert rs - {q} - {r} == rs - {r} - {q};
    }
  }

  lemma {:induction false} SizeWithout(pids: set<Pid>, roots: map<Pid, Pid>, rs: set<Pid>, p: Pid)
    requires p in pids && p in roots
    ensures SizeSum(pids, roots, rs) == SizeSum(pids - {p}, roots, rs) + if roots[p] in rs then 1 else 0
  {
    if rs != {} {
      var r :| r in rs;
      SizeTakes(pids, roots, rs, r);
      SizeTakes(pids - {p}, roots, rs, r);
      SizeWithout(pids, roots, rs - {r}, p);
      if r == roots[p] {
        assert Members(pids, roots, r) == Members(pids - {p}, roots, r) + {p};
      } else {
        assert Members(pids, roots, r) == Members(pids - {p}, roots, r);
      }
    }
  }

  lemma {:induction false} SizeZero(roots: map<Pid, Pid>, rs: set<Pid>)
    ensures SizeSum({}, roots, rs) == 0
  {
    if rs != {} {
      var r :| r in rs;
      SizeTakes({}, roots, rs, r);
      SizeZero(roots, rs - {r});
    }
  }

  /** Every process is in exactly one group: the group sizes add up to the table. */
  lemma {:induction false} GroupsPartition(pids: set<Pid>, roots: map<Pid, Pid>, rs: set<Pid>)
    requires forall p :: p in pids ==> p in roots && roots[p] in rs
    ensures SizeSum(pids, roots, rs) == |pids|
  {
    if pids == {} {
      SizeZero(roots, rs);
    } else {
      var p :| p in pids;
      GroupsPartition(pids - {p}, roots, rs);
      SizeWithout(pids, roots, rs, p);
    }
  }

  // ---------------------------------------------------------------- ranking

  /** CPU first, then memory, then the lower pid. */
  predicate Before(a: Totals, b: Totals) {
    a.cpu > b.cpu || (a.cpu == b.cpu && (a.mem > b.mem || (a.mem == b.mem && a.root < b.root)))
  }

  predicate Ranked(gs: seq<Totals>) {
    forall i, j :: 0 <= i < j < |gs| ==> Before(gs[i], gs[j])
  }

  function Place(gs: seq<Totals>, g: Totals): seq<Totals> {
    Placed(gs, g, (x: Totals) => Before(g, x))
  }

  lemma {:induction false} PlaceKeepsRank(gs: seq<Totals>, g: Totals)
    requires Ranked(gs) && forall i :: 0 <= i < |gs| ==> gs[i].root != g.root
    ensures Ranked(Place(gs, g))
    ensures forall x :: x in Place(gs, g) <==> x in gs || x == g
  {
    if gs == [] || Before(g, gs[0]) {
    } else {
      PlaceKeepsRank(gs[1..], g);
      var rest := Place(gs[1..], g);
      assert gs == [gs[0]] + gs[1..];
      forall i | 0 <= i < |rest| ensures Before(gs[0], rest[i]) {
        assert rest[i] in rest;
      }
    }
  }

  /** The ranking of the entries of `totals` for the roots `rs`. */
  ghost predicate Ranks(totals: map<Pid, Totals>, rs: set<Pid>, gs: seq<Totals>) {
    && Ranked(gs)
    && (forall r :: r in rs ==> r in totals && totals[r] in gs)
    && (forall x :: x in gs ==> x.root in rs && x.root in totals && totals[x.root] == x)
  }

  lemma RanksNext(totals: map<Pid, Totals>, rs: set<Pid>, gs: seq<Totals>, r: Pid)
    requires Ranks(totals, rs, gs) && r !in rs && r in totals && totals[r].root == r
    ensures Ranks(totals, rs + {r}, Place(gs, totals[r]))
  {
    forall i | 0 <= i < |gs| ensures gs[i].root != r { assert gs[i] in gs; }
    PlaceKeepsRank(gs, totals[r]);
  }

  /** There is one ranking: the sort has nothing to choose. */
  lemma {:induction false} RankingUnique(a: seq<Totals>, b: seq<Totals>)
    requires Ranked(a) && Ranked(b) && forall x :: x in a <==> x in b
    ensures a == b
  {
    assert a != [] ==> a[0] in a && a[0] in b;
    assert b != [] ==> b[0] in b && b[0] in a;
    if a != [] {
      assert a[0] == b[0];
      RankedTail(a);
      RankedTail(b);
      RankingUnique(a[1..], b[1..]);
    }
  }

  lemma RankedTail(a: seq<Totals>)
    requires Ranked(a) && a != []
    ensures Ranked(a[1..])
    ensures forall x :: x in a[1..] <==> x in a && x != a[0]
  {
    assert a == [a[0]] + a[1..];
    forall x | x in a[1..] ensures x != a[0] {
      var i :| 0 <= i < |a[1..]| && a[1..][i] == x;
      assert Before(a[0], a[i + 1]);
    }
  }

  /** The totals of each root of a whole table, ranked: what the source truncates. */
  ghost predicate IsRanking(table: Table, roots: map<Pid, Pid>, gs: seq<Totals>) {
    exists totals :: Tallied(table, roots, table.Keys, totals) && Ranks(totals, totals.Keys, gs)
  }

  /** The sort: entries taken up in any order end in their one ranking. */
  method RankAll(totals: map<Pid, Totals>) returns (groups: seq<Totals>)
    requires forall r :: r in totals ==> totals[r].root == r
    ensures Ranks(totals, totals.Keys, groups)
  {
    RanksNothing(totals);
    hide Ranks, Place;
    var left := totals.Keys;
    groups := [];
    assert totals.Keys - left == {};
    while left != {}
      invariant left <= totals.Keys
      invariant Ranks(totals, totals.Keys - left, groups)
      decreases left
    {
      var r :| r in left;
      RanksNext(totals, totals.Keys - left, groups, r);
      assert totals.Keys - left + {r} == totals.Keys - (left - {r});
      groups := Place(groups, totals[r]);
      left := left - {r};
    }
    assert totals.Keys - left == totals.Keys;
  }

  /** The first `max` of the table's ranking. */
  ghost predicate IsTop(table: Table, roots: map<Pid, Pid>, max: nat, groups: seq<Totals>) {
    exists all :: IsRanking(table, roots, all) && groups == if |all| <= max then all else all[..max]
  }

  /** Aggregation of a whole table: the memoised roots, one entry per root, ranked, cut to
      `max`. */
  method Aggregate(table: Table, order: seq<Pid>, max: nat) returns (groups: seq<Totals>)
    requires IsOrder(table, order)
    ensures IsTop(table, Roots(table, order), max, groups)
  {
    var roots := ResolveRoots(table, order);
    EveryPidHasRoot(table, order);
    var totals := SumGroups(table, roots, order);
    TalliedRoots(table, roots, totals);
    var ranked := RankAll(totals);
    assert IsRanking(table, roots, ranked);
    groups := if |ranked| > max then ranked[..max] else ranked;
  }

  lemma TalliedRoots(table: Table, roots: map<Pid, Pid>, totals: map<Pid, Totals>)
    requires Tallied(table, roots, table.Keys, totals)
    ensures forall r :: r in totals ==> totals[r].root == r
  {
  }

  lemma RanksNothing(totals: map<Pid, Totals>)
    ensures Ranks(totals, {}, [])
  {
  }

  lemma EveryPidHasRoot(table: Table, order: seq<Pid>)
    requires IsOrder(table, order)
    ensures table.Keys <= Roots(table, order).Keys
    ensures var roots := Roots(table, order);
            forall p :: p in table ==> roots[p] in table && roots[p] in RootSet(table, roots)
  {
    RootsSound(table, order);
    forall p | p in table ensures p in Roots(table, order) { assert p in order; }
  }

  /** Every group is the summary of its own members, there is one for every root, and those
      kept come before those cut. */
  lemma RankingMeans(table: Table, roots: map<Pid, Pid>, gs: seq<Totals>)
    requires IsRanking(table, roots, gs) && table.Keys <= roots.Keys
    ensures forall i :: 0 <= i < |gs| ==>
              gs[i].root in RootSet(table, roots)
              && gs[i] == Summary(table, gs[i].root, Members(table.Keys, roots, gs[i].root))
    ensures forall r :: r in RootSet(table, roots) ==> exists i :: 0 <= i < |gs| && gs[i].root == r
    ensures forall i, j :: 0 <= i < j < |gs| ==>
              || gs[i].cpu > gs[j].cpu
              || (gs[i].cpu == gs[j].cpu
                  && (gs[i].mem > gs[j].mem || (gs[i].mem == gs[j].mem && gs[i].root < gs[j].root)))
  {
    var totals :| Tallied(table, roots, table.Keys, totals) && Ranks(totals, totals.Keys, gs);
    hide Summary;
    forall i | 0 <= i < |gs|
      ensures gs[i].root in RootSet(table, roots)
           && gs[i] == Summary(table, gs[i].root, Members(table.Keys, roots, gs[i].root))
    {
      assert gs[i] in gs;
      assert Members(table.Keys, roots, gs[i].root) != {};
      var p :| p in Members(table.Keys, roots, gs[i].root);
    }
    forall r | r in RootSet(table, roots) ensures exists i :: 0 <= i < |gs| && gs[i].root == r {
      var p :| p in table && p in roots && roots[p] == r;
      assert p in Members(table.Keys, roots, r);
      assert totals[r] in gs && totals[r].root == r by { SummaryRoot(table, r, Members(table.Keys, roots, r)); }
      var i :| 0 <= i < |gs| && gs[i] == totals[r];
    }
  }

  lemma SummaryRoot(table: Table, r: Pid, pids: set<Pid>)
    ensures Summary(table, r, pids).root == r && Summary(table, r, pids).count == |pids|
  {
  }

  /** When no chain is too long, the groups reported do not depend on the order the table is
      listed in. */
  lemma GroupsIndependentOfOrder(table: Table, o: seq<Pid>, p: seq<Pid>, max: nat, c: seq<Totals>, d: seq<Totals>)
    requires Short(table) && IsOrder(table, o) && IsOrder(table, p)
    requires IsTop(table, Roots(table, o), max, c) && IsTop(table, Roots(table, p), max, d)
    ensures c == d
  {
    hide Roots, IsRanking, Short, IsOrder;
    var a :| IsRanking(table, Roots(table, o), a) && c == if |a| <= max then a else a[..max];
    var b :| IsRanking(table, Roots(table, p), b) && d == if |b| <= max then b else b[..max];
    RankingsAgree(table, o, p, a, b);
  }

  lemma RankingsAgree(table: Table, o: seq<Pid>, p: seq<Pid>, a: seq<Totals>, b: seq<Totals>)
    requires Short(table) && IsOrder(table, o) && IsOrder(table, p)
    requires IsRanking(table, Roots(table, o), a) && IsRanking(table, Roots(table, p), b)
    ensures a == b
  {
    ShortAgrees(table, o);
    ShortAgrees(table, p);
    var f, g := Roots(table, o), Roots(table, p);
    forall pid | pid in table ensures pid in f && pid in g && f[pid] == g[pid] {
      PlainRootUnique(table, pid, f[pid], g[pid]);
    }
    hide Summary, Roots, Short, IsPlainRoot, IsOrder, Tallied, Ranks;
    var s :| Tallied(table, f, table.Keys, s) && Ranks(s, s.Keys, a);
    var t :| Tallied(table, g, table.Keys, t) && Ranks(t, t.Keys, b);
    SameTallies(table, f, g, s, t);
    SameRanking(s, a, b);
  }

  lemma SameTallies(table: Table, f: map<Pid, Pid>, g: map<Pid, Pid>, s: map<Pid, Totals>, t: map<Pid, Totals>)
    requires forall pid :: pid in table ==> pid in f && pid in g && f[pid] == g[pid]
    requires Tallied(table, f, table.Keys, s) && Tallied(table, g, table.Keys, t)
    ensures s == t
  {
    hide Summary;
    forall r ensures Members(table.Keys, f, r) == Members(table.Keys, g, r) { }
  }

  lemma SameRanking(totals: map<Pid, Totals>, a: seq<Totals>, b: seq<Totals>)
    requires Ranks(totals, totals.Keys, a) && Ranks(totals, totals.Keys, b)
    ensures a == b
  {
    RankingUnique(a, b);
  }

  /** The counts of the groups, added up. */
  function CountSum(gs: seq<Totals>): nat {
    if gs == [] then 0 else gs[0].count + CountSum(gs[1..])
  }

  function RootsIn(gs: seq<Totals>): set<Pid> {
    set i | 0 <= i < |gs| :: gs[i].root
  }

  lemma {:induction false} CountsAreSizes(table: Table, roots: map<Pid, Pid>, gs: seq<Totals>)
    requires forall i :: 0 <= i < |gs| ==> gs[i].count == |Members(table.Keys, roots, gs[i].root)|
    requires forall i, j :: 0 <= i < j < |gs| ==> gs[i].root != gs[j].root
    ensures CountSum(gs) == SizeSum(table.Keys, roots, RootsIn(gs))
  {
    hide Members;
    if gs != [] {
      CountsAreSizes(table, roots, gs[1..]);
      var r := gs[0].root;
      assert gs[0].root in RootsIn(gs);
      SizeTakes(table.Keys, roots, RootsIn(gs), r);
      assert RootsIn(gs) - {r} == RootsIn(gs[1..]) by { RootsTail(gs); }
    }
  }

  lemma RootsTail(gs: seq<Totals>)
    requires gs != [] && forall i, j :: 0 <= i < j < |gs| ==> gs[i].root != gs[j].root
    ensures RootsIn(gs) - {gs[0].root} == RootsIn(gs[1..])
  {
    forall r | r in RootsIn(gs) - {gs[0].root} ensures r in RootsIn(gs[1..]) {
      var i :| 0 <= i < |gs| && gs[i].root == r;
      assert gs[1..][i - 1].root == r;
    }
  }

  /** For any table and any order: the counts of the groups, before any are cut, sum to the size
      of the table. */
  lemma CountsCoverTable(table: Table, order: seq<Pid>, gs: seq<Totals>)
    requires IsOrder(table, order) && IsRanking(table, Roots(table, order), gs)
    ensures CountSum(gs) == |table.Keys|
  {
    hide Roots, IsOrder, IsRanking, SizeSum, CountSum;
    var roots := Roots(table, order);
    EveryPidHasRoot(table, order);
    RankingCounts(table, roots, gs);
    CountsAreSizes(table, roots, gs);
    GroupsPartition(table.Keys, roots, RootSet(table, roots));
  }

  lemma RankingCounts(table: Table, roots: map<Pid, Pid>, gs: seq<Totals>)
    requires IsRanking(table, roots, gs) && table.Keys <= roots.Keys
    ensures forall i :: 0 <= i < |gs| ==> gs[i].count == |Members(table.Keys, roots, gs[i].root)|
    ensures forall i, j :: 0 <= i < j < |gs| ==> gs[i].root != gs[j].root
    ensures RootsIn(gs) == RootSet(table, roots)
  {
    hide Summary, IsRanking, Members, RootSet;
    RankingMeans(table, roots, gs);
    forall i | 0 <= i < |gs| ensures gs[i].count == |Members(table.Keys, roots, gs[i].root)| {
      SummaryRoot(table, gs[i].root, Members(table.Keys, roots, gs[i].root));
    }
    assert forall g: Totals :: !Before(g, g);
    forall i, j | 0 <= i < j < |gs| ensures gs[i].root != gs[j].root { assert Before(gs[i], gs[j]); }
  }

  // ---------------------------------------------------------------- when the groups depend on the order

  lemma {:induction false} SomeTally(table: Table, roots: map<Pid, Pid>, pids: set<Pid>)
      returns (totals: map<Pid, Totals>)
    requires pids <= table.Keys && pids <= roots.Keys
    ensures Tallied(table, roots, pids, totals)
  {
    hide Tallied, Add;
    if pids == {} {
      totals := map[];
      TallyNothing(table, roots);
    } else {
      var p :| p in pids;
      var before := SomeTally(table, roots, pids - {p});
      var entry := if roots[p] in before then before[roots[p]] else Fresh(roots[p]);
      TallyStep(table, roots, pids - {p}, before, p);
      assert pids - {p} + {p} == pids;
      totals := before[roots[p] := Add(entry, table[p])];
    }
  }

  lemma {:induction false} SomeRanks(totals: map<Pid, Totals>, rs: set<Pid>) returns (gs: seq<Totals>)
    requires rs <= totals.Keys && forall r :: r in totals ==> totals[r].root == r
    ensures Ranks(totals, rs, gs)
  {
    hide Ranks;
    if rs == {} {
      gs := [];
      RanksNothing(totals);
    } else {
      var r :| r in rs;
      var before := SomeRanks(totals, rs - {r});
      RanksNext(totals, rs - {r}, before, r);
      assert rs - {r} + {r} == rs;
      gs := Place(before, totals[r]);
    }
  }

  /** Every table has a ranking, whatever the order. */
  lemma SomeRanking(table: Table, order: seq<Pid>) returns (gs: seq<Totals>)
    requires IsOrder(table, order)
    ensures IsRanking(table, Roots(table, order), gs)
  {
    var roots := Roots(table, order);
    RootsKeys(table, order);
    var totals := SomeTally(table, roots, table.Keys);
    TalliedRoots(table, roots, totals);
    hide Tallied, Ranks, Roots, IsOrder;
    gs := SomeRanks(totals, totals.Keys);
  }

  /** On a table with a chain that is too long, two orders report different groups: a root of one
      is no root in the other. */
  lemma TwoRankings(table: Table, pid: Pid) returns (o: seq<Pid>, p: seq<Pid>, a: seq<Totals>, b: seq<Totals>)
    requires pid in table && Ancestor(table, pid, PATH_CAP).Some?
    ensures IsOrder(table, o) && IsOrder(table, p) && a != b
    ensures IsRanking(table, Roots(table, o), a) && IsRanking(table, Roots(table, p), b)
  {
    o, p := TwoOrders(table, pid);
    a := SomeRanking(table, o);
    b := SomeRanking(table, p);
    var f, g := Roots(table, o), Roots(table, p);
    var x := f[pid];
    RootsSound(table, p);
    RootsKeys(table, o);
    RootsKeys(table, p);
    RankingMeans(table, f, a);
    RankingMeans(table, g, b);
    hide Roots, Summary, IsRanking, IsOrder, Ancestor, Reaches, Up;
    assert x in RootSet(table, f) && x !in RootSet(table, g);
    var i :| 0 <= i < |a| && a[i].root == x;
    assert forall k :: 0 <= k < |b| ==> b[k].root != x;
  }

  /** Groups reported for two orders of one table. */
  ghost predicate BothTop(table: Table, o: seq<Pid>, p: seq<Pid>, max: nat, c: seq<Totals>, d: seq<Totals>) {
    && IsOrder(table, o) && IsOrder(table, p)
    && IsTop(table, Roots(table, o), max, c) && IsTop(table, Roots(table, p), max, d)
  }

  /** The groups reported do not depend on the order the table is listed in exactly when no
      chain has more than 512 nodes. */
  lemma GroupsIndependentIffShort(table: Table)
    ensures Short(table) <==>
              forall o, p, max, c, d | BothTop(table, o, p, max, c, d) :: c == d
  {
    hide BothTop, Ancestor;
    if Short(table) {
      forall o, p, max, c, d | BothTop(table, o, p, max, c, d) ensures c == d {
        TopsAgree(table, o, p, max, c, d);
      }
    } else {
      var pid :| pid in table && Ancestor(table, pid, PATH_CAP) != None;
      var o, p, max, c, d := TopsDiffer(table, pid);
    }
  }

  lemma TopsAgree(table: Table, o: seq<Pid>, p: seq<Pid>, max: nat, c: seq<Totals>, d: seq<Totals>)
    requires Short(table) && BothTop(table, o, p, max, c, d)
    ensures c == d
  {
    hide Short, IsTop, IsOrder, Roots;
    GroupsIndependentOfOrder(table, o, p, max, c, d);
  }

  lemma TopsDiffer(table: Table, pid: Pid)
      returns (o: seq<Pid>, p: seq<Pid>, max: nat, c: seq<Totals>, d: seq<Totals>)
    requires pid in table && Ancestor(table, pid, PATH_CAP).Some?
    ensures BothTop(table, o, p, max, c, d) && c != d
  {
    hide Roots, IsRanking, IsOrder, Ancestor;
    o, p, c, d := TwoRankings(table, pid);
    max := |c| + |d|;
  }
}
