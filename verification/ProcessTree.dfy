/** Grouping the process table into applications: every process is resolved to the root of its
    tree, with one memo shared by all the climbs.

    The table may be anything at all: parents may be missing, recycled, or in a cycle. */
module ProcessTree {
  import opened Bytes

  type Pid = nat

  datatype Node = Node(
    parent: Option<Pid>, boundary: bool, start: nat, cpu: real, mem: nat,
    footprint: Option<nat>, io: Option<(nat, nat)>)

  type Table = map<Pid, Node>

  const INIT_PID := 1
  const PATH_CAP := 512

  predicate PlausibleParent(table: Table, child: Pid, parent: Pid) {
    && child in table && parent in table
    && (table[child].start == 0 || table[parent].start == 0 || table[parent].start <= table[child].start)
  }

  /** The link a climb follows from `pid`, but for the cap on its length. */
  function Up(table: Table, pid: Pid): (up: Option<Pid>)
    ensures up.Some? ==> pid in table && up.value in table && PlausibleParent(table, pid, up.value)
  {
    if pid in table && table[pid].parent.Some? then
      var parent := table[pid].parent.value;
      if parent != INIT_PID && !(parent in table && table[parent].boundary) && parent != pid
         && PlausibleParent(table, pid, parent)
      then Some(parent) else None
    else None
  }

  /** One climb from `current`: its root, and the pids it passed that the memo did not know. */
  function Climb(table: Table, roots: map<Pid, Pid>, current: Pid, path: seq<Pid>): (Pid, seq<Pid>)
    requires |path| < PATH_CAP
    decreases PATH_CAP - |path|
  {
    if current in roots then (roots[current], path)
    else
      var path := path + [current];
      if Up(table, current).Some? && |path| < PATH_CAP then Climb(table, roots, Up(table, current).value, path)
      else (current, path)
  }

  function Record(roots: map<Pid, Pid>, path: seq<Pid>, root: Pid): map<Pid, Pid> {
    roots + map p | p in path :: root
  }

  /** The memo after climbing from each pid of `order` in turn. */
  function Roots(table: Table, order: seq<Pid>): map<Pid, Pid> {
    if order == [] then map[]
    else
      var known := Roots(table, order[..|order| - 1]);
      var climb := Climb(table, known, order[|order| - 1], []);
      Record(known, climb.1, climb.0)
  }

  /** The resolution as the source runs it; `order` is the order in which the table happens to
      list its keys. */
  method ResolveRoots(table: Table, order: seq<Pid>) returns (roots: map<Pid, Pid>)
    ensures roots == Roots(table, order)
  {
    roots := map[];
    var i := 0;
    while i < |order|
      invariant i <= |order|
      invariant roots == Roots(table, order[..i])
    {
      var current := order[i];
      var path: seq<Pid> := [];
      var root: Option<Pid> := None;
      while root.None?
        invariant root.None? ==> |path| < PATH_CAP
        invariant root.None? ==> Climb(table, roots, order[i], []) == Climb(table, roots, current, path)
        invariant root.Some? ==> Climb(table, roots, order[i], []) == (root.value, path)
        decreases PATH_CAP - |path|, root.None?
      {
        if current in roots {
          root := Some(roots[current]);
        } else {
          path := path + [current];
          var up := Up(table, current);
          if up.Some? && |path| < PATH_CAP {
            current := up.value;
          } else {
            root := Some(current);
          }
        }
      }
      roots := Insert(roots, path, root.value);
      assert order[..i + 1][..i] == order[..i];
      i := i + 1;
    }
    assert order[..i] == order;
  }

  method Insert(roots: map<Pid, Pid>, path: seq<Pid>, root: Pid) returns (r: map<Pid, Pid>)
    ensures r == Record(roots, path, root)
  {
    hide Record;
    RecordNone(roots, path, root);
    r := roots;
    var j := 0;
    while j < |path|
      invariant j <= |path|
      invariant r == Record(roots, path[..j], root)
    {
      RecordNext(roots, path, j, root);
      r := r[path[j] := root];
      j := j + 1;
    }
    assert path[..j] == path;
  }

  lemma RecordNone(roots: map<Pid, Pid>, path: seq<Pid>, root: Pid)
    ensures Record(roots, path[..0], root) == roots
  {
  }

  lemma RecordNext(roots: map<Pid, Pid>, path: seq<Pid>, j: nat, root: Pid)
    requires j < |path|
    ensures Record(roots, path[..j + 1], root) == Record(roots, path[..j], root)[path[j] := root]
  {
    assert path[..j + 1] == path[..j] + [path[j]];
  }

  // ---------------------------------------------------------------- ancestors

  /** The `n`th ancestor of `pid`, counting `pid` as the 0th. */
  function Ancestor(table: Table, pid: Pid, n: nat): Option<Pid> {
    if n == 0 then Some(pid)
    else
      match Ancestor(table, pid, n - 1)
      case None => None
      case Some(p) => Up(table, p)
  }

  ghost predicate Reaches(table: Table, pid: Pid, ancestor: Pid) {
    exists n: nat :: Ancestor(table, pid, n) == Some(ancestor)
  }

  /** The plain ancestor walk's answer: an ancestor with nowhere further to climb. */
  ghost predicate IsPlainRoot(table: Table, pid: Pid, root: Pid) {
    Reaches(table, pid, root) && Up(table, root) == None
  }

  /** No chain of links has more than 512 nodes; in particular there is no cycle. */
  ghost predicate Short(table: Table) {
    forall pid :: pid in table ==> Ancestor(table, pid, PATH_CAP) == None
  }

  lemma AncestorSelf(table: Table, pid: Pid)
    ensures Ancestor(table, pid, 0) == Some(pid)
  {
  }

  lemma {:induction false} AncestorSum(table: Table, pid: Pid, m: nat, n: nat)
    requires Ancestor(table, pid, m).Some?
    ensures Ancestor(table, pid, m + n) == Ancestor(table, Ancestor(table, pid, m).value, n)
  {
    if n > 0 { AncestorSum(table, pid, m, n - 1); }
  }

  lemma {:induction false} AncestorBelow(table: Table, pid: Pid, m: nat, n: nat)
    requires m <= n && Ancestor(table, pid, n).Some?
    ensures Ancestor(table, pid, m).Some?
  {
    if m < n { AncestorBelow(table, pid, m, n - 1); }
  }

  /** There is at most one plain root. */
  lemma PlainRootUnique(table: Table, pid: Pid, a: Pid, b: Pid)
    requires IsPlainRoot(table, pid, a) && IsPlainRoot(table, pid, b)
    ensures a == b
  {
    var m: nat :| Ancestor(table, pid, m) == Some(a);
    var n: nat :| Ancestor(table, pid, n) == Some(b);
    if m < n {
      assert Ancestor(table, pid, m + 1) == None;
      AncestorBelow(table, pid, m + 1, n);
    } else if n < m {
      assert Ancestor(table, pid, n + 1) == None;
      AncestorBelow(table, pid, n + 1, m);
    }
  }

  // ---------------------------------------------------------------- any table

  /** What the memo always satisfies. */
  ghost predicate Sound(table: Table, roots: map<Pid, Pid>) {
    forall p :: p in roots ==>
      && p in table && roots[p] in roots && roots[roots[p]] == roots[p]
      && Reaches(table, p, roots[p])
  }

  /** `path` is the first pids of the climb from `pid`, none of them known. */
  ghost predicate Climbed(table: Table, roots: map<Pid, Pid>, pid: Pid, path: seq<Pid>) {
    forall i :: 0 <= i < |path| ==> Ancestor(table, pid, i) == Some(path[i]) && path[i] !in roots && path[i] in table
  }

  lemma {:induction false} ClimbFinds(table: Table, roots: map<Pid, Pid>, pid: Pid, current: Pid, path: seq<Pid>)
    requires |path| < PATH_CAP && Sound(table, roots) && Climbed(table, roots, pid, path)
    requires current in table && Ancestor(table, pid, |path|) == Some(current)
    ensures var (root, path') := Climb(table, roots, current, path);
            && Climbed(table, roots, pid, path')
            && (if path' == [] then pid in roots else path'[0] == pid)
            && (if root in roots then roots[root] == root else path' != [] && root == path'[|path'| - 1])
            && (exists n: nat :: |path'| <= n + 1 && Ancestor(table, pid, n) == Some(root))
    decreases PATH_CAP - |path|
  {
    if current in roots {
      var n: nat :| Ancestor(table, current, n) == Some(roots[current]);
      AncestorSum(table, pid, |path|, n);
      assert Ancestor(table, pid, |path| + n) == Some(roots[current]);
      if path != [] { assert Ancestor(table, pid, 0) == Some(path[0]); }
    } else {
      var longer := path + [current];
      assert Climbed(table, roots, pid, longer);
      assert Ancestor(table, pid, 0) == Some(longer[0]);
      var up := Up(table, current);
      if up.Some? && |longer| < PATH_CAP {
        assert Ancestor(table, pid, |longer|) == up;
        ClimbFinds(table, roots, pid, up.value, longer);
      } else {
        assert Ancestor(table, pid, |path|) == Some(current);
      }
    }
  }

  /** One more climb keeps what the memo satisfies, changes no entry, and knows its pid. */
  lemma ClimbKeeps(table: Table, roots: map<Pid, Pid>, pid: Pid)
    requires pid in table && Sound(table, roots)
    ensures var climb := Climb(table, roots, pid, []); var after := Record(roots, climb.1, climb.0);
            && Sound(table, after) && pid in after && roots.Keys <= after.Keys
            && (forall p :: p in roots ==> after[p] == roots[p])
            && (pid !in roots ==> after[pid] == climb.0)
            && (forall p :: p in after ==> p in roots || after[p] == climb.0)
  {
    hide Climb, Ancestor, Up;
    assert Ancestor(table, pid, 0) == Some(pid) by { AncestorSelf(table, pid); }
    ClimbFinds(table, roots, pid, pid, []);
    var (root, path) := Climb(table, roots, pid, []);
    var n: nat :| |path| <= n + 1 && Ancestor(table, pid, n) == Some(root);
    var after := Record(roots, path, root);
    forall p | p in after
      ensures p in table && after[p] in after && after[after[p]] == after[p] && Reaches(table, p, after[p])
    {
      if p in path {
        var i :| 0 <= i < |path| && path[i] == p;
        AncestorSum(table, pid, i, n - i);
        assert Ancestor(table, p, n - i) == Some(root);
      }
    }
  }

  /** For any table and any order of its keys: every pid asked for gets a root, which is in the
      table, is its own root, and is reached from the pid by accepted links. */
  lemma {:induction false} RootsSound(table: Table, order: seq<Pid>)
    requires forall i :: 0 <= i < |order| ==> order[i] in table
    ensures Sound(table, Roots(table, order))
    ensures forall i :: 0 <= i < |order| ==> order[i] in Roots(table, order)
  {
    if order != [] {
      var before, pid := order[..|order| - 1], order[|order| - 1];
      RootsSound(table, before);
      ClimbKeeps(table, Roots(table, before), pid);
      hide Climb, Record, Sound;
      forall i | 0 <= i < |order| ensures order[i] in Roots(table, order) {
        if i < |before| { assert order[i] == before[i]; }
      }
    }
  }

  /** The last climb, on its own. */
  lemma RootsLast(table: Table, order: seq<Pid>, pid: Pid)
    requires pid in table && forall i :: 0 <= i < |order| ==> order[i] in table
    ensures Sound(table, Roots(table, order))
    ensures var roots, after := Roots(table, order), Roots(table, order + [pid]);
            && pid in after && roots.Keys <= after.Keys
            && (forall p :: p in roots ==> after[p] == roots[p])
            && (pid !in roots ==> after[pid] == Climb(table, roots, pid, []).0)
  {
    assert (order + [pid])[..|order|] == order;
    RootsSound(table, order);
    ClimbKeeps(table, Roots(table, order), pid);
  }

  /** An answer once given is never changed. */
  lemma {:induction false} RootsStay(table: Table, first: seq<Pid>, later: seq<Pid>)
    requires forall i :: 0 <= i < |first| ==> first[i] in table
    requires forall i :: 0 <= i < |later| ==> later[i] in table
    ensures forall p :: p in Roots(table, first) ==>
              p in Roots(table, first + later) && Roots(table, first + later)[p] == Roots(table, first)[p]
  {
    hide Roots, Sound, Climb;
    if later == [] {
      assert first + later == first;
    } else {
      var before, pid := later[..|later| - 1], later[|later| - 1];
      assert (first + before) + [pid] == first + later;
      RootsStay(table, first, before);
      RootsLast(table, first + before, pid);
    }
  }

  /** With every start time known, no process is older than its root. */
  lemma {:induction false} RootsAreOlder(table: Table, pid: Pid, n: nat)
    requires pid in table && Ancestor(table, pid, n).Some?
    requires forall p :: p in table ==> table[p].start != 0
    ensures Ancestor(table, pid, n).value in table
    ensures table[Ancestor(table, pid, n).value].start <= table[pid].start
  {
    if n > 0 { RootsAreOlder(table, pid, n - 1); }
  }

  lemma NoMemberBeforeItsRoot(table: Table, order: seq<Pid>, pid: Pid)
    requires forall i :: 0 <= i < |order| ==> order[i] in table
    requires forall p :: p in table ==> table[p].start != 0
    requires pid in Roots(table, order)
    ensures pid in table && Roots(table, order)[pid] in table
    ensures table[Roots(table, order)[pid]].start <= table[pid].start
  {
    RootsSound(table, order);
    var root := Roots(table, order)[pid];
    assert Reaches(table, pid, root);
    var n: nat :| Ancestor(table, pid, n) == Some(root);
    RootsAreOlder(table, pid, n);
  }

  // ---------------------------------------------------------------- agreement with the plain walk

  ghost predicate IsOrder(table: Table, order: seq<Pid>) {
    && (forall i :: 0 <= i < |order| ==> order[i] in table)
    && (forall p :: p in table ==> p in order)
    && (forall i, j :: 0 <= i < j < |order| ==> order[i] != order[j])
  }

  /** The memoised roots are the plain walk's. */
  ghost predicate Agrees(table: Table, order: seq<Pid>) {
    forall pid :: pid in table ==>
      pid in Roots(table, order) && IsPlainRoot(table, pid, Roots(table, order)[pid])
  }

  lemma {:induction false} ShortClimbEnds(table: Table, roots: map<Pid, Pid>, pid: Pid, current: Pid, path: seq<Pid>)
    requires |path| < PATH_CAP && Ancestor(table, pid, |path|) == Some(current)
    requires Ancestor(table, pid, PATH_CAP) == None
    requires forall p :: p in roots ==> Up(table, roots[p]) == None
    ensures Up(table, Climb(table, roots, current, path).0) == None
    decreases PATH_CAP - |path|
  {
    if current !in roots {
      var longer := path + [current];
      assert Ancestor(table, pid, |longer|) == Up(table, current);
      if Up(table, current).Some? {
        ShortClimbEnds(table, roots, pid, Up(table, current).value, longer);
      }
    }
  }

  lemma {:induction false} ShortRootsEnd(table: Table, order: seq<Pid>)
    requires Short(table) && forall i :: 0 <= i < |order| ==> order[i] in table
    ensures forall p :: p in Roots(table, order) ==> Up(table, Roots(table, order)[p]) == None
  {
    if order != [] {
      var before, pid := order[..|order| - 1], order[|order| - 1];
      ShortRootsEnd(table, before);
      RootsSound(table, before);
      ClimbKeeps(table, Roots(table, before), pid);
      ShortClimbEnds(table, Roots(table, before), pid, pid, []);
    }
  }

  lemma ShortAgrees(table: Table, order: seq<Pid>)
    requires Short(table) && IsOrder(table, order)
    ensures Agrees(table, order)
  {
    RootsSound(table, order);
    ShortRootsEnd(table, order);
  }

  /** With nothing known, a chain longer than the cap is cut at the cap, and the climb passes
      all of it up to there. */
  lemma {:induction false} LongClimbIsCut(table: Table, pid: Pid, current: Pid, path: seq<Pid>)
    requires |path| < PATH_CAP && Ancestor(table, pid, |path|) == Some(current)
    requires Ancestor(table, pid, PATH_CAP - 1).Some?
    ensures var (root, path') := Climb(table, map[], current, path);
            && root == Ancestor(table, pid, PATH_CAP - 1).value
            && (forall p :: p in path ==> p in path')
            && (forall i: nat :: |path| <= i < PATH_CAP ==>
                  Ancestor(table, pid, i).Some? && Ancestor(table, pid, i).value in path')
    decreases PATH_CAP - |path|
  {
    var longer := path + [current];
    assert current in longer;
    if |longer| < PATH_CAP {
      assert Ancestor(table, pid, |longer|) == Up(table, current);
      AncestorBelow(table, pid, |longer|, PATH_CAP - 1);
      LongClimbIsCut(table, pid, Up(table, current).value, longer);
    }
  }

  lemma {:induction false} Listing(s: set<Pid>) returns (list: seq<Pid>)
    ensures forall p :: p in s <==> p in list
    ensures forall i, j :: 0 <= i < j < |list| ==> list[i] != list[j]
  {
    if s == {} {
      list := [];
    } else {
      var p :| p in s;
      var rest := Listing(s - {p});
      list := [p] + rest;
    }
  }

  /** Some order of the table that starts with `first`. */
  lemma Starting(table: Table, first: seq<Pid>) returns (order: seq<Pid>)
    requires forall i :: 0 <= i < |first| ==> first[i] in table
    requires forall i, j :: 0 <= i < j < |first| ==> first[i] != first[j]
    ensures IsOrder(table, order) && first <= order
    ensures forall p :: p in Roots(table, first) ==>
              p in Roots(table, order) && Roots(table, order)[p] == Roots(table, first)[p]
  {
    var rest := Listing(set p | p in table && p !in first);
    order := first + rest;
    forall i | 0 <= i < |rest| ensures rest[i] in table { assert rest[i] in rest; }
    assert IsOrder(table, order) by {
      assert forall i :: 0 <= i < |rest| ==> rest[i] in rest;
    }
    RootsStay(table, first, rest);
  }

  /** The chain of the first pid listed is cut at the cap, and all of it has that one root. */
  lemma FirstListed(table: Table, pid: Pid)
    requires pid in table && Ancestor(table, pid, PATH_CAP - 1).Some?
    ensures var roots, root := Roots(table, [pid]), Ancestor(table, pid, PATH_CAP - 1).value;
            && pid in roots && (forall p :: p in roots ==> roots[p] == root)
            && (forall i: nat :: i < PATH_CAP ==>
                  Ancestor(table, pid, i).Some? && Ancestor(table, pid, i).value in roots)
  {
    RootsNone(table);
    AncestorSelf(table, pid);
    LongClimbIsCut(table, pid, pid, []);
    assert [pid][..0] == [];
    var climb := Climb(table, map[], pid, []);
    assert Roots(table, [pid]) == Record(map[], climb.1, climb.0);
    hide Roots, Climb, Ancestor;
    assert Ancestor(table, pid, 0).value in climb.1;
  }

  /** A chain that is too long is resolved wrongly when the table happens to list it first. */
  lemma LongDisagrees(table: Table, pid: Pid) returns (order: seq<Pid>)
    requires pid in table && Ancestor(table, pid, PATH_CAP).Some?
    ensures IsOrder(table, order) && !Agrees(table, order)
  {
    AncestorBelow(table, pid, PATH_CAP - 1, PATH_CAP);
    FirstListed(table, pid);
    order := Starting(table, [pid]);
    assert Up(table, Roots(table, order)[pid]) == Ancestor(table, pid, PATH_CAP);
  }

  /** With the next pid up listed before it, the cut is one link higher, and what was the root
      is none. */
  lemma SecondListed(table: Table, pid: Pid) returns (q: Pid)
    requires pid in table && Ancestor(table, pid, PATH_CAP).Some?
    ensures q in table && q != pid
    ensures var roots := Roots(table, [q, pid]);
            var low, high := Ancestor(table, pid, PATH_CAP - 1), Ancestor(table, pid, PATH_CAP);
            && pid in roots && roots[pid] == high.value
            && low.Some? && low.value in roots && roots[low.value] == high.value
  {
    AncestorBelow(table, pid, 1, PATH_CAP);
    AncestorBelow(table, pid, PATH_CAP - 1, PATH_CAP);
    AncestorSelf(table, pid);
    q := Up(table, pid).value;
    assert Ancestor(table, pid, 1) == Some(q);
    AncestorSum(table, pid, 1, PATH_CAP - 1);
    AncestorSum(table, pid, 1, PATH_CAP - 2);
    FirstListed(table, q);
    var roots := Roots(table, [q]);
    assert Ancestor(table, q, PATH_CAP - 2).value in roots;
    if pid !in roots {
      ClimbOne(table, roots, pid);
    }
    hide Climb, Ancestor, Up, Roots, Sound;
    RootsLast(table, [q], pid);
    assert [q] + [pid] == [q, pid];
  }

  lemma ClimbOne(table: Table, roots: map<Pid, Pid>, pid: Pid)
    requires pid !in roots && Up(table, pid).Some? && Up(table, pid).value in roots
    ensures Climb(table, roots, pid, []) == (roots[Up(table, pid).value], [pid])
  {
    assert [] + [pid] == [pid];
    assert Climb(table, roots, Up(table, pid).value, [pid]) == (roots[Up(table, pid).value], [pid]);
  }

  /** Two orders of a table with a chain that is too long, and what they make of a pid: the
      second answer is one link above the first, and the first is no root at all there. */
  lemma TwoOrders(table: Table, pid: Pid) returns (o: seq<Pid>, p: seq<Pid>)
    requires pid in table && Ancestor(table, pid, PATH_CAP).Some?
    ensures IsOrder(table, o) && IsOrder(table, p)
    ensures var f, g := Roots(table, o), Roots(table, p);
            && pid in f && pid in g && Up(table, f[pid]) == Some(g[pid])
            && f[pid] != g[pid] && f[pid] in g && g[f[pid]] == g[pid]
  {
    AncestorBelow(table, pid, PATH_CAP - 1, PATH_CAP);
    FirstListed(table, pid);
    var q := SecondListed(table, pid);
    assert Up(table, Ancestor(table, pid, PATH_CAP - 1).value) == Ancestor(table, pid, PATH_CAP);
    hide Roots, Ancestor, IsOrder;
    o := Starting(table, [pid]);
    p := Starting(table, [q, pid]);
  }

  lemma RootsNone(table: Table)
    ensures Roots(table, []) == map[]
  {
  }

  /** The memo agrees with the plain walk, whatever order the keys come in, exactly when no
      chain has more than 512 nodes. */
  lemma AgreesIffShort(table: Table)
    ensures Short(table) <==> forall order :: IsOrder(table, order) ==> Agrees(table, order)
  {
    if Short(table) {
      forall order | IsOrder(table, order) ensures Agrees(table, order) {
        ShortAgrees(table, order);
      }
    } else {
      var pid :| pid in table && Ancestor(table, pid, PATH_CAP) != None;
      var order := LongDisagrees(table, pid);
    }
  }

  lemma RootsKeys(table: Table, order: seq<Pid>)
    requires IsOrder(table, order)
    ensures Roots(table, order).Keys == table.Keys
  {
    RootsSound(table, order);
    hide Roots, Reaches;
  }

  lemma ShortIndependent(table: Table, o: seq<Pid>, p: seq<Pid>)
    requires Short(table) && IsOrder(table, o) && IsOrder(table, p)
    ensures Roots(table, o) == Roots(table, p)
  {
    hide Roots, Short, IsOrder, IsPlainRoot;
    ShortAgrees(table, o);
    ShortAgrees(table, p);
    RootsKeys(table, o);
    RootsKeys(table, p);
    var f, g := Roots(table, o), Roots(table, p);
    forall pid | pid in table ensures f[pid] == g[pid] {
      PlainRootUnique(table, pid, f[pid], g[pid]);
    }
  }

  /** The answer does not depend on the order in which the table lists its keys exactly when no
      chain has more than 512 nodes. */
  lemma IndependentIffShort(table: Table)
    ensures Short(table) <==>
              forall o, p :: IsOrder(table, o) && IsOrder(table, p) ==> Roots(table, o) == Roots(table, p)
  {
    if Short(table) {
      forall o, p | IsOrder(table, o) && IsOrder(table, p) ensures Roots(table, o) == Roots(table, p) {
        ShortIndependent(table, o, p);
      }
    } else {
      var pid :| pid in table && Ancestor(table, pid, PATH_CAP) != None;
      var o, p := TwoOrders(table, pid);
    }
  }

  /** A table that is too long: 513 processes, each the child of the one before. */
  function Ladder(rungs: nat): (t: Table)
    ensures forall p :: p in t <==> 2 <= p < 2 + rungs
    ensures forall p :: p in t ==> t[p] == Node(if p == 2 then None else Some(p - 1), false, 0, 0.0, 0, None, None)
  {
    if rungs == 0 then map[]
    else
      var top := rungs + 1;
      Ladder(rungs - 1)[top := Node(if top == 2 then None else Some(top - 1), false, 0, 0.0, 0, None, None)]
  }

  lemma {:induction false} LadderClimb(rungs: nat, n: nat)
    requires n < rungs
    ensures Ancestor(Ladder(rungs), rungs + 1, n) == Some(rungs + 1 - n)
  {
    if n > 0 { LadderClimb(rungs, n - 1); }
  }

  lemma LadderIsLong() returns (order: seq<Pid>)
    ensures IsOrder(Ladder(PATH_CAP + 1), order) && !Agrees(Ladder(PATH_CAP + 1), order)
  {
    LadderClimb(PATH_CAP + 1, PATH_CAP);
    order := LongDisagrees(Ladder(PATH_CAP + 1), PATH_CAP + 2);
  }

  // ---------------------------------------------------------------- said of the table alone

  /** `pid` stands at the head of its own group: it has no parent, or its parent is init, itself,
      not in the table, a service manager, or known to have started after it. */
  predicate IsHead(table: Table, pid: Pid)
    requires pid in table
  {
    match table[pid].parent
    case None => true
    case Some(parent) =>
      || parent == 1 || parent == pid || parent !in table || table[parent].boundary
      || 0 < table[pid].start < table[parent].start
  }

  lemma HeadsHaveNoLink(table: Table, pid: Pid)
    requires pid in table
    ensures IsHead(table, pid) <==> Up(table, pid) == None
    ensures !IsHead(table, pid) ==> Up(table, pid) == table[pid].parent
  {
  }

  /** For any table at all, whatever the order: a head is its own root. */
  lemma HeadsAreRoots(table: Table, order: seq<Pid>, pid: Pid)
    requires IsOrder(table, order) && pid in table && IsHead(table, pid)
    ensures pid in Roots(table, order) && Roots(table, order)[pid] == pid
  {
    RootsSound(table, order);
    HeadsHaveNoLink(table, pid);
    var root := Roots(table, order)[pid];
    var n: nat :| Ancestor(table, pid, n) == Some(root);
    if n > 0 {
      AncestorBelow(table, pid, 1, n);
    }
  }

  /** And with no chain of more than 512 processes nothing else is one: every other process has
      the root of its parent. */
  lemma OthersFollowTheirParent(table: Table, order: seq<Pid>, pid: Pid)
    requires Short(table) && IsOrder(table, order) && pid in table && !IsHead(table, pid)
    ensures var roots, parent := Roots(table, order), table[pid].parent.value;
            && pid in roots && parent in roots && roots[pid] == roots[parent] && roots[pid] != pid
  {
    hide Roots, Short, IsHead, Up;
    HeadsHaveNoLink(table, pid);
    ShortAgrees(table, order);
    var roots, parent := Roots(table, order), table[pid].parent.value;
    UpInTable(table, pid);
    var n: nat :| Ancestor(table, parent, n) == Some(roots[parent]);
    AncestorFirst(table, pid);
    AncestorSum(table, pid, 1, n);
    assert IsPlainRoot(table, pid, roots[parent]);
    PlainRootUnique(table, pid, roots[pid], roots[parent]);
  }

  lemma UpInTable(table: Table, pid: Pid)
    ensures Up(table, pid).Some? ==> Up(table, pid).value in table
  {
  }

  lemma AncestorFirst(table: Table, pid: Pid)
    ensures Ancestor(table, pid, 1) == Up(table, pid)
  {
    AncestorSelf(table, pid);
  }

  /** Each process of a chain is the parent of the one before it, which is no head. */
  predicate IsChain(table: Table, chain: seq<Pid>) {
    forall i :: 0 <= i < |chain| ==>
      && chain[i] in table
      && (i + 1 < |chain| ==> !IsHead(table, chain[i]) && table[chain[i]].parent == Some(chain[i + 1]))
  }

  lemma {:induction false} ChainOf(table: Table, pid: Pid, n: nat) returns (chain: seq<Pid>)
    requires pid in table && Ancestor(table, pid, n).Some?
    ensures |chain| == n + 1 && IsChain(table, chain) && chain[0] == pid
    ensures chain[n] == Ancestor(table, pid, n).value
  {
    if n == 0 {
      chain := [pid];
    } else {
      var before := ChainOf(table, pid, n - 1);
      HeadsHaveNoLink(table, before[n - 1]);
      chain := before + [Ancestor(table, pid, n).value];
    }
  }

  lemma {:induction false} ChainClimbs(table: Table, chain: seq<Pid>, n: nat)
    requires IsChain(table, chain) && n < |chain|
    ensures Ancestor(table, chain[0], n) == Some(chain[n])
  {
    if n > 0 {
      ChainClimbs(table, chain, n - 1);
      HeadsHaveNoLink(table, chain[n - 1]);
    }
  }

  /** What `Short` means: the table holds no chain of 513 processes. */
  lemma ShortMeansNoLongChain(table: Table)
    ensures Short(table) <==> forall chain :: IsChain(table, chain) ==> |chain| <= 512
  {
    hide IsChain, Ancestor;
    forall chain | Short(table) && IsChain(table, chain) ensures |chain| <= 512 {
      if |chain| > 512 {
        ChainClimbs(table, chain, 512);
        ChainStarts(table, chain);
      }
    }
    if !Short(table) {
      var pid :| pid in table && Ancestor(table, pid, PATH_CAP) != None;
      var chain := ChainOf(table, pid, PATH_CAP);
    }
  }

  lemma ChainStarts(table: Table, chain: seq<Pid>)
    requires IsChain(table, chain) && chain != []
    ensures chain[0] in table
  {
  }
}
