/** Which process names an override key claims, and which override wins. */
module Matching {
  import opened Bytes

  const STAR: byte := 0x2A

  type Name = seq<byte>

  datatype Matcher = Exact(literal: Name) | Prefix(literal: Name) | Suffix(literal: Name) | Contains(literal: Name)

  /** Reads a key; `None` when a `*` stands inside the literal. */
  function ParseKey(key: Name): Option<Matcher> {
    var leading := key != [] && key[0] == STAR;
    var rest := if leading then key[1..] else key;
    var trailing := rest != [] && rest[|rest| - 1] == STAR;
    var literal := if trailing then rest[..|rest| - 1] else rest;
    if STAR in literal then None
    else if leading && trailing then Some(Contains(literal))
    else if leading then Some(Suffix(literal))
    else if trailing then Some(Prefix(literal))
    else Some(Exact(literal))
  }

  function Lower(b: byte): byte {
    if 0x41 <= b <= 0x5A then b + 0x20 else b
  }

  predicate EqIgnoreCase(a: Name, b: Name) {
    |a| == |b| && forall i :: 0 <= i < |a| ==> Lower(a[i]) == Lower(b[i])
  }

  predicate Matches(m: Matcher, name: Name) {
    var lit := m.literal;
    match m
    case Exact(_) => EqIgnoreCase(name, lit)
    case Prefix(_) => |lit| <= |name| && EqIgnoreCase(name[..|lit|], lit)
    case Suffix(_) => |lit| <= |name| && EqIgnoreCase(name[|name| - |lit|..], lit)
    case Contains(_) => lit == [] || exists k: nat :: k <= |name| && FoundAt(lit, name, k)
  }

  predicate FoundAt(lit: Name, name: Name, k: nat) {
    k + |lit| <= |name| && EqIgnoreCase(name[k..k + |lit|], lit)
  }

  // ---------------------------------------------------------------- agreement with globbing

  /** A general glob over bytes: `*` stands for any run, all else for itself in either case. */
  predicate Glob(pattern: Name, name: Name)
    decreases |pattern| + |name|
  {
    if pattern == [] then name == []
    else if pattern[0] == STAR then Glob(pattern[1..], name) || (name != [] && Glob(pattern, name[1..]))
    else name != [] && Lower(pattern[0]) == Lower(name[0]) && Glob(pattern[1..], name[1..])
  }

  /** A key without the `*` it may start and end with. */
  function Literal(key: Name): Name {
    var rest := if key != [] && key[0] == STAR then key[1..] else key;
    if rest != [] && rest[|rest| - 1] == STAR then rest[..|rest| - 1] else rest
  }

  lemma LiteralIsInside(key: Name) returns (off: nat)
    ensures off + |Literal(key)| <= |key| && Literal(key) == key[off..off + |Literal(key)|]
    ensures off <= 1 && |key| - 1 <= off + |Literal(key)|
    ensures off == 1 ==> key[0] == STAR
    ensures off == 0 && key != [] ==> key[0] != STAR
    ensures key != [] && off + |Literal(key)| == |key| && Literal(key) != [] ==> key[|key| - 1] != STAR
  {
    off := if key != [] && key[0] == STAR then 1 else 0;
  }

  lemma ParsesIffNoInteriorStar(key: Name)
    ensures ParseKey(key).Some? <==> forall i :: 0 < i < |key| - 1 ==> key[i] != STAR
  {
    assert ParseKey(key).Some? <==> STAR !in Literal(key);
    var off := LiteralIsInside(key);
    var literal := Literal(key);
    hide Literal, ParseKey;
    if i :| 0 < i < |key| - 1 && key[i] == STAR {
      assert literal[i - off] == STAR;
    }
    if j :| 0 <= j < |literal| && literal[j] == STAR {
      assert key[j + off] == STAR;
    }
  }

  lemma {:induction false} GlobLiteral(literal: Name, rest: Name, name: Name)
    requires STAR !in literal
    ensures Glob(literal + rest, name) <==>
            |literal| <= |name| && EqIgnoreCase(name[..|literal|], literal) && Glob(rest, name[|literal|..])
  {
    if literal == [] {
      assert literal + rest == rest && name[0..] == name;
    } else {
      var pattern := literal + rest;
      assert pattern[0] == literal[0] && pattern[1..] == literal[1..] + rest;
      if name != [] {
        GlobLiteral(literal[1..], rest, name[1..]);
        if |literal| <= |name| {
          var taken, shorter := name[..|literal|], name[1..][..|literal| - 1];
          assert taken == [name[0]] + shorter;
          assert name[1..][|literal| - 1..] == name[|literal|..];
          assert EqIgnoreCase(taken, literal)
            <==> Lower(name[0]) == Lower(literal[0]) && EqIgnoreCase(shorter, literal[1..]);
        }
      }
    }
  }

  lemma {:induction false} GlobStar(rest: Name, name: Name)
    ensures Glob([STAR] + rest, name) <==> exists k :: 0 <= k <= |name| && Glob(rest, name[k..])
    decreases |name|
  {
    var pattern := [STAR] + rest;
    assert pattern[1..] == rest;
    assert name[0..] == name;
    if name != [] {
      GlobStar(rest, name[1..]);
      if k :| 0 <= k <= |name[1..]| && Glob(rest, name[1..][k..]) {
        assert name[1..][k..] == name[k + 1..];
      }
      if k :| 0 < k <= |name| && Glob(rest, name[k..]) {
        assert name[1..][k - 1..] == name[k..];
      }
    }
  }

  /** A literal with nothing after it. */
  lemma GlobAll(literal: Name, name: Name)
    requires STAR !in literal
    ensures Glob(literal, name) <==> EqIgnoreCase(name, literal)
  {
    GlobLiteral(literal, [], name);
    assert literal + [] == literal;
    if |name| == |literal| { assert name[..|literal|] == name; }
  }

  lemma GlobAnything(name: Name)
    ensures Glob([STAR], name)
  {
    GlobStar([], name);
    assert [STAR] + [] == [STAR];
    assert name[|name|..] == [];
    assert Glob([], name[|name|..]);
  }

  /** A literal with a final `*`. */
  lemma GlobPrefix(literal: Name, name: Name)
    requires STAR !in literal
    ensures Glob(literal + [STAR], name) <==> |literal| <= |name| && EqIgnoreCase(name[..|literal|], literal)
  {
    GlobLiteral(literal, [STAR], name);
    if |literal| <= |name| { GlobAnything(name[|literal|..]); }
  }

  lemma GlobSuffix(literal: Name, name: Name)
    requires STAR !in literal
    ensures Glob([STAR] + literal, name) <==>
            |literal| <= |name| && EqIgnoreCase(name[|name| - |literal|..], literal)
  {
    hide Glob, EqIgnoreCase;
    GlobStar(literal, name);
    forall k | 0 <= k <= |name|
      ensures Glob(literal, name[k..]) <==> EqIgnoreCase(name[k..], literal)
      ensures EqIgnoreCase(name[k..], literal) ==> k == |name| - |literal|
    {
      GlobAll(literal, name[k..]);
      SameLength(name[k..], literal);
    }
  }

  lemma SameLength(a: Name, b: Name)
    ensures EqIgnoreCase(a, b) ==> |a| == |b|
  {
  }

  lemma GlobInside(literal: Name, name: Name)
    requires STAR !in literal
    ensures Glob([STAR] + (literal + [STAR]), name) <==> exists k: nat :: k <= |name| && FoundAt(literal, name, k)
  {
    GlobStar(literal + [STAR], name);
    forall k: nat | k <= |name| ensures Glob(literal + [STAR], name[k..]) <==> FoundAt(literal, name, k) {
      GlobPrefix(literal, name[k..]);
      if k + |literal| <= |name| { assert name[k..][..|literal|] == name[k..k + |literal|]; }
    }
  }

  /** A key, put back together from its matcher. */
  function Spelling(m: Matcher): Name {
    match m
    case Exact(lit) => lit
    case Prefix(lit) => lit + [STAR]
    case Suffix(lit) => [STAR] + lit
    case Contains(lit) => [STAR] + (lit + [STAR])
  }

  lemma KeyShape(key: Name)
    requires ParseKey(key).Some?
    ensures STAR !in ParseKey(key).value.literal && key == Spelling(ParseKey(key).value)
  {
  }

  /** On every key it reads, the matcher is the glob. */
  lemma MatchesIsGlob(key: Name, name: Name)
    requires ParseKey(key).Some?
    ensures Matches(ParseKey(key).value, name) <==> Glob(key, name)
  {
    KeyShape(key);
    var m := ParseKey(key).value;
    hide Glob, ParseKey, EqIgnoreCase;
    match m {
      case Exact(lit) => GlobAll(lit, name);
      case Prefix(lit) => GlobPrefix(lit, name);
      case Suffix(lit) => GlobSuffix(lit, name);
      case Contains(lit) =>
        GlobInside(lit, name);
        if lit == [] { assert FoundAt(lit, name, 0) by { FoundNothing(name); } }
    }
  }

  lemma FoundNothing(name: Name)
    ensures FoundAt([], name, 0)
  {
  }

  // ---------------------------------------------------------------- precedence

  datatype Override = Override(matcher: Matcher, value: Option<real>, user: bool)

  datatype Rank = Rank(user: bool, exact: bool, length: nat)

  function RankOf(o: Override): Rank {
    Rank(o.user, o.matcher.Exact?, |o.matcher.literal|)
  }

  /** Layer first, then exactness, then length. */
  predicate Above(a: Rank, b: Rank) {
    if a.user != b.user then a.user
    else if a.exact != b.exact then a.exact
    else a.length > b.length
  }

  /** An unreadable key is kept as a literal name. */
  function MakeOverride(key: Name, value: Option<real>, user: bool): Override {
    match ParseKey(key)
    case Some(m) => Override(m, value, user)
    case None => Override(Exact(key), value, user)
  }

  /** What an entry claims: the names its key globs, or, if the key is not readable, the names
      that spell the key, `*` and all. Its layer and value are as given. */
  lemma OverrideClaims(key: Name, value: Option<real>, user: bool, name: Name)
    ensures var o := MakeOverride(key, value, user);
            && o.user == user && o.value == value
            && (Matches(o.matcher, name) <==>
                  if ParseKey(key).Some? then Glob(key, name) else EqIgnoreCase(name, key))
  {
    hide Glob, EqIgnoreCase, ParseKey;
    if ParseKey(key).Some? { MatchesIsGlob(key, name); }
  }

  /** `i` is the first of the highest-ranked entries that match. */
  predicate IsBest(os: seq<Override>, name: Name, i: nat) {
    && i < |os| && Matches(os[i].matcher, name)
    && (forall j :: 0 <= j < |os| && Matches(os[j].matcher, name) ==>
          !Above(RankOf(os[j]), RankOf(os[i])) && (j < i ==> Above(RankOf(os[i]), RankOf(os[j]))))
  }

  function Best(os: seq<Override>, name: Name): (best: Option<nat>)
    ensures best.Some? ==> IsBest(os, name, best.value)
    ensures best.None? ==> forall j :: 0 <= j < |os| ==> !Matches(os[j].matcher, name)
  {
    if os == [] then None
    else
      var last := |os| - 1;
      var best := Best(os[..last], name);
      if Matches(os[last].matcher, name) && (best.None? || Above(RankOf(os[last]), RankOf(os[best.value])))
      then Some(last) else best
  }

  /** `Some(None)` means an override switched the rule off; `None` that none matched. */
  function OverrideFor(os: seq<Override>, name: Name): Option<Option<real>> {
    match Best(os, name) case None => None case Some(i) => Some(os[i].value)
  }

  method FindOverride(os: seq<Override>, name: Name) returns (r: Option<Option<real>>)
    ensures r == OverrideFor(os, name)
    ensures r.None? <==> forall j :: 0 <= j < |os| ==> !Matches(os[j].matcher, name)
    ensures r.Some? ==> exists i: nat :: IsBest(os, name, i) && r == Some(os[i].value)
  {
    var best: Option<Override> := None;
    var i := 0;
    while i < |os|
      invariant i <= |os|
      invariant best == match Best(os[..i], name) case None => None case Some(b) => Some(os[b])
    {
      assert os[..i + 1][..i] == os[..i];
      if Matches(os[i].matcher, name) && (best.None? || Above(RankOf(os[i]), RankOf(best.value))) {
        best := Some(os[i]);
      }
      i := i + 1;
    }
    assert os[..i] == os;
    return match best case None => None case Some(o) => Some(o.value);
  }

  lemma BestUnique(os: seq<Override>, name: Name, i: nat)
    requires IsBest(os, name, i)
    ensures Best(os, name) == Some(i)
  {
    var b := Best(os, name);
    assert b.Some?;
    assert IsBest(os, name, b.value);
  }

  function Users(os: seq<Override>): (users: seq<Override>)
    ensures forall o :: o in users <==> o in os && o.user
  {
    if os == [] then []
    else
      var last := |os| - 1;
      assert os == os[..last] + [os[last]];
      Users(os[..last]) + (if os[last].user then [os[last]] else [])
  }

  function BestEntry(os: seq<Override>, name: Name): Option<Override> {
    match Best(os, name) case None => None case Some(i) => Some(os[i])
  }

  lemma BestEntryNext(os: seq<Override>, last: Override, name: Name)
    ensures BestEntry(os + [last], name)
         == var best := BestEntry(os, name);
            if Matches(last.matcher, name) && (best.None? || Above(RankOf(last), RankOf(best.value)))
            then Some(last) else best
  {
    assert (os + [last])[..|os|] == os;
  }

  /** Template entries are invisible once a user entry matches. */
  lemma {:induction false} UsersDecide(os: seq<Override>, name: Name)
    ensures BestEntry(Users(os), name).Some? ==> BestEntry(os, name) == BestEntry(Users(os), name)
    ensures BestEntry(Users(os), name).None? ==> BestEntry(os, name).None? || !BestEntry(os, name).value.user
  {
    hide BestEntry, Matches;
    if os == [] {
      assert Users(os) == os;
      assert BestEntry([], name) == None by { BestEntryNone(name); }
    } else {
      var last := os[|os| - 1];
      var fewer := os[..|os| - 1];
      assert os == fewer + [last];
      UsersDecide(fewer, name);
      BestEntryNext(fewer, last, name);
      if last.user {
        BestEntryNext(Users(fewer), last, name);
      } else {
        assert Users(os) == Users(fewer);
      }
      if BestEntry(Users(fewer), name).Some? { BestEntryIn(Users(fewer), name); }
    }
  }

  lemma BestEntryNone(name: Name)
    ensures BestEntry([], name) == None
  {
  }

  lemma BestEntryIn(os: seq<Override>, name: Name)
    requires BestEntry(os, name).Some?
    ensures BestEntry(os, name).value in os
  {
  }

  /** A matching user entry is never affected by any set of template entries. */
  lemma TemplatesNeverOutrankUsers(a: seq<Override>, b: seq<Override>, name: Name)
    requires Users(a) == Users(b)
    requires exists o :: o in Users(a) && Matches(o.matcher, name)
    ensures OverrideFor(a, name) == OverrideFor(b, name)
  {
    assert BestEntry(Users(a), name).Some?;
    UsersDecide(a, name);
    UsersDecide(b, name);
  }

  predicate RanksDistinct(os: seq<Override>, name: Name) {
    forall i, j :: 0 <= i < j < |os| && Matches(os[i].matcher, name) && Matches(os[j].matcher, name) ==>
      RankOf(os[i]) != RankOf(os[j])
  }

  /** Order of entry matters only between matching entries of one rank. */
  lemma ReorderingChangesNothing(a: seq<Override>, b: seq<Override>, name: Name)
    requires forall o :: o in a <==> o in b
    requires RanksDistinct(a, name)
    ensures OverrideFor(a, name) == OverrideFor(b, name)
  {
    var i, k := Best(a, name), Best(b, name);
    assert k.Some? ==> b[k.value] in b && b[k.value] in a;
    if i.Some? {
      assert a[i.value] in b;
      var j :| 0 <= j < |b| && b[j] == a[i.value];
      assert k.Some?;
      assert b[k.value] in a;
      var i' :| 0 <= i' < |a| && a[i'] == b[k.value];
      assert !Above(RankOf(a[i']), RankOf(a[i.value]));
      assert !Above(RankOf(b[j]), RankOf(b[k.value]));
      assert RankOf(a[i']) == RankOf(a[i.value]);
      assert i' == i.value;
    }
  }

  // ---------------------------------------------------------------- said byte by byte

  /** Two bytes match when they are the same, or the two cases of one letter of the alphabet. */
  lemma FoldMeans(a: byte, b: byte)
    ensures Lower(a) == Lower(b) <==>
              || a == b
              || ('A' as int <= a <= 'Z' as int && b == a + 32)
              || ('A' as int <= b <= 'Z' as int && a == b + 32)
  {
  }

  /** Two names that differ in the case of letters only are claimed by the same entries. */
  lemma SpellingMeans(m: Matcher, a: Name, b: Name)
    requires EqIgnoreCase(a, b)
    ensures Matches(m, a) <==> Matches(m, b)
  {
    hide Lower;
    var n := |m.literal|;
    if n <= |a| {
      Sliced(a, b, 0, n);
      Sliced(a, b, |a| - n, |a|);
      assert a[..n] == a[0..n] && b[..n] == b[0..n];
      assert a[|a| - n..] == a[|a| - n..|a|] && b[|a| - n..] == b[|a| - n..|a|];
    }
    forall k: nat | k + n <= |a| ensures FoundAt(m.literal, a, k) <==> FoundAt(m.literal, b, k) {
      Sliced(a, b, k, k + n);
    }
  }

  lemma Sliced(a: Name, b: Name, from: nat, to: nat)
    requires EqIgnoreCase(a, b) && from <= to <= |a|
    ensures EqIgnoreCase(a[from..to], b[from..to])
  {
  }

  /** How keys are read: a `*`, byte 42, at the start, at the end, at both or at neither. */
  lemma KeysMean(literal: Name)
    requires 42 !in literal
    ensures ParseKey([42] + literal + [42]) == Some(Contains(literal))
    ensures ParseKey(literal) == Some(Exact(literal))
    ensures literal != [] ==> ParseKey([42] + literal) == Some(Suffix(literal))
    ensures ParseKey(literal + [42]) == if literal == [] then ParseKey([42]) else Some(Prefix(literal))
    ensures ParseKey([42]) == Some(Suffix([]))
  {
    assert ([42] + literal + [42])[1..] == literal + [42];
    assert ([42] + literal)[1..] == literal;
    assert (literal + [42])[..|literal|] == literal;
    assert literal == [] ==> literal + [42] == [42];
    assert [42][1..] == [];
  }

  /** The best entry: no template entry beats a user's, in one layer no pattern beats an exact key,
      among keys of one kind in one layer no shorter one beats a longer, and of entries that are
      alike in all this the first does. */
  lemma BestMeans(os: seq<Override>, name: Name, i: nat)
    ensures IsBest(os, name, i) <==>
              && i < |os| && Matches(os[i].matcher, name)
              && forall j :: 0 <= j < |os| && j != i && Matches(os[j].matcher, name) ==>
                   if os[i].user != os[j].user then os[i].user
                   else if os[i].matcher.Exact? != os[j].matcher.Exact? then os[i].matcher.Exact?
                   else if |os[i].matcher.literal| != |os[j].matcher.literal| then
                     |os[i].matcher.literal| > |os[j].matcher.literal|
                   else i < j
  {
    hide Matches;
  }
}
