/** Which tables are accepted, and what an accepted table says.

    A table is accepted exactly when it is an opening header, records on an 8-byte grid and a
    closing header, with every known record of its known length, grouped into sockets that
    each carry what they need. Both directions are proved. */
module PcblistProofs {
  import opened Bytes
  import opened Pcblist

  type Record = seq<byte>

  // ---------------------------------------------------------------- framing

  predicate Framed(r: Padded) {
    && 8 <= |r.data| != 24
    && Decode(r.data[0..4]) == |r.data|
    && |r.data + r.pad| == Align8(|r.data|)
  }

  predicate AllFramed(rs: seq<Padded>) {
    forall i :: 0 <= i < |rs| ==> Framed(rs[i])
  }

  /** A closing header, whatever follows it. */
  predicate Closing(end: seq<byte>) {
    |end| >= 24 && Decode(end[0..4]) == 24
  }

  function KindOf(d: Record): nat {
    match ReadU32(d, 4) case Some(kind) => kind case None => 0
  }

  /** The walk's steps, over records instead of positions. */
  function Fold(ds: seq<Record>, run: Option<Run>, parsed: Parsed, protocol: Protocol): Result<Parsed, Refusal> {
    if ds == [] then Complete(parsed, run, protocol)
    else
      match Step(KindOf(ds[0]), ds[0], run, parsed, protocol)
      case Err(e) => Err(e)
      case Ok(next) => Fold(ds[1..], next.0, next.1, protocol)
  }

  lemma PeelRecord(table: seq<byte>, pos: nat, r: Padded, onwards: seq<byte>)
    requires Framed(r) && pos <= |table| && table[pos..] == (r.data + r.pad) + onwards
    ensures var next := pos + Align8(|r.data|);
            && next <= |table| && table[next..] == onwards
            && table[pos..pos + |r.data|] == r.data
            && ReadU32(table, pos).value == |r.data|
            && ReadU32(table, pos + 4).value == KindOf(r.data)
  {
    var d := r.data;
    var rest := table[pos..];
    assert |table| == pos + |rest|;
    assert table[pos..pos + |d|] == d by { assert rest[..|d|] == d; }
    PartOf(table, pos, d, 0, 4);
    PartOf(table, pos, d, 4, 4);
    assert rest[|d + r.pad|..] == onwards;
  }

  lemma AtClosing(table: seq<byte>, pos: nat, run: Option<Run>, parsed: Parsed, protocol: Protocol)
    requires pos <= |table| && Closing(table[pos..])
    ensures WalkFrom(table, pos, run, parsed, protocol) == Complete(parsed, run, protocol)
  {
    var end := table[pos..];
    assert table[pos..pos + |end|] == end;
    PartOf(table, pos, end, 0, 4);
  }

  lemma WalkStep(
      table: seq<byte>, pos: nat, r: Padded, onwards: seq<byte>, run: Option<Run>, parsed: Parsed, protocol: Protocol)
    requires Framed(r) && pos <= |table| && table[pos..] == (r.data + r.pad) + onwards
    ensures var step := Step(KindOf(r.data), r.data, run, parsed, protocol);
            && (step.Err? ==> WalkFrom(table, pos, run, parsed, protocol) == Err(step.error))
            && (step.Ok? ==>
                  WalkFrom(table, pos, run, parsed, protocol)
                  == WalkFrom(table, pos + Align8(|r.data|), step.value.0, step.value.1, protocol))
  {
    hide Step, Align8, KindOf;
    PeelRecord(table, pos, r, onwards);
  }

  /** On a table whose rest is records and a closing header, the byte walk is the fold. */
  lemma {:induction false} WalkIsFold(
      table: seq<byte>, pos: nat, rs: seq<Padded>, end: seq<byte>, run: Option<Run>, parsed: Parsed, protocol: Protocol)
    requires AllFramed(rs) && Closing(end)
    requires pos <= |table| && table[pos..] == Lay(rs) + end
    ensures WalkFrom(table, pos, run, parsed, protocol) == Fold(Datas(rs), run, parsed, protocol)
    decreases |rs|
  {
    hide Step, KindOf, Align8, Framed, WalkFrom, Closing, Complete;
    if rs == [] {
      assert table[pos..] == end;
      AtClosing(table, pos, run, parsed, protocol);
    } else {
      var r, onwards := rs[0], Lay(rs[1..]) + end;
      assert Framed(r);
      assert table[pos..] == (r.data + r.pad) + onwards;
      PeelRecord(table, pos, r, onwards);
      WalkStep(table, pos, r, onwards, run, parsed, protocol);
      assert Datas(rs)[1..] == Datas(rs[1..]);
      var step := Step(KindOf(r.data), r.data, run, parsed, protocol);
      if step.Ok? {
        WalkIsFold(table, pos + Align8(|r.data|), rs[1..], end, step.value.0, step.value.1, protocol);
      }
    }
  }

  lemma CutRecord(table: seq<byte>, pos: nat, len: nat) returns (r: Padded)
    requires RECORD_HEADER_LEN <= len != XINPGEN_LEN && pos + Align8(len) <= |table|
    requires Decode(table[pos..pos + 4]) == len
    ensures Framed(r) && r.data == table[pos..pos + len]
    ensures table[pos..] == (r.data + r.pad) + table[pos + Align8(len)..]
  {
    r := Padded(table[pos..pos + len], table[pos + len..pos + Align8(len)]);
    assert r.data[0..4] == table[pos..pos + 4];
  }

  /** An accepted walk is at its closing header, or at a whole record with an accepted walk
      after it. */
  lemma WalkGoesOn(table: seq<byte>, pos: nat, run: Option<Run>, parsed: Parsed, protocol: Protocol)
    returns (len: nat, next: (Option<Run>, Parsed))
    requires WalkFrom(table, pos, run, parsed, protocol).Ok?
    ensures pos + 8 <= |table|
    ensures len == XINPGEN_LEN ==> Closing(table[pos..])
    ensures len != XINPGEN_LEN ==>
      && len == Decode(table[pos..pos + 4])
      && RECORD_HEADER_LEN <= len && pos + Align8(len) <= |table|
      && WalkFrom(table, pos + Align8(len), next.0, next.1, protocol).Ok?
  {
    hide Step;
    len := ReadU32(table, pos).value;
    if len == XINPGEN_LEN {
      next := (run, parsed);
      assert table[pos..][0..4] == table[pos..pos + 4];
    } else {
      next := Step(ReadU32(table, pos + 4).value, table[pos..pos + len], run, parsed, protocol).value;
    }
  }

  /** Conversely, what the byte walk accepts is records and a closing header. */
  lemma {:induction false} AcceptedIsFramed(
      table: seq<byte>, pos: nat, run: Option<Run>, parsed: Parsed, protocol: Protocol)
    returns (rs: seq<Padded>, end: seq<byte>)
    requires WalkFrom(table, pos, run, parsed, protocol).Ok?
    ensures AllFramed(rs) && Closing(end)
    ensures pos <= |table| && table[pos..] == Lay(rs) + end
    decreases |table| - pos
  {
    hide WalkFrom, Align8, Framed, Closing, AllFramed, Lay, Decode;
    var len, step := WalkGoesOn(table, pos, run, parsed, protocol);
    if len == XINPGEN_LEN {
      rs, end := [], table[pos..];
      NoRecords();
      assert [] + end == end;
    } else {
      var r := CutRecord(table, pos, len);
      AlignUp(len);
      var later;
      later, end := AcceptedIsFramed(table, pos + Align8(len), step.0, step.1, protocol);
      rs := [r] + later;
      OneMore(r, later);
      assert ((r.data + r.pad) + Lay(later)) + end == (r.data + r.pad) + (Lay(later) + end);
    }
  }

  lemma NoRecords()
    ensures AllFramed([]) && Lay([]) == []
  {
  }

  lemma AlignUp(n: nat)
    ensures n <= Align8(n)
  {
  }

  lemma OneMore(r: Padded, later: seq<Padded>)
    ensures Lay([r] + later) == (r.data + r.pad) + Lay(later)
    ensures Framed(r) && AllFramed(later) ==> AllFramed([r] + later)
  {
    assert ([r] + later)[1..] == later;
  }

  // ---------------------------------------------------------------- sockets

  predicate Known(d: Record) {
    ExpectedLen(KindOf(d)).Some?
  }

  predicate Starts(d: Record) {
    KindOf(d) == XSO_INPCB
  }

  /** Known records in order: those before any socket starts, and one group per socket. */
  datatype Sections = Sections(lead: seq<Record>, groups: seq<seq<Record>>)

  function Split(ds: seq<Record>): Sections {
    if ds == [] then Sections([], [])
    else
      var later := Split(ds[1..]);
      if !Known(ds[0]) then later
      else if Starts(ds[0]) then Sections([], [[ds[0]] + later.lead] + later.groups)
      else Sections([ds[0]] + later.lead, later.groups)
  }

  function KnownOnly(ds: seq<Record>): seq<Record> {
    if ds == [] then [] else (if Known(ds[0]) then [ds[0]] else []) + KnownOnly(ds[1..])
  }

  function Concat(groups: seq<seq<Record>>): seq<Record> {
    if groups == [] then [] else groups[0] + Concat(groups[1..])
  }

  /** Nothing is lost or moved, and a group is one starting record and what follows it. */
  lemma {:induction false} SplitShape(ds: seq<Record>)
    ensures Split(ds).lead + Concat(Split(ds).groups) == KnownOnly(ds)
    ensures forall d :: d in Split(ds).lead ==> !Starts(d)
    ensures forall i :: 0 <= i < |Split(ds).groups| ==>
              var g := Split(ds).groups[i]; g != [] && Starts(g[0]) && forall d :: d in g[1..] ==> !Starts(d)
  {
    if ds != [] {
      SplitShape(ds[1..]);
      var later := Split(ds[1..]);
      if Known(ds[0]) && Starts(ds[0]) {
        var g := [ds[0]] + later.lead;
        assert g[1..] == later.lead;
        assert Split(ds).groups[1..] == later.groups;
      }
    }
  }

  function Count(g: seq<Record>, kind: nat): nat {
    if g == [] then 0 else (if KindOf(g[0]) == kind then 1 else 0) + Count(g[1..], kind)
  }

  function First(g: seq<Record>, kind: nat): (d: Option<Record>)
    ensures d.Some? ==> d.value in g && KindOf(d.value) == kind
  {
    if g == [] then None else if KindOf(g[0]) == kind then Some(g[0]) else First(g[1..], kind)
  }

  function RunOf(g: seq<Record>): Run {
    Run(if g == [] then None else Some(g[0]), First(g, XSO_SOCKET), First(g, XSO_STATS), First(g, XSO_TCPCB))
  }

  predicate NoneTwice(g: seq<Record>) {
    Count(g, XSO_SOCKET) <= 1 && Count(g, XSO_STATS) <= 1 && Count(g, XSO_TCPCB) <= 1
  }

  lemma {:induction false} Appended(g: seq<Record>, h: seq<Record>, kind: nat)
    ensures Count(g + h, kind) == Count(g, kind) + Count(h, kind)
    ensures First(g + h, kind) == if First(g, kind).Some? then First(g, kind) else First(h, kind)
    ensures First(g, kind).Some? <==> Count(g, kind) > 0
  {
    if g == [] {
      assert g + h == h;
    } else {
      assert (g + h)[1..] == g[1..] + h;
      Appended(g[1..], h, kind);
    }
  }

  predicate LengthsOk(ds: seq<Record>) {
    forall i :: 0 <= i < |ds| && Known(ds[i]) ==> |ds[i]| == ExpectedLen(KindOf(ds[i])).value
  }

  /** Sockets taken one after another; `None` when one of them is refused. */
  function Reading(groups: seq<seq<Record>>, parsed: Parsed, protocol: Protocol): Option<Parsed> {
    if groups == [] then Some(parsed)
    else if !NoneTwice(groups[0]) then None
    else
      match Take(parsed, RunOf(groups[0]), protocol)
      case Err(_) => None
      case Ok(next) => Reading(groups[1..], next, protocol)
  }

  function Accepted(r: Result<Parsed, Refusal>): Option<Parsed> {
    match r case Err(_) => None case Ok(p) => Some(p)
  }

  lemma StoreIsAppend(g: seq<Record>, d: Record)
    requires g != [] && NoneTwice(g) && Known(d) && !Starts(d)
    ensures var stored := Store(KindOf(d), d, Some(RunOf(g)));
            && (stored.Ok? <==> NoneTwice(g + [d]))
            && (stored.Ok? ==> stored.value == RunOf(g + [d]))
  {
    Appended(g, [d], XSO_SOCKET);
    Appended(g, [d], XSO_STATS);
    Appended(g, [d], XSO_TCPCB);
  }

  lemma TwiceStays(g: seq<Record>, h: seq<Record>)
    requires !NoneTwice(g)
    ensures !NoneTwice(g + h)
  {
    Appended(g, h, XSO_SOCKET);
    Appended(g, h, XSO_STATS);
    Appended(g, h, XSO_TCPCB);
  }

  lemma StartIsOk(d: Record)
    requires Starts(d)
    ensures NoneTwice([d]) && RunOf([d]) == Run(Some(d), None, None, None)
  {
  }

  lemma LengthsTail(ds: seq<Record>)
    requires ds != []
    ensures LengthsOk(ds) <==> (Known(ds[0]) ==> |ds[0]| == ExpectedLen(KindOf(ds[0])).value) && LengthsOk(ds[1..])
  {
    forall i | 0 <= i < |ds[1..]| ensures ds[1..][i] == ds[i + 1] { }
    if LengthsOk(ds[1..]) && (Known(ds[0]) ==> |ds[0]| == ExpectedLen(KindOf(ds[0])).value) {
      forall i | 0 <= i < |ds| && Known(ds[i]) ensures |ds[i]| == ExpectedLen(KindOf(ds[i])).value {
        if i > 0 { assert ds[i] == ds[1..][i - 1]; }
      }
    }
  }

  /** With a socket's records `g` read so far, the fold is the reading of whole groups. */
  lemma {:induction false} FoldIsReading(ds: seq<Record>, g: seq<Record>, parsed: Parsed, protocol: Protocol)
    requires g != [] && NoneTwice(g)
    ensures Accepted(Fold(ds, Some(RunOf(g)), parsed, protocol))
         == if LengthsOk(ds) then Reading([g + Split(ds).lead] + Split(ds).groups, parsed, protocol) else None
  {
    hide Take, NoneTwice, RunOf, Store;
    if ds == [] {
      assert g + [] == g;
      assert ([g] + [])[1..] == [] && ([g] + [])[0] == g;
    } else {
      var d, later := ds[0], Split(ds[1..]);
      LengthsTail(ds);
      hide LengthsOk;
      if !Known(d) {
        FoldIsReading(ds[1..], g, parsed, protocol);
      } else if |d| == ExpectedLen(KindOf(d)).value {
        if Starts(d) {
          var groups := [g + []] + ([[d] + later.lead] + later.groups);
          assert g + [] == g;
          assert groups[1..] == [[d] + later.lead] + later.groups;
          StartIsOk(d);
          var taken := Take(parsed, RunOf(g), protocol);
          if taken.Ok? {
            FoldIsReading(ds[1..], [d], taken.value, protocol);
          }
        } else {
          StoreIsAppend(g, d);
          assert (g + [d]) + later.lead == g + ([d] + later.lead);
          if NoneTwice(g + [d]) {
            FoldIsReading(ds[1..], g + [d], parsed, protocol);
          } else {
            TwiceStays(g + [d], later.lead);
          }
        }
      }
    }
  }

  /** Before the first socket only unknown records may stand. */
  lemma {:induction false} FoldFromStart(ds: seq<Record>, parsed: Parsed, protocol: Protocol)
    ensures Accepted(Fold(ds, None, parsed, protocol))
         == if LengthsOk(ds) && Split(ds).lead == [] then Reading(Split(ds).groups, parsed, protocol) else None
  {
    hide Take, NoneTwice, RunOf, Reading;
    if ds == [] {
      assert Reading([], parsed, protocol) == Some(parsed) by { ReadingNone(parsed, protocol); }
    } else {
      var d := ds[0];
      LengthsTail(ds);
      hide LengthsOk;
      if !Known(d) {
        FoldFromStart(ds[1..], parsed, protocol);
      } else if |d| == ExpectedLen(KindOf(d)).value && Starts(d) {
        StartIsOk(d);
        FoldIsReading(ds[1..], [d], parsed, protocol);
      }
    }
  }

  lemma ReadingNone(parsed: Parsed, protocol: Protocol)
    ensures Reading([], parsed, protocol) == Some(parsed)
  {
  }

  // ---------------------------------------------------------------- acceptance

  /** `table` is a well-formed table of these records, and they read as `v`. */
  ghost predicate Says(table: seq<byte>, protocol: Protocol, rs: seq<Padded>, end: seq<byte>, v: Parsed) {
    && |table| >= 24 && Decode(table[0..4]) == 24
    && AllFramed(rs) && Closing(end) && table[24..] == Lay(rs) + end
    && LengthsOk(Datas(rs)) && Split(Datas(rs)).lead == []
    && Reading(Split(Datas(rs)).groups, Parsed([], Decode(table[4..8]), 0, {}, []), protocol) == Some(v)
  }

  /** A table is accepted with a result exactly when it is well formed and says that result. */
  lemma AcceptedIff(table: seq<byte>, protocol: Protocol, v: Parsed)
    ensures ParseTable(table, protocol) == Ok(v) <==> exists rs, end :: Says(table, protocol, rs, end, v)
  {
    if ParseTable(table, protocol) == Ok(v) {
      var start := Parsed([], ReadU32(table, 4).value, 0, {}, []);
      var rs, end := AcceptedIsFramed(table, XINPGEN_LEN, None, start, protocol);
      WalkIsFold(table, XINPGEN_LEN, rs, end, None, start, protocol);
      FoldFromStart(Datas(rs), start, protocol);
      assert Says(table, protocol, rs, end, v);
    }
    if rs, end :| Says(table, protocol, rs, end, v) {
      var start := Parsed([], Decode(table[4..8]), 0, {}, []);
      WalkIsFold(table, XINPGEN_LEN, rs, end, None, start, protocol);
      FoldFromStart(Datas(rs), start, protocol);
    }
  }

  /** What every socket of an accepted table carries. */
  predicate Carries(g: seq<Record>, protocol: Protocol) {
    && NoneTwice(g)
    && First(g, XSO_SOCKET).Some?
    && (var socket := First(g, XSO_SOCKET).value;
        |socket| >= RECORD_HEADER_LEN && !IsDetached(socket) ==>
          && ReadI32(socket, SO_PROTOCOL) == Some(ProtocolNumber(protocol))
          && First(g, XSO_STATS).Some?
          && (g != [] && protocol == Tcp && ReadU16Be(g[0], INP_LPORT) != Some(0) ==> First(g, XSO_TCPCB).Some?))
  }

  lemma {:induction false} ReadingIsComplete(groups: seq<seq<Record>>, parsed: Parsed, protocol: Protocol)
    requires Reading(groups, parsed, protocol).Some?
    ensures Reading(groups, parsed, protocol).value.sockets == parsed.sockets + |groups|
    ensures forall i :: 0 <= i < |groups| ==> Carries(groups[i], protocol)
  {
    if groups != [] {
      var next := Take(parsed, RunOf(groups[0]), protocol).value;
      ReadingIsComplete(groups[1..], next, protocol);
      assert Carries(groups[0], protocol);
      hide Carries;
      forall i | 0 <= i < |groups| ensures Carries(groups[i], protocol) {
        if i > 0 { assert groups[i] == groups[1..][i - 1]; }
      }
    }
  }

  /** So an accepted table, whatever its bytes, counts its groups as its sockets, and each of them
      carries its records. */
  lemma AcceptedIsComplete(table: seq<byte>, protocol: Protocol, v: Parsed) returns (rs: seq<Padded>, end: seq<byte>)
    requires ParseTable(table, protocol) == Ok(v)
    ensures Says(table, protocol, rs, end, v)
    ensures var groups := Split(Datas(rs)).groups;
            v.sockets == |groups| && forall i :: 0 <= i < |groups| ==> Carries(groups[i], protocol)
  {
    AcceptedIff(table, protocol, v);
    rs, end :| Says(table, protocol, rs, end, v);
    hide ParseTable, Carries, Reading;
    ReadingIsComplete(Split(Datas(rs)).groups, Parsed([], Decode(table[4..8]), 0, {}, []), protocol);
  }
}
