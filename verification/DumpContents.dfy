/** What a well-formed dump reports: its sockets' counters, in order, whatever attributes and
    padding stand around them. */
module DumpContents {
  import opened Bytes
  import opened SockDiag
  import opened Diag
  import opened DumpProofs

  // ---------------------------------------------------------------- attributes

  datatype Attr = Attr(kind: nat, payload: seq<byte>, pad: seq<byte>)

  predicate AttrOk(a: Attr) {
    a.kind < 0x1_0000 && 4 + |a.payload| < 0x1_0000 && |a.pad| == Padding(4 + |a.payload|)
  }

  function AttrHead(kind: nat, payload: seq<byte>): (h: seq<byte>)
    ensures |h| == 4
  {
    Encode(4 + |payload|, 2) + Encode(kind, 2)
  }

  function AttrBytes(a: Attr): seq<byte> {
    AttrHead(a.kind, a.payload) + a.payload + a.pad
  }

  function AttrsBytes(attrs: seq<Attr>): seq<byte> {
    if attrs == [] then [] else AttrBytes(attrs[0]) + AttrsBytes(attrs[1..])
  }

  lemma AttrFields(msg: seq<byte>, at: nat, kind: nat, payload: seq<byte>, rest: seq<byte>)
    requires kind < 0x1_0000 && 4 + |payload| < 0x1_0000
    requires at <= |msg| && msg[at..] == AttrHead(kind, payload) + payload + rest
    ensures at + 4 + |payload| <= |msg|
    ensures ReadU16(msg, at) == Some(4 + |payload|) && ReadU16(msg, at + 2) == Some(kind)
    ensures msg[at + 4..at + 4 + |payload|] == payload
    ensures msg[at + 4 + |payload|..] == rest
  {
    Widths();
    var all := AttrHead(kind, payload) + payload + rest;
    assert |msg| == at + |all|;
    assert all[0..2] == Encode(4 + |payload|, 2) && all[2..4] == Encode(kind, 2);
    assert msg[at..at + |all|] == all;
    PartOf(msg, at, all, 0, 2);
    PartOf(msg, at, all, 2, 2);
    PartOf(msg, at, all, 4, |payload|);
    assert all[4..4 + |payload|] == payload;
    ReadBack(msg, at, 4 + |payload|, 2);
    ReadBack(msg, at + 2, kind, 2);
    assert msg[at + 4 + |payload|..] == all[4 + |payload|..];
    assert all[4 + |payload|..] == rest;
  }

  predicate Skipped(a: Attr) {
    AttrOk(a) && a.kind % 0x4000 != 2
  }

  lemma SkipsAttr(msg: seq<byte>, at: nat, a: Attr, onwards: seq<byte>)
    requires Skipped(a) && at <= |msg| && msg[at..] == AttrBytes(a) + onwards
    ensures var next := at + |AttrBytes(a)|;
            && next <= |msg| && msg[next..] == onwards
            && TcpInfoFrom(msg, at) == TcpInfoFrom(msg, next)
  {
    assert msg[at..] == AttrHead(a.kind, a.payload) + a.payload + (a.pad + onwards);
    AttrFields(msg, at, a.kind, a.payload, a.pad + onwards);
    assert |AttrBytes(a)| == Align4(4 + |a.payload|);
    assert msg[at..][|AttrBytes(a)|..] == onwards;
  }

  lemma StopsAtInfo(msg: seq<byte>, at: nat, kind: nat, info: seq<byte>, tail: seq<byte>)
    requires kind < 0x1_0000 && kind % 0x4000 == 2 && 4 + |info| < 0x1_0000
    requires at <= |msg| && msg[at..] == AttrHead(kind, info) + info + tail
    ensures TcpInfoFrom(msg, at) == Ok(Some(info))
  {
    AttrFields(msg, at, kind, info, tail);
  }

  /** Attributes the walk does not know are stepped over, with their padding; what follows the
      one it does know is never read. */
  lemma {:induction false} FindsInfo(
      msg: seq<byte>, at: nat, before: seq<Attr>, kind: nat, info: seq<byte>, tail: seq<byte>)
    requires forall i :: 0 <= i < |before| ==> Skipped(before[i])
    requires kind < 0x1_0000 && kind % 0x4000 == 2 && 4 + |info| < 0x1_0000
    requires at <= |msg| && msg[at..] == AttrsBytes(before) + (AttrHead(kind, info) + info + tail)
    ensures TcpInfoFrom(msg, at) == Ok(Some(info))
    decreases |before|
  {
    hide TcpInfoFrom, AttrBytes, AttrHead, Skipped;
    var last := AttrHead(kind, info) + info + tail;
    if before == [] {
      assert msg[at..] == last;
      StopsAtInfo(msg, at, kind, info, tail);
    } else {
      var onwards := AttrsBytes(before[1..]) + last;
      assert msg[at..] == AttrBytes(before[0]) + onwards;
      SkipsAttr(msg, at, before[0], onwards);
      FindsInfo(msg, at + |AttrBytes(before[0])|, before[1..], kind, info, tail);
    }
  }

  // ---------------------------------------------------------------- messages

  /** One message: `port` is the header field the parser does not read. */
  function MessageBytes(sequence: nat, kind: nat, flags: nat, port: seq<byte>, body: seq<byte>): seq<byte> {
    Encode(12 + |port| + |body|, 4) + Encode(kind, 2) + Encode(flags, 2) + Encode(sequence, 4) + port + body
  }

  predicate HeaderOk(sequence: nat, kind: nat, flags: nat, port: seq<byte>, body: seq<byte>) {
    && sequence < 0x1_0000_0000 && kind < 0x1_0000 && flags < 0x1_0000
    && |port| == 4 && 16 + |body| < 0x1_0000_0000
  }

  lemma MessageFields(sequence: nat, kind: nat, flags: nat, port: seq<byte>, body: seq<byte>)
    requires HeaderOk(sequence, kind, flags, port, body)
    ensures var m := MessageBytes(sequence, kind, flags, port, body);
            && |m| == 16 + |body| && Decode(m[0..4]) == |m|
            && ReadU16(m, 4) == Some(kind) && ReadU16(m, 6) == Some(flags) && ReadU32(m, 8) == Some(sequence)
            && m[16..] == body
  {
    Widths();
    var m := MessageBytes(sequence, kind, flags, port, body);
    assert m[0..4] == Encode(|m|, 4);
    assert m[4..6] == Encode(kind, 2);
    assert m[6..8] == Encode(flags, 2);
    assert m[8..12] == Encode(sequence, 4);
    DecodeEncode(|m|, 4);
    ReadBack(m, 4, kind, 2);
    ReadBack(m, 6, flags, 2);
    ReadBack(m, 8, sequence, 4);
  }

  /** What the kernel may put in a dump before its end: message kinds 20 (a socket) and 2 (an
      error, or an acknowledgement), and any but 3, which ends it. */
  datatype Entry =
    | Socket(head: seq<byte>, before: seq<Attr>, infoKind: nat, info: seq<byte>, tail: seq<byte>)
    | Closing(head: seq<byte>, rest: seq<byte>) // TIME_WAIT or SYN_RECV: inode 0
    | Ack(rest: seq<byte>)
    | Other(kind: nat, rest: seq<byte>)

  function Inode(head: seq<byte>): nat {
    OrZero(ReadU32(head, 68))
  }

  predicate EntryOk(e: Entry) {
    match e
    case Socket(head, before, infoKind, info, _) =>
      && |head| == 72 && Inode(head) != 0
      && (forall i :: 0 <= i < |before| ==> Skipped(before[i]))
      && infoKind < 0x1_0000 && infoKind % 0x4000 == 2
      && 136 <= |info| && 4 + |info| < 0x1_0000
    case Closing(head, _) => |head| == 72 && Inode(head) == 0
    case Ack(_) => true
    case Other(kind, _) => kind !in {20, 2, 3}
  }

  function Kind(e: Entry): nat {
    match e
    case Socket(_, _, _, _, _) => 20
    case Closing(_, _) => 20
    case Ack(_) => 2
    case Other(kind, _) => kind
  }

  function Body(e: Entry): seq<byte> {
    match e
    case Socket(head, before, infoKind, info, tail) =>
      head + (AttrsBytes(before) + (AttrHead(infoKind, info) + info + tail))
    case Closing(head, rest) => head + rest
    case Ack(rest) => [0, 0, 0, 0] + rest
    case Other(_, rest) => rest
  }

  /** The counters a socket entry stands for: received bytes at 128 of its `tcp_info`, and sent
      bytes at 200, or acknowledged bytes at 120 if it is shorter than that. */
  function Report(e: Entry): seq<TcpFlow> {
    match e
    case Socket(head, _, _, info, _) =>
      var sentAt := if |info| >= 208 then 200 else 120;
      [TcpFlow(Inode(head), OrZero(ReadU64(info, 128)), OrZero(ReadU64(info, sentAt)))]
    case _ => []
  }

  lemma SocketEffect(sequence: nat, flags: nat, port: seq<byte>, e: Entry, part: DumpPart)
    requires e.Socket? && EntryOk(e) && HeaderOk(sequence, Kind(e), flags, port, Body(e))
    ensures Effect(sequence, MessageBytes(sequence, Kind(e), flags, port, Body(e)), part)
         == Ok(part.(flows := part.flows + Report(e)))
  {
    MessageFields(sequence, Kind(e), flags, port, Body(e));
    var m := MessageBytes(sequence, Kind(e), flags, port, Body(e));
    var rest := AttrsBytes(e.before) + (AttrHead(e.infoKind, e.info) + e.info + e.tail);
    InodeOf(m, e.head, rest);
    FindsInfo(m, 88, e.before, e.infoKind, e.info, e.tail);
  }

  lemma ClosingEffect(sequence: nat, flags: nat, port: seq<byte>, e: Entry, part: DumpPart)
    requires e.Closing? && EntryOk(e) && HeaderOk(sequence, Kind(e), flags, port, Body(e))
    ensures Effect(sequence, MessageBytes(sequence, Kind(e), flags, port, Body(e)), part) == Ok(part)
  {
    MessageFields(sequence, Kind(e), flags, port, Body(e));
    InodeOf(MessageBytes(sequence, Kind(e), flags, port, Body(e)), e.head, e.rest);
  }

  lemma AckEffect(sequence: nat, flags: nat, port: seq<byte>, e: Entry, part: DumpPart)
    requires e.Ack? && EntryOk(e) && HeaderOk(sequence, Kind(e), flags, port, Body(e))
    ensures Effect(sequence, MessageBytes(sequence, Kind(e), flags, port, Body(e)), part) == Ok(part)
  {
    MessageFields(sequence, Kind(e), flags, port, Body(e));
    assert MessageBytes(sequence, Kind(e), flags, port, Body(e))[16..20] == [0, 0, 0, 0];
    assert Decode([0, 0, 0, 0]) == 0 by { assert [0, 0, 0, 0] == Encode(0, 4); DecodeEncode(0, 4); }
  }

  lemma OtherEffect(sequence: nat, flags: nat, port: seq<byte>, e: Entry, part: DumpPart)
    requires e.Other? && EntryOk(e) && HeaderOk(sequence, Kind(e), flags, port, Body(e))
    ensures Effect(sequence, MessageBytes(sequence, Kind(e), flags, port, Body(e)), part) == Ok(part)
  {
    MessageFields(sequence, Kind(e), flags, port, Body(e));
  }

  lemma OnlySocketsReport(e: Entry, part: DumpPart)
    ensures !e.Socket? ==> part.(flows := part.flows + Report(e)) == part
  {
    assert part.flows + [] == part.flows;
  }

  lemma EntryEffect(sequence: nat, flags: nat, port: seq<byte>, e: Entry, part: DumpPart)
    requires EntryOk(e) && HeaderOk(sequence, Kind(e), flags, port, Body(e))
    ensures Effect(sequence, MessageBytes(sequence, Kind(e), flags, port, Body(e)), part)
         == Ok(part.(flows := part.flows + Report(e)))
  {
    hide EntryOk, HeaderOk, Kind, Body, MessageBytes, Effect, Report;
    OnlySocketsReport(e, part);
    match e {
      case Socket(_, _, _, _, _) => SocketEffect(sequence, flags, port, e, part);
      case Closing(_, _) => ClosingEffect(sequence, flags, port, e, part);
      case Ack(_) => AckEffect(sequence, flags, port, e, part);
      case Other(_, _) => OtherEffect(sequence, flags, port, e, part);
    }
  }

  lemma InodeOf(m: seq<byte>, head: seq<byte>, rest: seq<byte>)
    requires |head| == 72 && |m| >= 16 && m[16..] == head + rest
    ensures |m| >= 88
    ensures ReadU32(m, 84).value == Inode(head)
    ensures m[88..] == rest
  {
    assert |m| == 16 + |head + rest|;
    assert m[16..16 + |head|] == head by {
      assert m[16..][..|head|] == (head + rest)[..|head|];
    }
    PartOf(m, 16, head, 68, 4);
    assert m[16..][72..] == rest;
  }

  // ---------------------------------------------------------------- whole dumps

  datatype Stamped = Stamped(entry: Entry, flags: nat, port: seq<byte>)

  predicate StampedOk(sequence: nat, s: Stamped) {
    EntryOk(s.entry) && HeaderOk(sequence, Kind(s.entry), s.flags, s.port, Body(s.entry))
  }

  function StampedBytes(sequence: nat, s: Stamped): seq<byte> {
    MessageBytes(sequence, Kind(s.entry), s.flags, s.port, Body(s.entry))
  }

  function Dump(sequence: nat, entries: seq<Stamped>): seq<seq<byte>> {
    if entries == [] then [] else [StampedBytes(sequence, entries[0])] + Dump(sequence, entries[1..])
  }

  function Reports(entries: seq<Stamped>): seq<TcpFlow> {
    if entries == [] then [] else Report(entries[0].entry) + Reports(entries[1..])
  }

  lemma DoneEffect(sequence: nat, flags: nat, port: seq<byte>, last: seq<byte>, part: DumpPart)
    requires HeaderOk(sequence, 3, flags, port, last)
    ensures Effect(sequence, MessageBytes(sequence, 3, flags, port, last), part)
         == Ok(part.(done := true, interrupted := flags / 0x10 % 2 == 1))
  {
    MessageFields(sequence, 3, flags, port, last);
  }

  lemma StampedEffect(sequence: nat, s: Stamped, part: DumpPart)
    requires StampedOk(sequence, s)
    ensures Effect(sequence, StampedBytes(sequence, s), part)
         == Ok(part.(flows := part.flows + Report(s.entry)))
  {
    EntryEffect(sequence, s.flags, s.port, s.entry, part);
  }

  lemma {:induction false} EntriesMeaning(sequence: nat, entries: seq<Stamped>, part: DumpPart)
    requires !Settled(part)
    requires forall i :: 0 <= i < |entries| ==> StampedOk(sequence, entries[i])
    ensures Meaning(sequence, Dump(sequence, entries), part)
         == Ok(part.(flows := part.flows + Reports(entries)))
  {
    hide Effect, StampedBytes, StampedOk, Report, Reports, Dump, Meaning, Settled;
    DumpSteps(sequence, entries);
    if entries == [] {
      MeaningSteps(sequence, [], part);
      assert part.flows + [] == part.flows;
    } else {
      var e := entries[0];
      StampedEffect(sequence, e, part);
      var next := part.(flows := part.flows + Report(e.entry));
      StillOpen(part, next);
      MeaningSteps(sequence, Dump(sequence, entries), part);
      EntriesMeaning(sequence, entries[1..], next);
      assert next.flows + Reports(entries[1..]) == part.flows + (Report(e.entry) + Reports(entries[1..]));
    }
  }

  lemma DumpSteps(sequence: nat, entries: seq<Stamped>)
    ensures Dump(sequence, []) == [] && Reports([]) == []
    ensures entries != [] ==>
              && Dump(sequence, entries) != [] && Dump(sequence, entries)[0] == StampedBytes(sequence, entries[0])
              && Dump(sequence, entries)[1..] == Dump(sequence, entries[1..])
              && Reports(entries) == Report(entries[0].entry) + Reports(entries[1..])
  {
    hide StampedBytes, Report;
  }

  lemma MeaningSteps(sequence: nat, ds: seq<seq<byte>>, part: DumpPart)
    requires !Settled(part)
    ensures ds == [] ==> Meaning(sequence, ds, part) == Ok(part)
    ensures ds != [] && Effect(sequence, ds[0], part).Ok? ==>
              Meaning(sequence, ds, part) == Meaning(sequence, ds[1..], Effect(sequence, ds[0], part).value)
  {
    hide Effect;
  }

  lemma StillOpen(part: DumpPart, next: DumpPart)
    requires !Settled(part) && next.done == part.done && next.errno == part.errno
    ensures !Settled(next)
  {
  }

  lemma EndMeaning(sequence: nat, flags: nat, port: seq<byte>, last: seq<byte>, after: seq<seq<byte>>, part: DumpPart)
    requires !Settled(part) && HeaderOk(sequence, 3, flags, port, last)
    ensures Meaning(sequence, [MessageBytes(sequence, 3, flags, port, last)] + after, part)
         == Ok(part.(done := true, interrupted := flags / 0x10 % 2 == 1))
  {
    DoneEffect(sequence, flags, port, last, part);
    hide Effect, MessageBytes, HeaderOk;
    var end := part.(done := true, interrupted := flags / 0x10 % 2 == 1);
    SettledStays(sequence, after, end);
    assert ([MessageBytes(sequence, 3, flags, port, last)] + after)[1..] == after;
  }

  /** A family dump, however cut into buffers: the entries up to `NLMSG_DONE` report their
      sockets' counters in order, what follows it is not read, and the walk is torn exactly
      when the ending message says so. The end mark may come in the last buffer that the cap
      leaves room for. */
  lemma DumpReports(
      sequence: nat, ipv6: bool, stream: seq<Recv>, chunks: seq<seq<Message>>,
      entries: seq<Stamped>, flags: nat, port: seq<byte>, last: seq<byte>, after: seq<seq<byte>>)
    requires Cut(chunks) && Delivers(stream, chunks) && WithinCap(sequence, chunks, 0)
    requires forall i :: 0 <= i < |entries| ==> StampedOk(sequence, entries[i])
    requires HeaderOk(sequence, 3, flags, port, last)
    requires Datas(Flatten(chunks))
          == Dump(sequence, entries) + ([MessageBytes(sequence, 3, flags, port, last)] + after)
    ensures ReceiveFrom(sequence, ipv6, stream, [], 0)
         == Ok(Ready(Reports(entries), flags / 0x10 % 2 == 1))
  {
    ReceiveIsOutcome(sequence, ipv6, stream, chunks, [], 0);
    EntriesMeaning(sequence, entries, NOTHING);
    var end := [MessageBytes(sequence, 3, flags, port, last)] + after;
    MeaningSplit(sequence, Dump(sequence, entries), end, NOTHING);
    EndMeaning(sequence, flags, port, last, after, NOTHING.(flows := [] + Reports(entries)));
    assert [] + ([] + Reports(entries)) == Reports(entries);
  }

  // ---------------------------------------------------------------- one message, whatever it is

  /** What any message of the request's sequence does: kind 3 ends the dump, torn if bit 4 of its
      flags is set; kind 2 carries an errno, zero meaning none; kind 20 reports its socket; any
      other kind does nothing. */
  lemma MessageMeans(sequence: nat, m: seq<byte>, part: DumpPart)
    requires |m| >= 16 && ReadU32(m, 8) == Some(sequence)
    ensures var kind, flags, effect := ReadU16(m, 4).value, ReadU16(m, 6).value, Effect(sequence, m, part);
            && (kind == 3 ==> effect == Ok(part.(done := true, interrupted := flags / 16 % 2 == 1)))
            && (kind == 2 ==>
                  effect == match ReadI32(m, 16)
                            case None => Err(Malformed(ShortField))
                            case Some(errno) => Ok(if errno == 0 then part else part.(errno := Some(errno))))
            && (kind == 20 ==>
                  effect == match SocketMeans(m)
                            case Err(e) => Err(e)
                            case Ok(flows) => Ok(part.(flows := part.flows + flows)))
            && (kind !in {2, 3, 20} ==> effect == Ok(part))
  {
    assert part.flows + [] == part.flows;
    hide TcpInfoFrom;
  }

  /** What a socket message reports: its inode at 84 and, if that is not zero, the counters of
      its first attribute of type 2. */
  function SocketMeans(m: seq<byte>): Result<seq<TcpFlow>, ParseError> {
    if |m| < 88 then Err(Malformed(ShortDiagMsg))
    else
      var inode := ReadU32(m, 84).value;
      if inode == 0 then Ok([])
      else
        match TcpInfoFrom(m, 88)
        case Err(e) => Err(e)
        case Ok(None) => Err(Malformed(MissingInfo(inode)))
        case Ok(Some(info)) =>
          if |info| < 136 then Err(NoByteCounters(|info|))
          else Ok([TcpFlow(inode, ReadU64(info, 128).value, ReadU64(info, if |info| >= 208 then 200 else 120).value)])
  }

  /** One attribute of the walk: its length and type, the two highest bits of which are flags;
      an impossible length refuses the message, and any type but 2 is stepped over to the next
      multiple of four. */
  lemma AttributeMeans(m: seq<byte>, at: nat)
    ensures at + 4 > |m| ==> TcpInfoFrom(m, at) == Ok(None)
    ensures at + 4 <= |m| ==>
              var len, kind := ReadU16(m, at).value, ReadU16(m, at + 2).value % 0x4000;
              TcpInfoFrom(m, at)
              == if len < 4 || at + len > |m| then Err(Malformed(AttributeOverrun))
                 else if kind == 2 then Ok(Some(m[at + 4..at + len]))
                 else TcpInfoFrom(m, at + len + (4 - len % 4) % 4)
  {
    if at + 4 <= |m| {
      var len := ReadU16(m, at).value;
      assert Align4(len) == len + (4 - len % 4) % 4;
    }
  }

  /** A message of another sequence, or one shorter than a header, is refused. */
  lemma StrayMeans(sequence: nat, m: seq<byte>, part: DumpPart)
    ensures |m| < 16 || ReadU32(m, 8) != Some(sequence) ==> Effect(sequence, m, part).Err?
  {
  }

  /** One step of the walk over a buffer: fewer than sixteen bytes left end it; a length below
      sixteen, one past the end and another sequence refuse the buffer; and otherwise the message
      has its effect, and the next is at the next multiple of four. */
  lemma WalkMeans(sequence: nat, buf: seq<byte>, pos: nat, part: DumpPart)
    requires !part.done && part.errno.None?
    ensures pos + 16 > |buf| ==> WalkFrom(sequence, buf, pos, part) == Ok(part)
    ensures pos + 16 <= |buf| ==>
              var len, r := ReadU32(buf, pos).value, WalkFrom(sequence, buf, pos, part);
              && (len < 16 ==> r == Err(Malformed(ShortClaim(pos, len))))
              && (len >= 16 && pos + len > |buf| ==> r == Err(Malformed(PastEnd(pos))))
              && (len >= 16 && pos + len <= |buf| ==>
                    var got := ReadU32(buf, pos + 8).value;
                    r == if got != sequence then Err(Malformed(StraySequence(got, sequence)))
                         else match Effect(sequence, buf[pos..pos + len], part)
                              case Err(e) => Err(e)
                              case Ok(next) => WalkFrom(sequence, buf, pos + len + (4 - len % 4) % 4, next))
    ensures ParseBuffer(sequence, []) == Err(Malformed(EmptyReply))
  {
    if pos + 16 <= |buf| {
      var len := ReadU32(buf, pos).value;
      assert Align4(len) == len + (4 - len % 4) % 4;
      if len >= 16 && pos + len <= |buf| { HeaderFields(buf, pos, buf[pos..pos + len]); }
    }
    hide Absorb, ReadLe, Align4;
  }
}
