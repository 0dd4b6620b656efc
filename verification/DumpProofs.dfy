/** What a dump means, independent of how the kernel cut it into buffers.

    A message is its bytes plus the padding after it. `Meaning` runs over messages as a
    list; the theorems say that the byte walk, over any cutting of the list into receive
    buffers, computes exactly that, errors included. */
module DumpProofs {
  import opened Bytes
  import opened SockDiag
  import opened Diag

  type Message = Padded

  /** Its length field tells the truth. */
  predicate Framed(m: Message) {
    |m.data| >= 16 && Decode(m.data[0..4]) == |m.data|
  }

  function Padding(n: nat): nat {
    (4 - n % 4) % 4
  }

  /** Messages that may stand in one buffer: full padding between them, and any part of it,
      or none, after the last. */
  predicate Stackable(ms: seq<Message>) {
    forall i :: 0 <= i < |ms| ==>
      Framed(ms[i]) && |ms[i].pad| <= Padding(|ms[i].data|) &&
      (i + 1 < |ms| ==> |ms[i].pad| == Padding(|ms[i].data|))
  }

  /** One message's effect, its sequence number checked first. */
  function Effect(sequence: nat, m: seq<byte>, part: DumpPart): Result<DumpPart, ParseError>
  {
    if |m| < NLMSG_HDRLEN then Err(Malformed(ShortClaim(0, |m|))) else
    var got := ReadU32(m, 8).value;
    if got != sequence then Err(Malformed(StraySequence(got, sequence)))
    else Absorb(ReadU16(m, 4).value, ReadU16(m, 6).value, m, part)
  }

  /** The messages in order, until one ends the dump or is refused. */
  function Meaning(sequence: nat, ds: seq<seq<byte>>, part: DumpPart): Result<DumpPart, ParseError>
  {
    if ds == [] || Settled(part) then Ok(part)
    else
      match Effect(sequence, ds[0], part)
      case Err(e) => Err(e)
      case Ok(next) => Meaning(sequence, ds[1..], next)
  }

  // ---------------------------------------------------------------- one buffer

  /** The buffer's rest at `pos` is exactly `ms`. */
  predicate Holds(buf: seq<byte>, pos: nat, ms: seq<Message>) {
    if pos <= |buf| then buf[pos..] == Lay(ms) else ms == []
  }

  lemma PaddingAligns(n: nat)
    ensures Align4(n) == n + Padding(n)
  {
  }

  lemma Peel(buf: seq<byte>, pos: nat, ms: seq<Message>)
    requires Stackable(ms) && Holds(buf, pos, ms) && ms != []
    ensures var d := ms[0].data;
            && pos + |d| <= |buf|
            && buf[pos..pos + |d|] == d
            && Holds(buf, pos + Align4(|d|), ms[1..])
  {
    var d := ms[0].data;
    var rest := buf[pos..];
    PaddingAligns(|d|);
    assert Framed(ms[0]);
    hide Align4, Padding, Decode;
    assert rest == d + (ms[0].pad + Lay(ms[1..]));
    assert rest[..|d|] == d;
    var next := pos + Align4(|d|);
    if |ms| == 1 {
      assert Lay(ms[1..]) == [];
      assert |buf| == pos + |d| + |ms[0].pad|;
      if next <= |buf| { assert buf[next..] == []; }
    } else {
      assert |d + ms[0].pad| == Align4(|d|);
      assert rest == (d + ms[0].pad) + Lay(ms[1..]);
      assert rest[Align4(|d|)..] == Lay(ms[1..]);
      assert buf[next..] == rest[Align4(|d|)..];
    }
  }

  /** The header fields are the message's own. */
  lemma HeaderFields(buf: seq<byte>, pos: nat, d: seq<byte>)
    requires |d| >= NLMSG_HDRLEN && pos + |d| <= |buf| && buf[pos..pos + |d|] == d
    ensures ReadU32(buf, pos).value == Decode(d[0..4])
    ensures ReadU16(buf, pos + 4) == ReadU16(d, 4)
    ensures ReadU16(buf, pos + 6) == ReadU16(d, 6)
    ensures ReadU32(buf, pos + 8) == ReadU32(d, 8)
  {
    PartOf(buf, pos, d, 0, 4);
    PartOf(buf, pos, d, 4, 2);
    PartOf(buf, pos, d, 6, 2);
    PartOf(buf, pos, d, 8, 4);
  }

  /** The walk at `pos`, on a buffer whose rest is `ms`, computes their meaning. */
  lemma {:induction false} WalkIsMeaning(sequence: nat, buf: seq<byte>, pos: nat, ms: seq<Message>, part: DumpPart)
    requires Stackable(ms) && Holds(buf, pos, ms)
    ensures WalkFrom(sequence, buf, pos, part) == Meaning(sequence, Datas(ms), part)
    decreases |ms|
  {
    hide Absorb, Align4, Decode;
    if ms != [] && !Settled(part) {
      var d := ms[0].data;
      assert Framed(ms[0]);
      Peel(buf, pos, ms);
      HeaderFields(buf, pos, d);
      assert Datas(ms)[1..] == Datas(ms[1..]);
      var next := pos + Align4(|d|);
      match Effect(sequence, d, part) {
        case Err(_) =>
        case Ok(after) => WalkIsMeaning(sequence, buf, next, ms[1..], after);
      }
    }
  }

  lemma LayNonEmpty(ms: seq<Message>)
    requires ms != [] && Stackable(ms)
    ensures Lay(ms) != []
  {
    assert Framed(ms[0]);
  }

  /** One `recv` buffer holding `ms`. */
  lemma BufferIsMeaning(sequence: nat, ms: seq<Message>)
    requires ms != [] && Stackable(ms)
    ensures ParseBuffer(sequence, Lay(ms)) == Meaning(sequence, Datas(ms), NOTHING)
  {
    LayNonEmpty(ms);
    assert Lay(ms)[0..] == Lay(ms);
    WalkIsMeaning(sequence, Lay(ms), 0, ms, NOTHING);
  }

  /** What a buffer holds from `pos` on; nothing if the last padding was cut short. */
  function Rest(buf: seq<byte>, pos: nat): seq<byte> {
    if pos <= |buf| then buf[pos..] else []
  }

  /** The message a walk reads at `pos`, with as much of its padding as there is. */
  lemma CutMessage(buf: seq<byte>, pos: nat, len: nat) returns (m: Message)
    requires NLMSG_HDRLEN <= len && pos + len <= |buf| && Decode(buf[pos..pos + 4]) == len
    ensures Framed(m) && m.data == buf[pos..pos + len] && |m.pad| <= Padding(len)
    ensures Rest(buf, pos) == (m.data + m.pad) + Rest(buf, pos + Align4(len))
    ensures pos + Align4(len) <= |buf| ==> |m.pad| == Padding(len)
  {
    PaddingAligns(len);
    hide Align4, Padding, Decode;
    var end := if pos + Align4(len) <= |buf| then pos + Align4(len) else |buf|;
    m := Padded(buf[pos..pos + len], buf[pos + len..end]);
    assert m.data[0..4] == buf[pos..pos + 4];
  }

  /** Every message is of the request's sequence. */
  predicate AllOf(sequence: nat, ms: seq<Message>) {
    forall i :: 0 <= i < |ms| ==> ReadU32(ms[i].data, 8) == Some(sequence)
  }

  /** On any bytes: an accepted walk has read whole messages on a 4-byte grid, each of a true
      length in range and of the request's sequence, and nothing else; its result is their
      meaning, and it stopped because that was settled or less than a header was left. */
  lemma {:induction false} AcceptedIsMessages(sequence: nat, buf: seq<byte>, pos: nat, part: DumpPart)
      returns (ms: seq<Message>, tail: seq<byte>)
    requires WalkFrom(sequence, buf, pos, part).Ok?
    ensures Stackable(ms) && Rest(buf, pos) == Lay(ms) + tail
    ensures Meaning(sequence, Datas(ms), part) == WalkFrom(sequence, buf, pos, part)
    ensures AllOf(sequence, ms)
    ensures var end := WalkFrom(sequence, buf, pos, part).value; end.done || end.errno.Some? || |tail| < 16
    decreases |buf| - pos
  {
    WalkStops(sequence, buf, pos, part);
    hide Absorb, Align4, Decode, Stackable, Framed, Padding, Rest, WalkFrom, Effect, Meaning, Lay, Datas, AllOf,
         ReadU32;
    if pos + NLMSG_HDRLEN > |buf| || Settled(part) {
      ms, tail := [], Rest(buf, pos);
      NoMessages(sequence, part);
      assert [] + tail == tail;
    } else {
      var m, next, after := WalkReads(sequence, buf, pos, part);
      var later;
      later, tail := AcceptedIsMessages(sequence, buf, after, next);
      ms := [m] + later;
      OneMessageMore(sequence, m, later, part, next);
      assert ((m.data + m.pad) + Lay(later)) + tail == (m.data + m.pad) + (Lay(later) + tail);
      if later != [] { LayNonEmpty(later); }
      StackOne(m, later, |m.data|, Rest(buf, after) != []);
    }
  }

  lemma WalkStops(sequence: nat, buf: seq<byte>, pos: nat, part: DumpPart)
    ensures pos + NLMSG_HDRLEN > |buf| || Settled(part) ==> WalkFrom(sequence, buf, pos, part) == Ok(part)
    ensures pos + NLMSG_HDRLEN > |buf| ==> |Rest(buf, pos)| < NLMSG_HDRLEN
  {
  }

  /** One message of an accepted walk. */
  lemma WalkReads(sequence: nat, buf: seq<byte>, pos: nat, part: DumpPart)
      returns (m: Message, next: DumpPart, after: nat)
    requires WalkFrom(sequence, buf, pos, part).Ok? && pos + NLMSG_HDRLEN <= |buf| && !Settled(part)
    ensures pos < after && Framed(m) && |m.pad| <= Padding(|m.data|) && ReadU32(m.data, 8) == Some(sequence)
    ensures Rest(buf, pos) == (m.data + m.pad) + Rest(buf, after)
    ensures Rest(buf, after) != [] ==> |m.pad| == Padding(|m.data|)
    ensures Effect(sequence, m.data, part) == Ok(next)
    ensures WalkFrom(sequence, buf, pos, part) == WalkFrom(sequence, buf, after, next)
  {
    hide Absorb, Align4, Decode, Framed, Padding;
    var len := ReadU32(buf, pos).value;
    m := CutMessage(buf, pos, len);
    HeaderFields(buf, pos, m.data);
    next := Absorb(ReadU16(buf, pos + 4).value, ReadU16(buf, pos + 6).value, m.data, part).value;
    after := pos + Align4(len);
    AlignUp(len);
  }

  lemma AlignUp(n: nat)
    ensures Align4(n) >= n
  {
  }

  lemma NoMessages(sequence: nat, part: DumpPart)
    ensures Stackable([]) && Lay([]) == [] && Datas([]) == [] && AllOf(sequence, [])
    ensures Meaning(sequence, [], part) == Ok(part)
  {
  }

  lemma OneMessageMore(sequence: nat, m: Message, later: seq<Message>, part: DumpPart, next: DumpPart)
    requires !Settled(part) && Effect(sequence, m.data, part) == Ok(next)
    ensures Lay([m] + later) == (m.data + m.pad) + Lay(later)
    ensures Meaning(sequence, Datas([m] + later), part) == Meaning(sequence, Datas(later), next)
    ensures ReadU32(m.data, 8) == Some(sequence) && AllOf(sequence, later) ==> AllOf(sequence, [m] + later)
  {
    hide Effect, ReadU32;
    var ms := [m] + later;
    assert ms[1..] == later;
    assert Datas(ms)[0] == m.data && Datas(ms)[1..] == Datas(later);
  }

  lemma StackOne(m: Message, later: seq<Message>, len: nat, full: bool)
    requires Framed(m) && |m.data| == len && |m.pad| <= Padding(len) && (full ==> |m.pad| == Padding(len))
    requires Stackable(later) && (later != [] ==> full)
    ensures Stackable([m] + later)
  {
    assert forall i :: 1 <= i < |[m] + later| ==> ([m] + later)[i] == later[i - 1];
  }

  // ---------------------------------------------------------------- many buffers

  function Before(flows: seq<TcpFlow>, r: Result<DumpPart, ParseError>): Result<DumpPart, ParseError> {
    match r case Err(e) => Err(e) case Ok(p) => Ok(p.(flows := flows + p.flows))
  }

  /** Flows already collected only go in front. */
  lemma {:induction false} MeaningAfter(sequence: nat, ds: seq<seq<byte>>, part: DumpPart, flows: seq<TcpFlow>)
    ensures Meaning(sequence, ds, part.(flows := flows + part.flows))
         == Before(flows, Meaning(sequence, ds, part))
  {
    if ds != [] && !Settled(part) {
      var d := ds[0];
      var here, there := Effect(sequence, d, part), Effect(sequence, d, part.(flows := flows + part.flows));
      assert there == Before(flows, here) by {
        assert forall f :: (flows + part.flows) + [f] == flows + (part.flows + [f]);
      }
      if here.Ok? {
        MeaningAfter(sequence, ds[1..], here.value, flows);
      }
    }
  }

  /** Messages after a part are messages after what the part left. */
  lemma {:induction false} MeaningSplit(sequence: nat, a: seq<seq<byte>>, b: seq<seq<byte>>, part: DumpPart)
    ensures Meaning(sequence, a + b, part)
         == (match Meaning(sequence, a, part) case Err(e) => Err(e) case Ok(p) => Meaning(sequence, b, p))
  {
    if a == [] {
      assert a + b == b;
    } else if !Settled(part) {
      assert (a + b)[1..] == a[1..] + b;
      match Effect(sequence, a[0], part) {
        case Err(_) =>
        case Ok(next) => MeaningSplit(sequence, a[1..], b, next);
      }
    } else {
      assert Meaning(sequence, a, part) == Ok(part);
    }
  }

  function Flatten(chunks: seq<seq<Message>>): seq<Message> {
    if chunks == [] then [] else chunks[0] + Flatten(chunks[1..])
  }

  predicate Cut(chunks: seq<seq<Message>>) {
    forall i :: 0 <= i < |chunks| ==> chunks[i] != [] && Stackable(chunks[i])
  }

  /** A stream that delivers these buffers, with interrupted calls anywhere between them. */
  predicate Delivers(stream: seq<Recv>, chunks: seq<seq<Message>>) {
    if stream == [] then chunks == []
    else if stream[0] == Interrupted then Delivers(stream[1..], chunks)
    else chunks != [] && stream[0] == Got(Lay(chunks[0])) && Delivers(stream[1..], chunks[1..])
  }

  /** What a family dump comes to: nothing in it depends on buffers. */
  function Outcome(sequence: nat, ipv6: bool, ds: seq<seq<byte>>, got: seq<TcpFlow>): Result<FamilyDump, DumpError>
  {
    match Meaning(sequence, ds, NOTHING)
    case Err(e) => Err(Rejected(e))
    case Ok(part) =>
      if part.errno.Some? then FamilyErrno(part.errno.value, ipv6)
      else if part.done then Ok(Ready(got + part.flows, part.interrupted))
      else Err(TimedOut)
  }

  lemma {:induction false} MeaningUnsettled(sequence: nat, ds: seq<seq<byte>>, part: DumpPart)
    requires Meaning(sequence, ds, part).Ok? && !Settled(Meaning(sequence, ds, part).value)
    requires !part.interrupted
    ensures !Meaning(sequence, ds, part).value.interrupted
  {
    if ds != [] && !Settled(part) {
      var next := Effect(sequence, ds[0], part).value;
      MeaningUnsettled(sequence, ds[1..], next);
    }
  }

  /** Nothing is read after an end mark or an errno. */
  lemma SettledStays(sequence: nat, ds: seq<seq<byte>>, part: DumpPart)
    requires part.done || part.errno.Some?
    ensures Meaning(sequence, ds, part) == Ok(part)
  {
  }

  function FlowsIn(parsed: Result<DumpPart, ParseError>): seq<TcpFlow> {
    match parsed case Err(_) => [] case Ok(part) => part.flows
  }

  /** One parsed buffer ends the dump, or leaves it to `onwards`. */
  function Conclude(
      parsed: Result<DumpPart, ParseError>, ipv6: bool, got: seq<TcpFlow>, onwards: Result<FamilyDump, DumpError>)
    : Result<FamilyDump, DumpError>
  {
    match parsed
    case Err(e) => Err(Rejected(e))
    case Ok(part) =>
      if part.errno.Some? then FamilyErrno(part.errno.value, ipv6)
      else if part.done then Ok(Ready(got + part.flows, part.interrupted))
      else onwards
  }

  /** One buffer's worth of messages either settles the dump or leaves the rest to do, with
      its flows in front. */
  lemma PeelBuffer(sequence: nat, ipv6: bool, ds: seq<seq<byte>>, later: seq<seq<byte>>, got: seq<TcpFlow>)
    ensures var first := Meaning(sequence, ds, NOTHING);
            Outcome(sequence, ipv6, ds + later, got)
            == Conclude(first, ipv6, got, Outcome(sequence, ipv6, later, got + FlowsIn(first)))
  {
    hide Meaning, Effect, FamilyErrno;
    MeaningSplit(sequence, ds, later, NOTHING);
    var first := Meaning(sequence, ds, NOTHING);
    if first.Ok? {
      var part := first.value;
      if Settled(part) {
        SettledStays(sequence, later, part);
      } else {
        MeaningUnsettled(sequence, ds, NOTHING);
        MeaningAfter(sequence, later, NOTHING, part.flows);
        assert part == NOTHING.(flows := part.flows + NOTHING.flows);
        var rest := Meaning(sequence, later, NOTHING);
        if rest.Ok? {
          assert (got + part.flows) + rest.value.flows == got + (part.flows + rest.value.flows);
        }
      }
    }
  }

  lemma ReceiveGot(sequence: nat, ipv6: bool, stream: seq<Recv>, got: seq<TcpFlow>, recvs: nat)
    requires recvs < RECV_CAP && stream != [] && stream[0].Got? && stream[0].bytes != []
    ensures ReceiveFrom(sequence, ipv6, stream, got, recvs)
         == var parsed := ParseBuffer(sequence, stream[0].bytes);
            Conclude(parsed, ipv6, got, ReceiveFrom(sequence, ipv6, stream[1..], got + FlowsIn(parsed), recvs + 1))
  {
  }

  /** Whether a buffer with this result is the last one received. */
  predicate Ends(parsed: Result<DumpPart, ParseError>) {
    parsed.Err? || Settled(parsed.value)
  }

  /** The cap leaves room for every receive up to the one that ends the dump, or up to the one
      that finds nothing. */
  predicate WithinCap(sequence: nat, chunks: seq<seq<Message>>, recvs: nat)
    decreases |chunks|
  {
    && recvs < 4096
    && (chunks == [] || Ends(Meaning(sequence, Datas(chunks[0]), NOTHING))
        || WithinCap(sequence, chunks[1..], recvs + 1))
  }

  /** The receive loop from any point: what it comes to depends on the messages alone, unless
      the cap cuts it off. */
  function Limited(sequence: nat, ipv6: bool, chunks: seq<seq<Message>>, got: seq<TcpFlow>, recvs: nat)
    : Result<FamilyDump, DumpError>
  {
    if WithinCap(sequence, chunks, recvs) then Outcome(sequence, ipv6, Datas(Flatten(chunks)), got)
    else Err(DidNotFinish)
  }

  lemma {:induction false} ReceiveIsOutcome(
      sequence: nat, ipv6: bool, stream: seq<Recv>, chunks: seq<seq<Message>>, got: seq<TcpFlow>, recvs: nat)
    requires Cut(chunks) && Delivers(stream, chunks)
    ensures ReceiveFrom(sequence, ipv6, stream, got, recvs) == Limited(sequence, ipv6, chunks, got, recvs)
    decreases |stream|
  {
    hide ReceiveFrom, Limited, Lay, Cut;
    ReceiveSteps(sequence, ipv6, stream, chunks, got, recvs);
    if recvs < RECV_CAP && stream != [] {
      if stream[0] == Interrupted {
        ReceiveIsOutcome(sequence, ipv6, stream[1..], chunks, got, recvs);
      } else {
        CutFirst(chunks);
        var open := ReceiveChunk(sequence, ipv6, stream, chunks, got, recvs);
        if open.Some? {
          ReceiveIsOutcome(sequence, ipv6, stream[1..], chunks[1..], got + open.value.flows, recvs + 1);
        }
      }
    }
  }

  lemma CutFirst(chunks: seq<seq<Message>>)
    requires Cut(chunks) && chunks != []
    ensures chunks[0] != [] && Stackable(chunks[0]) && Cut(chunks[1..])
  {
    hide Stackable;
  }

  /** The steps of the loop that parse nothing. */
  lemma ReceiveSteps(
      sequence: nat, ipv6: bool, stream: seq<Recv>, chunks: seq<seq<Message>>, got: seq<TcpFlow>, recvs: nat)
    requires Delivers(stream, chunks)
    ensures recvs >= RECV_CAP || stream == [] ==>
              ReceiveFrom(sequence, ipv6, stream, got, recvs) == Limited(sequence, ipv6, chunks, got, recvs)
    ensures recvs < RECV_CAP && stream != [] && stream[0] == Interrupted ==>
              ReceiveFrom(sequence, ipv6, stream, got, recvs) == ReceiveFrom(sequence, ipv6, stream[1..], got, recvs)
  {
    hide ParseBuffer, Lay, Effect;
    if stream == [] {
      assert Flatten(chunks) == [] && Datas([]) == [];
      assert Outcome(sequence, ipv6, [], got) == Err(TimedOut);
    }
  }

  /** The step on a delivered buffer: either both sides end here, or both go on with the same
      flows. */
  lemma ReceiveChunk(
      sequence: nat, ipv6: bool, stream: seq<Recv>, chunks: seq<seq<Message>>, got: seq<TcpFlow>, recvs: nat)
    returns (open: Option<DumpPart>)
    requires recvs < RECV_CAP && stream != [] && chunks != []
    requires chunks[0] != [] && Stackable(chunks[0]) && stream[0] == Got(Lay(chunks[0]))
    ensures open == None ==>
              ReceiveFrom(sequence, ipv6, stream, got, recvs) == Limited(sequence, ipv6, chunks, got, recvs)
    ensures open.Some? ==>
      && ReceiveFrom(sequence, ipv6, stream, got, recvs)
         == ReceiveFrom(sequence, ipv6, stream[1..], got + open.value.flows, recvs + 1)
      && Limited(sequence, ipv6, chunks, got, recvs)
         == Limited(sequence, ipv6, chunks[1..], got + open.value.flows, recvs + 1)
  {
    hide ReceiveFrom, Outcome, Meaning, Datas, Lay, Stackable, FamilyErrno, ParseBuffer;
    var c, later := chunks[0], Flatten(chunks[1..]);
    FlattenFirst(chunks);
    LayNonEmpty(c);
    BufferIsMeaning(sequence, c);
    PeelBuffer(sequence, ipv6, Datas(c), Datas(later), got);
    ReceiveGot(sequence, ipv6, stream, got, recvs);
    var parsed := ParseBuffer(sequence, Lay(c));
    open := if Ends(parsed) then None else Some(parsed.value);
  }

  lemma FlattenFirst(chunks: seq<seq<Message>>)
    requires chunks != []
    ensures Datas(Flatten(chunks)) == Datas(chunks[0]) + Datas(Flatten(chunks[1..]))
  {
    assert Flatten(chunks) == chunks[0] + Flatten(chunks[1..]);
  }

  lemma OutcomeFinishes(sequence: nat, ipv6: bool, ds: seq<seq<byte>>, got: seq<TcpFlow>)
    ensures Outcome(sequence, ipv6, ds, got) != Err(DidNotFinish)
  {
  }

  /** Chunking invariance: one list of messages, cut into buffers two ways and delivered with
      any interrupted calls between, gives one and the same result, flows, torn mark, errno
      or refusal alike, if and only if the cap cuts off both or neither. The contents of the
      messages are arbitrary. */
  lemma ChunkingInvariance(
      sequence: nat, ipv6: bool,
      a: seq<Recv>, cutA: seq<seq<Message>>, b: seq<Recv>, cutB: seq<seq<Message>>)
    requires Cut(cutA) && Delivers(a, cutA) && Cut(cutB) && Delivers(b, cutB)
    requires Datas(Flatten(cutA)) == Datas(Flatten(cutB))
    ensures ReceiveFrom(sequence, ipv6, a, [], 0) == ReceiveFrom(sequence, ipv6, b, [], 0)
       <==> (WithinCap(sequence, cutA, 0) <==> WithinCap(sequence, cutB, 0))
  {
    hide ReceiveFrom, Outcome, WithinCap, Cut, Delivers, Datas;
    ReceiveIsOutcome(sequence, ipv6, a, cutA, [], 0);
    ReceiveIsOutcome(sequence, ipv6, b, cutB, [], 0);
    OutcomeFinishes(sequence, ipv6, Datas(Flatten(cutA)), []);
  }

  /** The cap cuts off no dump of fewer buffers than it, and none of exactly as many if they
      end it. */
  lemma {:induction false} FewFitTheCap(sequence: nat, chunks: seq<seq<Message>>, recvs: nat)
    requires recvs + |chunks| <= 4096
    requires recvs + |chunks| < 4096 || Ends(Meaning(sequence, Datas(Flatten(chunks)), NOTHING))
    ensures WithinCap(sequence, chunks, recvs)
  {
    hide Meaning, Datas;
    if chunks == [] {
      assert Datas([]) == [];
      NothingMeant(sequence);
    } else {
      var first := Meaning(sequence, Datas(chunks[0]), NOTHING);
      if !Ends(first) {
        FlattenFirst(chunks);
        LaterEnds(sequence, Datas(chunks[0]), Datas(Flatten(chunks[1..])));
        FewFitTheCap(sequence, chunks[1..], recvs + 1);
      }
    }
  }

  lemma NothingMeant(sequence: nat)
    ensures Meaning(sequence, [], NOTHING) == Ok(NOTHING) && !Ends(Ok(NOTHING))
  {
  }

  /** What does not end with its first part ends with the rest. */
  lemma LaterEnds(sequence: nat, ds: seq<seq<byte>>, later: seq<seq<byte>>)
    requires !Ends(Meaning(sequence, ds, NOTHING))
    ensures Ends(Meaning(sequence, ds + later, NOTHING)) <==> Ends(Meaning(sequence, later, NOTHING))
  {
    hide Meaning, Effect;
    MeaningSplit(sequence, ds, later, NOTHING);
    MeaningUnsettled(sequence, ds, NOTHING);
    var part := Meaning(sequence, ds, NOTHING).value;
    MeaningAfter(sequence, later, NOTHING, part.flows);
    assert part == NOTHING.(flows := part.flows + NOTHING.flows);
  }
}
