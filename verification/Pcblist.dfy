/** The parser of XNU's `pcblist_n` socket tables.

    A table is an opening header, records of self-described length on an 8-byte grid, and a
    closing header. Each socket is a run of records; anything unexpected refuses the whole
    table. */
module Pcblist {
  import opened Bytes

  const XINPGEN_LEN := 24
  const RECORD_HEADER_LEN := 8
  const XSO_SOCKET := 0x01
  const XSO_RCVBUF := 0x02
  const XSO_SNDBUF := 0x04
  const XSO_STATS := 0x08
  const XSO_INPCB := 0x10
  const XSO_TCPCB := 0x20
  const TC_STATS_MAX := 4
  const DATA_STATS_LEN := 32
  const RX_BYTES_AT := 8
  const TX_BYTES_AT := 24
  const INP_FPORT := 16
  const INP_LPORT := 18
  const INP_VFLAG := 44
  const INP_FADDR := 48
  const INP_LADDR := 64
  const IN4_IN_4IN6 := 12
  const SO_PROTOCOL := 36
  const SO_UID := 64
  const SO_LAST_PID := 68
  const DETACHED := 0
  const T_STATE := 36
  const TCPS_LISTEN := 1

  datatype Protocol = Tcp | Udp

  datatype Address = V4(octets: seq<byte>) | V6(octets: seq<byte>)

  datatype Listener = Listener(protocol: Protocol, address: Address, port: nat, pid: Option<nat>, uid: Option<nat>)

  datatype Flow = Flow(pid: nat, received: nat, transmitted: nat)

  /** Why a table is refused; the source carries these as wording. */
  datatype Refusal =
    | ShortHeader
    | OpeningLength(len: nat)
    | NoClosingHeader(pos: nat)
    | PastEnd(pos: nat)
    | ShortRecord(pos: nat, len: nat)
    | WrongLength(kind: nat, len: nat)
    | BeforeFirstSocket(kind: nat)
    | Twice(kind: nat)
    | MissingSocket
    | MissingStats
    | MissingTcpcb
    | WrongProtocol(got: int)
    | NoFamily(vflag: nat)
    | ShortField

  /** The records of one socket that the parser reads. */
  datatype Run = Run(
    inpcb: Option<seq<byte>>, socket: Option<seq<byte>>, stats: Option<seq<byte>>, tcpcb: Option<seq<byte>>)

  datatype Parsed = Parsed(listeners: seq<Listener>, headerCount: nat, sockets: nat, owners: set<nat>, flows: seq<Flow>)

  function ExpectedLen(kind: nat): Option<nat> {
    if kind == XSO_SOCKET || kind == XSO_INPCB then Some(104)
    else if kind == XSO_RCVBUF || kind == XSO_SNDBUF then Some(32)
    else if kind == XSO_STATS then Some(136)
    else if kind == XSO_TCPCB then Some(204)
    else None
  }

  function Align8(n: nat): (r: nat)
    ensures n <= r < n + 8
  {
    (n + 7) / 8 * 8
  }

  // ---------------------------------------------------------------- one socket

  function ClassBytes(stats: seq<byte>, at: nat, tc: nat): nat
    requires |stats| >= RECORD_HEADER_LEN + (tc + 1) * DATA_STATS_LEN
    requires at <= TX_BYTES_AT
  {
    ReadU64(stats, RECORD_HEADER_LEN + tc * DATA_STATS_LEN + at).value
  }

  /** The exact sum over the first `classes` traffic classes. */
  function ClassSum(stats: seq<byte>, at: nat, classes: nat): nat
    requires classes > 0 ==> |stats| >= RECORD_HEADER_LEN + classes * DATA_STATS_LEN
    requires at <= TX_BYTES_AT
  {
    if classes == 0 then 0 else ClassSum(stats, at, classes - 1) + ClassBytes(stats, at, classes - 1)
  }

  /** Received and sent bytes over all four classes, capped at the largest u64. */
  function Traffic(stats: seq<byte>): Option<(nat, nat)> {
    if |stats| < RECORD_HEADER_LEN + TC_STATS_MAX * DATA_STATS_LEN then None
    else Some((Capped(ClassSum(stats, RX_BYTES_AT, TC_STATS_MAX)), Capped(ClassSum(stats, TX_BYTES_AT, TC_STATS_MAX))))
  }

  /** The source's accumulation, one saturating addition per class; a record too short for
      some class gives nothing. */
  method TrafficBytes(stats: seq<byte>) returns (r: Option<(nat, nat)>)
    ensures r == Traffic(stats)
  {
    var received, transmitted := 0, 0;
    for tc := 0 to TC_STATS_MAX
      invariant tc > 0 ==> |stats| >= RECORD_HEADER_LEN + tc * DATA_STATS_LEN
      invariant received == Capped(ClassSum(stats, RX_BYTES_AT, tc))
      invariant transmitted == Capped(ClassSum(stats, TX_BYTES_AT, tc))
    {
      var base := RECORD_HEADER_LEN + tc * DATA_STATS_LEN;
      var rx := ReadU64(stats, base + RX_BYTES_AT);
      if rx.None? {
        return None;
      }
      var tx := ReadU64(stats, base + TX_BYTES_AT);
      if tx.None? {
        return None;
      }
      received := SaturatingAdd(received, rx.value);
      transmitted := SaturatingAdd(transmitted, tx.value);
    }
    return Some((received, transmitted));
  }

  function AddressOf(inpcb: seq<byte>, at: nat, vflag: nat): Result<Address, Refusal> {
    match Slice(inpcb, at, 16)
    case None => Err(ShortField)
    case Some(bytes) =>
      if vflag / 2 % 2 == 1 then Ok(V6(bytes))
      else if vflag % 2 == 1 then Ok(V4(bytes[IN4_IN_4IN6..]))
      else Err(NoFamily(vflag))
  }

  predicate AllZero(s: seq<byte>) {
    forall i :: 0 <= i < |s| ==> s[i] == 0
  }

  predicate IsDetached(socket: seq<byte>) {
    && ReadI32(socket, SO_PROTOCOL) == Some(DETACHED)
    && AllZero(socket[RECORD_HEADER_LEN..])
  }

  function ProtocolNumber(protocol: Protocol): int {
    match protocol case Tcp => 6 case Udp => 17
  }

  function Owner(socket: seq<byte>): Option<nat> {
    match ReadI32(socket, SO_LAST_PID)
    case None => None
    case Some(pid) => if pid >= 0 then Some(pid) else None
  }

  /** Is this attached, bound socket waiting for connections? */
  function Listening(run: Run, inpcb: seq<byte>, vflag: nat, protocol: Protocol): Result<bool, Refusal> {
    match protocol
    case Tcp =>
      (match run.tcpcb
       case None => Err(MissingTcpcb)
       case Some(tcpcb) =>
         match ReadI32(tcpcb, T_STATE)
         case None => Err(ShortField)
         case Some(state) => Ok(state == TCPS_LISTEN))
    case Udp =>
      (match ReadU16Be(inpcb, INP_FPORT)
       case None => Err(ShortField)
       case Some(foreignPort) =>
         if foreignPort != 0 then Ok(false)
         else
           match AddressOf(inpcb, INP_FADDR, vflag)
           case Err(e) => Err(e)
           case Ok(address) => Ok(AllZero(address.octets)))
  }

  /** One socket's owner and listener entry; `None` when no socket is attached. */
  function Classify(run: Run, protocol: Protocol): Result<Option<(Option<nat>, Option<Listener>)>, Refusal> {
    if run.inpcb.None? || run.socket.None? then Err(MissingSocket)
    else
      var inpcb, socket := run.inpcb.value, run.socket.value;
      match ReadI32(socket, SO_PROTOCOL)
      case None => Err(ShortField)
      case Some(number) =>
        if |socket| >= RECORD_HEADER_LEN && IsDetached(socket) then Ok(None)
        else if number != ProtocolNumber(protocol) then Err(WrongProtocol(number))
        else
          var owner := Owner(socket);
          match ReadU16Be(inpcb, INP_LPORT)
          case None => Err(ShortField)
          case Some(port) =>
            if port == 0 then Ok(Some((owner, None)))
            else if |inpcb| <= INP_VFLAG then Err(ShortField)
            else
              var vflag := inpcb[INP_VFLAG];
              match AddressOf(inpcb, INP_LADDR, vflag)
              case Err(e) => Err(e)
              case Ok(address) =>
                match Listening(run, inpcb, vflag, protocol)
                case Err(e) => Err(e)
                case Ok(listening) =>
                  if !listening then Ok(Some((owner, None)))
                  else Ok(Some((owner, Some(Listener(protocol, address, port, owner, ReadU32(socket, SO_UID))))))
  }

  /** What one complete socket adds to the result. */
  function Take(parsed: Parsed, run: Run, protocol: Protocol): Result<Parsed, Refusal> {
    var counted := parsed.(sockets := parsed.sockets + 1);
    match Classify(run, protocol)
    case Err(e) => Err(e)
    case Ok(None) => Ok(counted)
    case Ok(Some((owner, listener))) =>
      if run.stats.None? then Err(MissingStats)
      else
        match Traffic(run.stats.value)
        case None => Err(ShortField)
        case Some((received, transmitted)) =>
          Ok(counted.(
             flows := if owner.Some? then parsed.flows + [Flow(owner.value, received, transmitted)] else parsed.flows,
             owners := if owner.Some? then parsed.owners + {owner.value} else parsed.owners,
             listeners := if listener.Some? then parsed.listeners + [listener.value] else parsed.listeners))
  }

  // ---------------------------------------------------------------- the walk

  /** A known record that does not start a socket goes into its slot of the current run. */
  function Store(kind: nat, record: seq<byte>, run: Option<Run>): Result<Run, Refusal> {
    match run
    case None => Err(BeforeFirstSocket(kind))
    case Some(current) =>
      if kind == XSO_SOCKET then
        if current.socket.Some? then Err(Twice(kind)) else Ok(current.(socket := Some(record)))
      else if kind == XSO_STATS then
        if current.stats.Some? then Err(Twice(kind)) else Ok(current.(stats := Some(record)))
      else if kind == XSO_TCPCB then
        if current.tcpcb.Some? then Err(Twice(kind)) else Ok(current.(tcpcb := Some(record)))
      else
        Ok(current)
  }

  function Complete(parsed: Parsed, run: Option<Run>, protocol: Protocol): Result<Parsed, Refusal> {
    match run case None => Ok(parsed) case Some(done) => Take(parsed, done, protocol)
  }

  /** One record's effect on the run being built and on the result. */
  function Step(kind: nat, record: seq<byte>, run: Option<Run>, parsed: Parsed, protocol: Protocol)
    : Result<(Option<Run>, Parsed), Refusal>
  {
    match ExpectedLen(kind)
    case None => Ok((run, parsed))
    case Some(expected) =>
      if expected != |record| then Err(WrongLength(kind, |record|))
      else if kind == XSO_INPCB then
        match Complete(parsed, run, protocol)
        case Err(e) => Err(e)
        case Ok(next) => Ok((Some(Run(Some(record), None, None, None)), next))
      else
        match Store(kind, record, run)
        case Err(e) => Err(e)
        case Ok(current) => Ok((Some(current), parsed))
  }

  function WalkFrom(table: seq<byte>, pos: nat, run: Option<Run>, parsed: Parsed, protocol: Protocol)
    : Result<Parsed, Refusal>
    decreases |table| - pos
  {
    if pos + 8 > |table| then Err(NoClosingHeader(pos))
    else
      var len := ReadU32(table, pos).value;
      var kind := ReadU32(table, pos + 4).value;
      if pos + len > |table| then Err(PastEnd(pos))
      else if len == XINPGEN_LEN then Complete(parsed, run, protocol)
      else if len < RECORD_HEADER_LEN then Err(ShortRecord(pos, len))
      else
        match Step(kind, table[pos..pos + len], run, parsed, protocol)
        case Err(e) => Err(e)
        case Ok((run', parsed')) => WalkFrom(table, pos + Align8(len), run', parsed', protocol)
  }

  function ParseTable(table: seq<byte>, protocol: Protocol): Result<Parsed, Refusal> {
    if |table| < 4 then Err(ShortHeader)
    else
      var opening := ReadU32(table, 0).value;
      if opening != XINPGEN_LEN then Err(OpeningLength(opening))
      else if |table| < 8 then Err(ShortHeader)
      else WalkFrom(table, XINPGEN_LEN, None, Parsed([], ReadU32(table, 4).value, 0, {}, []), protocol)
  }

  /** The table being read, filled in place as sockets are completed. */
  class Tally {
    var listeners: seq<Listener>
    var headerCount: nat
    var sockets: nat
    var owners: set<nat>
    var flows: seq<Flow>

    function Value(): Parsed
      reads this
    {
      Parsed(listeners, headerCount, sockets, owners, flows)
    }

    constructor (count: nat)
      ensures Value() == Parsed([], count, 0, {}, [])
    {
      listeners, headerCount, sockets, owners, flows := [], count, 0, {}, [];
    }

    /** A completed socket is counted, and if it is attached and has what it needs its
        counters, owner and listener are appended. One that is refused has been counted, and
        nothing else. */
    method TakeRun(run: Run, protocol: Protocol) returns (r: Result<(), Refusal>)
      modifies this
      ensures r.Ok? <==> Take(old(Value()), run, protocol).Ok?
      ensures r.Ok? ==> Value() == Take(old(Value()), run, protocol).value
      ensures r.Err? ==> r.error == Take(old(Value()), run, protocol).error
      ensures r.Err? ==> Value() == old(Value()).(sockets := old(sockets) + 1)
    {
      hide Classify, Traffic;
      sockets := sockets + 1;
      var classified := Classify(run, protocol);
      if classified.Err? {
        return Err(classified.error);
      }
      if classified.value.Some? {
        var (owner, listener) := classified.value.value;
        if run.stats.None? {
          return Err(MissingStats);
        }
        var traffic := TrafficBytes(run.stats.value);
        if traffic.None? {
          return Err(ShortField);
        }
        if owner.Some? {
          flows := flows + [Flow(owner.value, traffic.value.0, traffic.value.1)];
          owners := owners + {owner.value};
        }
        if listener.Some? {
          listeners := listeners + [listener.value];
        }
      }
      return Ok(());
    }

    /** The socket under way, if there is one, is complete. */
    method Close(run: Option<Run>, protocol: Protocol) returns (r: Result<(), Refusal>)
      modifies this
      ensures var complete := Complete(old(Value()), run, protocol);
              && (r.Ok? <==> complete.Ok?)
              && (r.Ok? ==> Value() == complete.value)
              && (r.Err? ==> r.error == complete.error)
    {
      hide Take;
      if run.None? {
        return Ok(());
      }
      r := TakeRun(run.value, protocol);
    }

    /** One record: it starts a socket, completing the one before, goes into the socket under
        way, or is stepped over. */
    method Enter(kind: nat, record: seq<byte>, run: Option<Run>, protocol: Protocol)
        returns (r: Result<Option<Run>, Refusal>)
      modifies this
      ensures var step := Step(kind, record, run, old(Value()), protocol);
              && (step.Err? ==> r == Err(step.error))
              && (step.Ok? ==> r == Ok(step.value.0) && Value() == step.value.1)
    {
      hide Complete, Store;
      var expected := ExpectedLen(kind);
      if expected.None? {
        return Ok(run);
      }
      if expected.value != |record| {
        return Err(WrongLength(kind, |record|));
      }
      if kind == XSO_INPCB {
        var closed := Close(run, protocol);
        if closed.Err? {
          return Err(closed.error);
        }
        return Ok(Some(Run(Some(record), None, None, None)));
      }
      var stored := Store(kind, record, run);
      if stored.Err? {
        return Err(stored.error);
      }
      return Ok(Some(stored.value));
    }
  }

  /** Whether the kernel showed a caller nothing but its own sockets. */
  predicate ShowsOnly(parsed: Parsed, ownPid: nat) {
    parsed.sockets < parsed.headerCount && forall pid :: pid in parsed.owners ==> pid == ownPid
  }

  /** The walk in place: in bounds on any bytes, and ending because each record advances by at
      least eight. */
  method Parse(table: seq<byte>, protocol: Protocol) returns (r: Result<Parsed, Refusal>)
    ensures r == ParseTable(table, protocol)
  {
    if |table| < 4 {
      return Err(ShortHeader);
    }
    var opening := ReadU32(table, 0).value;
    if opening != XINPGEN_LEN {
      return Err(OpeningLength(opening));
    }
    if |table| < 8 {
      return Err(ShortHeader);
    }
    var tally := new Tally(ReadU32(table, 4).value);
    var run: Option<Run> := None;
    var pos := XINPGEN_LEN;
    hide Complete, Step;
    while true
      invariant ParseTable(table, protocol) == WalkFrom(table, pos, run, tally.Value(), protocol)
      decreases |table| - pos
    {
      if pos + 8 > |table| {
        return Err(NoClosingHeader(pos));
      }
      var len := ReadU32(table, pos).value;
      var kind := ReadU32(table, pos + 4).value;
      if pos + len > |table| {
        return Err(PastEnd(pos));
      }
      if len == XINPGEN_LEN {
        var closed := tally.Close(run, protocol);
        return if closed.Err? then Err(closed.error) else Ok(tally.Value());
      }
      if len < RECORD_HEADER_LEN {
        return Err(ShortRecord(pos, len));
      }
      var entered := tally.Enter(kind, table[pos..pos + len], run, protocol);
      if entered.Err? {
        return Err(entered.error);
      }
      run := entered.value;
      pos := pos + Align8(len);
    }
  }
}
