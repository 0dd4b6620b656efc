/** The netlink `SOCK_DIAG` dump parser: messages, and attributes inside messages.

    A receive buffer is a run of messages, each padded to four bytes; a socket message
    carries a run of attributes, each padded to four bytes. The message header is the one
    of section 2.3.2 of RFC 3549. */
module SockDiag {
  import opened Bytes

  const SOCK_DIAG_BY_FAMILY := 20
  const NLMSG_ERROR := 2
  const NLMSG_DONE := 3
  const DUMP_INTR_BIT := 0x10
  const NLMSG_HDRLEN := 16
  const DIAG_MSG_LEN := 72
  const INODE_AT := 68
  const INET_DIAG_INFO := 2
  const BYTES_ACKED_AT := 120
  const BYTES_RECEIVED_AT := 128
  const BYTES_SENT_AT := 200
  const MIN_RECEIVED := BYTES_RECEIVED_AT + 8
  const MIN_SENT := BYTES_SENT_AT + 8

  datatype TcpFlow = TcpFlow(inode: nat, received: nat, transmitted: nat)

  /** Why a buffer is not a walkable dump; the source carries these as wording. */
  datatype Defect =
    | EmptyReply
    | ShortClaim(at: nat, len: nat)
    | PastEnd(at: nat)
    | StraySequence(got: nat, want: nat)
    | ShortField
    | ShortDiagMsg
    | MissingInfo(inode: nat)
    | AttributeOverrun

  datatype ParseError = Malformed(defect: Defect) | NoByteCounters(bytes: nat)

  datatype DumpPart = DumpPart(flows: seq<TcpFlow>, done: bool, interrupted: bool, errno: Option<int>)

  const NOTHING := DumpPart([], false, false, None)

  function Align4(n: nat): (r: nat)
    ensures n <= r < n + 4
  {
    (n + 3) / 4 * 4
  }

  /** The attribute walk from `at` on: the payload of the first `INET_DIAG_INFO`. */
  function TcpInfoFrom(msg: seq<byte>, at: nat): (r: Result<Option<seq<byte>>, ParseError>)
    ensures r.Ok? && r.value.Some? ==> |r.value.value| <= |msg|
    decreases |msg| - at
  {
    if at + 4 > |msg| then Ok(None)
    else
      var nlaLen := ReadU16(msg, at).value;
      var nlaType := ReadU16(msg, at + 2).value % 0x4000;
      if nlaLen < 4 || at + nlaLen > |msg| then Err(Malformed(AttributeOverrun))
      else if nlaType == INET_DIAG_INFO then Ok(Some(msg[at + 4..at + nlaLen]))
      else TcpInfoFrom(msg, at + Align4(nlaLen))
  }

  /** The walk as the source runs it. Its own zero-step refusal cannot trigger: the step is
      at least four. */
  method TcpInfo(msg: seq<byte>) returns (r: Result<Option<seq<byte>>, ParseError>)
    ensures r == TcpInfoFrom(msg, NLMSG_HDRLEN + DIAG_MSG_LEN)
  {
    var at := NLMSG_HDRLEN + DIAG_MSG_LEN;
    while at + 4 <= |msg|
      invariant TcpInfoFrom(msg, NLMSG_HDRLEN + DIAG_MSG_LEN) == TcpInfoFrom(msg, at)
    {
      var nlaLen := ReadU16(msg, at).value;
      var nlaType := ReadU16(msg, at + 2).value % 0x4000;
      if nlaLen < 4 || at + nlaLen > |msg| {
        return Err(Malformed(AttributeOverrun));
      }
      if nlaType == INET_DIAG_INFO {
        return Ok(Some(msg[at + 4..at + nlaLen]));
      }
      at := at + Align4(nlaLen);
    }
    return Ok(None);
  }

  /** The counters of one `tcp_info` payload: what was sent, or on an older kernel what was
      acknowledged. */
  function Counters(inode: nat, info: seq<byte>): Result<Option<TcpFlow>, ParseError> {
    if |info| < MIN_RECEIVED then Err(NoByteCounters(|info|))
    else
      var received := ReadU64(info, BYTES_RECEIVED_AT).value;
      var transmitted :=
        if |info| >= MIN_SENT then ReadU64(info, BYTES_SENT_AT).value
        else ReadU64(info, BYTES_ACKED_AT).value;
      Ok(Some(TcpFlow(inode, received, transmitted)))
  }

  function FlowOf(msg: seq<byte>): Result<Option<TcpFlow>, ParseError> {
    if |msg| < NLMSG_HDRLEN + DIAG_MSG_LEN then Err(Malformed(ShortDiagMsg))
    else
      var inode := ReadU32(msg, NLMSG_HDRLEN + INODE_AT).value;
      if inode == 0 then Ok(None)
      else
        match TcpInfoFrom(msg, NLMSG_HDRLEN + DIAG_MSG_LEN)
        case Err(e) => Err(e)
        case Ok(None) => Err(Malformed(MissingInfo(inode)))
        case Ok(Some(info)) => Counters(inode, info)
  }

  /** What one message of kind `kind` does to the part being built. */
  function Absorb(kind: nat, flags: nat, msg: seq<byte>, part: DumpPart): Result<DumpPart, ParseError> {
    if kind == NLMSG_DONE then
      Ok(part.(done := true, interrupted := flags / DUMP_INTR_BIT % 2 == 1))
    else if kind == NLMSG_ERROR then
      match ReadI32(msg, NLMSG_HDRLEN)
      case None => Err(Malformed(ShortField))
      case Some(err) => Ok(if err != 0 then part.(errno := Some(err)) else part)
    else if kind == SOCK_DIAG_BY_FAMILY then
      match FlowOf(msg)
      case Err(e) => Err(e)
      case Ok(None) => Ok(part)
      case Ok(Some(flow)) => Ok(part.(flows := part.flows + [flow]))
    else
      // `NLMSG_NOOP`, or a kind that is not known
      Ok(part)
  }

  predicate Settled(part: DumpPart) {
    part.done || part.errno.Some?
  }

  function WalkFrom(sequence: nat, buf: seq<byte>, pos: nat, part: DumpPart): Result<DumpPart, ParseError>
    decreases |buf| - pos
  {
    if pos + NLMSG_HDRLEN > |buf| || Settled(part) then Ok(part)
    else
      var len := ReadU32(buf, pos).value;
      if len < NLMSG_HDRLEN then Err(Malformed(ShortClaim(pos, len)))
      else if pos + len > |buf| then Err(Malformed(PastEnd(pos)))
      else
        var kind := ReadU16(buf, pos + 4).value;
        var flags := ReadU16(buf, pos + 6).value;
        var got := ReadU32(buf, pos + 8).value;
        if got != sequence then Err(Malformed(StraySequence(got, sequence)))
        else
          match Absorb(kind, flags, buf[pos..pos + len], part)
          case Err(e) => Err(e)
          case Ok(next) => WalkFrom(sequence, buf, pos + Align4(len), next)
  }

  function ParseBuffer(sequence: nat, buf: seq<byte>): Result<DumpPart, ParseError> {
    if buf == [] then Err(Malformed(EmptyReply)) else WalkFrom(sequence, buf, 0, NOTHING)
  }

  /** One receive buffer, walked in place. Every read is in bounds on any bytes at all, and
      the walk ends because each message advances by at least sixteen. */
  method Parse(sequence: nat, buf: seq<byte>) returns (r: Result<DumpPart, ParseError>)
    ensures r == ParseBuffer(sequence, buf)
  {
    hide Absorb;
    if buf == [] {
      return Err(Malformed(EmptyReply));
    }
    var part := NOTHING;
    var pos := 0;
    while pos + NLMSG_HDRLEN <= |buf| && !part.done && part.errno.None?
      invariant WalkFrom(sequence, buf, 0, NOTHING) == WalkFrom(sequence, buf, pos, part)
      decreases |buf| - pos
    {
      var len := ReadU32(buf, pos).value;
      if len < NLMSG_HDRLEN {
        return Err(Malformed(ShortClaim(pos, len)));
      }
      if pos + len > |buf| {
        return Err(Malformed(PastEnd(pos)));
      }
      var kind := ReadU16(buf, pos + 4).value;
      var flags := ReadU16(buf, pos + 6).value;
      var got := ReadU32(buf, pos + 8).value;
      if got != sequence {
        return Err(Malformed(StraySequence(got, sequence)));
      }
      var effect := Absorb(kind, flags, buf[pos..pos + len], part);
      if effect.Err? {
        return Err(effect.error);
      }
      part := effect.value;
      pos := pos + Align4(len);
    }
    return Ok(part);
  }
}
