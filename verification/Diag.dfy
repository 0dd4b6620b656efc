/** The `SOCK_DIAG` dump driver: receive until the walk ends, and retry a walk the kernel
    marked as torn. The socket is replaced by the sequence of results its `recv` gives. */
module Diag {
  import opened Bytes
  import opened SockDiag

  const RECV_CAP := 4096
  const DUMP_ATTEMPTS := 3
  const EAFNOSUPPORT := 97
  const EPROTONOSUPPORT := 93
  const I32_MAX := 0x7FFF_FFFF

  datatype Recv = Got(bytes: seq<byte>) | Interrupted | Failed(errno: int)

  datatype DumpError =
    | EmptyRecv
    | DidNotFinish
    | TimedOut
    | RecvFailed(errno: int)
    | Refused(code: int)
    | Rejected(cause: ParseError)

  datatype FamilyDump = Absent | Ready(flows: seq<TcpFlow>, interrupted: bool)

  /** `NLMSG_ERROR` carries a negative errno; IPv6 not being there is an empty family. */
  function FamilyErrno(err: int, ipv6: bool): Result<FamilyDump, DumpError> {
    var code := if err < 0 then (if -err > I32_MAX then I32_MAX else -err) else err;
    if ipv6 && (code == EAFNOSUPPORT || code == EPROTONOSUPPORT) then Ok(Absent)
    else Err(Refused(code))
  }

  /** The receive loop: `got` flows so far after `recvs` buffers. A stream that has nothing
      more to give times out. */
  function ReceiveFrom(sequence: nat, ipv6: bool, stream: seq<Recv>, got: seq<TcpFlow>, recvs: nat)
    : Result<FamilyDump, DumpError>
  {
    if recvs >= RECV_CAP then Err(DidNotFinish)
    else if stream == [] then Err(TimedOut)
    else
      match stream[0]
      case Interrupted => ReceiveFrom(sequence, ipv6, stream[1..], got, recvs)
      case Failed(e) => Err(RecvFailed(e))
      case Got(bytes) =>
        if bytes == [] then Err(EmptyRecv)
        else
          match ParseBuffer(sequence, bytes)
          case Err(e) => Err(Rejected(e))
          case Ok(part) =>
            if part.errno.Some? then FamilyErrno(part.errno.value, ipv6)
            else if part.done then Ok(Ready(got + part.flows, part.interrupted))
            else ReceiveFrom(sequence, ipv6, stream[1..], got + part.flows, recvs + 1)
  }

  method ReadDump(sequence: nat, ipv6: bool, stream: seq<Recv>) returns (r: Result<FamilyDump, DumpError>)
    ensures r == ReceiveFrom(sequence, ipv6, stream, [], 0)
  {
    var flows := [];
    var recvs := 0;
    var next := 0;
    while true
      invariant next <= |stream|
      invariant ReceiveFrom(sequence, ipv6, stream, [], 0)
             == ReceiveFrom(sequence, ipv6, stream[next..], flows, recvs)
      decreases |stream| - next
    {
      if recvs >= RECV_CAP {
        return Err(DidNotFinish);
      }
      if next == |stream| {
        return Err(TimedOut);
      }
      match stream[next] {
        case Failed(e) =>
          return Err(RecvFailed(e));
        case Interrupted =>
        case Got(bytes) =>
          if bytes == [] {
            return Err(EmptyRecv);
          }
          recvs := recvs + 1;
          var parsed := Parse(sequence, bytes);
          if parsed.Err? {
            return Err(Rejected(parsed.error));
          }
          var part := parsed.value;
          if part.errno.Some? {
            return FamilyErrno(part.errno.value, ipv6);
          }
          flows := flows + part.flows;
          if part.done {
            return Ok(Ready(flows, part.interrupted));
          }
      }
      next := next + 1;
    }
  }

  /** Flows keyed by inode; a later flow of the same inode wins. */
  function ByInode(flows: seq<TcpFlow>): (m: map<nat, TcpFlow>)
    ensures forall i :: i in m ==> m[i].inode == i && m[i] in flows
    ensures forall f :: f in flows ==> f.inode in m
  {
    if flows == [] then map[]
    else
      var last := |flows| - 1;
      assert flows == flows[..last] + [flows[last]];
      ByInode(flows[..last])[flows[last].inode := flows[last]]
  }

  method KeyByInode(flows: seq<TcpFlow>) returns (kept: map<nat, TcpFlow>)
    ensures kept == ByInode(flows)
  {
    kept := map[];
    var i := 0;
    while i < |flows|
      invariant i <= |flows|
      invariant kept == ByInode(flows[..i])
    {
      assert flows[..i + 1][..i] == flows[..i];
      kept := kept[flows[i].inode := flows[i]];
      i := i + 1;
    }
    assert flows[..i] == flows;
  }

  /** The source's `into`: every socket's counters so far, across families. */
  class FlowTable {
    var byInode: map<nat, TcpFlow>

    constructor ()
      ensures byInode == map[]
    {
      byInode := map[];
    }

    /** Up to three walks, each with the buffers its own receive loop will see. The first that
        was not torn decides: an error is returned and an absent family adds nothing, the table
        staying as it was, and a whole walk's flows are added to it. If all three were torn the
        flows of the last are. */
    method DumpFamily(sequence: nat, ipv6: bool, attempts: seq<seq<Recv>>) returns (r: Result<(), DumpError>)
      requires |attempts| == DUMP_ATTEMPTS
      modifies this
      ensures var kept := Kept(Walks(sequence, ipv6, attempts));
              && (kept.Err? ==> r == Err(kept.error) && byInode == old(byInode))
              && (kept.Ok? ==> r == Ok(()) && byInode == old(byInode) + ByInode(kept.value))
      ensures forall k :: 0 <= k < 3 && Decides(Walks(sequence, ipv6, attempts), k) ==>
                var walk := Walks(sequence, ipv6, attempts)[k];
                && (walk.Err? ==> r == Err(walk.error) && byInode == old(byInode))
                && (walk == Ok(Absent) ==> r == Ok(()) && byInode == old(byInode))
                && (walk.Ok? && walk.value.Ready? ==>
                      r == Ok(()) && byInode == old(byInode) + ByInode(walk.value.flows))
      ensures AllTorn(Walks(sequence, ipv6, attempts)) ==>
                r == Ok(()) && byInode == old(byInode) + ByInode(Walks(sequence, ipv6, attempts)[2].value.flows)
    {
      ghost var walks := Walks(sequence, ipv6, attempts);
      assert ByInode([]) == map[] && byInode + map[] == byInode;
      KeptMeans(walks);
      hide ReceiveFrom, ByInode, Kept, Decides;
      var kept: map<nat, TcpFlow> := map[];
      ghost var latest: seq<TcpFlow> := [];
      var n := 0;
      while n < DUMP_ATTEMPTS
        invariant n <= DUMP_ATTEMPTS
        invariant byInode == old(byInode)
        invariant kept == ByInode(latest)
        invariant n < DUMP_ATTEMPTS ==> Kept(walks) == Kept(walks[n..])
        invariant n == DUMP_ATTEMPTS ==> Kept(walks) == Ok(latest)
      {
        var walk := ReadDump(sequence, ipv6, attempts[n]);
        assert walks[n..][1..] == walks[n + 1..];
        assert walks[n..][0] == walk;
        KeptNext(walks[n..]);
        if walk.Err? {
          return Err(walk.error);
        }
        match walk.value {
          case Absent =>
            assert byInode + map[] == byInode;
            return Ok(());
          case Ready(flows, interrupted) =>
            kept := KeyByInode(flows);
            latest := flows;
            if !interrupted {
              byInode := byInode + kept;
              return Ok(());
            }
        }
        n := n + 1;
      }
      byInode := byInode + kept;
      return Ok(());
    }
  }

  /** What each attempt's receive loop comes to. */
  function Walks(sequence: nat, ipv6: bool, attempts: seq<seq<Recv>>): (walks: seq<Result<FamilyDump, DumpError>>)
    ensures |walks| == |attempts|
    ensures forall j :: 0 <= j < |attempts| ==> walks[j] == ReceiveFrom(sequence, ipv6, attempts[j], [], 0)
  {
    seq(|attempts|, j requires 0 <= j < |attempts| => ReceiveFrom(sequence, ipv6, attempts[j], [], 0))
  }

  /** Whose flows a family contributes: a torn walk gives way to the next attempt as long as
      there is one. */
  function Kept(walks: seq<Result<FamilyDump, DumpError>>): Result<seq<TcpFlow>, DumpError>
    requires walks != []
  {
    match walks[0]
    case Err(e) => Err(e)
    case Ok(Absent) => Ok([])
    case Ok(Ready(flows, interrupted)) =>
      if interrupted && |walks| > 1 then Kept(walks[1..]) else Ok(flows)
  }

  lemma KeptNext(walks: seq<Result<FamilyDump, DumpError>>)
    requires walks != []
    ensures walks[0].Err? ==> Kept(walks) == Err(walks[0].error)
    ensures walks[0] == Ok(Absent) ==> Kept(walks) == Ok([])
    ensures walks[0].Ok? && walks[0].value.Ready? ==>
              Kept(walks)
              == if walks[0].value.interrupted && |walks| > 1 then Kept(walks[1..]) else Ok(walks[0].value.flows)
  {
  }

  predicate Torn(walk: Result<FamilyDump, DumpError>) {
    walk.Ok? && walk.value.Ready? && walk.value.interrupted
  }

  /** The `k`th walk is the first that was not torn. */
  predicate Decides(walks: seq<Result<FamilyDump, DumpError>>, k: nat) {
    k < |walks| && !Torn(walks[k]) && forall h :: 0 <= h < k ==> Torn(walks[h])
  }

  predicate AllTorn(walks: seq<Result<FamilyDump, DumpError>>) {
    forall k :: 0 <= k < |walks| ==> Torn(walks[k])
  }

  /** What is kept of three walks. */
  lemma KeptMeans(walks: seq<Result<FamilyDump, DumpError>>)
    requires |walks| == 3
    ensures forall k :: 0 <= k < 3 && Decides(walks, k) ==>
              Kept(walks) == match walks[k]
                             case Err(e) => Err(e)
                             case Ok(Absent) => Ok([])
                             case Ok(Ready(flows, _)) => Ok(flows)
    ensures AllTorn(walks) ==> Kept(walks) == Ok(walks[2].value.flows)
  {
    assert walks[1..][1..] == walks[2..] && walks[1..][0] == walks[1] && walks[2..][0] == walks[2];
    KeptNext(walks);
    KeptNext(walks[1..]);
    KeptNext(walks[2..]);
    hide Kept;
  }

  /** `f` is the last of the flows of its inode. */
  predicate IsLast(flows: seq<TcpFlow>, j: nat, inode: nat) {
    j < |flows| && flows[j].inode == inode && forall k :: j < k < |flows| ==> flows[k].inode != inode
  }

  /** The flow kept of an inode is the last there is. */
  lemma {:induction false} LastOfInode(flows: seq<TcpFlow>, inode: nat, j: nat)
    requires IsLast(flows, j, inode)
    ensures inode in ByInode(flows) && ByInode(flows)[inode] == flows[j]
  {
    hide ByInode;
    var before, f := flows[..|flows| - 1], flows[|flows| - 1];
    assert flows == before + [f];
    ByInodeNext(before, f);
    if j < |before| {
      LastOfInode(before, inode, j);
    }
  }

  /** A refusal of the family, errno 97 or 93 of either sign, means IPv6 is not there; on IPv4, and
      for any other errno, the dump has failed, and the error says the errno without its sign. */
  lemma RefusalMeans(err: int, ipv6: bool)
    ensures ipv6 && err in {-97, -93, 93, 97} ==> FamilyErrno(err, ipv6) == Ok(Absent)
    ensures !(ipv6 && err in {-97, -93, 93, 97}) ==>
              FamilyErrno(err, ipv6)
              == Err(Refused(if err >= 0 then err
                             else if err == -0x8000_0000 then 0x7FFF_FFFF
                             else Min(-err, 0x7FFF_FFFF)))
  {
  }

  /** Both families, IPv4 as sequence 1 and then IPv6 as sequence 2, into one table; the first
      error is the result. */
  method TcpFlows(v4: seq<seq<Recv>>, v6: seq<seq<Recv>>) returns (r: Result<map<nat, TcpFlow>, DumpError>)
    requires |v4| == DUMP_ATTEMPTS && |v6| == DUMP_ATTEMPTS
    ensures var first, second := Kept(Walks(1, false, v4)), Kept(Walks(2, true, v6));
            && (first.Err? ==> r == Err(first.error))
            && (first.Ok? && second.Err? ==> r == Err(second.error))
            && (first.Ok? && second.Ok? ==> r == Ok(ByInode(first.value + second.value)))
  {
    var table := new FlowTable();
    var walked := table.DumpFamily(1, false, v4);
    if walked.Err? {
      return Err(walked.error);
    }
    walked := table.DumpFamily(2, true, v6);
    if walked.Err? {
      return Err(walked.error);
    }
    AddNothing(ByInode(Kept(Walks(1, false, v4)).value));
    FamiliesMerge(Kept(Walks(1, false, v4)).value, Kept(Walks(2, true, v6)).value);
    return Ok(table.byInode);
  }

  lemma ByInodeNext(flows: seq<TcpFlow>, f: TcpFlow)
    ensures ByInode([]) == map[] && ByInode(flows + [f]) == ByInode(flows)[f.inode := f]
  {
    assert (flows + [f])[..|flows|] == flows;
  }

  lemma UpdateLast(m: map<nat, TcpFlow>, n: map<nat, TcpFlow>, inode: nat, f: TcpFlow)
    ensures m + n[inode := f] == (m + n)[inode := f]
  {
  }

  /** The flows of two families by inode are those of all of them in order: an inode in both keeps
      its later copy. */
  lemma {:induction false} FamiliesMerge(a: seq<TcpFlow>, b: seq<TcpFlow>)
    ensures ByInode(a) + ByInode(b) == ByInode(a + b)
  {
    hide ByInode;
    if b == [] {
      assert a + b == a;
      ByInodeNext([], TcpFlow(0, 0, 0));
      AddNothing(ByInode(a));
    } else {
      FamiliesMerge(a, b[..|b| - 1]);
      MergeNext(a, b[..|b| - 1], b[|b| - 1]);
      assert b[..|b| - 1] + [b[|b| - 1]] == b;
    }
  }

  lemma MergeNext(a: seq<TcpFlow>, before: seq<TcpFlow>, f: TcpFlow)
    requires ByInode(a) + ByInode(before) == ByInode(a + before)
    ensures ByInode(a) + ByInode(before + [f]) == ByInode(a + (before + [f]))
  {
    hide ByInode;
    ByInodeNext(before, f);
    ByInodeNext(a + before, f);
    assert (a + before) + [f] == a + (before + [f]);
    UpdateLast(ByInode(a), ByInode(before), f.inode, f);
  }

  lemma AddNothing(m: map<nat, TcpFlow>)
    ensures m + map[] == m && map[] + m == m
  {
  }

  /** What each receive comes to: an interrupted one is not counted; a failed one, an empty one and a
      buffer that is refused are errors; no more to receive is a time-out; and after 4096 buffers
      the dump did not finish. */
  lemma ReceiveMeans(sequence: nat, ipv6: bool, stream: seq<Recv>, got: seq<TcpFlow>, recvs: nat)
    ensures var r := ReceiveFrom(sequence, ipv6, stream, got, recvs);
            && (recvs >= 4096 ==> r == Err(DidNotFinish))
            && (recvs < 4096 && stream == [] ==> r == Err(TimedOut))
            && (recvs < 4096 && stream != [] ==>
                  && (stream[0].Interrupted? ==> r == ReceiveFrom(sequence, ipv6, stream[1..], got, recvs))
                  && (stream[0].Failed? ==> r == Err(RecvFailed(stream[0].errno)))
                  && (stream[0] == Got([]) ==> r == Err(EmptyRecv))
                  && (stream[0].Got? && stream[0].bytes != [] && ParseBuffer(sequence, stream[0].bytes).Err? ==>
                        r == Err(Rejected(ParseBuffer(sequence, stream[0].bytes).error))))
  {
    hide ParseBuffer, FamilyErrno;
  }
}
