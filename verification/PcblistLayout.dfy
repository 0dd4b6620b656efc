/** What the records of a socket table say, byte by byte: the layout the parser relies on, in
    offsets, lengths and values, for any records at all. */
module PcblistLayout {
  import opened Bytes
  import opened Pcblist
  import opened PcblistProofs

  /** The kinds that are known, and the one length each must have: `xsocket_n` and `xinpcb_n`,
      the two buffers, `xsockstat_n`, `xtcpcb_n`. */
  lemma KindsMean(d: Record)
    ensures Known(d) <==> KindOf(d) in {0x01, 0x02, 0x04, 0x08, 0x10, 0x20}
    ensures Starts(d) <==> KindOf(d) == 0x10
    ensures Known(d) ==>
              ExpectedLen(KindOf(d)).value
              == if KindOf(d) in {0x01, 0x10} then 104 else if KindOf(d) in {0x02, 0x04} then 32
                 else if KindOf(d) == 0x08 then 136 else 204
  {
  }

  /** Which records of a group are its parts. */
  lemma PartsMean(g: seq<Record>)
    requires g != []
    ensures RunOf(g) == Run(Some(g[0]), First(g, 0x01), First(g, 0x08), First(g, 0x20))
    ensures NoneTwice(g) <==> Count(g, 0x01) <= 1 && Count(g, 0x08) <= 1 && Count(g, 0x20) <= 1
  {
  }

  /** A record takes up its length, rounded up to a multiple of eight. */
  lemma FramedMeans(r: Padded)
    ensures Framed(r) <==>
              8 <= |r.data| != 24 && Decode(r.data[0..4]) == |r.data| && |r.pad| == (8 - |r.data| % 8) % 8
  {
    assert Align8(|r.data|) == |r.data| + (8 - |r.data| % 8) % 8;
  }

  /** The bytes received and sent over four classes of 32 bytes after the header of eight: their
      exact sums, stopping at the largest 64-bit value. */
  lemma TrafficMeans(stats: seq<byte>)
    ensures |stats| < 136 ==> Traffic(stats) == None
    ensures |stats| >= 136 ==>
              Traffic(stats)
              == Some((Min(At(stats, 16) + At(stats, 48) + At(stats, 80) + At(stats, 112), 0xFFFF_FFFF_FFFF_FFFF),
                       Min(At(stats, 32) + At(stats, 64) + At(stats, 96) + At(stats, 128), 0xFFFF_FFFF_FFFF_FFFF)))
  {
    hide ReadLe;
    if |stats| >= 136 {
      FourClasses(stats, 8);
      FourClasses(stats, 24);
    }
  }

  function At(stats: seq<byte>, at: nat): nat
    requires at + 8 <= |stats|
  {
    ReadU64(stats, at).value
  }

  lemma FourClasses(stats: seq<byte>, at: nat)
    requires |stats| >= 136 && at <= 24
    ensures ClassSum(stats, at, 4)
         == At(stats, 8 + at) + At(stats, 40 + at) + At(stats, 72 + at) + At(stats, 104 + at)
  {
    hide ReadU64;
    assert ClassSum(stats, at, 0) == 0;
    assert ClassSum(stats, at, 1) == At(stats, 8 + at);
    assert ClassSum(stats, at, 2) == ClassSum(stats, at, 1) + At(stats, 40 + at);
    assert ClassSum(stats, at, 3) == ClassSum(stats, at, 2) + At(stats, 72 + at);
  }

  /** The address at `at`, by the flags: all 16 bytes if the IPv6 bit is set, alone or not; else
      the last four if the IPv4 bit is; other bits mean nothing, and neither refuses the table. */
  lemma AddressMeans(inpcb: seq<byte>, at: nat, vflag: nat)
    requires at + 16 <= |inpcb|
    ensures vflag % 4 in {2, 3} ==> AddressOf(inpcb, at, vflag) == Ok(V6(inpcb[at..at + 16]))
    ensures vflag % 4 == 1 ==> AddressOf(inpcb, at, vflag) == Ok(V4(inpcb[at + 12..at + 16]))
    ensures vflag % 4 == 0 ==> AddressOf(inpcb, at, vflag) == Err(NoFamily(vflag))
  {
    assert inpcb[at..at + 16][12..] == inpcb[at + 12..at + 16];
  }

  /** Who owns a socket: the pid at 68 of its `xsocket_n`, if it is not negative. */
  function OwnerAt(socket: seq<byte>): Option<nat>
    requires |socket| == 104
  {
    var pid := ReadI32(socket, 68).value;
    if pid < 0 then None else Some(pid)
  }

  /** A group whose `xsocket_n` is blank after its header has no socket; any other whose protocol
      at 36 is not that of the table, zero included, refuses it. */
  lemma AttachedMeans(run: Run, protocol: Protocol)
    requires run.inpcb.Some? && run.socket.Some? && |run.socket.value| == 104
    ensures var socket := run.socket.value;
            var blank, number := (forall i :: 8 <= i < 104 ==> socket[i] == 0), ReadI32(socket, 36).value;
            && (blank ==> Classify(run, protocol) == Ok(None))
            && (!blank && number != (if protocol == Tcp then 6 else 17) ==>
                  Classify(run, protocol) == Err(WrongProtocol(number)))
  {
    var socket := run.socket.value;
    if forall i :: 8 <= i < 104 ==> socket[i] == 0 {
      assert socket[36..40] == [0, 0, 0, 0];
      assert Decode([0, 0, 0, 0]) == 0 by { assert [0, 0, 0, 0] == Encode(0, 4); DecodeEncode(0, 4); }
    } else {
      var i :| 8 <= i < 104 && socket[i] != 0;
      assert socket[8..][i - 8] != 0;
    }
  }

  /** An attached socket has an owner, if any, and is listening or not: never with port zero, and
      otherwise by its state at 36 of `xtcpcb_n`, or, for UDP, by having no foreign port and a
      foreign address that is all zero. Listening, it says its protocol, its local address by the
      flags at 44, its port, its owner and the uid at 64. */
  lemma ListenerMeans(run: Run, protocol: Protocol)
    requires run.inpcb.Some? && |run.inpcb.value| == 104 && run.socket.Some? && |run.socket.value| == 104
    requires run.tcpcb.Some? ==> |run.tcpcb.value| == 204
    requires (exists i :: 8 <= i < 104 && run.socket.value[i] != 0)
    requires ReadI32(run.socket.value, 36) == Some(if protocol == Tcp then 6 else 17)
    ensures var inpcb, owner, c := run.inpcb.value, OwnerAt(run.socket.value), Classify(run, protocol);
            var port, vflag := 256 * (inpcb[18] as nat) + inpcb[19], inpcb[44];
            var local, foreign := AddressOf(inpcb, 64, vflag), AddressOf(inpcb, 48, vflag);
            && (port == 0 ==> c == Ok(Some((owner, None))))
            && (port != 0 && vflag % 4 == 0 ==> c == Err(NoFamily(vflag)))
            && (port != 0 && vflag % 4 != 0 && protocol == Tcp && run.tcpcb.None? ==> c == Err(MissingTcpcb))
            && (port != 0 && vflag % 4 != 0 && (protocol == Tcp ==> run.tcpcb.Some?) ==>
                  var listening :=
                    if protocol == Tcp then ReadI32(run.tcpcb.value, 36) == Some(1)
                    else inpcb[16] == inpcb[17] == 0 && foreign.Ok? && AllZero(foreign.value.octets);
                  && local.Ok?
                  && c == Ok(Some((owner,
                                   if listening then
                                     Some(Listener(protocol, local.value, port, owner, ReadU32(run.socket.value, 64)))
                                   else None))))
  {
    var inpcb, socket := run.inpcb.value, run.socket.value;
    var i :| 8 <= i < 104 && socket[i] != 0;
    assert socket[8..][i - 8] != 0;
    AddressMeans(inpcb, 64, inpcb[44]);
    AddressMeans(inpcb, 48, inpcb[44]);
    hide AddressOf, ReadLe, AllZero;
  }

  /** How a table is refused before its first record: shorter than its fields, or opened by anything
      but a header of 24 bytes. */
  lemma HeadersRefused(table: seq<byte>, protocol: Protocol)
    ensures |table| < 4 ==> ParseTable(table, protocol) == Err(ShortHeader)
    ensures |table| >= 4 && ReadU32(table, 0) != Some(24) ==>
              ParseTable(table, protocol) == Err(OpeningLength(ReadU32(table, 0).value))
    ensures 4 <= |table| < 8 && ReadU32(table, 0) == Some(24) ==> ParseTable(table, protocol) == Err(ShortHeader)
  {
    hide WalkFrom, ReadLe;
  }

  /** And at a record: without eight bytes for its header there is no closing header; it may not run
      past the end, nor claim less than eight bytes; a known kind must have its length, and must not
      come before the first socket. */
  lemma RecordsRefused(table: seq<byte>, pos: nat, run: Option<Run>, parsed: Parsed, protocol: Protocol)
    ensures var r := WalkFrom(table, pos, run, parsed, protocol);
            && (pos + 8 > |table| ==> r == Err(NoClosingHeader(pos)))
            && (pos + 8 <= |table| ==>
                  var len, kind := ReadU32(table, pos).value, ReadU32(table, pos + 4).value;
                  && (pos + len > |table| ==> r == Err(PastEnd(pos)))
                  && (pos + len <= |table| && len < 8 ==> r == Err(ShortRecord(pos, len)))
                  && (pos + len <= |table| && len >= 8 && len != 24 && ExpectedLen(kind).Some? ==>
                        && (len != ExpectedLen(kind).value ==> r == Err(WrongLength(kind, len)))
                        && (len == ExpectedLen(kind).value && run.None? && kind != 0x10 ==>
                              r == Err(BeforeFirstSocket(kind)))))
  {
    hide Take, ReadLe, ExpectedLen;
  }
}
