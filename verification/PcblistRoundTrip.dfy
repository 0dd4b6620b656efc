/** Tables written record by record parse back to the sockets they were written from.

    The encoder plants each field at the offset the parser reads and leaves the rest zero.
    Records of kinds the parser does not know may stand anywhere between. */
module PcblistRoundTrip {
  import opened Bytes
  import opened Pcblist
  import opened PcblistProofs

  /** A socket to write; `attached` is false for a PCB whose `xsocket_n` the kernel left
      blank. `rx` and `tx` are its bytes per traffic class. */
  datatype Sock = Sock(
    v6: bool, dual: bool, local: seq<byte>, port: nat, foreign: seq<byte>, foreignPort: nat,
    state: int, attached: bool, pid: int, uid: nat, rx: seq<nat>, tx: seq<nat>)

  predicate IsI32(i: int) {
    -0x8000_0000 <= i < 0x8000_0000
  }

  predicate SockOk(s: Sock) {
    && |s.local| == |s.foreign| == (if s.v6 then 16 else 4)
    && s.port < 0x1_0000 && s.foreignPort < 0x1_0000
    && IsI32(s.state) && IsI32(s.pid) && s.uid < 0x1_0000_0000
    && |s.rx| == |s.tx| == TC_STATS_MAX
    && (forall c :: 0 <= c < TC_STATS_MAX ==> s.rx[c] <= U64_MAX && s.tx[c] <= U64_MAX)
  }

  // ---------------------------------------------------------------- encoder

  function NewRecord(kind: nat, len: nat): (r: Record)
    requires len >= RECORD_HEADER_LEN
    ensures |r| == len
  {
    Put(Put(Zeros(len), 0, Encode(len, 4)), 4, Encode(kind, 4))
  }

  function Port(port: nat): seq<byte>
    requires port < 0x1_0000
  {
    [port / 0x100, port % 0x100]
  }

  function PutAddress(r: Record, at: nat, address: seq<byte>): (r': Record)
    requires at + 16 <= |r| && (|address| == 4 || |address| == 16)
    ensures |r'| == |r|
  {
    Put(r, if |address| == 4 then at + IN4_IN_4IN6 else at, address)
  }

  function VFlag(s: Sock): byte {
    if !s.v6 then 1 else if s.dual then 3 else 2
  }

  function Inpcb(s: Sock): Record
    requires SockOk(s)
  {
    var r := Put(NewRecord(XSO_INPCB, 104), INP_FPORT, Port(s.foreignPort));
    var r := Put(r, INP_LPORT, Port(s.port));
    var r := Put(r, INP_VFLAG, [VFlag(s)]);
    var r := PutAddress(r, INP_FADDR, s.foreign);
    PutAddress(r, INP_LADDR, s.local)
  }

  function Socket(s: Sock, protocol: Protocol): Record
    requires SockOk(s)
  {
    var r := NewRecord(XSO_SOCKET, 104);
    if !s.attached then r
    else
      var r := Put(r, SO_PROTOCOL, Encode(Unsigned32(ProtocolNumber(protocol)), 4));
      var r := Put(r, SO_UID, Encode(s.uid, 4));
      Put(r, SO_LAST_PID, Encode(Unsigned32(s.pid), 4))
  }

  function PutClass(r: Record, tc: nat, rx: nat, tx: nat): (r': Record)
    requires |r| == 136 && tc < TC_STATS_MAX
    ensures |r'| == |r|
  {
    var base := RECORD_HEADER_LEN + tc * DATA_STATS_LEN;
    Put(Put(r, base + RX_BYTES_AT, Encode(rx, 8)), base + TX_BYTES_AT, Encode(tx, 8))
  }

  function PutClasses(r: Record, rx: seq<nat>, tx: seq<nat>, classes: nat): (r': Record)
    requires |r| == 136 && |rx| == |tx| == TC_STATS_MAX && classes <= TC_STATS_MAX
    ensures |r'| == |r|
  {
    if classes == 0 then r
    else PutClass(PutClasses(r, rx, tx, classes - 1), classes - 1, rx[classes - 1], tx[classes - 1])
  }

  function Stats(s: Sock): Record
    requires SockOk(s)
  {
    PutClasses(NewRecord(XSO_STATS, 136), s.rx, s.tx, TC_STATS_MAX)
  }

  function Tcpcb(s: Sock): Record
    requires SockOk(s)
  {
    Put(NewRecord(XSO_TCPCB, 204), T_STATE, Encode(Unsigned32(s.state), 4))
  }

  function SocketRecords(s: Sock, protocol: Protocol): seq<Record>
    requires SockOk(s)
  {
    [Inpcb(s), Socket(s, protocol), NewRecord(XSO_RCVBUF, 32), NewRecord(XSO_SNDBUF, 32), Stats(s)]
    + (if protocol == Tcp then [Tcpcb(s)] else [])
  }

  predicate AllOk(socks: seq<Sock>) {
    forall i :: 0 <= i < |socks| ==> SockOk(socks[i])
  }

  function Records(socks: seq<Sock>, protocol: Protocol): seq<Record>
    requires AllOk(socks)
  {
    if socks == [] then [] else SocketRecords(socks[0], protocol) + Records(socks[1..], protocol)
  }

  /** `xinpgen`: its own length, and how many sockets the kernel counts. */
  function Header(count: nat): (h: seq<byte>)
    ensures |h| == XINPGEN_LEN
  {
    Encode(XINPGEN_LEN, 4) + Encode(count, 4) + Zeros(16)
  }

  // ---------------------------------------------------------------- what a socket stands for

  function SumOf(bytes: seq<nat>): nat {
    if bytes == [] then 0 else SumOf(bytes[..|bytes| - 1]) + bytes[|bytes| - 1]
  }

  function FlowsOf(s: Sock): seq<Flow> {
    if s.attached && s.pid >= 0 then [Flow(s.pid, Capped(SumOf(s.rx)), Capped(SumOf(s.tx)))] else []
  }

  predicate IsListening(s: Sock, protocol: Protocol) {
    && s.attached && s.port != 0
    && match protocol case Tcp => s.state == TCPS_LISTEN case Udp => s.foreignPort == 0 && AllZero(s.foreign)
  }

  function ListenersOf(s: Sock, protocol: Protocol): seq<Listener> {
    if !IsListening(s, protocol) then []
    else
      [Listener(protocol, if s.v6 then V6(s.local) else V4(s.local), s.port,
                if s.pid >= 0 then Some(s.pid) else None, Some(s.uid))]
  }

  function OwnersOf(s: Sock): set<nat> {
    if s.attached && s.pid >= 0 then {s.pid as nat} else {}
  }

  function AllListeners(socks: seq<Sock>, protocol: Protocol): seq<Listener> {
    if socks == [] then [] else ListenersOf(socks[0], protocol) + AllListeners(socks[1..], protocol)
  }

  function AllFlows(socks: seq<Sock>): seq<Flow> {
    if socks == [] then [] else FlowsOf(socks[0]) + AllFlows(socks[1..])
  }

  function AllOwners(socks: seq<Sock>): set<nat> {
    if socks == [] then {} else OwnersOf(socks[0]) + AllOwners(socks[1..])
  }

  // ---------------------------------------------------------------- fields read back

  /** Bytes away from a write are as before. */
  lemma Elsewhere(r: Record, at: nat, bytes: seq<byte>, i: nat, n: nat, held: seq<byte>)
    requires at + |bytes| <= |r| && i + n <= |r| && (i + n <= at || at + |bytes| <= i)
    requires r[i..i + n] == held
    ensures Put(r, at, bytes)[i..i + n] == held
  {
    var r' := Put(r, at, bytes);
    assert r' == r[..at] + bytes + r[at + |bytes|..];
    if i + n <= at {
      assert r'[i..i + n] == r[..at][i..i + n];
    } else {
      var j := i - at - |bytes|;
      assert r'[i..i + n] == r[at + |bytes|..][j..j + n];
    }
  }

  lemma NewRecordFields(kind: nat, len: nat)
    requires RECORD_HEADER_LEN <= len < 0x1_0000_0000 && kind < 0x1_0000_0000
    ensures Decode(NewRecord(kind, len)[0..4]) == len && KindOf(NewRecord(kind, len)) == kind
    ensures AllZero(NewRecord(kind, len)[RECORD_HEADER_LEN..])
  {
    Widths();
    var r := Put(Zeros(len), 0, Encode(len, 4));
    Elsewhere(r, 4, Encode(kind, 4), 0, 4, Encode(len, 4));
    DecodeEncode(len, 4);
    ReadBack(NewRecord(kind, len), 4, kind, 4);
  }

  /** Writes past the header leave it alone. */
  lemma HeaderStays(r: Record, at: nat, bytes: seq<byte>)
    requires RECORD_HEADER_LEN <= at && at + |bytes| <= |r|
    ensures KindOf(Put(r, at, bytes)) == KindOf(r) && Decode(Put(r, at, bytes)[0..4]) == Decode(r[0..4])
  {
    Elsewhere(r, at, bytes, 0, 4, r[0..4]);
    Elsewhere(r, at, bytes, 4, 4, r[4..8]);
  }

  lemma PortBack(r: Record, at: nat, port: nat)
    requires port < 0x1_0000 && at + 2 <= |r| && r[at..at + 2] == Port(port)
    ensures ReadU16Be(r, at) == Some(port)
  {
    assert r[at] == r[at..at + 2][0] && r[at + 1] == r[at..at + 2][1];
  }

  /** The address written is the address read, by the family the flag names. */
  lemma AddressBack(r: Record, at: nat, s: Sock, address: seq<byte>)
    requires at + 16 <= |r| && |address| == (if s.v6 then 16 else 4)
    requires r[(if s.v6 then at else at + IN4_IN_4IN6)..at + 16] == address
    ensures AddressOf(r, at, VFlag(s)) == Ok(if s.v6 then V6(address) else V4(address))
  {
    assert r[at..at + 16][IN4_IN_4IN6..] == r[at + IN4_IN_4IN6..at + 16];
  }

  lemma InpcbFields(s: Sock)
    requires SockOk(s)
    ensures var r := Inpcb(s);
            && |r| == 104 && KindOf(r) == XSO_INPCB && Decode(r[0..4]) == 104
            && ReadU16Be(r, INP_FPORT) == Some(s.foreignPort) && ReadU16Be(r, INP_LPORT) == Some(s.port)
            && r[INP_VFLAG] == VFlag(s)
            && AddressOf(r, INP_FADDR, VFlag(s)) == Ok(if s.v6 then V6(s.foreign) else V4(s.foreign))
            && AddressOf(r, INP_LADDR, VFlag(s)) == Ok(if s.v6 then V6(s.local) else V4(s.local))
  {
    NewRecordFields(XSO_INPCB, 104);
    var at := if s.v6 then 0 else IN4_IN_4IN6;
    var a := NewRecord(XSO_INPCB, 104);
    var b := Put(a, INP_FPORT, Port(s.foreignPort));
    var c := Put(b, INP_LPORT, Port(s.port));
    var d := Put(c, INP_VFLAG, [VFlag(s)]);
    var e := Put(d, INP_FADDR + at, s.foreign);
    var r := Put(e, INP_LADDR + at, s.local);
    assert r == Inpcb(s);
    HeaderStays(a, INP_FPORT, Port(s.foreignPort));
    HeaderStays(b, INP_LPORT, Port(s.port));
    HeaderStays(c, INP_VFLAG, [VFlag(s)]);
    HeaderStays(d, INP_FADDR + at, s.foreign);
    HeaderStays(e, INP_LADDR + at, s.local);
    hide Put, KindOf, NewRecord, Inpcb, Port, VFlag, AddressOf;
    var fport, lport := Port(s.foreignPort), Port(s.port);
    Elsewhere(b, INP_LPORT, lport, INP_FPORT, 2, fport);
    Elsewhere(c, INP_VFLAG, [VFlag(s)], INP_FPORT, 2, fport);
    Elsewhere(d, INP_FADDR + at, s.foreign, INP_FPORT, 2, fport);
    Elsewhere(e, INP_LADDR + at, s.local, INP_FPORT, 2, fport);
    Elsewhere(c, INP_VFLAG, [VFlag(s)], INP_LPORT, 2, lport);
    Elsewhere(d, INP_FADDR + at, s.foreign, INP_LPORT, 2, lport);
    Elsewhere(e, INP_LADDR + at, s.local, INP_LPORT, 2, lport);
    Elsewhere(d, INP_FADDR + at, s.foreign, INP_VFLAG, 1, [VFlag(s)]);
    Elsewhere(e, INP_LADDR + at, s.local, INP_VFLAG, 1, [VFlag(s)]);
    Elsewhere(e, INP_LADDR + at, s.local, INP_FADDR + at, |s.foreign|, s.foreign);
    assert r[INP_VFLAG] == r[INP_VFLAG..INP_VFLAG + 1][0];
    PortBack(r, INP_FPORT, s.foreignPort);
    PortBack(r, INP_LPORT, s.port);
    AddressBack(r, INP_FADDR, s, s.foreign);
    AddressBack(r, INP_LADDR, s, s.local);
  }

  lemma SocketFields(s: Sock, protocol: Protocol)
    requires SockOk(s)
    ensures var r := Socket(s, protocol);
            && |r| == 104 && KindOf(r) == XSO_SOCKET && Decode(r[0..4]) == 104
            && (IsDetached(r) <==> !s.attached)
            && (s.attached ==>
                  && ReadI32(r, SO_PROTOCOL) == Some(ProtocolNumber(protocol))
                  && ReadU32(r, SO_UID) == Some(s.uid)
                  && Owner(r) == (if s.pid >= 0 then Some(s.pid as nat) else None))
  {
    Widths();
    NewRecordFields(XSO_SOCKET, 104);
    var a := NewRecord(XSO_SOCKET, 104);
    if !s.attached {
      assert a[SO_PROTOCOL..SO_PROTOCOL + 4] == Encode(0, 4) by {
        assert forall i :: SO_PROTOCOL <= i < SO_PROTOCOL + 4 ==> a[i] == a[RECORD_HEADER_LEN..][i - RECORD_HEADER_LEN];
        assert Encode(0, 4) == [0, 0, 0, 0];
      }
      ReadBack(a, SO_PROTOCOL, 0, 4);
    } else {
      var number, pid := Encode(Unsigned32(ProtocolNumber(protocol)), 4), Encode(Unsigned32(s.pid), 4);
      var b := Put(a, SO_PROTOCOL, number);
      var c := Put(b, SO_UID, Encode(s.uid, 4));
      var r := Put(c, SO_LAST_PID, pid);
      assert r == Socket(s, protocol);
      HeaderStays(a, SO_PROTOCOL, number);
      HeaderStays(b, SO_UID, Encode(s.uid, 4));
      HeaderStays(c, SO_LAST_PID, pid);
      hide Put, KindOf, NewRecord, Socket, Encode;
      Elsewhere(b, SO_UID, Encode(s.uid, 4), SO_PROTOCOL, 4, number);
      Elsewhere(c, SO_LAST_PID, pid, SO_PROTOCOL, 4, number);
      Elsewhere(c, SO_LAST_PID, pid, SO_UID, 4, Encode(s.uid, 4));
      ReadBack(r, SO_PROTOCOL, Unsigned32(ProtocolNumber(protocol)), 4);
      ReadBack(r, SO_UID, s.uid, 4);
      ReadBack(r, SO_LAST_PID, Unsigned32(s.pid), 4);
    }
  }

  lemma ClassBack(a: Record, tc: nat, rx: nat, tx: nat)
    requires |a| == 136 && tc < TC_STATS_MAX && rx <= U64_MAX && tx <= U64_MAX
    ensures var r, base := PutClass(a, tc, rx, tx), RECORD_HEADER_LEN + tc * DATA_STATS_LEN;
            && r[..base] == a[..base] && KindOf(r) == KindOf(a) && Decode(r[0..4]) == Decode(a[0..4])
            && ClassBytes(r, RX_BYTES_AT, tc) == rx && ClassBytes(r, TX_BYTES_AT, tc) == tx
  {
    Widths();
    var base := RECORD_HEADER_LEN + tc * DATA_STATS_LEN;
    var rxBytes, txBytes := Encode(rx, 8), Encode(tx, 8);
    var b := Put(a, base + RX_BYTES_AT, rxBytes);
    var r := Put(b, base + TX_BYTES_AT, txBytes);
    HeaderStays(a, base + RX_BYTES_AT, rxBytes);
    HeaderStays(b, base + TX_BYTES_AT, txBytes);
    hide Put, Encode, KindOf;
    Elsewhere(b, base + TX_BYTES_AT, txBytes, base + RX_BYTES_AT, 8, rxBytes);
    Elsewhere(a, base + RX_BYTES_AT, rxBytes, 0, base, a[..base]);
    Elsewhere(b, base + TX_BYTES_AT, txBytes, 0, base, a[..base]);
    ReadBack(r, base + RX_BYTES_AT, rx, 8);
    ReadBack(r, base + TX_BYTES_AT, tx, 8);
  }

  /** The classes written so far read back, and later ones do not disturb them. */
  lemma {:induction false} ClassesBack(r: Record, rx: seq<nat>, tx: seq<nat>, classes: nat)
    requires |r| == 136 && |rx| == |tx| == TC_STATS_MAX && classes <= TC_STATS_MAX
    requires forall c :: 0 <= c < TC_STATS_MAX ==> rx[c] <= U64_MAX && tx[c] <= U64_MAX
    ensures var r' := PutClasses(r, rx, tx, classes);
            && KindOf(r') == KindOf(r) && Decode(r'[0..4]) == Decode(r[0..4])
            && ClassSum(r', RX_BYTES_AT, classes) == SumOf(rx[..classes])
            && ClassSum(r', TX_BYTES_AT, classes) == SumOf(tx[..classes])
  {
    hide PutClass, KindOf, ClassBytes;
    if classes > 0 {
      var c := classes - 1;
      ClassesBack(r, rx, tx, c);
      var a := PutClasses(r, rx, tx, c);
      ClassBack(a, c, rx[c], tx[c]);
      assert rx[..classes][..c] == rx[..c] && tx[..classes][..c] == tx[..c];
      SumLocal(a, PutClasses(r, rx, tx, classes), RX_BYTES_AT, c);
      SumLocal(a, PutClasses(r, rx, tx, classes), TX_BYTES_AT, c);
    }
  }

  lemma {:induction false} SumLocal(a: Record, b: Record, at: nat, classes: nat)
    requires |a| == |b| == 136 && classes <= TC_STATS_MAX && (at == RX_BYTES_AT || at == TX_BYTES_AT)
    requires a[..RECORD_HEADER_LEN + classes * DATA_STATS_LEN] == b[..RECORD_HEADER_LEN + classes * DATA_STATS_LEN]
    ensures ClassSum(a, at, classes) == ClassSum(b, at, classes)
  {
    hide ReadLe;
    if classes > 0 {
      var whole := RECORD_HEADER_LEN + classes * DATA_STATS_LEN;
      var less := whole - DATA_STATS_LEN;
      assert a[..less] == a[..whole][..less] && b[..less] == b[..whole][..less];
      SumLocal(a, b, at, classes - 1);
      PartOf(a, 0, a[..whole], less + at, 8);
      PartOf(b, 0, b[..whole], less + at, 8);
    }
  }

  lemma StatsFields(s: Sock)
    requires SockOk(s)
    ensures |Stats(s)| == 136 && KindOf(Stats(s)) == XSO_STATS && Decode(Stats(s)[0..4]) == 136
    ensures Traffic(Stats(s)) == Some((Capped(SumOf(s.rx)), Capped(SumOf(s.tx))))
  {
    NewRecordFields(XSO_STATS, 136);
    ClassesBack(NewRecord(XSO_STATS, 136), s.rx, s.tx, TC_STATS_MAX);
    assert s.rx[..TC_STATS_MAX] == s.rx && s.tx[..TC_STATS_MAX] == s.tx;
  }

  lemma TcpcbFields(s: Sock)
    requires SockOk(s)
    ensures |Tcpcb(s)| == 204 && KindOf(Tcpcb(s)) == XSO_TCPCB && Decode(Tcpcb(s)[0..4]) == 204
    ensures ReadI32(Tcpcb(s), T_STATE) == Some(s.state)
  {
    Widths();
    NewRecordFields(XSO_TCPCB, 204);
    HeaderStays(NewRecord(XSO_TCPCB, 204), T_STATE, Encode(Unsigned32(s.state), 4));
    ReadBack(Tcpcb(s), T_STATE, Unsigned32(s.state), 4);
  }

  // ---------------------------------------------------------------- one socket's group

  lemma {:induction false} OnlyAt(g: seq<Record>, i: nat, kind: nat)
    requires i < |g| && KindOf(g[i]) == kind && forall j :: 0 <= j < |g| && j != i ==> KindOf(g[j]) != kind
    ensures First(g, kind) == Some(g[i]) && Count(g, kind) == 1
  {
    if i == 0 {
      NoneOf(g[1..], kind);
    } else {
      OnlyAt(g[1..], i - 1, kind);
    }
  }

  lemma {:induction false} NoneOf(g: seq<Record>, kind: nat)
    requires forall j :: 0 <= j < |g| ==> KindOf(g[j]) != kind
    ensures First(g, kind) == None && Count(g, kind) == 0
  {
    if g != [] { NoneOf(g[1..], kind); }
  }

  lemma GroupKinds(s: Sock, protocol: Protocol)
    requires SockOk(s)
    ensures var g := SocketRecords(s, protocol);
            && |g| == (if protocol == Tcp then 6 else 5)
            && KindOf(g[0]) == XSO_INPCB && KindOf(g[1]) == XSO_SOCKET && KindOf(g[2]) == XSO_RCVBUF
            && KindOf(g[3]) == XSO_SNDBUF && KindOf(g[4]) == XSO_STATS
            && (protocol == Tcp ==> KindOf(g[5]) == XSO_TCPCB)
  {
    hide Inpcb, Socket, Stats, Tcpcb, NewRecord, KindOf, SockOk, IsDetached, Owner, AddressOf;
    InpcbFields(s);
    SocketFields(s, protocol);
    NewRecordFields(XSO_RCVBUF, 32);
    NewRecordFields(XSO_SNDBUF, 32);
    StatsFields(s);
    TcpcbFields(s);
  }

  /** One starting record, then known ones that do not start, all of the lengths expected. */
  lemma GroupShape(s: Sock, protocol: Protocol)
    requires SockOk(s)
    ensures var g := SocketRecords(s, protocol);
            && g != [] && Known(g[0]) && Starts(g[0]) && LengthsOk(g)
            && (forall i :: 0 <= i < |g[1..]| ==> Known(g[1..][i]) && !Starts(g[1..][i]))
  {
    hide Inpcb, Socket, Stats, Tcpcb, NewRecord, KindOf, SockOk, IsDetached, Owner, AddressOf;
    GroupKinds(s, protocol);
    InpcbFields(s);
    SocketFields(s, protocol);
    StatsFields(s);
    TcpcbFields(s);
  }

  lemma GroupRun(s: Sock, protocol: Protocol)
    requires SockOk(s)
    ensures NoneTwice(SocketRecords(s, protocol))
    ensures RunOf(SocketRecords(s, protocol))
         == Run(Some(Inpcb(s)), Some(Socket(s, protocol)), Some(Stats(s)),
                if protocol == Tcp then Some(Tcpcb(s)) else None)
  {
    hide KindOf, Inpcb, Socket, Stats, Tcpcb, NewRecord, Count, First, SockOk;
    GroupKinds(s, protocol);
    var g := SocketRecords(s, protocol);
    OnlyAt(g, 1, XSO_SOCKET);
    OnlyAt(g, 4, XSO_STATS);
    if protocol == Tcp {
      OnlyAt(g, 5, XSO_TCPCB);
    } else {
      NoneOf(g, XSO_TCPCB);
    }
  }

  /** A socket's part of the result, in its place. */
  function Adds(parsed: Parsed, s: Sock, protocol: Protocol): Parsed {
    Parsed(parsed.listeners + ListenersOf(s, protocol), parsed.headerCount, parsed.sockets + 1,
           parsed.owners + OwnersOf(s), parsed.flows + FlowsOf(s))
  }

  function WrittenRun(s: Sock, protocol: Protocol): Run
    requires SockOk(s)
  {
    Run(Some(Inpcb(s)), Some(Socket(s, protocol)), Some(Stats(s)), if protocol == Tcp then Some(Tcpcb(s)) else None)
  }

  lemma ClassifiesSock(s: Sock, protocol: Protocol)
    requires SockOk(s)
    ensures Classify(WrittenRun(s, protocol), protocol)
         == Ok(if !s.attached then None
               else Some((if s.pid >= 0 then Some(s.pid as nat) else None,
                          if IsListening(s, protocol) then Some(ListenersOf(s, protocol)[0]) else None)))
  {
    hide KindOf, Inpcb, Socket, Stats, Tcpcb, Owner, AddressOf, ReadU16Be, ReadI32, ReadU32, IsDetached, SockOk, VFlag;
    InpcbFields(s);
    SocketFields(s, protocol);
    TcpcbFields(s);
  }

  /** The written socket, taken, adds exactly what it stands for. */
  lemma TakesSock(parsed: Parsed, s: Sock, protocol: Protocol)
    requires SockOk(s)
    ensures Take(parsed, RunOf(SocketRecords(s, protocol)), protocol)
         == Ok(Adds(parsed, s, protocol))
  {
    hide Take, Inpcb, Socket, Stats, Tcpcb, RunOf, SocketRecords, Traffic, Classify, SockOk, IsListening, Capped, SumOf;
    GroupRun(s, protocol);
    ClassifiesSock(s, protocol);
    StatsFields(s);
    ListeningIsAttached(s, protocol);
    TakesClassified(parsed, WrittenRun(s, protocol), protocol, Capped(SumOf(s.rx)), Capped(SumOf(s.tx)));
    assert parsed.listeners + [] == parsed.listeners && parsed.flows + [] == parsed.flows;
    assert parsed.owners + {} == parsed.owners;
  }

  lemma ListeningIsAttached(s: Sock, protocol: Protocol)
    ensures IsListening(s, protocol) ==> s.attached
  {
  }

  /** A socket that classifies and whose counters read is taken. */
  lemma TakesClassified(parsed: Parsed, run: Run, protocol: Protocol, received: nat, transmitted: nat)
    requires Classify(run, protocol).Ok? && run.stats.Some? && Traffic(run.stats.value) == Some((received, transmitted))
    ensures Take(parsed, run, protocol)
         == Ok(match Classify(run, protocol).value
               case None => parsed.(sockets := parsed.sockets + 1)
               case Some((owner, listener)) =>
                 Parsed(
                   parsed.listeners + (if listener.Some? then [listener.value] else []), parsed.headerCount,
                   parsed.sockets + 1, parsed.owners + (if owner.Some? then {owner.value} else {}),
                   parsed.flows + if owner.Some? then [Flow(owner.value, received, transmitted)] else []))
  {
    hide Classify, Traffic;
    assert parsed.listeners + [] == parsed.listeners && parsed.flows + [] == parsed.flows;
    assert parsed.owners + {} == parsed.owners;
  }

  // ---------------------------------------------------------------- whole tables

  lemma {:induction false} SplitTail(t: seq<Record>, ds: seq<Record>)
    requires forall i :: 0 <= i < |t| ==> Known(t[i]) && !Starts(t[i])
    ensures Split(t + ds) == Sections(t + Split(ds).lead, Split(ds).groups)
  {
    if t == [] {
      assert t + ds == ds;
    } else {
      assert (t + ds)[1..] == t[1..] + ds;
      SplitTail(t[1..], ds);
    }
  }

  function Groups(socks: seq<Sock>, protocol: Protocol): seq<seq<Record>>
    requires AllOk(socks)
  {
    if socks == [] then [] else [SocketRecords(socks[0], protocol)] + Groups(socks[1..], protocol)
  }

  lemma {:induction false} LengthsAppend(a: seq<Record>, b: seq<Record>)
    requires LengthsOk(a) && LengthsOk(b)
    ensures LengthsOk(a + b)
  {
  }

  lemma SplitGroup(s: Sock, protocol: Protocol, ds: seq<Record>)
    requires SockOk(s) && Split(ds).lead == []
    ensures Split(SocketRecords(s, protocol) + ds) == Sections([], [SocketRecords(s, protocol)] + Split(ds).groups)
  {
    hide Known, Starts, SocketRecords, LengthsOk, SockOk;
    GroupShape(s, protocol);
    var g := SocketRecords(s, protocol);
    SplitTail(g[1..], ds);
    assert (g + ds)[1..] == g[1..] + ds;
    assert [g[0]] + (g[1..] + []) == g;
  }

  lemma {:induction false} SplitRecords(socks: seq<Sock>, protocol: Protocol)
    requires AllOk(socks)
    ensures Split(Records(socks, protocol)) == Sections([], Groups(socks, protocol))
    ensures LengthsOk(Records(socks, protocol))
  {
    hide SocketRecords, LengthsOk, Split, SockOk;
    if socks == [] {
      SplitNothing();
    } else {
      SplitRecords(socks[1..], protocol);
      SplitGroup(socks[0], protocol, Records(socks[1..], protocol));
      GroupShape(socks[0], protocol);
      LengthsAppend(SocketRecords(socks[0], protocol), Records(socks[1..], protocol));
    }
  }

  lemma SplitNothing()
    ensures Split([]) == Sections([], []) && LengthsOk([])
  {
  }

  /** Records of unknown kinds change neither the sockets nor the lengths that matter. */
  lemma {:induction false} UnknownInvisible(ds: seq<Record>)
    ensures Split(ds) == Split(KnownOnly(ds))
    ensures LengthsOk(ds) <==> LengthsOk(KnownOnly(ds))
  {
    if ds != [] {
      UnknownInvisible(ds[1..]);
      LengthsTail(ds);
      if Known(ds[0]) {
        assert KnownOnly(ds)[1..] == KnownOnly(ds[1..]);
        LengthsTail(KnownOnly(ds));
      } else {
        assert KnownOnly(ds) == KnownOnly(ds[1..]);
      }
    }
  }

  function AddsAll(parsed: Parsed, socks: seq<Sock>, protocol: Protocol): Parsed {
    Parsed(parsed.listeners + AllListeners(socks, protocol), parsed.headerCount, parsed.sockets + |socks|,
           parsed.owners + AllOwners(socks), parsed.flows + AllFlows(socks))
  }

  lemma AddsFirst(parsed: Parsed, socks: seq<Sock>, protocol: Protocol)
    requires socks != []
    ensures AddsAll(Adds(parsed, socks[0], protocol), socks[1..], protocol) == AddsAll(parsed, socks, protocol)
  {
    hide ListenersOf, FlowsOf, OwnersOf;
    var next := Adds(parsed, socks[0], protocol);
    assert next.listeners + AllListeners(socks[1..], protocol) == parsed.listeners + AllListeners(socks, protocol);
    assert next.flows + AllFlows(socks[1..]) == parsed.flows + AllFlows(socks);
    assert next.owners + AllOwners(socks[1..]) == parsed.owners + AllOwners(socks);
  }

  lemma AddsNone(parsed: Parsed, protocol: Protocol)
    ensures AddsAll(parsed, [], protocol) == parsed
  {
    assert parsed.listeners + [] == parsed.listeners && parsed.flows + [] == parsed.flows;
  }

  lemma ReadsFirst(s: Sock, groups: seq<seq<Record>>, parsed: Parsed, protocol: Protocol)
    requires SockOk(s)
    ensures Reading([SocketRecords(s, protocol)] + groups, parsed, protocol)
         == Reading(groups, Adds(parsed, s, protocol), protocol)
  {
    TakesSock(parsed, s, protocol);
    GroupRun(s, protocol);
    hide Take, RunOf, SocketRecords, NoneTwice, Adds, SockOk;
    assert ([SocketRecords(s, protocol)] + groups)[1..] == groups;
  }

  lemma {:induction false} ReadsSocks(socks: seq<Sock>, parsed: Parsed, protocol: Protocol)
    requires AllOk(socks)
    ensures Reading(Groups(socks, protocol), parsed, protocol) == Some(AddsAll(parsed, socks, protocol))
  {
    hide Reading, SocketRecords, Adds, AddsAll, SockOk;
    if socks == [] {
      ReadingNone(parsed, protocol);
      AddsNone(parsed, protocol);
    } else {
      ReadsFirst(socks[0], Groups(socks[1..], protocol), parsed, protocol);
      ReadsSocks(socks[1..], Adds(parsed, socks[0], protocol), protocol);
      AddsFirst(parsed, socks, protocol);
    }
  }

  /** The round trip: any sockets, written between two headers with any records of unknown
      kinds among theirs, parse to exactly those sockets' listeners, counters and owners, in
      order. */
  lemma RoundTrip(socks: seq<Sock>, protocol: Protocol, count: nat, rs: seq<Padded>, end: seq<byte>)
    requires AllOk(socks) && count < 0x1_0000_0000
    requires AllFramed(rs) && KnownOnly(Datas(rs)) == Records(socks, protocol)
    requires Closing(end)
    ensures ParseTable(Header(count) + (Lay(rs) + end), protocol)
         == Ok(Parsed(AllListeners(socks, protocol), count, |socks|, AllOwners(socks), AllFlows(socks)))
  {
    hide ParseTable, Split, Reading, LengthsOk, AllFramed, Closing, Header, AllOk, AddsAll, Groups, Records, KnownOnly,
         Lay;
    var table := Header(count) + (Lay(rs) + end);
    var start := Parsed([], count, 0, {}, []);
    HeaderFields(count, Lay(rs) + end);
    SplitRecords(socks, protocol);
    UnknownInvisible(Datas(rs));
    ReadsSocks(socks, start, protocol);
    var v := AddsAll(start, socks, protocol);
    AddsToNothing(socks, protocol, count);
    assert Says(table, protocol, rs, end, v);
    AcceptedIff(table, protocol, v);
  }

  lemma AddsToNothing(socks: seq<Sock>, protocol: Protocol, count: nat)
    ensures AddsAll(Parsed([], count, 0, {}, []), socks, protocol)
         == Parsed(AllListeners(socks, protocol), count, |socks|, AllOwners(socks), AllFlows(socks))
  {
    hide AllListeners, AllFlows, AllOwners;
    assert [] + AllListeners(socks, protocol) == AllListeners(socks, protocol);
    assert [] + AllFlows(socks) == AllFlows(socks);
    assert {} + AllOwners(socks) == AllOwners(socks);
  }

  lemma HeaderFields(count: nat, rest: seq<byte>)
    requires count < 0x1_0000_0000
    ensures var table := Header(count) + rest;
            && Decode(table[0..4]) == XINPGEN_LEN && Decode(table[4..8]) == count && table[XINPGEN_LEN..] == rest
    ensures Closing(Header(count) + rest)
  {
    Widths();
    var table := Header(count) + rest;
    assert table[0..4] == Encode(XINPGEN_LEN, 4) && table[4..8] == Encode(count, 4);
    DecodeEncode(XINPGEN_LEN, 4);
    DecodeEncode(count, 4);
  }

  // ---------------------------------------------------------------- the plain encoder

  function Pad(d: Record): Padded {
    Padded(d, Zeros(Align8(|d|) - |d|))
  }

  function PadAll(ds: seq<Record>): (rs: seq<Padded>)
    ensures |rs| == |ds| && forall i :: 0 <= i < |ds| ==> rs[i] == Pad(ds[i])
  {
    seq(|ds|, i requires 0 <= i < |ds| => Pad(ds[i]))
  }

  predicate Plain(d: Record) {
    Known(d) && Framed(Pad(d))
  }

  predicate AllPlain(ds: seq<Record>) {
    forall i :: 0 <= i < |ds| ==> Plain(ds[i])
  }

  lemma GroupPlain(s: Sock, protocol: Protocol)
    requires SockOk(s)
    ensures AllPlain(SocketRecords(s, protocol))
  {
    hide Inpcb, Socket, Stats, Tcpcb, NewRecord, KindOf, SockOk, IsDetached, Owner, AddressOf;
    GroupKinds(s, protocol);
    InpcbFields(s);
    SocketFields(s, protocol);
    StatsFields(s);
    TcpcbFields(s);
    NewRecordFields(XSO_RCVBUF, 32);
    NewRecordFields(XSO_SNDBUF, 32);
  }

  lemma {:induction false} RecordsPlain(socks: seq<Sock>, protocol: Protocol)
    requires AllOk(socks)
    ensures AllPlain(Records(socks, protocol))
  {
    hide SocketRecords, SockOk, Plain;
    if socks != [] {
      GroupPlain(socks[0], protocol);
      RecordsPlain(socks[1..], protocol);
    }
  }

  lemma {:induction false} PlainKnown(ds: seq<Record>)
    requires AllPlain(ds)
    ensures KnownOnly(ds) == ds
  {
    if ds != [] {
      assert Plain(ds[0]);
      PlainKnown(ds[1..]);
    }
  }

  /** The table the encoder writes for `socks`, header to header. */
  function Table(socks: seq<Sock>, protocol: Protocol, count: nat): seq<byte>
    requires AllOk(socks)
  {
    Header(count) + (Lay(PadAll(Records(socks, protocol))) + Header(0))
  }

  lemma PlainRoundTrip(socks: seq<Sock>, protocol: Protocol, count: nat)
    requires AllOk(socks) && count < 0x1_0000_0000
    ensures ParseTable(Table(socks, protocol, count), protocol)
         == Ok(Parsed(AllListeners(socks, protocol), count, |socks|, AllOwners(socks), AllFlows(socks)))
  {
    var ds := Records(socks, protocol);
    RecordsPlain(socks, protocol);
    PlainKnown(ds);
    assert Datas(PadAll(ds)) == ds;
    assert AllFramed(PadAll(ds)) by {
      forall i | 0 <= i < |ds| ensures Framed(PadAll(ds)[i]) { assert Plain(ds[i]); }
    }
    HeaderFields(0, []);
    assert Header(0) + [] == Header(0);
    RoundTrip(socks, protocol, count, PadAll(ds), Header(0));
  }

  predicate Owns(s: Sock, pid: nat) {
    s.attached && s.pid == pid
  }

  /** From a written table, the check for a restricted view says what it means: sockets are
      missing, and every owned one that is there is the caller's. */
  lemma ShowsOnlyMeans(socks: seq<Sock>, protocol: Protocol, count: nat, own: nat)
    requires AllOk(socks) && count < 0x1_0000_0000
    ensures var r := ParseTable(Table(socks, protocol, count), protocol);
            r.Ok? && (ShowsOnly(r.value, own) <==>
                        (|socks| < count
                         && forall i, pid: nat :: 0 <= i < |socks| && Owns(socks[i], pid) ==> pid == own))
  {
    hide AllOk, Table, ParseTable, AllOwners, Owns;
    PlainRoundTrip(socks, protocol, count);
    forall pid: nat ensures pid in AllOwners(socks) <==> exists i :: 0 <= i < |socks| && Owns(socks[i], pid) {
      OwnerIff(socks, pid);
    }
    OnlyOwner(socks, AllOwners(socks), own);
  }

  lemma OnlyOwner(socks: seq<Sock>, owners: set<nat>, own: nat)
    requires forall pid: nat :: pid in owners <==> exists i :: 0 <= i < |socks| && Owns(socks[i], pid)
    ensures (forall pid :: pid in owners ==> pid == own)
       <==> (forall i, pid: nat :: 0 <= i < |socks| && Owns(socks[i], pid) ==> pid == own)
  {
    hide Owns;
    if forall pid :: pid in owners ==> pid == own {
      forall i, pid: nat | 0 <= i < |socks| && Owns(socks[i], pid) ensures pid == own { assert pid in owners; }
    }
  }

  lemma {:induction false} OwnerIff(socks: seq<Sock>, pid: nat)
    ensures pid in AllOwners(socks) <==> exists i :: 0 <= i < |socks| && Owns(socks[i], pid)
  {
    if socks != [] {
      OwnerIff(socks[1..], pid);
      assert pid in OwnersOf(socks[0]) <==> Owns(socks[0], pid);
      hide Owns, OwnersOf;
      if i :| 0 <= i < |socks| && Owns(socks[i], pid) {
        assert i > 0 ==> Owns(socks[1..][i - 1], pid);
      }
      if i :| 0 <= i < |socks[1..]| && Owns(socks[1..][i], pid) {
        assert Owns(socks[i + 1], pid);
      }
    }
  }
}
