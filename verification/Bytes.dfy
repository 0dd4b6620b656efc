/** Results, and little-endian integers inside byte strings.

    Both kernel parsers read fixed-width fields out of a buffer at fixed offsets. A read
    outside the buffer is `None`, never an access out of range. */
module Bytes {

  datatype Option<+T> = None | Some(value: T)

  datatype Result<+T, +E> = Ok(value: T) | Err(error: E)

  type byte = b: int | 0 <= b < 0x100

  const U64_MAX := 0xFFFF_FFFF_FFFF_FFFF

  function SaturatingAdd(a: nat, b: nat): (sum: nat)
    ensures sum <= U64_MAX
    ensures a + b <= U64_MAX ==> sum == a + b
  {
    if a + b <= U64_MAX then a + b else U64_MAX
  }

  /** An exact sum, as a saturating one reports it. */
  function Capped(n: nat): (c: nat)
    ensures c <= U64_MAX
  {
    if n <= U64_MAX then n else U64_MAX
  }

  function Min(a: nat, b: nat): nat {
    if a <= b then a else b
  }

  function OrZero(v: Option<nat>): nat {
    match v case Some(n) => n case None => 0
  }

  function Pow256(n: nat): (p: nat)
    ensures p >= 1
  {
    if n == 0 then 1 else 256 * Pow256(n - 1)
  }

  function Decode(s: seq<byte>): (v: nat)
    ensures v < Pow256(|s|)
  {
    if s == [] then 0 else s[0] + 256 * Decode(s[1..])
  }

  function Encode(v: nat, n: nat): (s: seq<byte>)
    ensures |s| == n
  {
    if n == 0 then [] else [v % 256] + Encode(v / 256, n - 1)
  }

  lemma {:induction false} DecodeEncode(v: nat, n: nat)
    requires v < Pow256(n)
    ensures Decode(Encode(v, n)) == v
  {
    if n > 0 {
      DecodeEncode(v / 256, n - 1);
      assert Encode(v, n)[1..] == Encode(v / 256, n - 1);
    }
  }

  lemma Widths()
    ensures Pow256(2) == 0x1_0000
    ensures Pow256(4) == 0x1_0000_0000
    ensures Pow256(8) == 0x1_0000_0000_0000_0000
  {
    assert Pow256(1) == 256;
    assert Pow256(2) == 256 * Pow256(1);
    assert Pow256(3) == 256 * Pow256(2);
    assert Pow256(4) == 256 * Pow256(3);
    assert Pow256(5) == 256 * Pow256(4);
    assert Pow256(6) == 256 * Pow256(5);
    assert Pow256(7) == 256 * Pow256(6);
  }

  /** The two's-complement reading of a 32-bit word. */
  function Signed32(v: nat): int
    requires v < 0x1_0000_0000
  {
    if v < 0x8000_0000 then v else v - 0x1_0000_0000
  }

  function Unsigned32(i: int): (v: nat)
    requires -0x8000_0000 <= i < 0x8000_0000
    ensures v < 0x1_0000_0000 && Signed32(v) == i
  {
    if i >= 0 then i else i + 0x1_0000_0000
  }

  function Slice(buf: seq<byte>, at: nat, n: nat): (s: Option<seq<byte>>)
    ensures s.Some? ==> |s.value| == n
  {
    if at + n <= |buf| then Some(buf[at..at + n]) else None
  }

  function ReadLe(buf: seq<byte>, at: nat, n: nat): (v: Option<nat>)
    ensures v.Some? <==> at + n <= |buf|
    ensures v.Some? ==> v.value < Pow256(n)
  {
    match Slice(buf, at, n)
    case None => None
    case Some(s) => Some(Decode(s))
  }

  function ReadU16(buf: seq<byte>, at: nat): (v: Option<nat>)
    ensures v.Some? <==> at + 2 <= |buf|
    ensures v.Some? ==> v.value < 0x1_0000
  {
    Widths();
    ReadLe(buf, at, 2)
  }

  function ReadU32(buf: seq<byte>, at: nat): (v: Option<nat>)
    ensures v.Some? <==> at + 4 <= |buf|
    ensures v.Some? ==> v.value < 0x1_0000_0000
  {
    Widths();
    ReadLe(buf, at, 4)
  }

  function ReadI32(buf: seq<byte>, at: nat): (v: Option<int>)
    ensures v.Some? <==> at + 4 <= |buf|
  {
    match ReadU32(buf, at)
    case None => None
    case Some(v) => Some(Signed32(v))
  }

  function ReadU64(buf: seq<byte>, at: nat): (v: Option<nat>)
    ensures v.Some? <==> at + 8 <= |buf|
    ensures v.Some? ==> v.value <= U64_MAX
  {
    Widths();
    ReadLe(buf, at, 8)
  }

  /** Network byte order, used only for port numbers. */
  function ReadU16Be(buf: seq<byte>, at: nat): (v: Option<nat>)
    ensures v.Some? <==> at + 2 <= |buf|
    ensures v.Some? ==> v.value < 0x1_0000
  {
    if at + 2 <= |buf| then
      var hi: nat := buf[at];
      var lo: nat := buf[at + 1];
      Some(256 * hi + lo)
    else
      None
  }

  function Zeros(n: nat): (s: seq<byte>)
    ensures |s| == n && forall i :: 0 <= i < n ==> s[i] == 0
  {
    seq(n, i => 0)
  }

  function Put(buf: seq<byte>, at: nat, bytes: seq<byte>): (r: seq<byte>)
    requires at + |bytes| <= |buf|
    ensures |r| == |buf|
    ensures r[at..at + |bytes|] == bytes
  {
    buf[..at] + bytes + buf[at + |bytes|..]
  }

  /** A read of the bytes just written gives the value written. */
  lemma ReadBack(buf: seq<byte>, at: nat, v: nat, n: nat)
    requires at + n <= |buf| && v < Pow256(n)
    requires buf[at..at + n] == Encode(v, n)
    ensures ReadLe(buf, at, n) == Some(v)
  {
    DecodeEncode(v, n);
  }

  /** Bytes of a part, found at the part's place in the whole. */
  lemma PartOf(whole: seq<byte>, at: nat, part: seq<byte>, i: nat, n: nat)
    requires at + |part| <= |whole| && whole[at..at + |part|] == part
    requires i + n <= |part|
    ensures whole[at + i..at + i + n] == part[i..i + n]
    ensures ReadLe(whole, at + i, n) == ReadLe(part, i, n)
  {
    var found, sought := whole[at + i..at + i + n], part[i..i + n];
    forall k | 0 <= k < n ensures found[k] == sought[k] {
      assert whole[at..at + |part|][i + k] == whole[at + i + k];
    }
    assert found == sought;
  }

  // ---------------------------------------------------------------- framed pieces

  /** Some bytes, and the padding after them. */
  datatype Padded = Padded(data: seq<byte>, pad: seq<byte>)

  /** Pieces laid end to end. */
  function Lay(rs: seq<Padded>): seq<byte> {
    if rs == [] then [] else (rs[0].data + rs[0].pad) + Lay(rs[1..])
  }

  function Datas(rs: seq<Padded>): (ds: seq<seq<byte>>)
    ensures |ds| == |rs| && forall i :: 0 <= i < |rs| ==> ds[i] == rs[i].data
  {
    seq(|rs|, i requires 0 <= i < |rs| => rs[i].data)
  }

  /** Fields are read lowest byte first, and a 32-bit one with its highest bit set is negative
      where it is read as signed. */
  lemma {:induction false} FieldsMean(buf: seq<byte>, at: nat)
    ensures at + 2 <= |buf| ==> ReadU16(buf, at) == Some(Int(buf[at]) + 0x100 * Int(buf[at + 1]))
    ensures at + 4 <= |buf| ==>
              var v := Int(buf[at]) + 0x100 * Int(buf[at + 1]) + 0x1_0000 * Int(buf[at + 2])
                       + 0x100_0000 * Int(buf[at + 3]);
              && ReadU32(buf, at) == Some(v)
              && ReadI32(buf, at) == Some(if buf[at + 3] >= 128 then v - 0x1_0000_0000 else v)
    ensures at + 8 <= |buf| ==>
              ReadU64(buf, at) == Some(ReadU32(buf, at).value + 0x1_0000_0000 * ReadU32(buf, at + 4).value)
  {
    if at + 2 <= |buf| { TwoBytes(buf[at..at + 2]); }
    if at + 4 <= |buf| { FirstFour(buf[at..at + 4]); }
    if at + 8 <= |buf| {
      var s := buf[at..at + 8];
      FirstFour(s);
      assert s[4..] == buf[at + 4..at + 8];
    }
  }

  function Int(b: byte): nat {
    b
  }

  lemma TwoBytes(s: seq<byte>)
    requires |s| == 2
    ensures Decode(s) == Int(s[0]) + 0x100 * Int(s[1])
  {
    assert s[1..][1..] == [] && s[1..][0] == s[1];
  }

  lemma FirstFour(s: seq<byte>)
    requires |s| >= 4
    ensures Decode(s)
         == Int(s[0]) + 0x100 * Int(s[1]) + 0x1_0000 * Int(s[2]) + 0x100_0000 * Int(s[3])
            + 0x1_0000_0000 * Decode(s[4..])
    ensures Decode(s[4..]) == 0 || |s| > 4
  {
    assert s[1..][1..] == s[2..] && s[2..][1..] == s[3..] && s[3..][1..] == s[4..];
    assert Decode(s[1..]) == Int(s[1]) + 0x100 * Decode(s[2..]);
    assert Decode(s[2..]) == Int(s[2]) + 0x100 * Decode(s[3..]);
    assert Decode(s[3..]) == Int(s[3]) + 0x100 * Decode(s[4..]);
  }
}
