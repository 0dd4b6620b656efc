/** Byte sizes and durations as people write them, and back. */
module Config {
  import opened Bytes

  datatype ParseError = Empty | BadNumber | BadUnit | OutOfRange

  // ---------------------------------------------------------------- decimal digits

  predicate IsDigit(c: char) {
    '0' <= c <= '9'
  }

  predicate AllDigits(s: string) {
    forall i :: 0 <= i < |s| ==> IsDigit(s[i])
  }

  function DigitOf(c: char): nat
    requires IsDigit(c)
  {
    c as int - '0' as int
  }

  /** The number that digits spell. */
  function ValueOf(s: string): nat
    requires AllDigits(s)
  {
    if s == [] then 0 else 10 * ValueOf(s[..|s| - 1]) + DigitOf(s[|s| - 1])
  }

  function Decimal(n: nat): (s: string)
    ensures AllDigits(s) && s != []
  {
    (if n < 10 then [] else Decimal(n / 10)) + [('0' as int + n % 10) as char]
  }

  lemma {:induction false} ValueOfDecimal(n: nat)
    ensures ValueOf(Decimal(n)) == n
  {
    var s := Decimal(n);
    if n < 10 {
      assert s[..|s| - 1] == [];
    } else {
      assert s[..|s| - 1] == Decimal(n / 10);
      ValueOfDecimal(n / 10);
    }
  }

  /** No digit is wasted: a printed number starts with zero only if it is zero. */
  lemma {:induction false} DecimalIsShortest(n: nat)
    ensures Decimal(n)[0] == '0' <==> n == 0
  {
    if n >= 10 { DecimalIsShortest(n / 10); }
  }

  /** An unsigned 64-bit integer from digits alone. */
  function ParseU64(s: string): Option<nat>
    requires AllDigits(s)
  {
    if s == [] || ValueOf(s) > U64_MAX then None else Some(ValueOf(s))
  }

  // ---------------------------------------------------------------- white space and case

  predicate IsSpace(c: char) {
    || '\t' <= c <= '\r' || c == ' ' || c == '\U{85}' || c == '\U{A0}' || c == '\U{1680}'
    || '\U{2000}' <= c <= '\U{200A}' || c == '\U{2028}' || c == '\U{2029}' || c == '\U{202F}'
    || c == '\U{205F}' || c == '\U{3000}'
  }

  predicate AllSpace(s: string) {
    forall i :: 0 <= i < |s| ==> IsSpace(s[i])
  }

  function TrimStart(s: string): string {
    if s != [] && IsSpace(s[0]) then TrimStart(s[1..]) else s
  }

  function TrimEnd(s: string): string {
    if s != [] && IsSpace(s[|s| - 1]) then TrimEnd(s[..|s| - 1]) else s
  }

  function Trim(s: string): string {
    TrimEnd(TrimStart(s))
  }

  /** Neither end is white space. */
  predicate Tight(s: string) {
    s != [] ==> !IsSpace(s[0]) && !IsSpace(s[|s| - 1])
  }

  lemma {:induction false} TrimStartDrops(a: string, s: string)
    requires AllSpace(a)
    ensures TrimStart(a + s) == TrimStart(s)
  {
    if a == [] {
      assert a + s == s;
    } else {
      assert (a + s)[1..] == a[1..] + s;
      TrimStartDrops(a[1..], s);
    }
  }

  lemma {:induction false} TrimEndDrops(s: string, b: string)
    requires AllSpace(b)
    ensures TrimEnd(s + b) == TrimEnd(s)
  {
    if b == [] {
      assert s + b == s;
    } else {
      assert (s + b)[..|s + b| - 1] == s + b[..|b| - 1];
      TrimEndDrops(s, b[..|b| - 1]);
    }
  }

  lemma {:induction false} TrimStartSplits(s: string) returns (a: string)
    ensures AllSpace(a) && s == a + TrimStart(s)
    ensures TrimStart(s) != [] ==> !IsSpace(TrimStart(s)[0])
  {
    a := [];
    if s != [] && IsSpace(s[0]) {
      var rest := TrimStartSplits(s[1..]);
      a := [s[0]] + rest;
    }
  }

  lemma {:induction false} TrimEndSplits(s: string) returns (b: string)
    ensures AllSpace(b) && s == TrimEnd(s) + b
    ensures TrimEnd(s) != [] ==> !IsSpace(TrimEnd(s)[|TrimEnd(s)| - 1])
  {
    b := [];
    if s != [] && IsSpace(s[|s| - 1]) {
      var rest := TrimEndSplits(s[..|s| - 1]);
      b := rest + [s[|s| - 1]];
    }
  }

  /** `Trim(s)` is the text of `s` between white space, and starts and ends with none. */
  lemma TrimSplits(s: string) returns (a: string, b: string)
    ensures AllSpace(a) && AllSpace(b) && s == a + Trim(s) + b && Tight(Trim(s))
  {
    a := TrimStartSplits(s);
    b := TrimEndSplits(TrimStart(s));
    hide TrimStart, TrimEnd;
    var t := TrimStart(s);
    assert Trim(s) != [] ==> Trim(s)[0] == t[0];
  }

  /** And it is the only such text. */
  lemma {:induction false} TrimOnly(a: string, s: string, b: string)
    requires AllSpace(a) && AllSpace(b) && Tight(s)
    ensures Trim(a + s + b) == s
  {
    assert a + s + b == a + (s + b);
    TrimStartDrops(a, s + b);
    if s == [] {
      assert s + b == b;
      TrimStartDrops(b, []);
      assert b + [] == b;
    } else {
      assert TrimStart(s + b) == s + b;
      TrimEndDrops(s, b);
    }
  }

  function LowerChar(c: char): char {
    if 'A' <= c <= 'Z' then (c as int + 32) as char else c
  }

  function LowerAll(s: string): (t: string)
    ensures |t| == |s| && forall i :: 0 <= i < |t| ==> t[i] == LowerChar(s[i])
  {
    seq(|s|, i requires 0 <= i < |s| => LowerChar(s[i]))
  }

  lemma LowerCharFacts(c: char)
    ensures IsDigit(LowerChar(c)) <==> IsDigit(c)
    ensures IsSpace(LowerChar(c)) <==> IsSpace(c)
    ensures IsDigit(c) || IsSpace(c) ==> LowerChar(c) == c
    ensures LowerChar(LowerChar(c)) == LowerChar(c)
  {
  }

  // ---------------------------------------------------------------- numbers with units

  /** How many digits a text starts with. */
  function DigitCount(s: string): (n: nat)
    ensures n <= |s| && AllDigits(s[..n]) && (n < |s| ==> !IsDigit(s[n]))
  {
    if s == [] || !IsDigit(s[0]) then 0
    else
      var n := DigitCount(s[1..]);
      assert s[..n + 1] == [s[0]] + s[1..][..n];
      n + 1
  }

  lemma {:induction false} DigitCountOnly(d: string, w: string)
    requires AllDigits(d) && (w != [] ==> !IsDigit(w[0]))
    ensures DigitCount(d + w) == |d|
  {
    if d == [] {
      assert d + w == w;
    } else {
      assert (d + w)[1..] == d[1..] + w && (d + w)[0] == d[0];
      DigitCountOnly(d[1..], w);
    }
  }

  /** A text as its leading digits and what follows them. */
  function Split(v: string): (r: (string, string))
    ensures v == r.0 + r.1 && AllDigits(r.0) && (r.1 != [] ==> !IsDigit(r.1[0]))
  {
    (v[..DigitCount(v)], v[DigitCount(v)..])
  }

  const KIB := 1024
  const MIB := 1_048_576
  const GIB := 1_073_741_824
  const TIB := 1_099_511_627_776

  function SizeFactor(unit: string): Option<nat> {
    if unit == "b" then Some(1)
    else if unit == "k" || unit == "kib" then Some(KIB)
    else if unit == "m" || unit == "mib" then Some(MIB)
    else if unit == "g" || unit == "gib" then Some(GIB)
    else if unit == "t" || unit == "tib" then Some(TIB)
    else if unit == "kb" then Some(1_000)
    else if unit == "mb" then Some(1_000_000)
    else if unit == "gb" then Some(1_000_000_000)
    else if unit == "tb" then Some(1_000_000_000_000)
    else None
  }

  /** The number and the unit of a text; the unit is empty if there is none. */
  function Parts(value: string): Result<(nat, string), ParseError> {
    var v := Trim(value);
    if v == [] then Err(Empty)
    else
      var (number, unit) := Split(v);
      match ParseU64(number) case None => Err(BadNumber) case Some(n) => Ok((n, Trim(unit)))
  }

  /** `value` is digits, and perhaps a unit, with white space around and between. */
  predicate Reads(value: string, a: string, d: string, s: string, u: string, b: string) {
    && value == a + d + s + u + b
    && AllSpace(a) && AllSpace(s) && AllSpace(b)
    && AllDigits(d) && d != [] && ValueOf(d) <= U64_MAX
    && Tight(u) && (u == [] ==> s == []) && (u != [] && s == [] ==> !IsDigit(u[0]))
  }

  lemma PartsRead(value: string, a: string, d: string, s: string, u: string, b: string)
    requires Reads(value, a, d, s, u, b)
    ensures Parts(value) == Ok((ValueOf(d), u))
  {
    hide Trim, ValueOf;
    var v := d + s + u;
    assert value == a + v + b;
    assert IsDigit(d[0]) && IsDigit(d[|d| - 1]);
    assert v[0] == d[0] && v[|v| - 1] == if u == [] then d[|d| - 1] else u[|u| - 1];
    TrimOnly(a, v, b);
    var w := s + u;
    assert w != [] ==> w[0] == if s == [] then u[0] else s[0];
    assert v == d + w;
    DigitCountOnly(d, w);
    assert v[..|d|] == d && v[|d|..] == w;
    assert w == s + u + [];
    TrimOnly(s, u, []);
  }

  lemma PartsOnlyRead(value: string) returns (a: string, d: string, s: string, b: string)
    requires Parts(value).Ok?
    ensures Reads(value, a, d, s, Parts(value).value.1, b) && ValueOf(d) == Parts(value).value.0
  {
    a, b := TrimSplits(value);
    var v := Trim(value);
    var (number, unit) := Split(v);
    d := number;
    s := TrimStartSplits(unit);
    hide Trim, TrimStart, TrimEnd, ValueOf, Split;
    assert unit != [] ==> v[|v| - 1] == unit[|unit| - 1];
    EndKept(unit);
    var u := TrimStart(unit);
    assert u != [] && s == [] ==> unit[0] == u[0];
    assert value == a + d + s + u + b;
  }

  /** A text that does not end in white space is only trimmed at the start. */
  lemma {:induction false} EndKept(s: string)
    requires s != [] ==> !IsSpace(s[|s| - 1])
    ensures Trim(s) == TrimStart(s) && (s != [] ==> Trim(s) != [] && Trim(s)[|Trim(s)| - 1] == s[|s| - 1])
  {
    if s != [] && IsSpace(s[0]) {
      EndKept(s[1..]);
    }
  }

  /** A bare number, or a number times its unit, as long as it fits. */
  function ParseSize(value: string): Result<nat, ParseError> {
    match Parts(value)
    case Err(e) => Err(e)
    case Ok((n, unit)) =>
      if unit == [] then Ok(n)
      else
        match SizeFactor(LowerAll(unit))
        case None => Err(BadUnit)
        case Some(factor) => if n * factor > U64_MAX then Err(OutOfRange) else Ok(n * factor)
  }

  /** The exact number of bytes a text that reads as `d` and `u` stands for, whether or not it
      fits. */
  function SizeOf(d: string, u: string): Option<nat>
    requires AllDigits(d)
  {
    if u == [] then Some(ValueOf(d))
    else match SizeFactor(LowerAll(u)) case None => None case Some(factor) => Some(ValueOf(d) * factor)
  }

  /** A text that reads as a number and a unit is that many bytes exactly when they fit, out of
      range exactly when they do not, and refused exactly when the unit is unknown. */
  lemma SizeMeans(value: string, a: string, d: string, s: string, u: string, b: string)
    requires Reads(value, a, d, s, u, b)
    ensures SizeOf(d, u).Some? ==>
              && (ParseSize(value) == Ok(SizeOf(d, u).value) <==> SizeOf(d, u).value <= U64_MAX)
              && (ParseSize(value) == Err(OutOfRange) <==> SizeOf(d, u).value > U64_MAX)
    ensures SizeOf(d, u).None? <==> ParseSize(value) == Err(BadUnit)
  {
    PartsRead(value, a, d, s, u, b);
    hide Parts, ValueOf, LowerAll, SizeFactor;
  }

  /** And only such texts are sizes: over all texts, `n` is what is read exactly when the text is
      digits and perhaps a known unit that come to `n`, and `n` fits. */
  lemma SizeReadIff(value: string, n: nat)
    ensures ParseSize(value) == Ok(n)
       <==> n <= U64_MAX
            && exists a, d, s, u, b :: Reads(value, a, d, s, u, b) && SizeOf(d, u) == Some(n)
  {
    if ParseSize(value) == Ok(n) {
      var a, d, s, b := PartsOnlyRead(value);
      var u := Parts(value).value.1;
      hide Parts, Reads, ValueOf, LowerAll, SizeFactor;
      assert Reads(value, a, d, s, u, b) && SizeOf(d, u) == Some(n);
    }
    if n <= U64_MAX {
      forall a, d, s, u, b | Reads(value, a, d, s, u, b) && SizeOf(d, u) == Some(n) ensures ParseSize(value) == Ok(n) {
        SizeMeans(value, a, d, s, u, b);
      }
    }
  }

  const SIZE_UNITS := [(TIB, "TiB"), (GIB, "GiB"), (MIB, "MiB"), (KIB, "KiB")]

  /** The first entry of the table that divides the value exactly, else plain bytes. */
  function FormatFrom(table: seq<(nat, string)>, bytes: nat): string {
    if table == [] then Decimal(bytes) + "B"
    else
      var (factor, unit) := table[0];
      if bytes >= factor > 0 && bytes % factor == 0 then Decimal(bytes / factor) + unit
      else FormatFrom(table[1..], bytes)
  }

  function FormatSize(bytes: nat): string {
    FormatFrom(SIZE_UNITS, bytes)
  }

  /** A value printed in a unit. */
  predicate Prints(s: string, n: nat, factor: nat, unit: string) {
    && factor > 0 && n % factor == 0 && s == Decimal(n / factor) + unit
    && unit != [] && Tight(unit) && !IsDigit(unit[0])
  }

  predicate SizeUnit(factor: nat, unit: string) {
    || (factor == TIB && unit == "TiB") || (factor == GIB && unit == "GiB") || (factor == MIB && unit == "MiB")
    || (factor == KIB && unit == "KiB") || (factor == 1 && unit == "B")
  }

  lemma FormatUnfolds(bytes: nat)
    ensures FormatSize(bytes) ==
              if bytes > 0 && bytes % TIB == 0 then Decimal(bytes / TIB) + "TiB"
              else if bytes > 0 && bytes % GIB == 0 then Decimal(bytes / GIB) + "GiB"
              else if bytes > 0 && bytes % MIB == 0 then Decimal(bytes / MIB) + "MiB"
              else if bytes > 0 && bytes % KIB == 0 then Decimal(bytes / KIB) + "KiB"
              else Decimal(bytes) + "B"
  {
    hide Decimal, FormatFrom;
    var t := SIZE_UNITS;
    FormatStep(t, bytes);
    assert t[1..] == [(GIB, "GiB"), (MIB, "MiB"), (KIB, "KiB")];
    FormatStep(t[1..], bytes);
    assert t[1..][1..] == [(MIB, "MiB"), (KIB, "KiB")];
    FormatStep(t[1..][1..], bytes);
    assert t[1..][1..][1..] == [(KIB, "KiB")];
    FormatStep(t[1..][1..][1..], bytes);
    assert t[1..][1..][1..][1..] == [];
    FormatStep([], bytes);
    NotBelow(bytes, TIB);
    NotBelow(bytes, GIB);
    NotBelow(bytes, MIB);
    NotBelow(bytes, KIB);
  }

  lemma FormatStep(table: seq<(nat, string)>, bytes: nat)
    ensures FormatFrom([], bytes) == Decimal(bytes) + "B"
    ensures table != [] && table[0].0 > 0 ==>
              FormatFrom(table, bytes) ==
                if bytes >= table[0].0 && bytes % table[0].0 == 0 then Decimal(bytes / table[0].0) + table[0].1
                else FormatFrom(table[1..], bytes)
  {
  }

  lemma NotBelow(n: nat, factor: nat)
    requires factor > 0
    ensures n > 0 && n % factor == 0 ==> n >= factor
  {
  }

  /** The printed unit is the largest one that divides the value exactly; zero is `0B`. */
  lemma LargestSizeUnit(bytes: nat) returns (factor: nat, unit: string)
    ensures SizeUnit(factor, unit) && Prints(FormatSize(bytes), bytes, factor, unit)
    ensures bytes == 0 ==> factor == 1
    ensures forall f: nat, u :: SizeUnit(f, u) && bytes > 0 && bytes % f == 0 ==> f <= factor
  {
    FormatUnfolds(bytes);
    hide Decimal, FormatFrom, FormatSize;
    var chosen :=
      if bytes > 0 && bytes % TIB == 0 then (TIB, "TiB")
      else if bytes > 0 && bytes % GIB == 0 then (GIB, "GiB")
      else if bytes > 0 && bytes % MIB == 0 then (MIB, "MiB")
      else if bytes > 0 && bytes % KIB == 0 then (KIB, "KiB")
      else (1, "B");
    factor, unit := chosen.0, chosen.1;
  }

  // ---------------------------------------------------------------- printing and reading back

  lemma DividesExactly(n: nat, factor: nat)
    requires factor > 0 && n % factor == 0
    ensures n / factor * factor == n && n / factor <= n
  {
    var q := n / factor;
    assert n == factor * q;
    AtLeast(factor, q);
  }

  lemma AtLeast(a: nat, q: nat)
    requires a > 0
    ensures q <= a * q == q * a
  {
    assert a * q == (a - 1) * q + q && (a - 1) * q >= 0;
  }

  lemma PrintedParts(s: string, n: nat, factor: nat, unit: string)
    requires Prints(s, n, factor, unit) && n <= U64_MAX
    ensures Parts(s) == Ok((n / factor, unit)) && n / factor * factor == n
  {
    DividesExactly(n, factor);
    PrintedReads(n / factor, unit);
  }

  lemma PrintedReads(k: nat, unit: string)
    requires k <= U64_MAX && unit != [] && Tight(unit) && !IsDigit(unit[0])
    ensures Parts(Decimal(k) + unit) == Ok((k, unit))
  {
    var d := Decimal(k);
    ValueOfDecimal(k);
    hide Parts, Decimal, ValueOf;
    assert d + unit == [] + d + [] + unit + [];
    PartsRead(d + unit, [], d, [], unit, []);
  }

  /** Every size reads back as itself. */
  lemma SizeRoundTrip(bytes: nat)
    requires bytes <= U64_MAX
    ensures ParseSize(FormatSize(bytes)) == Ok(bytes)
  {
    var factor, unit := LargestSizeUnit(bytes);
    PrintedParts(FormatSize(bytes), bytes, factor, unit);
    SizeUnitFactor(factor, unit);
    hide FormatSize, Parts, SizeFactor, LowerAll;
  }

  lemma SizeUnitFactor(factor: nat, unit: string)
    requires SizeUnit(factor, unit)
    ensures SizeFactor(LowerAll(unit)) == Some(factor)
  {
    assert LowerAll("TiB") == "tib" && LowerAll("GiB") == "gib" && LowerAll("MiB") == "mib";
    assert LowerAll("KiB") == "kib" && LowerAll("B") == "b";
  }

  /** White space around a size means nothing. */
  lemma SpaceAround(a: string, value: string, b: string)
    requires AllSpace(a) && AllSpace(b)
    ensures Trim(a + value + b) == Trim(value) && ParseSize(a + value + b) == ParseSize(value)
  {
    var a', b' := TrimSplits(value);
    var v := Trim(value);
    hide Trim;
    assert a + value + b == (a + a') + v + (b' + b);
    TrimOnly(a + a', v, b' + b);
  }

  /** Nor does the case of its letters. */
  lemma CaseIgnored(value: string)
    ensures ParseSize(LowerAll(value)) == ParseSize(value)
  {
    LowerTrims(value);
    var v := Trim(value);
    var (number, unit) := Split(v);
    hide Trim, SizeFactor, ValueOf;
    LowerDigits(number);
    forall c: char ensures IsDigit(LowerChar(c)) <==> IsDigit(c) { LowerCharFacts(c); }
    assert LowerAll(v) == number + LowerAll(unit);
    DigitCountOnly(number, LowerAll(unit));
    assert Split(LowerAll(v)) == (number, LowerAll(unit));
    LowerTrims(unit);
    LowerTwice(Trim(unit));
    assert LowerAll(v) == [] <==> v == [];
    assert LowerAll(Trim(unit)) == [] <==> Trim(unit) == [];
  }

  lemma LowerDigits(s: string)
    requires AllDigits(s)
    ensures LowerAll(s) == s
  {
    forall i | 0 <= i < |s| ensures LowerChar(s[i]) == s[i] { LowerCharFacts(s[i]); }
  }

  lemma LowerTwice(s: string)
    ensures LowerAll(LowerAll(s)) == LowerAll(s)
  {
    forall i | 0 <= i < |s| ensures LowerChar(LowerChar(s[i])) == LowerChar(s[i]) { LowerCharFacts(s[i]); }
  }

  lemma LowerTrims(s: string)
    ensures Trim(LowerAll(s)) == LowerAll(Trim(s))
  {
    var a, b := TrimSplits(s);
    var t := Trim(s);
    hide Trim;
    forall c: char ensures IsSpace(LowerChar(c)) <==> IsSpace(c) { LowerCharFacts(c); }
    assert LowerAll(s) == LowerAll(a) + LowerAll(t) + LowerAll(b);
    hide IsSpace;
    TrimOnly(LowerAll(a), LowerAll(t), LowerAll(b));
  }

  // ---------------------------------------------------------------- durations

  const MILLI := 1_000_000
  const U64_RANGE := U64_MAX + 1

  /** `Overflows`: the multiplication by the unit does not fit in 64 bits, which the code does
      not check for. */
  datatype DurationResult = Parsed(nanos: nat) | Refused(error: ParseError) | Overflows

  function DurationFactor(unit: string): Option<nat> {
    if unit == "ms" then Some(1)
    else if unit == "s" then Some(1_000)
    else if unit == "m" then Some(60_000)
    else if unit == "h" then Some(3_600_000)
    else None
  }

  function ParseDuration(value: string): DurationResult {
    match Parts(value)
    case Err(e) => Refused(e)
    case Ok((n, unit)) =>
      if unit == [] then Parsed(n * MILLI)
      else
        match DurationFactor(unit)
        case None => Refused(BadUnit)
        case Some(factor) => if n * factor > U64_MAX then Overflows else Parsed(n * factor * MILLI)
  }

  /** The exact number of milliseconds a text that reads as `d` and `u` stands for. */
  function MillisOf(d: string, u: string): Option<nat>
    requires AllDigits(d)
  {
    if u == [] then Some(ValueOf(d))
    else match DurationFactor(u) case None => None case Some(factor) => Some(ValueOf(d) * factor)
  }

  /** A text that reads as a number and a unit is that long exactly when its milliseconds fit in
      64 bits, overflows exactly when they do not, and is refused exactly when the unit is
      unknown. */
  lemma DurationMeans(value: string, a: string, d: string, s: string, u: string, b: string)
    requires Reads(value, a, d, s, u, b)
    ensures MillisOf(d, u).Some? ==>
              && (ParseDuration(value) == Parsed(MillisOf(d, u).value * MILLI) <==> MillisOf(d, u).value <= U64_MAX)
              && (ParseDuration(value) == Overflows <==> MillisOf(d, u).value > U64_MAX)
    ensures MillisOf(d, u).None? <==> ParseDuration(value) == Refused(BadUnit)
  {
    PartsRead(value, a, d, s, u, b);
    hide Parts, ValueOf, DurationFactor;
  }

  /** Over all texts: the product overflows exactly for digits that fit in 64 bits with a unit
      that takes them past it. */
  lemma OverflowsIff(value: string)
    ensures ParseDuration(value) == Overflows
       <==> exists a, d, s, u, b ::
              Reads(value, a, d, s, u, b) && DurationFactor(u).Some? && ValueOf(d) * DurationFactor(u).value > U64_MAX
  {
    if ParseDuration(value) == Overflows {
      var a, d, s, b := PartsOnlyRead(value);
      var u := Parts(value).value.1;
      hide Parts, Reads, ValueOf;
      assert Reads(value, a, d, s, u, b) && DurationFactor(u).Some?;
    }
    forall a, d, s, u, b
      | Reads(value, a, d, s, u, b) && DurationFactor(u).Some? && ValueOf(d) * DurationFactor(u).value > U64_MAX
      ensures ParseDuration(value) == Overflows
    {
      assert DurationFactor([]) == None;
      DurationMeans(value, a, d, s, u, b);
    }
  }

  /** So of all numbers of hours that are read, exactly those from 5124095576031 on overflow. */
  lemma {:induction false} HoursOverflow(k: nat)
    requires k <= U64_MAX
    ensures ParseDuration(Decimal(k) + "h") == Overflows <==> k >= 5_124_095_576_031
  {
    hide Parts, Decimal;
    PrintedReads(k, "h");
    assert DurationFactor("h") == Some(3_600_000);
    hide DurationFactor;
    assert k * 3_600_000 > U64_MAX <==> k >= 5_124_095_576_031;
  }

  /** Milliseconds as an unsigned 64-bit integer: the count is truncated to fit. */
  function Millis(nanos: nat): nat {
    nanos / MILLI % U64_RANGE
  }

  function FormatDuration(nanos: nat): string {
    var ms := Millis(nanos);
    if ms == 0 then "0s"
    else if ms % 3_600_000 == 0 then Decimal(ms / 3_600_000) + "h"
    else if ms % 60_000 == 0 then Decimal(ms / 60_000) + "m"
    else if ms % 1_000 == 0 then Decimal(ms / 1_000) + "s"
    else Decimal(ms) + "ms"
  }

  /** The printed unit is the largest one that divides the milliseconds exactly. */
  lemma LargestDurationUnit(nanos: nat) returns (factor: nat, unit: string)
    ensures DurationFactor(unit) == Some(factor) && Prints(FormatDuration(nanos), Millis(nanos), factor, unit)
    ensures forall u :: DurationFactor(u).Some? && Millis(nanos) > 0 && Millis(nanos) % DurationFactor(u).value == 0 ==>
              DurationFactor(u).value <= factor
  {
    var ms := Millis(nanos);
    assert Decimal(0) == "0";
    hide Decimal, Millis;
    var chosen :=
      if ms == 0 then (1_000, "s")
      else if ms % 3_600_000 == 0 then (3_600_000, "h")
      else if ms % 60_000 == 0 then (60_000, "m")
      else if ms % 1_000 == 0 then (1_000, "s")
      else (1, "ms");
    factor, unit := chosen.0, chosen.1;
    assert ms == 0 ==> Decimal(ms / factor) == "0";
  }

  /** What is printed always reads back as the milliseconds that were printed. */
  lemma DurationReadsBack(nanos: nat)
    ensures ParseDuration(FormatDuration(nanos)) == Parsed(Millis(nanos) * MILLI)
  {
    var factor, unit := LargestDurationUnit(nanos);
    PrintedParts(FormatDuration(nanos), Millis(nanos), factor, unit);
    hide FormatDuration, Parts, DurationFactor, Millis;
  }

  /** So a duration survives exactly when it is a whole number of milliseconds that fits. */
  lemma DurationRoundTrip(nanos: nat)
    ensures ParseDuration(FormatDuration(nanos)) == Parsed(nanos)
       <==> nanos % MILLI == 0 && nanos / MILLI <= U64_MAX
  {
    DurationReadsBack(nanos);
    hide ParseDuration, FormatDuration;
    var ms := nanos / MILLI;
    assert nanos == ms * MILLI + nanos % MILLI;
    assert ms % U64_RANGE == ms <==> ms <= U64_MAX;
  }

  // ---------------------------------------------------------------- every unit, spelt out

  /** The units of a size, in lower case, and what each stands for. */
  predicate SpeltSize(unit: string, factor: nat) {
    || (unit == "b" && factor == 1)
    || (unit in {"k", "kib"} && factor == 1024) || (unit == "kb" && factor == 1000)
    || (unit in {"m", "mib"} && factor == 1024 * 1024) || (unit == "mb" && factor == 1000 * 1000)
    || (unit in {"g", "gib"} && factor == 1024 * 1024 * 1024) || (unit == "gb" && factor == 1000 * 1000 * 1000)
    || (unit in {"t", "tib"} && factor == 1024 * 1024 * 1024 * 1024)
    || (unit == "tb" && factor == 1000 * 1000 * 1000 * 1000)
  }

  lemma SpeltIsFactor(unit: string, factor: nat)
    requires SpeltSize(unit, factor)
    ensures unit != [] && Tight(unit) && !IsDigit(unit[0])
    ensures SizeFactor(LowerAll(unit)) == Some(factor)
  {
    assert LowerAll(unit) == unit;
  }

  /** A number with a unit after it is that many of them, as long as that fits in 64 bits. */
  lemma {:induction false} SizesSpelt(k: nat, unit: string, factor: nat)
    requires k <= U64_MAX && SpeltSize(unit, factor)
    ensures ParseSize(Decimal(k) + unit) == if k * factor <= U64_MAX then Ok(k * factor) else Err(OutOfRange)
  {
    hide Parts, Decimal, SizeFactor, SpeltSize, LowerAll;
    SpeltIsFactor(unit, factor);
    PrintedReads(k, unit);
  }

  /** The units of a duration, and the milliseconds each stands for. */
  predicate SpeltDuration(unit: string, millis: nat) {
    || (unit == "ms" && millis == 1) || (unit == "s" && millis == 1000)
    || (unit == "m" && millis == 60 * 1000) || (unit == "h" && millis == 60 * 60 * 1000)
  }

  lemma SpeltIsDuration(unit: string, millis: nat)
    requires SpeltDuration(unit, millis)
    ensures unit != [] && Tight(unit) && !IsDigit(unit[0])
    ensures DurationFactor(unit) == Some(millis)
  {
  }

  /** A number with a unit after it is that long, a millisecond being a million nanoseconds. */
  lemma {:induction false} DurationsSpelt(k: nat, unit: string, millis: nat)
    requires k <= U64_MAX && SpeltDuration(unit, millis)
    ensures ParseDuration(Decimal(k) + unit)
         == if k * millis <= U64_MAX then Parsed(k * millis * 1_000_000) else Overflows
  {
    hide Parts, Decimal, DurationFactor, SpeltDuration;
    SpeltIsDuration(unit, millis);
    PrintedReads(k, unit);
  }

  /** A unit that is none of these is refused. */
  lemma {:induction false} OtherUnits(k: nat, unit: string)
    requires k <= U64_MAX && unit != [] && Tight(unit) && !IsDigit(unit[0])
    ensures (forall f: nat :: !SpeltSize(LowerAll(unit), f)) ==> ParseSize(Decimal(k) + unit) == Err(BadUnit)
    ensures (forall f: nat :: !SpeltDuration(unit, f)) ==> ParseDuration(Decimal(k) + unit) == Refused(BadUnit)
  {
    hide Parts, Decimal, LowerAll;
    PrintedReads(k, unit);
    if SizeFactor(LowerAll(unit)).Some? { assert SpeltSize(LowerAll(unit), SizeFactor(LowerAll(unit)).value); }
    if DurationFactor(unit).Some? { assert SpeltDuration(unit, DurationFactor(unit).value); }
  }

  // ---------------------------------------------------------------- white space, and what is refused

  /** White space is the characters that Unicode calls so, and no others. */
  lemma SpacesMean(c: char)
    ensures IsSpace(c) <==>
              c as int in {9, 10, 11, 12, 13, 32, 0x85, 0xA0, 0x1680, 0x2000, 0x2001, 0x2002, 0x2003, 0x2004, 0x2005,
                           0x2006, 0x2007, 0x2008, 0x2009, 0x200A, 0x2028, 0x2029, 0x202F, 0x205F, 0x3000}
  {
  }

  /** A text of white space alone is empty, and any other that does not read as a number and a unit
      is a bad number, for sizes and durations alike. */
  lemma {:induction false} RefusedTexts(value: string)
    ensures AllSpace(value) <==> ParseSize(value) == Err(Empty)
    ensures AllSpace(value) <==> ParseDuration(value) == Refused(Empty)
    ensures (!AllSpace(value) && !exists a, d, s, u, b :: Reads(value, a, d, s, u, b))
       <==> ParseSize(value) == Err(BadNumber)
    ensures (!AllSpace(value) && !exists a, d, s, u, b :: Reads(value, a, d, s, u, b))
       <==> ParseDuration(value) == Refused(BadNumber)
  {
    EmptyIffSpace(value);
    PartsIffReads(value);
    PartsRefuse(value);
    hide Parts, Reads, AllSpace, SizeFactor, DurationFactor, LowerAll, Trim;
  }

  lemma {:induction false} PartsIffReads(value: string)
    ensures Parts(value).Ok? <==> exists a, d, s, u, b :: Reads(value, a, d, s, u, b)
  {
    hide Parts, Reads;
    if Parts(value).Ok? {
      var a, d, s, b := PartsOnlyRead(value);
      assert Reads(value, a, d, s, Parts(value).value.1, b);
    }
    forall a, d, s, u, b | Reads(value, a, d, s, u, b) ensures Parts(value).Ok? {
      PartsRead(value, a, d, s, u, b);
    }
  }

  lemma PartsRefuse(value: string)
    ensures Trim(value) == [] ==> Parts(value) == Err(Empty)
    ensures Trim(value) != [] && Parts(value).Err? ==> Parts(value).error == BadNumber
  {
    hide Trim;
  }

  lemma EmptyIffSpace(value: string)
    ensures AllSpace(value) <==> Trim(value) == []
  {
    var a, b := TrimSplits(value);
    if AllSpace(value) { TrimOnly(value, [], []); assert value + [] + [] == value; }
    hide Trim;
    if Trim(value) == [] { assert value == a + b; }
  }

  /** Zero is printed as `0s` and as `0B`. */
  lemma {:induction false} ZerosPrinted()
    ensures FormatDuration(0) == "0s" && FormatSize(0) == "0B"
  {
    ZeroDigit();
    hide Decimal, FormatSize;
    FormatUnfolds(0);
  }

  lemma ZeroDigit()
    ensures Decimal(0) == "0"
  {
  }
}
