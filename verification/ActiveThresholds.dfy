/** The thresholds in force: a base per rule, refined by overrides, and the byte bars that the
    memory rules compare against. */
module ActiveThresholds {
  import opened Bytes
  import opened Matching

  datatype Thresholds = Thresholds(base: Option<real>, overrides: seq<Override>)

  datatype Active = Active(
    cpu: Thresholds, memory: Thresholds, memoryBytes: Option<nat>, disk: Thresholds, pressure: Option<nat>,
    appCpu: Thresholds, appMemory: Thresholds, appMemoryBytes: Option<nat>, cooldown: nat)

  /** The threshold for one name; none when the rule is off for it. */
  function ForProcess(t: Thresholds, name: Name): Option<real> {
    match OverrideFor(t.overrides, name) case Some(value) => value case None => t.base
  }

  predicate AnyEnabled(t: Thresholds) {
    t.base.Some? || exists i :: 0 <= i < |t.overrides| && t.overrides[i].value.Some?
  }

  /** A conversion to an unsigned 64-bit integer, which saturates at both ends. */
  function AsU64(r: real): (n: nat)
    ensures n <= U64_MAX
    ensures 0.0 <= r < (U64_MAX + 1) as real ==> n as real <= r < (n + 1) as real
  {
    if r < 0.0 then 0 else if r >= (U64_MAX + 1) as real then U64_MAX else r.Floor
  }

  function FractionBytes(fraction: real, total: nat): nat {
    AsU64(fraction * total as real)
  }

  function Share(t: Thresholds, total: nat): Option<nat> {
    match t.base case Some(fraction) => Some(FractionBytes(fraction, total)) case None => None
  }

  function Lower(share: Option<nat>, ceiling: Option<nat>): Option<nat> {
    if share.None? then ceiling
    else if ceiling.None? then share
    else Some(if share.value <= ceiling.value then share.value else ceiling.value)
  }

  /** The bar in bytes: an override stands alone; otherwise the lower of share and ceiling. */
  function BarBytes(t: Thresholds, ceiling: Option<nat>, name: Name, total: nat): Option<nat> {
    match OverrideFor(t.overrides, name)
    case Some(Some(fraction)) => Some(FractionBytes(fraction, total))
    case Some(None) => None
    case None => Lower(Share(t, total), ceiling)
  }

  function MemoryBar(a: Active, name: Name, total: nat): Option<nat> {
    BarBytes(a.memory, a.memoryBytes, name, total)
  }

  function MemoryBase(a: Active, total: nat): Option<nat> {
    Lower(Share(a.memory, total), a.memoryBytes)
  }

  function AppMemoryBar(a: Active, name: Name, total: nat): Option<nat> {
    BarBytes(a.appMemory, a.appMemoryBytes, name, total)
  }

  lemma SomeOverride(os: seq<Override>, name: Name)
    requires exists i :: 0 <= i < |os| && Matches(os[i].matcher, name)
    ensures OverrideFor(os, name).Some?
  {
    hide Matches;
    assert Best(os, name).Some?;
  }

  /** An override replaces share and ceiling alike: with the same overrides, no change to the
      defaults moves the bar of a name one of them matches. */
  lemma OverrideReplacesBoth(
      a: Thresholds, b: Thresholds, ceilingA: Option<nat>, ceilingB: Option<nat>, name: Name, total: nat)
    requires a.overrides == b.overrides
    requires exists i :: 0 <= i < |a.overrides| && Matches(a.overrides[i].matcher, name)
    ensures BarBytes(a, ceilingA, name, total) == BarBytes(b, ceilingB, name, total)
    ensures ForProcess(a, name) == ForProcess(b, name)
  {
    SomeOverride(a.overrides, name);
    var override := OverrideFor(a.overrides, name);
    assert override == OverrideFor(b.overrides, name);
    hide Matches, Best, OverrideFor, FractionBytes, Share, Lower;
  }

  /** With no override, a footprint is under the bar exactly when it is under some default. */
  lemma BaseIsLower(a: Active, name: Name, total: nat, held: nat)
    requires forall i :: 0 <= i < |a.memory.overrides| ==> !Matches(a.memory.overrides[i].matcher, name)
    ensures MemoryBar(a, name, total) == MemoryBase(a, total)
    ensures var bar := MemoryBar(a, name, total);
            && (bar.None? <==> a.memory.base.None? && a.memoryBytes.None?)
            && (bar.Some? ==>
                  (held >= bar.value <==>
                    (|| (a.memory.base.Some? && held >= Portion(a.memory.base.value, total))
                     || (a.memoryBytes.Some? && held >= a.memoryBytes.value))))
  {
    assert Best(a.memory.overrides, name).None?;
    hide Portion, FractionBytes;
    if a.memory.base.Some? { FractionIsPortion(a.memory.base.value, total); }
  }

  // ---------------------------------------------------------------- said of the settings alone

  /** The whole bytes of an amount, as far as 64 bits go. */
  function Whole(amount: real): nat {
    if amount < 0.0 then 0 else Min(amount.Floor, 0xFFFF_FFFF_FFFF_FFFF)
  }

  lemma AsU64IsWhole(r: real)
    ensures AsU64(r) == Whole(r)
  {
  }

  /** No entry claims the name. */
  predicate NoneMatches(os: seq<Override>, name: Name) {
    forall i :: 0 <= i < |os| ==> !Matches(os[i].matcher, name)
  }

  lemma BestOrNone(os: seq<Override>, name: Name)
    ensures forall i: nat :: IsBest(os, name, i) ==> OverrideFor(os, name) == Some(os[i].value)
    ensures NoneMatches(os, name) <==> OverrideFor(os, name) == None
    ensures NoneMatches(os, name) <==> !exists i: nat :: IsBest(os, name, i)
  {
    hide Matches;
    forall i: nat | IsBest(os, name, i) ensures OverrideFor(os, name) == Some(os[i].value) {
      BestUnique(os, name, i);
    }
  }

  /** The threshold in force for a name: the value of the best entry that claims it, which may
      switch the rule off, or else the base. */
  lemma ThresholdMeans(t: Thresholds, name: Name)
    ensures forall i: nat :: IsBest(t.overrides, name, i) ==> ForProcess(t, name) == t.overrides[i].value
    ensures NoneMatches(t.overrides, name) ==> ForProcess(t, name) == t.base
  {
    BestOrNone(t.overrides, name);
    hide IsBest, NoneMatches, OverrideFor;
  }

  /** A fraction of all memory in whole bytes. */
  function Portion(fraction: real, total: nat): nat {
    Whole(fraction * total as real)
  }

  lemma FractionIsPortion(fraction: real, total: nat)
    ensures FractionBytes(fraction, total) == Portion(fraction, total)
  {
    AsU64IsWhole(fraction * total as real);
  }

  /** The bar in bytes: the value of the best entry that claims the name as a fraction of all
      memory, in whole bytes, and none if that entry switches the rule off; if no entry claims
      it, the base fraction or the ceiling, whichever is lower. */
  lemma BarMeans(t: Thresholds, ceiling: Option<nat>, name: Name, total: nat)
    ensures forall i: nat :: IsBest(t.overrides, name, i) ==>
              BarBytes(t, ceiling, name, total)
              == match t.overrides[i].value case None => None case Some(f) => Some(Portion(f, total))
    ensures NoneMatches(t.overrides, name) ==>
              BarBytes(t, ceiling, name, total)
              == match t.base
                 case None => ceiling
                 case Some(f) =>
                   Some(if ceiling.Some? then Min(Portion(f, total), ceiling.value) else Portion(f, total))
  {
    BestOrNone(t.overrides, name);
    hide IsBest, NoneMatches, OverrideFor, FractionBytes, Portion;
    if t.base.Some? { FractionIsPortion(t.base.value, total); }
    var override := OverrideFor(t.overrides, name);
    if override.Some? && override.value.Some? { FractionIsPortion(override.value.value, total); }
  }

  /** An amount over a memory bar: it reaches the fraction of the best entry that claims the name,
      or, if none does, the base fraction or the ceiling. */
  predicate OverBar(t: Thresholds, ceiling: Option<nat>, name: Name, total: nat, amount: real) {
    || (exists i :: 0 <= i < |t.overrides| && IsBest(t.overrides, name, i) && t.overrides[i].value.Some?
          && Whole(amount) >= Portion(t.overrides[i].value.value, total))
    || (NoneMatches(t.overrides, name)
        && (|| (t.base.Some? && Whole(amount) >= Portion(t.base.value, total))
            || (ceiling.Some? && Whole(amount) >= ceiling.value)))
  }

  /** There is a bar for the name. */
  predicate HasBar(t: Thresholds, ceiling: Option<nat>, name: Name) {
    || (exists i :: 0 <= i < |t.overrides| && IsBest(t.overrides, name, i) && t.overrides[i].value.Some?)
    || (NoneMatches(t.overrides, name) && (t.base.Some? || ceiling.Some?))
  }

  lemma OverBarMeans(t: Thresholds, ceiling: Option<nat>, name: Name, total: nat, amount: real)
    ensures var bar := BarBytes(t, ceiling, name, total);
            && (bar.Some? <==> HasBar(t, ceiling, name))
            && ((bar.Some? && AsU64(amount) >= bar.value) <==> OverBar(t, ceiling, name, total, amount))
  {
    BestOrNone(t.overrides, name);
    BarMeans(t, ceiling, name, total);
    AsU64IsWhole(amount);
    hide IsBest, NoneMatches, OverrideFor, BarBytes, Whole, AsU64, Portion;
    if !NoneMatches(t.overrides, name) {
      var i: nat :| IsBest(t.overrides, name, i);
      BestInRange(t.overrides, name, i);
    }
  }

  lemma BestInRange(os: seq<Override>, name: Name, i: nat)
    requires IsBest(os, name, i)
    ensures i < |os|
  {
  }

  /** A rule that is off is off for every name: passing it over misses nothing. */
  lemma OffIsOff(t: Thresholds, name: Name)
    requires t.base.None? && forall i :: 0 <= i < |t.overrides| ==> t.overrides[i].value.None?
    ensures ForProcess(t, name) == None
  {
    hide Matches;
  }
}
